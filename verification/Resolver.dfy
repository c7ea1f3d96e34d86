/** The resolver's cache discipline: concurrent lookups, copies of cached messages, stale-while-refresh and
    single-flight fetches, as interleaved steps over an explicit heap of message objects. */
module Resolver {
  import opened Bytes
  import opened LruSpec

  // ----- messages -----

  type Key = Bytes   // the printed question

  datatype Question = Question(name: Bytes, qtype: nat)

  datatype Record = Record(ttl: nat, data: Bytes)

  datatype Msg = Msg(questions: seq<Question>, answer: seq<Record>, ns: seq<Record>, extra: seq<Record>)

  const TYPE_TXT: nat := 16
  const ACME: Bytes := [95, 97, 99, 109, 101, 45, 99, 104, 97, 108, 108, 101, 110, 103, 101]   // _acme-challenge

  const SEC: nat := 1_000_000_000

  /** The TTL `putMsgToCache` goes by: the first record of the first non-empty section. */
  function FirstTtl(m: Msg): Option<nat> {
    if m.answer != [] then Some(m.answer[0].ttl)
    else if m.ns != [] then Some(m.ns[0].ttl)
    else if m.extra != [] then Some(m.extra[0].ttl)
    else None
  }

  predicate Cacheable(m: Msg) {
    && !(m.questions != [] && m.questions[0].qtype == TYPE_TXT && ACME <= m.questions[0].name)
    && FirstTtl(m).Some?
  }

  function WithTtl(rs: seq<Record>, ttl: nat): (r: seq<Record>)
    ensures |r| == |rs|
  {
    seq(|rs|, i requires 0 <= i < |rs| => rs[i].(ttl := ttl))
  }

  /** `setMsgTTL`: one TTL for every record of all three sections. */
  function SetTtl(m: Msg, ttl: nat): Msg {
    m.(answer := WithTtl(m.answer, ttl), ns := WithTtl(m.ns, ttl), extra := WithTtl(m.extra, ttl))
  }

  /** The expiry stored with a message: `now.Add(ttl seconds)`, rounded down to whole seconds. */
  function Expiry(at: nat, ttl: nat): nat {
    (at + ttl * SEC) / SEC
  }

  predicate Stale(expires: int, now: nat) {
    expires * SEC < now
  }

  /** The TTL given to a hit: 1 when stale, otherwise the whole seconds left. */
  function HitTtl(expires: int, now: nat): nat {
    if Stale(expires, now) then 1 else (expires * SEC - now) / SEC
  }

  // ----- state -----

  type Id = nat

  /** Who may use a message object. */
  datatype Role = Cached(key: Key, at: nat) | Caller(cid: nat) | InFlight(fid: nat)

  datatype Pc =
    | Asking
    | Missing                           // no usable entry, or a background refresh
    | Holding(id: Id, expires: int)     // a hit: the object in the cache, not copied yet
    | Copied(own: Id, expires: int, at: nat)   // a hit: its own copy of what was stored at `at`, TTLs not rewritten yet
    | Joined(fid: nat)                  // waiting in the single-flight group
    | Got(own: Id)                      // the message this call returned
    | Failed

  datatype Call = Call(key: Key, pc: Pc)

  datatype Stage = Waiting | Replied(id: Id) | Stored(id: Id) | Landed(res: Option<Id>)

  /** One execution of the function given to the single-flight group, and the callers that share it. */
  datatype Flight = Flight(key: Key, members: set<nat>, stage: Stage) {
    function Reply(): Option<Id> {
      match stage
      case Waiting => None
      case Replied(id) => Some(id)
      case Stored(id) => Some(id)
      case Landed(r) => r
    }
  }

  /** `role` and `replies` are history: who each object belongs to, and what upstream ever answered. */
  datatype State = State(heap: map<Id, Msg>, role: map<Id, Role>, next: Id,
                         cache: seq<Entry<Key, Id>>,
                         calls: map<nat, Call>, flights: map<nat, Flight>, active: map<Key, nat>,
                         replies: set<(Key, Msg)>, clock: nat, crashed: bool)

  const CFG := Config(0, 65535, false, true)

  const START := State(map[], map[], 0, [], map[], map[], map[], {}, 0, false)

  datatype Step =
    | Tick(t: nat)
    | Ask(cid: nat, key: Key)
    | Lookup(cid: nat)
    | CopyHit(cid: nat)
    | Rewrite(cid: nat, refresher: nat)   // setMsgTTL, and the refresh goroutine when stale
    | Join(cid: nat, fid: nat)
    | Reply(fid: nat, msg: Msg)
    | ReplyError(fid: nat)
    | Store(fid: nat)                     // putMsgToCache in the deferred function
    | Land(fid: nat)                      // the group forgets the key; the members are final
    | Deliver(cid: nat)
    | Mutate(cid: nat, msg: Msg)          // a caller does as it likes with what it was given

  predicate Can(s: State, step: Step) {
    !s.crashed &&
    match step
    case Tick(t) => s.clock <= t
    case Ask(cid, key) => cid !in s.calls
    case Lookup(cid) => cid in s.calls && s.calls[cid].pc == Asking
    case CopyHit(cid) => cid in s.calls && s.calls[cid].pc.Holding? && s.calls[cid].pc.id in s.heap
    case Rewrite(cid, refresher) =>
      cid in s.calls && s.calls[cid].pc.Copied? && s.calls[cid].pc.own in s.heap && refresher !in s.calls
    case Join(cid, fid) =>
      && cid in s.calls && s.calls[cid].pc == Missing
      && var key := s.calls[cid].key;
      if key in s.active then fid == s.active[key] && fid in s.flights else fid !in s.flights
    case Reply(fid, msg) => fid in s.flights && s.flights[fid].stage == Waiting
    case ReplyError(fid) => fid in s.flights && s.flights[fid].stage == Waiting
    case Store(fid) => fid in s.flights && s.flights[fid].stage.Replied? && s.flights[fid].stage.id in s.heap
    case Land(fid) => fid in s.flights && s.flights[fid].stage.Stored?
    case Deliver(cid) =>
      && cid in s.calls && s.calls[cid].pc.Joined? && s.calls[cid].pc.fid in s.flights
      && var f := s.flights[s.calls[cid].pc.fid];
      f.stage.Landed? && (f.stage.res.Some? ==> f.stage.res.value in s.heap)
    case Mutate(cid, msg) => cid in s.calls && s.calls[cid].pc.Got?
  }

  /** A new object. */
  function Alloc(s: State, m: Msg, r: Role): State {
    s.(heap := s.heap[s.next := m], role := s.role[s.next := r], next := s.next + 1)
  }

  /** When an object was put in the cache. */
  function StoredAt(s: State, id: Id): nat {
    if id in s.role && s.role[id].Cached? then s.role[id].at else 0
  }

  function Goto(s: State, cid: nat, pc: Pc): State
    requires cid in s.calls
  {
    s.(calls := s.calls[cid := s.calls[cid].(pc := pc)])
  }

  function Next(s: State, step: Step): State
    requires Can(s, step)
  {
    match step
    case Tick(t) => s.(clock := t)
    case Ask(cid, key) => s.(calls := s.calls[cid := Call(key, Asking)])
    case Lookup(cid) =>
      var (r, o) := GetEntry(CFG, s.cache, s.calls[cid].key, s.clock / SEC, s.clock / SEC);
      Goto(s.(cache := o.list), cid, if r.None? then Missing else Holding(r.value.value, r.value.expires))
    case CopyHit(cid) =>
      var pc := s.calls[cid].pc;
      Goto(Alloc(s, s.heap[pc.id], Caller(cid)), cid, Copied(s.next, pc.expires, StoredAt(s, pc.id)))
    case Rewrite(cid, refresher) =>
      var pc := s.calls[cid].pc;
      var ttl := HitTtl(pc.expires, s.clock);
      var s1 := Goto(s.(heap := s.heap[pc.own := SetTtl(s.heap[pc.own], ttl)]), cid, Got(pc.own));
      if Stale(pc.expires, s.clock) then s1.(calls := s1.calls[refresher := Call(s.calls[cid].key, Missing)]) else s1
    case Join(cid, fid) =>
      var key := s.calls[cid].key;
      var f := if key in s.active then s.flights[fid] else Flight(key, {}, Waiting);
      var f' := f.(members := f.members + {cid});
      Goto(s.(flights := s.flights[fid := f'], active := s.active[key := fid]), cid, Joined(fid))
    case Reply(fid, msg) =>
      var f := s.flights[fid];
      var f' := f.(stage := Replied(s.next));
      Alloc(s.(flights := s.flights[fid := f'], replies := s.replies + {(f.key, msg)}), msg, InFlight(fid))
    case ReplyError(fid) => Settle(s, fid, None)
    case Store(fid) =>
      var f := s.flights[fid];
      var m := s.heap[f.stage.id];
      var s1 := s.(flights := s.flights[fid := f.(stage := Stored(f.stage.id))]);
      if m.questions == [] then s.(crashed := true)
      else if !Cacheable(m) then s1
      else
        var e := Expiry(s.clock, FirstTtl(m).value);
        var cache := SetWithExpire(CFG, s.cache, f.key, s.next, e, s.clock / SEC).list;
        Alloc(s1.(cache := cache), m, Cached(f.key, s.clock))
    case Land(fid) => Settle(s, fid, Some(s.flights[fid].stage.id))
    case Deliver(cid) =>
      var fid := s.calls[cid].pc.fid;
      var f := s.flights[fid];
      if f.stage.res.None? then Goto(s, cid, Failed)
      else
        var id := f.stage.res.value;
        if f.members == {cid} then Goto(s.(role := s.role[id := Caller(cid)]), cid, Got(id))   // not shared
        else Goto(Alloc(s, s.heap[id], Caller(cid)), cid, Got(s.next))
    case Mutate(cid, msg) => s.(heap := s.heap[s.calls[cid].pc.own := msg])
  }

  /** `doCall` is over: the key is forgotten, the outcome fixed. */
  function Settle(s: State, fid: nat, res: Option<Id>): State
    requires fid in s.flights
  {
    var f := s.flights[fid];
    s.(flights := s.flights[fid := f.(stage := Landed(res))], active := s.active - {f.key})
  }
}
