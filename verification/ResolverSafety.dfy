/** What the resolver promises over every run: nobody shares a message object with the cache or with another
    caller, cached messages never change and are upstream replies to their question, TTLs only shrink. */
module ResolverSafety {
  import opened Bytes
  import opened LruSpec
  import opened LruRuns
  import opened Resolver

  // ----- the invariant -----

  /** Objects in use are allocated, and each has one role. */
  ghost predicate HeapInv(s: State) {
    && s.heap.Keys == s.role.Keys
    && (forall id {:trigger id in s.heap} :: id in s.heap ==> id < s.next)
  }

  /** Cached objects and replies in flight hold what upstream answered to a question with that key. */
  ghost predicate Genuine(s: State, id: Id)
    requires id in s.role && id in s.heap
  {
    match s.role[id]
    case Cached(key, at) => (key, s.heap[id]) in s.replies && FirstTtl(s.heap[id]).Some? && at <= s.clock
    case InFlight(fid) => fid in s.flights && (s.flights[fid].key, s.heap[id]) in s.replies
    case Caller(_) => true
  }

  ghost predicate GenuineInv(s: State) {
    forall id {:trigger s.role[id]} :: id in s.role && id in s.heap ==> Genuine(s, id)
  }

  /** An object, the key it is cached under and the expiry stored with it belong together. */
  ghost predicate Backed(s: State, key: Key, id: Id, expires: int) {
    && id in s.role && id in s.heap
    && s.role[id].Cached? && s.role[id].key == key
    && FirstTtl(s.heap[id]).Some? && expires == Expiry(s.role[id].at, FirstTtl(s.heap[id]).value)
  }

  ghost predicate CacheInv(s: State) {
    && WellFormed(CFG, s.cache)
    && (forall e {:trigger e in s.cache} :: e in s.cache ==> Backed(s, e.key, e.value, e.expires))
  }

  /** A copied hit still equals a cached message; `at` is when that one was stored. */
  ghost predicate CopyOf(s: State, key: Key, own: Id, expires: int, at: nat) {
    && own in s.heap && (key, s.heap[own]) in s.replies && at <= s.clock
    && FirstTtl(s.heap[own]).Some? && expires == Expiry(at, FirstTtl(s.heap[own]).value)
  }

  ghost predicate Owns(s: State, cid: nat, id: Id) {
    id in s.role && id in s.heap && s.role[id] == Caller(cid)
  }

  ghost predicate CallOk(s: State, cid: nat, c: Call) {
    match c.pc
    case Holding(id, expires) => Backed(s, c.key, id, expires)
    case Copied(own, expires, at) => Owns(s, cid, own) && CopyOf(s, c.key, own, expires, at)
    case Got(own) => Owns(s, cid, own)
    case Joined(fid) =>
      fid in s.flights && cid in s.flights[fid].members && s.flights[fid].key == c.key && ReplyHeld(s, fid)
    case _ => true
  }

  /** The reply of a flight, once there is one, is still nobody's but the flight's. */
  ghost predicate ReplyHeld(s: State, fid: nat)
    requires fid in s.flights
  {
    var r := s.flights[fid].Reply();
    r.Some? ==> r.value in s.heap && r.value in s.role && s.role[r.value] == InFlight(fid)
  }

  ghost predicate CallsInv(s: State) {
    forall cid {:trigger s.calls[cid]} :: cid in s.calls ==> CallOk(s, cid, s.calls[cid])
  }

  ghost predicate FlightsInv(s: State) {
    && (forall fid {:trigger s.flights[fid]} :: fid in s.flights && !s.flights[fid].stage.Landed? ==> ReplyHeld(s, fid))
    && (forall k {:trigger s.active[k]} :: k in s.active ==>
          s.active[k] in s.flights && s.flights[s.active[k]].key == k && !s.flights[s.active[k]].stage.Landed?)
    && (forall fid {:trigger s.flights[fid]} :: fid in s.flights && !s.flights[fid].stage.Landed? ==>
          s.flights[fid].key in s.active && s.active[s.flights[fid].key] == fid)
  }

  ghost predicate Inv(s: State) {
    HeapInv(s) && GenuineInv(s) && CacheInv(s) && CallsInv(s) && FlightsInv(s)
  }

  // ----- what a step leaves alone -----

  /** Between `s` and `t` no object but `x` changed, history and clock only grew, and no flight lost its key,
      a member or its reply. */
  ghost predicate Keeps(s: State, t: State, x: Id) {
    && (forall id {:trigger s.heap[id]} :: id in s.heap && id != x ==> id in t.heap && t.heap[id] == s.heap[id])
    && (forall id {:trigger s.role[id]} :: id in s.role && id != x ==> id in t.role && t.role[id] == s.role[id])
    && s.replies <= t.replies && s.clock <= t.clock
    && (forall fid {:trigger s.flights[fid]} :: fid in s.flights ==> fid in t.flights && FlightKept(s, t, fid))
  }

  ghost predicate FlightKept(s: State, t: State, fid: nat)
    requires fid in s.flights && fid in t.flights
  {
    && t.flights[fid].key == s.flights[fid].key
    && s.flights[fid].members <= t.flights[fid].members
    && (s.flights[fid].Reply().Some? ==> t.flights[fid].Reply() == s.flights[fid].Reply())
    && (s.flights[fid].Reply().None? ==> ReplyHeld(t, fid))
  }

  /** `x` is new, or private to another caller, or the reply of a flight this caller is not waiting for. */
  ghost predicate Foreign(s: State, x: Id, cid: nat)
    requires cid in s.calls
  {
    x in s.role ==>
      match s.role[x]
      case Cached(_, _) => false
      case Caller(c) => c != cid
      case InFlight(fid) => s.calls[cid].pc != Joined(fid)
  }

  lemma BackedKept(s: State, t: State, x: Id, key: Key, id: Id, expires: int)
    requires Keeps(s, t, x) && Backed(s, key, id, expires) && (x in s.role ==> !s.role[x].Cached?)
    ensures Backed(t, key, id, expires)
  {
  }

  lemma CallKept(s: State, t: State, x: Id, cid: nat)
    requires HeapInv(s) && Keeps(s, t, x) && cid in s.calls && Foreign(s, x, cid)
    requires CallOk(s, cid, s.calls[cid])
    ensures CallOk(t, cid, s.calls[cid])
  {
    hide FirstTtl, Expiry, HeapInv;
    var c := s.calls[cid];
    match c.pc
    case Holding(id, expires) => BackedKept(s, t, x, c.key, id, expires);
    case Copied(own, expires, at) =>
      assert own != x && t.heap[own] == s.heap[own];
    case Joined(fid) =>
      assert FlightKept(s, t, fid);
    case _ =>
  }

  /** All calls but `who` are as they were. */
  lemma CallsKept(s: State, t: State, x: Id, who: nat)
    requires HeapInv(s) && CallsInv(s) && Keeps(s, t, x)
    requires forall cid :: cid in t.calls && cid != who ==>
               cid in s.calls && t.calls[cid] == s.calls[cid] && Foreign(s, x, cid)
    requires who in t.calls ==> CallOk(t, who, t.calls[who])
    ensures CallsInv(t)
  {
    hide CallOk, Keeps, HeapInv;
    forall cid | cid in t.calls ensures CallOk(t, cid, t.calls[cid]) {
      if cid != who {
        CallKept(s, t, x, cid);
      }
    }
  }

  lemma CacheKept(s: State, t: State, x: Id)
    requires CacheInv(s) && Keeps(s, t, x) && t.cache == s.cache && (x in s.role ==> !s.role[x].Cached?)
    ensures CacheInv(t)
  {
    hide Backed, Keeps, WellFormed;
    forall e | e in t.cache ensures Backed(t, e.key, e.value, e.expires) {
      BackedKept(s, t, x, e.key, e.value, e.expires);
    }
  }

  lemma GenuineKept(s: State, t: State, x: Id, n: Id)
    requires HeapInv(s) && HeapInv(t) && GenuineInv(s) && Keeps(s, t, x)
    requires t.role.Keys <= s.role.Keys + {n}
    requires x in t.role && x in t.heap ==> Genuine(t, x)
    requires n in t.role && n in t.heap ==> Genuine(t, n)
    ensures GenuineInv(t)
  {
    hide FirstTtl;
    forall id | id in t.role && id in t.heap ensures Genuine(t, id) {
      if id != x && id != n {
        assert id in s.role && id in s.heap && Genuine(s, id);
        assert t.role[id] == s.role[id] && t.heap[id] == s.heap[id];
        if s.role[id].InFlight? {
          assert FlightKept(s, t, s.role[id].fid);
        }
      }
    }
  }

  /** A step that leaves the flights alone keeps their invariant, unless it touches an undelivered reply. */
  lemma FlightsStay(s: State, t: State, x: Id)
    requires HeapInv(s) && FlightsInv(s) && Keeps(s, t, x) && t.flights == s.flights && t.active == s.active
    requires x in s.role && s.role[x].InFlight? ==> s.role[x].fid in s.flights && s.flights[s.role[x].fid].stage.Landed?
    ensures FlightsInv(t)
  {
  }

  // ----- each step -----

  lemma QuietKeeps(s: State, step: Step)
    requires Inv(s) && Can(s, step) && (step.Tick? || step.Ask?)
    ensures Inv(Next(s, step))
  {
    hide CallOk, Genuine, Backed, ReplyHeld, WellFormed;
    var t := Next(s, step);
    assert Keeps(s, t, s.next) by {
      assert forall fid :: fid in s.flights && s.flights[fid].Reply().None? ==> ReplyHeld(t, fid) by {
        NoReplyHeld(t);
      }
    }
    GenuineKept(s, t, s.next, s.next);
    CacheKept(s, t, s.next);
    FlightsStay(s, t, s.next);
    if step.Ask? {
      assert CallOk(t, step.cid, t.calls[step.cid]) by {
        Idle(t, step.cid, t.calls[step.cid]);
      }
      CallsKept(s, t, s.next, step.cid);
    } else {
      CallsAllKept(s, t, s.next);
    }
  }

  lemma NoReplyHeld(t: State)
    ensures forall fid :: fid in t.flights && t.flights[fid].Reply().None? ==> ReplyHeld(t, fid)
  {
  }

  lemma Idle(t: State, cid: nat, c: Call)
    requires c.pc == Asking || c.pc == Missing || c.pc == Failed
    ensures CallOk(t, cid, c)
  {
  }

  lemma CallsAllKept(s: State, t: State, x: Id)
    requires HeapInv(s) && CallsInv(s) && Keeps(s, t, x) && t.calls == s.calls
    requires forall cid :: cid in s.calls ==> Foreign(s, x, cid)
    ensures CallsInv(t)
  {
    hide CallOk, Keeps, HeapInv;
    forall cid | cid in t.calls ensures CallOk(t, cid, t.calls[cid]) {
      CallKept(s, t, x, cid);
    }
  }

  /** Nothing but calls and cache differ. */
  lemma KeepsObjects(s: State, t: State)
    requires t.heap == s.heap && t.role == s.role && t.replies == s.replies && t.clock == s.clock
    requires t.flights == s.flights
    ensures Keeps(s, t, s.next)
  {
  }

  /** With the resolver's configuration a hit returns an entry of the list and only reorders it. */
  lemma GetIsLookup(list: seq<Entry<Key, Id>>, key: Key, t: int)
    requires WellFormed(CFG, list)
    ensures var (r, o) := GetEntry(CFG, list, key, t, t);
            && WellFormed(CFG, o.list)
            && (forall e :: e in o.list ==> e in list)
            && (r.Some? ==> r.value in list && r.value.key == key)
  {
    hide Find, Without;
    GetKeeps(CFG, list, key, t, t);
    forall e | e in GetEntry(CFG, list, key, t, t).1.list ensures e in list {
      GetSource(CFG, list, key, t, t, e);
    }
  }

  lemma LookupKeeps(s: State, cid: nat)
    requires Inv(s) && Can(s, Lookup(cid))
    ensures Inv(Next(s, Lookup(cid)))
  {
    hide CallOk, Genuine, Backed, ReplyHeld, WellFormed, GetEntry, Keeps;
    var t := Next(s, Lookup(cid));
    var key := s.calls[cid].key;
    var (r, o) := GetEntry(CFG, s.cache, key, s.clock / SEC, s.clock / SEC);
    GetIsLookup(s.cache, key, s.clock / SEC);
    KeepsObjects(s, t);
    GenuineKept(s, t, s.next, s.next);
    forall e | e in t.cache ensures Backed(t, e.key, e.value, e.expires) {
      BackedKept(s, t, s.next, e.key, e.value, e.expires);
    }
    FlightsStay(s, t, s.next);
    assert CallOk(t, cid, t.calls[cid]) by {
      if r.None? {
        Idle(t, cid, t.calls[cid]);
      } else {
        BackedKept(s, t, s.next, key, r.value.value, r.value.expires);
        Holds(t, cid, t.calls[cid]);
      }
    }
    CallsKept(s, t, s.next, cid);
  }

  lemma Holds(t: State, cid: nat, c: Call)
    requires c.pc.Holding? && Backed(t, c.key, c.pc.id, c.pc.expires)
    ensures CallOk(t, cid, c)
  {
  }

  /** A new object at `s.next` and nothing else changed on the heap. */
  lemma KeepsAlloc(s: State, t: State, m: Msg, r: Role)
    requires HeapInv(s)
    requires t.heap == s.heap[s.next := m] && t.role == s.role[s.next := r] && t.next == s.next + 1
    requires s.replies <= t.replies && t.clock == s.clock && t.flights == s.flights
    ensures Keeps(s, t, s.next) && HeapInv(t)
  {
  }

  lemma CopyHitKeeps(s: State, cid: nat)
    requires Inv(s) && Can(s, CopyHit(cid))
    ensures Inv(Next(s, CopyHit(cid)))
  {
    hide CallOk, Backed, ReplyHeld, WellFormed, Keeps, FirstTtl, Expiry;
    var t := Next(s, CopyHit(cid));
    var c := s.calls[cid];
    KeepsAlloc(s, t, s.heap[c.pc.id], Caller(cid));
    GenuineKept(s, t, s.next, s.next);
    CacheKept(s, t, s.next);
    FlightsStay(s, t, s.next);
    assert CallOk(t, cid, t.calls[cid]) by {
      HoldingSource(s, cid);
      assert CopyOf(t, c.key, s.next, c.pc.expires, s.role[c.pc.id].at);
      CopyHeld(t, cid, t.calls[cid]);
    }
    CallsKept(s, t, s.next, cid);
  }

  lemma HoldingSource(s: State, cid: nat)
    requires GenuineInv(s) && CallsInv(s) && cid in s.calls && s.calls[cid].pc.Holding?
    ensures var c := s.calls[cid];
            && Backed(s, c.key, c.pc.id, c.pc.expires)
            && s.role[c.pc.id].Cached?
            && CopyOf(s, c.key, c.pc.id, c.pc.expires, s.role[c.pc.id].at)
  {
    assert CallOk(s, cid, s.calls[cid]);
    assert Genuine(s, s.calls[cid].pc.id);
  }

  lemma CopyHeld(t: State, cid: nat, c: Call)
    requires c.pc.Copied? && Owns(t, cid, c.pc.own) && CopyOf(t, c.key, c.pc.own, c.pc.expires, c.pc.at)
    ensures CallOk(t, cid, c)
  {
  }

  lemma GotHeld(t: State, cid: nat, c: Call)
    requires c.pc.Got? && Owns(t, cid, c.pc.own)
    ensures CallOk(t, cid, c)
  {
  }

  /** One object changed, which belongs to caller `cid`. */
  lemma KeepsPrivate(s: State, t: State, x: Id, cid: nat, m: Msg)
    requires HeapInv(s) && x in s.heap && x in s.role && s.role[x] == Caller(cid)
    requires t.heap == s.heap[x := m] && t.role == s.role && t.next == s.next
    requires t.replies == s.replies && t.clock == s.clock && t.flights == s.flights
    ensures Keeps(s, t, x) && HeapInv(t) && Genuine(t, x)
    ensures forall c :: c in s.calls && c != cid ==> Foreign(s, x, c)
  {
  }

  lemma RewriteKeeps(s: State, cid: nat, refresher: nat)
    requires Inv(s) && Can(s, Rewrite(cid, refresher))
    ensures Inv(Next(s, Rewrite(cid, refresher)))
  {
    hide CallOk, Backed, ReplyHeld, WellFormed, Keeps, SetTtl, HitTtl, Genuine;
    var t := Next(s, Rewrite(cid, refresher));
    var x := s.calls[cid].pc.own;
    OwnerOf(s, cid);
    KeepsPrivate(s, t, x, cid, t.heap[x]);
    GenuineKept(s, t, x, x);
    CacheKept(s, t, x);
    FlightsStay(s, t, x);
    GotHeld(t, cid, t.calls[cid]);
    forall c | c in t.calls ensures CallOk(t, c, t.calls[c]) {
      if c == refresher && c !in s.calls {
        Idle(t, c, t.calls[c]);
      } else if c != cid {
        CallKept(s, t, x, c);
      }
    }
  }

  lemma OwnerOf(s: State, cid: nat)
    requires CallsInv(s) && cid in s.calls && (s.calls[cid].pc.Copied? || s.calls[cid].pc.Got?)
    ensures Owns(s, cid, s.calls[cid].pc.own)
  {
    assert CallOk(s, cid, s.calls[cid]);
  }

  lemma MutateKeeps(s: State, cid: nat, msg: Msg)
    requires Inv(s) && Can(s, Mutate(cid, msg))
    ensures Inv(Next(s, Mutate(cid, msg)))
  {
    hide CallOk, Backed, ReplyHeld, WellFormed, Keeps, Genuine;
    var t := Next(s, Mutate(cid, msg));
    var x := s.calls[cid].pc.own;
    OwnerOf(s, cid);
    KeepsPrivate(s, t, x, cid, msg);
    GenuineKept(s, t, x, x);
    CacheKept(s, t, x);
    FlightsStay(s, t, x);
    GotHeld(t, cid, t.calls[cid]);
    CallsKept(s, t, x, cid);
  }

  // ----- flights -----

  /** Only the flight `fid` changed, and nothing was allocated. */
  ghost predicate OneFlight(s: State, t: State, fid: nat) {
    && t.heap == s.heap && t.role == s.role && t.next == s.next && t.replies == s.replies && t.clock == s.clock
    && t.cache == s.cache && fid in t.flights
    && (forall f {:trigger s.flights[f]} :: f in s.flights ==>
          f in t.flights && (f != fid ==> t.flights[f] == s.flights[f]))
    && (forall f {:trigger t.flights[f]} :: f in t.flights && f != fid ==> f in s.flights)
    && (fid in s.flights ==> FlightKept(s, t, fid))
  }

  lemma OneFlightKeeps(s: State, t: State, fid: nat)
    requires Inv(s) && OneFlight(s, t, fid)
    ensures Keeps(s, t, s.next) && HeapInv(t) && GenuineInv(t) && CacheInv(t)
    ensures forall f :: f in t.flights && f != fid && !t.flights[f].stage.Landed? ==> ReplyHeld(t, f)
  {
    hide CallOk, Backed, WellFormed, Genuine;
    assert Keeps(s, t, s.next);
    GenuineKept(s, t, s.next, s.next);
    CacheKept(s, t, s.next);
  }

  lemma JoinFlight(s: State, cid: nat, fid: nat)
    requires HeapInv(s) && FlightsInv(s) && Can(s, Join(cid, fid))
    ensures var t := Next(s, Join(cid, fid)); OneFlight(s, t, fid) && ReplyHeld(t, fid)
  {
    if fid in s.flights {
      assert s.active[s.calls[cid].key] == fid;
      assert ReplyHeld(s, fid);
    }
  }

  lemma JoinFlights(s: State, cid: nat, fid: nat)
    requires FlightsInv(s) && Can(s, Join(cid, fid)) && ReplyHeld(Next(s, Join(cid, fid)), fid)
    requires var t := Next(s, Join(cid, fid));
             forall f :: f in t.flights && f != fid && !t.flights[f].stage.Landed? ==> ReplyHeld(t, f)
    ensures FlightsInv(Next(s, Join(cid, fid)))
  {
    hide ReplyHeld;
  }

  lemma JoinKeeps(s: State, cid: nat, fid: nat)
    requires Inv(s) && Can(s, Join(cid, fid))
    ensures Inv(Next(s, Join(cid, fid)))
  {
    hide CallOk, Backed, WellFormed, Genuine, Keeps, ReplyHeld, OneFlight, FlightsInv;
    var t := Next(s, Join(cid, fid));
    JoinFlight(s, cid, fid);
    OneFlightKeeps(s, t, fid);
    JoinFlights(s, cid, fid);
    JoinedFlight(s, cid, fid);
    Waits(t, cid, t.calls[cid]);
    CallsKept(s, t, s.next, cid);
  }

  lemma JoinedFlight(s: State, cid: nat, fid: nat)
    requires FlightsInv(s) && Can(s, Join(cid, fid))
    ensures var t := Next(s, Join(cid, fid));
            fid in t.flights && cid in t.flights[fid].members && t.flights[fid].key == s.calls[cid].key
  {
  }

  lemma Waits(t: State, cid: nat, c: Call)
    requires c.pc.Joined? && c.pc.fid in t.flights && cid in t.flights[c.pc.fid].members
    requires t.flights[c.pc.fid].key == c.key && ReplyHeld(t, c.pc.fid)
    ensures CallOk(t, cid, c)
  {
  }

  lemma ReplyErrorKeeps(s: State, fid: nat)
    requires Inv(s) && Can(s, ReplyError(fid))
    ensures Inv(Next(s, ReplyError(fid)))
  {
    hide CallOk, Backed, WellFormed, Genuine, Keeps;
    var t := Next(s, ReplyError(fid));
    assert OneFlight(s, t, fid);
    OneFlightKeeps(s, t, fid);
    CallsAllKept(s, t, s.next);
    SettledFlights(s, t, fid, None);
  }

  lemma LandKeeps(s: State, fid: nat)
    requires Inv(s) && Can(s, Land(fid))
    ensures Inv(Next(s, Land(fid)))
  {
    hide CallOk, Backed, WellFormed, Genuine, Keeps;
    var t := Next(s, Land(fid));
    assert OneFlight(s, t, fid);
    OneFlightKeeps(s, t, fid);
    CallsAllKept(s, t, s.next);
    SettledFlights(s, t, fid, Some(s.flights[fid].stage.id));
  }

  lemma SettledFlights(s: State, t: State, fid: nat, res: Option<Id>)
    requires FlightsInv(s) && fid in s.flights && !s.flights[fid].stage.Landed? && t == Settle(s, fid, res)
    requires forall f :: f in t.flights && f != fid && !t.flights[f].stage.Landed? ==> ReplyHeld(t, f)
    ensures FlightsInv(t)
  {
    hide ReplyHeld;
  }

  lemma ReplyKeepsObjects(s: State, fid: nat, msg: Msg)
    requires Inv(s) && Can(s, Reply(fid, msg))
    ensures var t := Next(s, Reply(fid, msg)); Keeps(s, t, s.next) && HeapInv(t) && Genuine(t, s.next)
  {
    hide GenuineInv, CacheInv, CallsInv, FlightsInv;
  }

  lemma ReplyKeepsFlights(s: State, fid: nat, msg: Msg)
    requires Inv(s) && Can(s, Reply(fid, msg))
    ensures FlightsInv(Next(s, Reply(fid, msg)))
  {
    hide GenuineInv, CacheInv, CallsInv;
  }

  lemma ReplyKeeps(s: State, fid: nat, msg: Msg)
    requires Inv(s) && Can(s, Reply(fid, msg))
    ensures Inv(Next(s, Reply(fid, msg)))
  {
    hide CallOk, Backed, WellFormed, Keeps, ReplyHeld, FlightsInv, Genuine;
    var t := Next(s, Reply(fid, msg));
    ReplyKeepsObjects(s, fid, msg);
    ReplyKeepsFlights(s, fid, msg);
    GenuineKept(s, t, s.next, s.next);
    CacheKept(s, t, s.next);
    CallsAllKept(s, t, s.next);
  }

  // ----- storing and delivering -----

  lemma StoredFlightKept(s: State, fid: nat, f: nat)
    requires fid in s.flights && s.flights[fid].stage.Replied? && f in s.flights && Can(s, Store(fid))
    ensures var t := Next(s, Store(fid)); f in t.flights && FlightKept(s, t, f)
  {
    hide SetWithExpire, Cacheable, FirstTtl, Expiry;
  }

  lemma StoreKeepsObjects(s: State, fid: nat)
    requires HeapInv(s) && Can(s, Store(fid))
    ensures var t := Next(s, Store(fid)); Keeps(s, t, s.next) && HeapInv(t)
  {
    hide FlightKept, SetWithExpire, Cacheable, FirstTtl, Expiry;
    var t := Next(s, Store(fid));
    forall f | f in s.flights ensures f in t.flights && FlightKept(s, t, f) {
      StoredFlightKept(s, fid, f);
    }
    var m := s.heap[s.flights[fid].stage.id];
    if m.questions == [] || !Cacheable(m) {
      SameObjects(s, t);
    } else {
      NewObject(s, t, m, Cached(s.flights[fid].key, s.clock));
    }
  }

  lemma SameObjects(s: State, t: State)
    requires HeapInv(s) && t.heap == s.heap && t.role == s.role && t.next == s.next
    requires t.replies == s.replies && t.clock == s.clock
    requires forall f {:trigger s.flights[f]} :: f in s.flights ==> f in t.flights && FlightKept(s, t, f)
    ensures Keeps(s, t, s.next) && HeapInv(t)
  {
    hide FlightKept;
  }

  lemma NewObject(s: State, t: State, m: Msg, r: Role)
    requires HeapInv(s) && t.heap == s.heap[s.next := m] && t.role == s.role[s.next := r] && t.next == s.next + 1
    requires t.replies == s.replies && t.clock == s.clock
    requires forall f {:trigger s.flights[f]} :: f in s.flights ==> f in t.flights && FlightKept(s, t, f)
    ensures Keeps(s, t, s.next) && HeapInv(t)
  {
    hide FlightKept;
  }

  lemma StoreKeepsFlights(s: State, fid: nat)
    requires Inv(s) && Can(s, Store(fid))
    ensures FlightsInv(Next(s, Store(fid)))
  {
    hide GenuineInv, CacheInv, CallsInv, SetWithExpire, Cacheable, FirstTtl, Expiry;
    assert ReplyHeld(s, fid);
  }

  /** A reply that is stored is genuine for its key, and its expiry is the one computed from it. */
  lemma StoreBacked(s: State, fid: nat)
    requires Inv(s) && Can(s, Store(fid))
    ensures var t := Next(s, Store(fid)); s.next in t.role ==>
              && Genuine(t, s.next)
              && Backed(t, s.flights[fid].key, s.next, Expiry(s.clock, FirstTtl(s.heap[s.flights[fid].stage.id]).value))
  {
    hide CallOk, WellFormed, SetWithExpire, Expiry;
    assert ReplyHeld(s, fid);
    assert Genuine(s, s.flights[fid].stage.id);
  }

  lemma StoreKeeps(s: State, fid: nat)
    requires Inv(s) && Can(s, Store(fid))
    ensures Inv(Next(s, Store(fid)))
  {
    hide CallOk, Backed, WellFormed, SetWithExpire, Genuine, Keeps, ReplyHeld, FlightsInv, Expiry;
    var t := Next(s, Store(fid));
    StoreKeepsObjects(s, fid);
    StoreKeepsFlights(s, fid);
    StoreBacked(s, fid);
    GenuineKept(s, t, s.next, s.next);
    CallsAllKept(s, t, s.next);
    var m := s.heap[s.flights[fid].stage.id];
    if m.questions != [] && Cacheable(m) {
      var key, e := s.flights[fid].key, Expiry(s.clock, FirstTtl(m).value);
      SetKeeps(CFG, s.cache, key, s.next, e, s.clock / SEC);
      forall x | x in t.cache ensures Backed(t, x.key, x.value, x.expires) {
        FormedIsDistinct(s.cache);
        SetSource(CFG, s.cache, key, s.next, e, s.clock / SEC, x);
        if x != Entry(key, s.next, e) {
          BackedKept(s, t, s.next, x.key, x.value, x.expires);
        }
      }
    } else {
      CacheKept(s, t, s.next);
    }
  }

  lemma FormedIsDistinct(list: seq<Entry<Key, Id>>)
    requires WellFormed(CFG, list)
    ensures Distinct(list)
  {
  }

  lemma DeliverKeeps(s: State, cid: nat)
    requires Inv(s) && Can(s, Deliver(cid))
    ensures Inv(Next(s, Deliver(cid)))
  {
    hide CallOk, Backed, WellFormed, Keeps, ReplyHeld;
    var t := Next(s, Deliver(cid));
    var fid := s.calls[cid].pc.fid;
    var f := s.flights[fid];
    Waiting(s, cid);
    if f.stage.res.None? {
      KeepsObjects(s, t);
      GenuineKept(s, t, s.next, s.next);
      CacheKept(s, t, s.next);
      FlightsStay(s, t, s.next);
      Idle(t, cid, t.calls[cid]);
      CallsKept(s, t, s.next, cid);
    } else if f.members == {cid} {
      var id := f.stage.res.value;
      KeepsHandover(s, t, id, fid, cid);
      GenuineKept(s, t, id, id);
      CacheKept(s, t, id);
      FlightsStay(s, t, id);
      GotHeld(t, cid, t.calls[cid]);
      CallsKept(s, t, id, cid);
    } else {
      KeepsAlloc(s, t, s.heap[f.stage.res.value], Caller(cid));
      GenuineKept(s, t, s.next, s.next);
      CacheKept(s, t, s.next);
      FlightsStay(s, t, s.next);
      GotHeld(t, cid, t.calls[cid]);
      CallsKept(s, t, s.next, cid);
    }
  }

  lemma Waiting(s: State, cid: nat)
    requires CallsInv(s) && cid in s.calls && s.calls[cid].pc.Joined?
    ensures var fid := s.calls[cid].pc.fid;
            && fid in s.flights && cid in s.flights[fid].members && ReplyHeld(s, fid)
            && (s.flights[fid].Reply().Some? ==>
                  s.flights[fid].Reply().value in s.role && s.role[s.flights[fid].Reply().value] == InFlight(fid))
  {
    assert CallOk(s, cid, s.calls[cid]);
  }

  /** The reply of a flight with one member becomes that member's; nobody else was waiting for it. */
  lemma KeepsHandover(s: State, t: State, id: Id, fid: nat, cid: nat)
    requires HeapInv(s) && CallsInv(s) && fid in s.flights && s.flights[fid].members == {cid}
    requires id in s.heap && id in s.role && s.role[id] == InFlight(fid)
    requires t.heap == s.heap && t.role == s.role[id := Caller(cid)] && t.next == s.next
    requires t.replies == s.replies && t.clock == s.clock && t.flights == s.flights
    ensures Keeps(s, t, id) && HeapInv(t)
    ensures forall c :: c in s.calls && c != cid ==> Foreign(s, id, c)
  {
    forall c | c in s.calls && c != cid ensures Foreign(s, id, c) {
      assert CallOk(s, c, s.calls[c]);
    }
  }

  lemma StepKeeps(s: State, step: Step)
    requires Inv(s) && Can(s, step)
    ensures Inv(Next(s, step))
  {
    hide Inv, Can, Next;
    match step
    case Tick(_) => QuietKeeps(s, step);
    case Ask(_, _) => QuietKeeps(s, step);
    case Lookup(cid) => LookupKeeps(s, cid);
    case CopyHit(cid) => CopyHitKeeps(s, cid);
    case Rewrite(cid, r) => RewriteKeeps(s, cid, r);
    case Join(cid, fid) => JoinKeeps(s, cid, fid);
    case Reply(fid, msg) => ReplyKeeps(s, fid, msg);
    case ReplyError(fid) => ReplyErrorKeeps(s, fid);
    case Store(fid) => StoreKeeps(s, fid);
    case Land(fid) => LandKeeps(s, fid);
    case Deliver(cid) => DeliverKeeps(s, cid);
    case Mutate(cid, msg) => MutateKeeps(s, cid, msg);
  }

  // ----- runs -----

  ghost predicate IsRun(run: seq<State>, steps: seq<Step>) {
    && |run| == |steps| + 1 && run[0] == START
    && forall i :: 0 <= i < |steps| ==> Can(run[i], steps[i]) && run[i + 1] == Next(run[i], steps[i])
  }

  lemma StartHolds()
    ensures Inv(START)
  {
  }

  lemma {:induction false} RunInv(run: seq<State>, steps: seq<Step>, i: nat)
    requires IsRun(run, steps) && i < |run|
    ensures Inv(run[i])
  {
    hide Inv, Can, Next;
    if i == 0 {
      StartHolds();
    } else {
      RunInv(run, steps, i - 1);
      StepKeeps(run[i - 1], steps[i - 1]);
    }
  }

  /** The object a call has been given: its copy of a hit, or what it returned. */
  function Given(s: State, cid: nat): Option<Id> {
    if cid in s.calls && (s.calls[cid].pc.Copied? || s.calls[cid].pc.Got?) then Some(s.calls[cid].pc.own) else None
  }

  /** In every run, no message object given to a caller is also held by the cache or given to another. */
  lemma NothingShared(run: seq<State>, steps: seq<Step>, i: nat)
    requires IsRun(run, steps) && i < |run|
    ensures var s := run[i];
            && (forall c, d :: Given(s, c).Some? && Given(s, d).Some? && c != d ==> Given(s, c) != Given(s, d))
            && (forall c, e :: Given(s, c).Some? && e in s.cache ==> Given(s, c).value != e.value)
  {
    hide IsRun;
    RunInv(run, steps, i);
    var s := run[i];
    forall c | Given(s, c).Some? ensures Owns(s, c, Given(s, c).value) {
      OwnerOf(s, c);
    }
    forall c, e | Given(s, c).Some? && e in s.cache ensures Given(s, c).value != e.value {
      assert Backed(s, e.key, e.value, e.expires);
    }
  }

  /** No step changes an object that is or was in the cache. */
  lemma StepKeepsCached(s: State, step: Step, id: Id)
    requires Inv(s) && Can(s, step) && id in s.role && s.role[id].Cached?
    ensures var t := Next(s, step);
            id in s.heap && id in t.heap && id in t.role && t.heap[id] == s.heap[id] && t.role[id] == s.role[id]
  {
    hide GenuineInv, CacheInv, FlightsInv, SetWithExpire, GetEntry, SetTtl, Cacheable, FirstTtl, CallsInv, Expiry;
    match step
    case Rewrite(cid, _) => OwnerOf(s, cid);
    case Mutate(cid, _) => OwnerOf(s, cid);
    case Deliver(cid) => Waiting(s, cid);
    case _ =>
  }

  lemma {:induction false} CachedObjectsStay(run: seq<State>, steps: seq<Step>, i: nat, j: nat, id: Id)
    requires IsRun(run, steps) && i <= j < |run| && id in run[i].role && run[i].role[id].Cached? && id in run[i].heap
    ensures id in run[j].role && id in run[j].heap
    ensures run[j].role[id] == run[i].role[id] && run[j].heap[id] == run[i].heap[id]
    decreases j
  {
    hide Inv, Can, Next;
    if i < j {
      CachedObjectsStay(run, steps, i, j - 1, id);
      RunInv(run, steps, j - 1);
      StepKeepsCached(run[j - 1], steps[j - 1], id);
    }
  }

  /** Whatever callers do with the messages they got, a message in the cache reads the same ever after. */
  lemma CachedNeverChange(run: seq<State>, steps: seq<Step>, i: nat, j: nat, e: Entry<Key, Id>)
    requires IsRun(run, steps) && i <= j < |run| && e in run[i].cache
    ensures e.value in run[i].heap && e.value in run[j].heap && run[j].heap[e.value] == run[i].heap[e.value]
  {
    RunInv(run, steps, i);
    hide IsRun;
    assert Backed(run[i], e.key, e.value, e.expires);
    CachedObjectsStay(run, steps, i, j, e.value);
  }

  /** Upstream answered `m` to a fetch for `key` before state `i`. */
  ghost predicate Answered(run: seq<State>, steps: seq<Step>, i: nat, key: Key, m: Msg)
    requires IsRun(run, steps) && i < |run|
  {
    exists j :: 0 <= j < i && steps[j].Reply? && steps[j].msg == m && run[j].flights[steps[j].fid].key == key
  }

  lemma RepliesGrowBy(s: State, step: Step, key: Key, m: Msg)
    requires Can(s, step) && (key, m) in Next(s, step).replies
    ensures (key, m) in s.replies || (step.Reply? && s.flights[step.fid].key == key && step.msg == m)
  {
    hide SetWithExpire, GetEntry, SetTtl, Cacheable, HitTtl, FirstTtl, Expiry;
  }

  lemma {:induction false} RepliesWereAnswers(run: seq<State>, steps: seq<Step>, i: nat, key: Key, m: Msg)
    requires IsRun(run, steps) && i < |run| && (key, m) in run[i].replies
    ensures Answered(run, steps, i, key, m)
  {
    if i > 0 {
      RepliesGrowBy(run[i - 1], steps[i - 1], key, m);
      hide Next;
      if (key, m) in run[i - 1].replies {
        RepliesWereAnswers(run, steps, i - 1, key, m);
      }
    }
  }

  /** Every message in the cache equals a reply upstream gave to a request with its key. */
  lemma CachedAreAnswers(run: seq<State>, steps: seq<Step>, i: nat, e: Entry<Key, Id>)
    requires IsRun(run, steps) && i < |run| && e in run[i].cache
    ensures e.value in run[i].heap && Answered(run, steps, i, e.key, run[i].heap[e.value])
  {
    RunInv(run, steps, i);
    var s := run[i];
    assert Backed(s, e.key, e.value, e.expires);
    assert Genuine(s, e.value);
    hide IsRun, Answered;
    RepliesWereAnswers(run, steps, i, e.key, s.heap[e.value]);
  }

  /** A fetched message is handed over with the contents of an upstream reply to that question: the reply itself if
      and only if nobody else joined the fetch, otherwise a new copy of it. */
  lemma DeliveredAreAnswers(run: seq<State>, steps: seq<Step>, i: nat)
    requires IsRun(run, steps) && i < |steps| && steps[i].Deliver? && Given(run[i + 1], steps[i].cid).Some?
    ensures var own := Given(run[i + 1], steps[i].cid).value;
            own in run[i + 1].heap && Answered(run, steps, i, run[i].calls[steps[i].cid].key, run[i + 1].heap[own])
    ensures var own, f := Given(run[i + 1], steps[i].cid).value, run[i].flights[run[i].calls[steps[i].cid].pc.fid];
            && f.stage.res.Some?
            && (f.stage.res.value == own <==> f.members == {steps[i].cid})
            && (own in run[i].heap <==> f.members == {steps[i].cid})
  {
    RunInv(run, steps, i);
    var s, cid := run[i], steps[i].cid;
    Waiting(s, cid);
    var fid := s.calls[cid].pc.fid;
    assert CallOk(s, cid, s.calls[cid]);
    var id := s.flights[fid].stage.res.value;
    assert Genuine(s, id);
    RepliesWereAnswers(run, steps, i, s.calls[cid].key, s.heap[id]);
  }

  // ----- TTLs -----

  /** All records, in the order of the sections. */
  function Records(m: Msg): seq<Record> {
    m.answer + m.ns + m.extra
  }

  /** The first record of a message gives its TTL. */
  lemma FirstTtlIsFirst(m: Msg)
    ensures FirstTtl(m) == if Records(m) == [] then None else Some(Records(m)[0].ttl)
  {
  }

  /** `out` is `m` with one TTL for every record of all three sections. */
  ghost predicate Stamped(m: Msg, out: Msg, ttl: nat) {
    && out.questions == m.questions
    && |out.answer| == |m.answer| && |out.ns| == |m.ns| && |out.extra| == |m.extra|
    && forall i {:trigger Records(out)[i]} :: 0 <= i < |Records(out)| ==>
         Records(out)[i].data == Records(m)[i].data && Records(out)[i].ttl == ttl
  }

  lemma SetTtlStamps(m: Msg, ttl: nat)
    ensures Stamped(m, SetTtl(m, ttl), ttl)
  {
  }

  /** The TTL a fresh hit gives when the reply with this TTL was stored at `at`: the whole seconds left, less at most
      what rounding the expiry down to a second takes away. */
  ghost predicate TimeLeft(v: nat, ttl: nat, at: nat, now: nat) {
    && v * SEC <= ttl * SEC - (now - at) < (v + 2) * SEC
    && (at % SEC == 0 ==> v == ttl - (now - at + SEC - 1) / SEC)
  }

  /** Rounding the expiry down never adds to the time left, and takes less than a second. */
  lemma HitTimeLeft(at: nat, ttl: nat, now: nat)
    requires at <= now && !Stale(Expiry(at, ttl), now)
    ensures TimeLeft(HitTtl(Expiry(at, ttl), now), ttl, at, now)
  {
    var expires := Expiry(at, ttl);
    var left, v := expires * SEC - now, HitTtl(expires, now);
    assert expires * SEC <= at + ttl * SEC < expires * SEC + SEC;
    assert v * SEC <= left < v * SEC + SEC;
    if at % SEC == 0 {
      WholeSecond(at, ttl, now, v);
    }
  }

  lemma WholeSecond(at: nat, ttl: nat, now: nat, v: nat)
    requires at % SEC == 0 && at <= now && v == ((at + ttl * SEC) / SEC * SEC - now) / SEC && now <= at + ttl * SEC
    ensures v == ttl - (now - at + SEC - 1) / SEC
  {
    assert (at + ttl * SEC) / SEC * SEC == at + ttl * SEC;
    var gone := now - at;
    assert v == (ttl * SEC - gone) / SEC;
  }

  /** The reply `m` to a fetch for `key` was put in the cache at time `at`, before state `i`. */
  ghost predicate WasStored(run: seq<State>, steps: seq<Step>, i: nat, key: Key, m: Msg, at: nat)
    requires IsRun(run, steps) && i < |run|
  {
    exists j :: 0 <= j < i && StoresAt(run[j], steps[j], key, m, at)
  }

  ghost predicate StoresAt(s: State, step: Step, key: Key, m: Msg, at: nat) {
    && step.Store? && Can(s, step) && s.clock == at
    && s.flights[step.fid].key == key && s.heap[s.flights[step.fid].stage.id] == m
  }

  lemma CachedByStore(s: State, step: Step, id: Id)
    requires Inv(s) && Can(s, step)
    requires var t := Next(s, step); id in t.role && id in t.heap && t.role[id].Cached?
    ensures var t := Next(s, step);
            || (id in s.role && s.role[id].Cached? && id in s.heap && t.role[id] == s.role[id] &&
                t.heap[id] == s.heap[id])
            || StoresAt(s, step, t.role[id].key, t.heap[id], t.role[id].at)
  {
    hide GenuineInv, CacheInv, FlightsInv, SetWithExpire, GetEntry, SetTtl, Cacheable, FirstTtl, CallsInv, Expiry;
    match step
    case Rewrite(cid, _) => OwnerOf(s, cid);
    case Mutate(cid, _) => OwnerOf(s, cid);
    case _ =>
  }

  lemma {:induction false} CachedWereStored(run: seq<State>, steps: seq<Step>, i: nat, id: Id)
    requires IsRun(run, steps) && i < |run| && id in run[i].role && id in run[i].heap && run[i].role[id].Cached?
    ensures WasStored(run, steps, i, run[i].role[id].key, run[i].heap[id], run[i].role[id].at)
  {
    hide Inv, Can, Next, StoresAt;
    if i > 0 {
      RunInv(run, steps, i - 1);
      CachedByStore(run[i - 1], steps[i - 1], id);
      if !StoresAt(run[i - 1], steps[i - 1], run[i].role[id].key, run[i].heap[id], run[i].role[id].at) {
        CachedWereStored(run, steps, i - 1, id);
      }
    }
  }

  lemma CopiedOnlyByCopy(s: State, step: Step, cid: nat)
    requires Can(s, step) && cid in Next(s, step).calls && Next(s, step).calls[cid].pc.Copied? && step != CopyHit(cid)
    ensures cid in s.calls && s.calls[cid] == Next(s, step).calls[cid]
  {
    hide SetWithExpire, GetEntry, SetTtl, Cacheable, FirstTtl, Expiry;
  }

  /** Only its owner's writes change an object. */
  lemma ContentsStay(s: State, step: Step, id: Id)
    requires HeapInv(s) && Can(s, step) && id in s.heap
    requires step.Rewrite? || step.Mutate? ==> s.calls[step.cid].pc.own != id
    ensures id in Next(s, step).heap && Next(s, step).heap[id] == s.heap[id]
  {
    hide SetWithExpire, GetEntry, SetTtl, Cacheable, FirstTtl, Expiry;
  }

  /** A copy keeps its contents until its owner rewrites it. */
  lemma StepKeepsCopied(s: State, step: Step, cid: nat)
    requires Inv(s) && Can(s, step) && cid in Next(s, step).calls && Next(s, step).calls[cid].pc.Copied?
    requires step != CopyHit(cid)
    ensures var t := Next(s, step); var own := t.calls[cid].pc.own;
            && cid in s.calls && s.calls[cid] == t.calls[cid]
            && own in s.heap && own in t.heap && t.heap[own] == s.heap[own]
  {
    hide GenuineInv, CacheInv, FlightsInv, SetWithExpire, GetEntry, SetTtl, Cacheable, FirstTtl, CallsInv, Expiry;
    CopiedOnlyByCopy(s, step, cid);
    OwnerOf(s, cid);
    if step.Rewrite? || step.Mutate? {
      OwnerOf(s, step.cid);
    }
    ContentsStay(s, step, s.calls[cid].pc.own);
  }

  lemma {:induction false} CopiesWereStored(run: seq<State>, steps: seq<Step>, i: nat, cid: nat)
    requires IsRun(run, steps) && i < |run| && cid in run[i].calls && run[i].calls[cid].pc.Copied?
    ensures var c := run[i].calls[cid];
            c.pc.own in run[i].heap && WasStored(run, steps, i, c.key, run[i].heap[c.pc.own], c.pc.at)
  {
    hide Inv, StoresAt, SetWithExpire, GetEntry, SetTtl, Cacheable, FirstTtl;
    if i > 0 {
      var s, step := run[i - 1], steps[i - 1];
      RunInv(run, steps, i - 1);
      if step == CopyHit(cid) {
        HeldWasCached(s, cid);
        CachedWereStored(run, steps, i - 1, s.calls[cid].pc.id);
      } else {
        StepKeepsCopied(s, step, cid);
        CopiesWereStored(run, steps, i - 1, cid);
      }
    }
  }

  lemma HeldWasCached(s: State, cid: nat)
    requires Inv(s) && cid in s.calls && s.calls[cid].pc.Holding?
    ensures var id := s.calls[cid].pc.id;
            id in s.role && id in s.heap && s.role[id].Cached? && s.role[id].key == s.calls[cid].key
  {
    HoldingSource(s, cid);
  }

  /** A hit hands out a copy of a reply to its question that was put in the cache earlier, with one TTL for every
      record of all three sections. It is 1 once the expiry, which is that time and the TTL of the first record rounded
      down to a second, has passed. Otherwise it is the rest of that TTL: never more than is left, short of it by less
      than two seconds and, when the reply was stored on a whole second, exact. */
  lemma HitTtlBound(run: seq<State>, steps: seq<Step>, i: nat)
    requires IsRun(run, steps) && i < |steps| && steps[i].Rewrite?
    ensures var s, t, c := run[i], run[i + 1], run[i].calls[steps[i].cid];
            var m, at := s.heap[c.pc.own], c.pc.at;
            && Given(t, steps[i].cid) == Some(c.pc.own) && c.pc.own in t.heap
            && WasStored(run, steps, i, c.key, m, at) && at <= s.clock && Records(m) != []
            && var ttl, out := Records(m)[0].ttl, t.heap[c.pc.own];
            && |Records(out)| > 0
            && var v := Records(out)[0].ttl;
            && Stamped(m, out, v)
            && ((at + ttl * 1_000_000_000) / 1_000_000_000 * 1_000_000_000 < s.clock ==> v == 1)
            && ((at + ttl * 1_000_000_000) / 1_000_000_000 * 1_000_000_000 >= s.clock ==> TimeLeft(v, ttl, at, s.clock))
  {
    hide Inv, Next, Stamped, TimeLeft, StoresAt;
    RunInv(run, steps, i);
    CopiesWereStored(run, steps, i, steps[i].cid);
    var s := run[i];
    CopiedSource(s, steps[i].cid);
    RewriteStamps(s, steps[i]);
  }

  lemma CopiedSource(s: State, cid: nat)
    requires Inv(s) && cid in s.calls && s.calls[cid].pc.Copied?
    ensures var c := s.calls[cid];
            c.pc.own in s.heap && CopyOf(s, c.key, c.pc.own, c.pc.expires, c.pc.at)
  {
    assert CallOk(s, cid, s.calls[cid]);
  }

  lemma RewriteStamps(s: State, step: Step)
    requires Can(s, step) && step.Rewrite?
    requires var c := s.calls[step.cid]; CopyOf(s, c.key, c.pc.own, c.pc.expires, c.pc.at)
    ensures var c, t := s.calls[step.cid], Next(s, step);
            && Given(t, step.cid) == Some(c.pc.own) && c.pc.own in t.heap && Records(s.heap[c.pc.own]) != []
            && var m, out, at := s.heap[c.pc.own], t.heap[c.pc.own], c.pc.at;
            && |Records(out)| > 0
            && var ttl, v := Records(m)[0].ttl, Records(out)[0].ttl;
            && Stamped(m, out, v)
            && ((at + ttl * SEC) / SEC * SEC < s.clock ==> v == 1)
            && ((at + ttl * SEC) / SEC * SEC >= s.clock ==> TimeLeft(v, ttl, at, s.clock))
  {
    hide SetTtl, HitTtl, Stamped, TimeLeft;
    var c := s.calls[step.cid];
    var m, ttl := s.heap[c.pc.own], HitTtl(c.pc.expires, s.clock);
    FirstTtlIsFirst(m);
    SetTtlStamps(m, ttl);
    StampedFirst(m, SetTtl(m, ttl), ttl);
    StaleIsOne(c.pc.expires, s.clock);
    if !Stale(c.pc.expires, s.clock) {
      HitTimeLeft(c.pc.at, FirstTtl(m).value, s.clock);
    }
  }

  lemma StampedFirst(m: Msg, out: Msg, ttl: nat)
    requires Stamped(m, out, ttl) && Records(m) != []
    ensures |Records(out)| > 0 && Records(out)[0].ttl == ttl
  {
  }

  lemma StaleIsOne(expires: int, now: nat)
    ensures Stale(expires, now) ==> HitTtl(expires, now) == 1
  {
  }
}
