/** What the resolver's cache is for: replies are kept, found again and refreshed, and no call is ever stuck. */
module ResolverCaching {
  import opened Bytes
  import opened LruReads
  import opened LruRuns
  import opened LruSpec
  import opened Resolver
  import opened ResolverCrash
  import opened ResolverSafety

  // ----- what is kept -----

  /** A name that begins with `_acme-challenge`. */
  predicate IsChallenge(name: Bytes) {
    var text := "_acme-challenge";
    |name| >= |text| && forall i :: 0 <= i < |text| ==> name[i] as int == text[i] as int
  }

  lemma ChallengeBytes(name: Bytes)
    ensures IsChallenge(name) <==> ACME <= name
  {
    var text := "_acme-challenge";
    assert |text| == |ACME| == 15;
    assert forall i :: 0 <= i < |text| ==> ACME[i] as int == text[i] as int;
    if ACME <= name {
      assert forall i :: 0 <= i < |text| ==> name[i] == ACME[i];
    }
    if IsChallenge(name) {
      assert forall i :: 0 <= i < |text| ==> name[i] as int == text[i] as int;
      assert forall i :: 0 <= i < |ACME| ==> name[i] == ACME[i];
    }
  }

  /** A reply is kept unless it has no record or answers a TXT question (type 16) for a challenge name. */
  predicate Kept(m: Msg) {
    Records(m) != [] && (m.questions != [] ==> m.questions[0].qtype != 16 || !IsChallenge(m.questions[0].name))
  }

  lemma KeptIsCacheable(m: Msg)
    ensures Kept(m) <==> Cacheable(m)
  {
    hide IsChallenge;
    FirstTtlIsFirst(m);
    if m.questions != [] {
      ChallengeBytes(m.questions[0].name);
    }
  }

  /** Storing a reply that has a question puts a copy of it at the back of the cache if and only if it is kept, under
      the key of its fetch and with the time now plus the TTL of its first record, in whole seconds, as its expiry. */
  lemma StoreCaches(s: State, fid: nat)
    requires Inv(s) && Can(s, Store(fid)) && Awaiting(s, fid).questions != []
    ensures var m, t, key := Awaiting(s, fid), Next(s, Store(fid)), s.flights[fid].key;
            && (!Kept(m) ==> t.cache == s.cache)
            && (Kept(m) ==>
                  && Near(t.cache, key, 0) && s.next in t.heap && t.heap[s.next] == m && s.next in t.role
                  && t.role[s.next] == Cached(key, s.clock)
                  && t.cache[Find(t.cache, key)] ==
                     Entry(key, s.next, (s.clock + Records(m)[0].ttl * 1_000_000_000) / 1_000_000_000))
  {
    hide Inv, SetWithExpire, Find, IsChallenge, Cacheable, FirstTtl, WellFormed, Records, Near;
    var m, key := Awaiting(s, fid), s.flights[fid].key;
    CacheHolds(s);
    KeptIsCacheable(m);
    FirstTtlIsFirst(m);
    if Kept(m) {
      SetIsLast(s.cache, key, s.next, Expiry(s.clock, FirstTtl(m).value), s.clock / SEC);
    }
  }

  lemma SetIsLast(list: seq<Entry<Key, Id>>, key: Key, id: Id, expires: int, now: int)
    requires WellFormed(CFG, list)
    ensures var list' := SetWithExpire(CFG, list, key, id, expires, now).list;
            Near(list', key, 0) && list'[Find(list', key)] == Entry(key, id, expires)
  {
    var op := Op.SetAt(key, id, expires, now);
    WrittenLast(CFG, list, op);
    hide Find, Near;
    var list' := Apply(CFG, list, op).list;
    assert list'[|list'| - 1] == Entry(key, id, expires);
    NearestIsLast(list', key);
  }

  lemma NearestIsLast(list: seq<Entry<Key, Id>>, key: Key)
    requires Near(list, key, 0)
    ensures Find(list, key) == |list| - 1
  {
  }

  lemma CacheHolds(s: State)
    requires Inv(s)
    ensures CacheInv(s) && WellFormed(CFG, s.cache)
  {
  }

  // ----- found again -----

  /** The steps that use the cache. */
  predicate UsesCache(step: Step) {
    step.Store? || step.Lookup?
  }

  /** How many of them there are from step `j` up to step `l`. */
  function Uses(steps: seq<Step>, j: nat, l: nat): nat
    requires j <= l <= |steps|
  {
    if j == l then 0 else Uses(steps, j, l - 1) + (if UsesCache(steps[l - 1]) then 1 else 0)
  }

  /** What a step does to the cache, as an operation on it. */
  function CacheOp(s: State, step: Step): Op<Key, Id>
    requires Can(s, step) && UsesCache(step)
  {
    if step.Lookup? then Op.Get(s.calls[step.cid].key, s.clock / SEC, s.clock / SEC)
    else
      var ttl := FirstTtl(s.heap[s.flights[step.fid].stage.id]);
      Op.SetAt(s.flights[step.fid].key, s.next, Expiry(s.clock, if ttl.Some? then ttl.value else 0), s.clock / SEC)
  }

  lemma CacheStep(s: State, step: Step)
    requires Can(s, step)
    ensures Next(s, step).cache == s.cache ||
            (UsesCache(step) && Next(s, step).cache == Apply(CFG, s.cache, CacheOp(s, step)).list)
    ensures s.clock <= Next(s, step).clock
  {
    hide SetWithExpire, GetEntry, SetTtl, FirstTtl, Expiry;
  }

  /** The cache has a reply to `key` that was stored no earlier than `time`, with at most `n` entries behind it. */
  ghost predicate Holds(s: State, key: Key, time: nat, n: nat) {
    && Near(s.cache, key, n)
    && var id := s.cache[Find(s.cache, key)].value;
    id in s.role && id in s.heap && s.role[id].Cached? && s.role[id].key == key && s.role[id].at >= time
  }

  /** The entry of a key after an operation is the one written or the one that was there. */
  lemma SameEntry(list: seq<Entry<Key, Id>>, op: Op<Key, Id>, key: Key)
    requires WellFormed(CFG, list) && Find(list, key) >= 0 && Find(Apply(CFG, list, op).list, key) >= 0
    ensures var list' := Apply(CFG, list, op).list; var e := list'[Find(list', key)];
            (IsWrite(op) && op.key == key && e == Written(CFG, op)) || e == list[Find(list, key)]
  {
    hide Find, Apply;
    var list' := Apply(CFG, list, op).list;
    var e := list'[Find(list', key)];
    var w := ApplySource(CFG, list, op, e);
    if !(IsWrite(op) && e == Written(CFG, op)) {
      assert w == e;
      var i :| 0 <= i < |list| && list[i] == w;
      assert i == Find(list, key);
    }
  }

  /** A store that writes puts a new object in the cache. */
  lemma StoreWrites(s: State, step: Step)
    requires Inv(s) && Can(s, step) && step.Store? && Next(s, step).cache != s.cache
    ensures var t, key := Next(s, step), s.flights[step.fid].key;
            s.next in t.heap && s.next in t.role && t.role[s.next] == Cached(key, s.clock)
  {
    hide Inv, SetWithExpire, Cacheable, FirstTtl, Expiry;
  }

  lemma StepHolds(s: State, step: Step, key: Key, time: nat, n: nat)
    requires Inv(s) && Can(s, step) && Holds(s, key, time, n) && time <= s.clock
    requires UsesCache(step) ==> n + 1 < 65535
    ensures Holds(Next(s, step), key, time, if UsesCache(step) then n + 1 else n)
  {
    hide Inv, Can, Next, Find, Near, Apply, WellFormed;
    NearFound(s.cache, key, n);
    var t, e := Next(s, step), s.cache[Find(s.cache, key)];
    CacheHolds(s);
    CacheStep(s, step);
    StepKeepsCached(s, step, e.value);
    NearWeaker(s.cache, key, n);
    if t.cache != s.cache {
      var op := CacheOp(s, step);
      NearKept(CFG, s.cache, op, key, n);
      NearFound(t.cache, key, n + 1);
      SameEntry(s.cache, op, key);
      if IsWrite(op) {
        StoreWrites(s, step);
      }
    }
  }

  lemma NearFound(list: seq<Entry<Key, Id>>, key: Key, n: nat)
    requires Near(list, key, n)
    ensures Find(list, key) >= 0
  {
  }

  lemma {:induction false} StaysHeld(run: seq<State>, steps: seq<Step>, j: nat, l: nat)
    requires IsRun(run, steps) && j < l < |run| && steps[j].Store? && !run[j + 1].crashed
    requires Kept(Awaiting(run[j], steps[j].fid)) && Uses(steps, j + 1, l) < 65535
    ensures Holds(run[l], run[j].flights[steps[j].fid].key, run[j].clock, Uses(steps, j + 1, l))
    ensures run[j].clock <= run[l].clock
    decreases l
  {
    hide Inv, Next, Holds, Kept;
    assert Can(run[j], steps[j]);
    if l == j + 1 {
      RunInv(run, steps, j);
      CrashStep(run[j], steps[j]);
      StoreHolds(run[j], steps[j].fid);
      CacheStep(run[j], steps[j]);
    } else {
      StaysHeld(run, steps, j, l - 1);
      RunInv(run, steps, l - 1);
      CacheStep(run[l - 1], steps[l - 1]);
      StepHolds(run[l - 1], steps[l - 1], run[j].flights[steps[j].fid].key, run[j].clock, Uses(steps, j + 1, l - 1));
    }
  }

  lemma StoreHolds(s: State, fid: nat)
    requires Inv(s) && Can(s, Store(fid)) && Awaiting(s, fid).questions != [] && Kept(Awaiting(s, fid))
    ensures Holds(Next(s, Store(fid)), s.flights[fid].key, s.clock, 0)
  {
    hide Inv, Can, Next, Kept, Records, Near;
    StoreCaches(s, fid);
  }

  lemma LookupHits(s: State, cid: nat, time: nat, n: nat)
    requires Can(s, Lookup(cid)) && Holds(s, s.calls[cid].key, time, n)
    ensures var t := Next(s, Lookup(cid)); var pc := t.calls[cid].pc;
            && pc.Holding? && pc.id in s.role && pc.id in s.heap && s.role[pc.id].Cached?
            && s.role[pc.id].key == s.calls[cid].key == t.calls[cid].key && s.role[pc.id].at >= time
    ensures cid in Next(s, Lookup(cid)).calls
  {
    hide Find, Without;
  }

  /** A reply that was stored and is of a kind that is kept is found by a later lookup of its key, as long as fewer
      than 65535 stores and lookups lie between: the lookup hits, and what it gets is a reply to that question stored
      no earlier. */
  lemma FoundAgain(run: seq<State>, steps: seq<Step>, j: nat, l: nat)
    requires IsRun(run, steps) && j < l < |steps| && steps[j].Store? && steps[l].Lookup?
    requires Kept(Awaiting(run[j], steps[j].fid)) && Uses(steps, j + 1, l) < 65535
    requires run[l].calls[steps[l].cid].key == run[j].flights[steps[j].fid].key
    ensures var c := run[l + 1].calls[steps[l].cid];
            && c.pc.Holding? && c.pc.id in run[l].heap && c.key == run[l].calls[steps[l].cid].key
            && exists at :: at >= run[j].clock && WasStored(run, steps, l, c.key, run[l].heap[c.pc.id], at)
  {
    hide Inv, Next, Holds, Kept, WasStored;
    AliveBeforeEnd(run, steps, j + 1);
    StaysHeld(run, steps, j, l);
    LookupHits(run[l], steps[l].cid, run[j].clock, Uses(steps, j + 1, l));
    CachedWereStored(run, steps, l, run[l + 1].calls[steps[l].cid].pc.id);
  }

  // ----- refreshed -----

  lemma {:induction false} FreshNumber(used: set<nat>) returns (n: nat)
    ensures forall k :: k in used ==> k < n
  {
    if used == {} {
      n := 0;
    } else {
      var k :| k in used;
      var m := FreshNumber(used - {k});
      n := if k < m then m else k + 1;
      assert forall x :: x in used ==> x == k || x in used - {k};
    }
  }

  /** A call without an entry can always join a fetch. */
  lemma CanJoin(s: State, cid: nat) returns (fid: nat)
    requires Inv(s) && !s.crashed && cid in s.calls && s.calls[cid].pc == Missing
    ensures Can(s, Join(cid, fid))
  {
    hide HeapInv, GenuineInv, CacheInv, CallsInv;
    var key := s.calls[cid].key;
    if key in s.active {
      fid := s.active[key];
    } else {
      fid := FreshNumber(s.flights.Keys);
    }
  }

  lemma RewriteRefreshes(s: State, step: Step)
    requires Inv(s) && Can(s, step) && step.Rewrite?
    ensures var c, t := s.calls[step.cid], Next(s, step);
            && step.refresher !in s.calls && Records(s.heap[c.pc.own]) != []
            && var ttl := Records(s.heap[c.pc.own])[0].ttl;
            (if (c.pc.at + ttl * 1_000_000_000) / 1_000_000_000 * 1_000_000_000 < s.clock
             then step.refresher in t.calls && t.calls[step.refresher] == Call(c.key, Missing)
             else step.refresher !in t.calls)
  {
    hide Inv, SetTtl, HitTtl, FirstTtl, Records;
    CopiedSource(s, step.cid);
    FirstTtlIsFirst(s.heap[s.calls[step.cid].pc.own]);
  }

  /** A hit starts a background fetch for its question if and only if the entry is stale by then, and that fetch can
      go ahead at once. */
  lemma StaleRefreshes(run: seq<State>, steps: seq<Step>, i: nat)
    requires IsRun(run, steps) && i < |steps| && steps[i].Rewrite?
    ensures var s, t, c := run[i], run[i + 1], run[i].calls[steps[i].cid];
            && Records(s.heap[c.pc.own]) != []
            && var ttl := Records(s.heap[c.pc.own])[0].ttl;
            && (steps[i].refresher in t.calls <==>
                (c.pc.at + ttl * 1_000_000_000) / 1_000_000_000 * 1_000_000_000 < s.clock)
            && (steps[i].refresher in t.calls ==>
                  t.calls[steps[i].refresher].key == c.key && exists fid :: Can(t, Join(steps[i].refresher, fid)))
  {
    hide Inv, Next, Records;
    RunInv(run, steps, i);
    RunInv(run, steps, i + 1);
    RewriteRefreshes(run[i], steps[i]);
    if steps[i].refresher in run[i + 1].calls {
      CrashStep(run[i], steps[i]);
      var fid := CanJoin(run[i + 1], steps[i].refresher);
    }
  }

  // ----- no call is ever stuck -----

  ghost predicate Leads(s: State, steps: seq<Step>, t: State)
    decreases |steps|
  {
    if steps == [] then t == s else Can(s, steps[0]) && Leads(Next(s, steps[0]), steps[1..], t)
  }

  predicate Ended(s: State, cid: nat) {
    cid in s.calls && (s.calls[cid].pc.Got? || s.calls[cid].pc.Failed?)
  }

  function StageLeft(stage: Stage): nat {
    match stage
    case Waiting => 6
    case Replied(_) => 5
    case Stored(_) => 4
    case Landed(_) => 3
  }

  /** How far a call is from its end. */
  function Left(s: State, cid: nat): nat
    requires cid in s.calls
  {
    match s.calls[cid].pc
    case Asking => 8
    case Missing => 7
    case Joined(fid) => if fid in s.flights then StageLeft(s.flights[fid].stage) else 0
    case Holding(_, _) => 2
    case Copied(_, _, _) => 1
    case _ => 0
  }

  /** Every reply that waits to be stored has a question, so that storing it does no harm. */
  ghost predicate Asked(s: State) {
    forall fid {:trigger Awaits(s, fid)} :: Awaits(s, fid) ==> Awaiting(s, fid).questions != []
  }

  /** A step that brings the call closer to its end. */
  ghost predicate Helps(s: State, cid: nat, step: Step)
    requires cid in s.calls
  {
    && Can(s, step) && (step.Reply? ==> step.msg.questions != [])
    && cid in Next(s, step).calls && Left(Next(s, step), cid) < Left(s, cid)
    && (step.Store? ==> Awaits(s, step.fid) && Awaiting(s, step.fid).questions != [])
  }

  lemma AskingHelped(s: State, cid: nat)
    requires Inv(s) && !s.crashed && cid in s.calls && s.calls[cid].pc == Asking
    ensures Helps(s, cid, Lookup(cid))
  {
    hide Inv, GetEntry;
  }

  lemma HitHelped(s: State, cid: nat) returns (step: Step)
    requires Inv(s) && !s.crashed && cid in s.calls && (s.calls[cid].pc.Holding? || s.calls[cid].pc.Copied?)
    ensures Helps(s, cid, step)
  {
    hide Inv, SetTtl, HitTtl;
    if s.calls[cid].pc.Holding? {
      HeldWasCached(s, cid);
      step := CopyHit(cid);
    } else {
      CopiedSource(s, cid);
      var refresher := FreshNumber(s.calls.Keys);
      step := Rewrite(cid, refresher);
    }
  }

  lemma MissHelped(s: State, cid: nat) returns (step: Step)
    requires Inv(s) && !s.crashed && cid in s.calls && s.calls[cid].pc == Missing
    ensures Helps(s, cid, step)
  {
    hide Inv;
    var fid := CanJoin(s, cid);
    step := Join(cid, fid);
  }

  lemma WaitingHelped(s: State, cid: nat) returns (step: Step)
    requires Inv(s) && !s.crashed && Asked(s) && cid in s.calls && s.calls[cid].pc.Joined?
    ensures Helps(s, cid, step)
  {
    hide Inv, SetWithExpire, Cacheable, FirstTtl, Expiry;
    JoinedFlight(s, cid);
    var fid := s.calls[cid].pc.fid;
    match s.flights[fid].stage {
      case Waiting => step := Step.Reply(fid, Msg([Question([], 0)], [], [], []));
      case Replied(_) =>
        assert Awaits(s, fid);
        step := Store(fid);
      case Stored(_) => step := Land(fid);
      case Landed(_) => step := Deliver(cid);
    }
  }

  lemma JoinedFlight(s: State, cid: nat)
    requires Inv(s) && cid in s.calls && s.calls[cid].pc.Joined?
    ensures var fid := s.calls[cid].pc.fid;
            fid in s.flights && (s.flights[fid].Reply().Some? ==> s.flights[fid].Reply().value in s.heap)
  {
    hide HeapInv, GenuineInv, CacheInv, FlightsInv;
    assert CallOk(s, cid, s.calls[cid]);
  }

  lemma Help(s: State, cid: nat) returns (step: Step)
    requires Inv(s) && !s.crashed && Asked(s) && cid in s.calls && !Ended(s, cid)
    ensures Helps(s, cid, step)
  {
    hide Inv, Helps, Asked;
    match s.calls[cid].pc {
      case Asking =>
        AskingHelped(s, cid);
        step := Lookup(cid);
      case Missing => step := MissHelped(s, cid);
      case Holding(_, _) => step := HitHelped(s, cid);
      case Copied(_, _, _) => step := HitHelped(s, cid);
      case Joined(_) => step := WaitingHelped(s, cid);
    }
  }

  lemma HelpKeepsAsked(s: State, step: Step)
    requires Inv(s) && Can(s, step) && Asked(s)
    requires step.Reply? ==> step.msg.questions != []
    requires step.Store? ==> Awaits(s, step.fid) && Awaiting(s, step.fid).questions != []
    ensures Asked(Next(s, step)) && !Next(s, step).crashed
  {
    hide Inv, Can, Next, Awaiting;
    CrashStep(s, step);
    var t := Next(s, step);
    forall fid | Awaits(t, fid) ensures Awaiting(t, fid).questions != [] {
      if step.Reply? && step.fid == fid {
        ReplyStep(s, fid, step.msg);
      } else if step == Store(fid) {
        AfterStore(s, fid);
      } else {
        AwaitingStays(s, step, fid);
      }
    }
  }

  lemma {:induction false} Finish(s: State, cid: nat) returns (steps: seq<Step>, t: State)
    requires Inv(s) && !s.crashed && Asked(s) && cid in s.calls
    ensures Leads(s, steps, t) && Ended(t, cid) && !t.crashed
    decreases Left(s, cid)
  {
    if Ended(s, cid) {
      steps, t := [], s;
    } else {
      hide Inv, Can, Next, Asked, Ended, Left;
      var step := Help(s, cid);
      HelpKeepsAsked(s, step);
      StepKeeps(s, step);
      steps, t := Finish(Next(s, step), cid);
      assert ([step] + steps)[1..] == steps;
      steps := [step] + steps;
    }
  }

  /** From every reachable state in which no reply without a question waits to be stored, every call can be brought to
      its end: the guards of the model never leave one stuck, whatever the other calls and fetches are doing. */
  lemma NoCallStuck(run: seq<State>, steps: seq<Step>, i: nat, cid: nat) returns (more: seq<Step>, t: State)
    requires IsRun(run, steps) && i < |run| && !run[i].crashed && cid in run[i].calls && Asked(run[i])
    ensures Leads(run[i], more, t) && !t.crashed
    ensures cid in t.calls && (t.calls[cid].pc.Got? || t.calls[cid].pc.Failed?)
  {
    hide IsRun, Inv, Asked, Leads;
    RunInv(run, steps, i);
    more, t := Finish(run[i], cid);
  }

  // ----- a fetch that fails -----

  lemma FailedStays(s: State, step: Step, fid: nat)
    requires Can(s, step) && fid in s.flights && s.flights[fid].stage == Landed(None)
    ensures fid in Next(s, step).flights && Next(s, step).flights[fid].stage == Landed(None)
    ensures Next(s, step).flights[fid].key == s.flights[fid].key
  {
    hide SetWithExpire, GetEntry, SetTtl, Cacheable, FirstTtl, Expiry;
  }

  lemma {:induction false} RunFailed(run: seq<State>, steps: seq<Step>, i: nat, j: nat, fid: nat)
    requires IsRun(run, steps) && i < j < |run| && steps[i] == ReplyError(fid)
    ensures fid in run[j].flights && run[j].flights[fid].stage == Landed(None)
    decreases j
  {
    hide Can, Next;
    if j == i + 1 {
      ErrorLands(run[i], fid);
    } else {
      RunFailed(run, steps, i, j - 1, fid);
      FailedStays(run[j - 1], steps[j - 1], fid);
    }
  }

  lemma ErrorLands(s: State, fid: nat)
    requires Can(s, ReplyError(fid))
    ensures fid in Next(s, ReplyError(fid)).flights && Next(s, ReplyError(fid)).flights[fid].stage == Landed(None)
    ensures s.flights[fid].key !in Next(s, ReplyError(fid)).active
  {
  }

  /** A fetch that waits upstream can fail at any time. Then everyone waiting for it can be told, and whoever is told,
      at whatever time, fails; the next call for the key starts a fetch of its own. */
  lemma FailureReachesAll(run: seq<State>, steps: seq<Step>, i: nat, fid: nat)
    requires IsRun(run, steps) && i < |run| && !run[i].crashed && fid in run[i].flights
    ensures run[i].flights[fid].stage == Waiting <==> Can(run[i], ReplyError(fid))
    ensures Can(run[i], ReplyError(fid)) ==> run[i].flights[fid].key !in Next(run[i], ReplyError(fid)).active
    ensures forall k, cid :: (0 <= k < i && steps[k] == ReplyError(fid) && cid in run[i].calls &&
                              run[i].calls[cid].pc == Joined(fid)) ==>
              Can(run[i], Deliver(cid)) && Next(run[i], Deliver(cid)) == Goto(run[i], cid, Failed)
  {
    assert |run| == |steps| + 1;
    hide IsRun;
    forall k | 0 <= k < i && steps[k] == ReplyError(fid) ensures run[i].flights[fid].stage == Landed(None) {
      RunFailed(run, steps, k, i, fid);
    }
  }
}
