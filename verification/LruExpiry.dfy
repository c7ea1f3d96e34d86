/** Age eviction stops at the first unexpired entry, so it is complete only where expiries are sorted. */
module LruExpiry {
  import opened Bytes
  import opened LruSpec

  ghost predicate Sorted<K, V>(list: seq<Entry<K, V>>) {
    forall i, j :: 0 <= i < j < |list| ==> list[i].expires <= list[j].expires
  }

  ghost predicate NoneExpired<K, V>(list: seq<Entry<K, V>>, now: int) {
    forall i :: 0 <= i < |list| ==> list[i].expires > now
  }

  /** The first clock reading of an operation that reads the clock; the last is `t2`. */
  function FirstReading<K, V>(op: Op<K, V>): int
    requires !op.Delete?
  {
    if op.SetAt? then op.t2 else op.t1
  }

  /** A sequential history under a clock that never goes back. */
  ghost predicate Clocked<K, V>(ops: seq<Op<K, V>>) {
    && (forall i :: 0 <= i < |ops| && !ops[i].Delete? ==> FirstReading(ops[i]) <= ops[i].t2)
    && (forall i, j :: 0 <= i < j < |ops| && !ops[i].Delete? && !ops[j].Delete? ==>
          ops[i].t2 <= FirstReading(ops[j]))
  }

  /** No expiry comes from outside: a history of `Set`, `Get` and `Delete`. */
  ghost predicate OwnExpiries<K, V>(ops: seq<Op<K, V>>) {
    forall i :: 0 <= i < |ops| ==> !ops[i].SetAt?
  }

  /** No expiry lies further ahead than the maximum age. */
  ghost predicate Bounded<K, V>(cfg: Config, list: seq<Entry<K, V>>, now: int) {
    forall i :: 0 <= i < |list| ==> list[i].expires <= now + cfg.maxAge
  }

  lemma SuffixSorted<K, V>(list: seq<Entry<K, V>>, n: nat)
    requires n <= |list|
    ensures Sorted(list) ==> Sorted(list[n..])
    ensures forall cfg, now :: Bounded(cfg, list, now) ==> Bounded(cfg, list[n..], now)
  {
  }

  lemma WithoutSorted<K, V>(list: seq<Entry<K, V>>, i: nat)
    requires i < |list|
    ensures Sorted(list) ==> Sorted(Without(list, i))
    ensures forall cfg, now :: Bounded(cfg, list, now) ==> Bounded(cfg, Without(list, i), now)
  {
    var r := Without(list, i);
    assert forall j :: 0 <= j < |r| ==> r[j] == if j < i then list[j] else list[j + 1];
  }

  lemma SnocSorted<K, V>(cfg: Config, list: seq<Entry<K, V>>, e: Entry<K, V>, now: int)
    requires Bounded(cfg, list, now)
    ensures e.expires <= now + cfg.maxAge ==> Bounded(cfg, list + [e], now)
    ensures Sorted(list) && e.expires >= now + cfg.maxAge ==> Sorted(list + [e])
  {
  }

  lemma Later<K, V>(cfg: Config, list: seq<Entry<K, V>>, now: int, later: int)
    requires Bounded(cfg, list, now) && now <= later
    ensures Bounded(cfg, list, later)
  {
  }

  /** A `Set` keeps expiries bounded, and sorted if they were: the new one is the largest. */
  lemma SetSorted<K, V>(cfg: Config, list: seq<Entry<K, V>>, op: Op<K, V>, now: int)
    requires cfg.Ages() && op.Set? && now <= op.t1 <= op.t2 && Bounded(cfg, list, now)
    ensures var list' := Apply(cfg, list, op).list;
            && Bounded(cfg, list', op.t2)
            && (Sorted(list) ==> Sorted(list') && NoneExpired(list', op.t2))
  {
    hide Find, Without, Bounded, Sorted, ExpiredPrefix;
    Later(cfg, list, now, op.t1);
    var i := Find(list, op.key);
    var e := Entry(op.key, op.value, op.t1 + cfg.maxAge);
    if i >= 0 {
      WithoutSorted(list, i);
    }
    var rest := if i >= 0 then Without(list, i) else list;
    SnocSorted(cfg, rest, e, op.t1);
    var grown := rest + [e];
    var over := if i < 0 && cfg.maxSize > 0 && |grown| > cfg.maxSize then 1 else 0;
    SuffixSorted(grown, over);
    AgingSorted(cfg, grown[over..], op.t1, op.t2);
  }

  /** Deleting the expired prefix of a sorted list leaves nothing expired. */
  lemma AgingSorted<K, V>(cfg: Config, list: seq<Entry<K, V>>, now: int, later: int)
    requires cfg.Ages() && Bounded(cfg, list, now) && now <= later
    ensures var list' := DeleteOldest(cfg, list, later).list;
            && Bounded(cfg, list', later)
            && (Sorted(list) ==> Sorted(list') && NoneExpired(list', later))
  {
    var n := ExpiredPrefix(list, later);
    SuffixSorted(list, n);
    Later(cfg, list[n..], now, later);
  }

  /** Reads move the entry they hit to the back without breaking the order. */
  predicate ReadsKeepOrder(cfg: Config) {
    cfg.updateAgeOnGet || cfg.maxAge == 1
  }

  lemma GetSorted<K, V>(cfg: Config, list: seq<Entry<K, V>>, op: Op<K, V>, now: int)
    requires cfg.Ages() && op.Get? && now <= op.t1 <= op.t2 && Bounded(cfg, list, now)
    ensures var list' := Apply(cfg, list, op).list;
            && Bounded(cfg, list', op.t2)
            && (Sorted(list) && ReadsKeepOrder(cfg) ==> Sorted(list'))
  {
    hide Find, Without, Bounded, Sorted, ExpiredPrefix;
    Later(cfg, list, now, op.t2);
    var i := Find(list, op.key);
    if i >= 0 {
      WithoutSorted(list, i);
      var rest := Without(list, i);
      AgingSorted(cfg, rest, op.t2, op.t2);
      SnocSorted(cfg, rest, list[i].(expires := op.t2 + cfg.maxAge), op.t2);
      EntryBound(cfg, list, i, now);
      SnocSorted(cfg, rest, list[i], op.t2);
      SnocSorted(cfg, rest, list[i], now);
    }
  }

  lemma EntryBound<K, V>(cfg: Config, list: seq<Entry<K, V>>, i: nat, now: int)
    requires Bounded(cfg, list, now) && i < |list|
    ensures list[i].expires <= now + cfg.maxAge
  {
  }

  lemma DeleteSorted<K, V>(cfg: Config, list: seq<Entry<K, V>>, op: Op<K, V>)
    requires op.Delete?
    ensures var list' := Apply(cfg, list, op).list;
            && (forall now :: Bounded(cfg, list, now) ==> Bounded(cfg, list', now))
            && (Sorted(list) ==> Sorted(list'))
  {
    hide Find, Without, Bounded, Sorted;
    var i := Find(list, op.key);
    if i >= 0 {
      WithoutSorted(list, i);
    }
  }

  /** The last clock reading of a history, if there is any. */
  function Now<K, V>(ops: seq<Op<K, V>>): Option<int> {
    if ops == [] then None
    else if ops[|ops| - 1].Delete? then Now(ops[..|ops| - 1])
    else Some(ops[|ops| - 1].t2)
  }

  lemma {:induction false} NowIsRead<K, V>(ops: seq<Op<K, V>>)
    ensures Now(ops).Some? ==> exists i :: 0 <= i < |ops| && !ops[i].Delete? && Now(ops) == Some(ops[i].t2)
  {
    if ops != [] && ops[|ops| - 1].Delete? {
      NowIsRead(ops[..|ops| - 1]);
    }
  }

  lemma FrontClocked<K, V>(ops: seq<Op<K, V>>)
    requires Clocked(ops) && ops != []
    ensures var front, op := ops[..|ops| - 1], ops[|ops| - 1];
            && Clocked(front) && (OwnExpiries(ops) ==> OwnExpiries(front) && !op.SetAt?)
            && (!op.Delete? ==> FirstReading(op) <= op.t2)
            && (!op.Delete? && Now(front).Some? ==> Now(front).value <= FirstReading(op))
  {
    NowIsRead(ops[..|ops| - 1]);
  }

  /** In every clocked history of `Set`, `Get` and `Delete` expiries are bounded; where reads keep the order, they
      are sorted. */
  lemma {:induction false} RunSorted<K, V>(cfg: Config, ops: seq<Op<K, V>>)
    requires cfg.Ages() && Clocked(ops) && OwnExpiries(ops)
    ensures Now(ops).Some? ==> Bounded(cfg, Run(cfg, ops).list, Now(ops).value)
    ensures Now(ops).None? ==> Run(cfg, ops).list == []
    ensures ReadsKeepOrder(cfg) || cfg.maxSize == 1 ==> Sorted(Run(cfg, ops).list)
  {
    RunWellFormed(cfg, ops);
    hide Clocked, OwnExpiries, Bounded;
    if ops != [] {
      hide Apply;
      FrontClocked(ops);
      var front, op := ops[..|ops| - 1], ops[|ops| - 1];
      RunSorted(cfg, front);
      var list := Run(cfg, front).list;
      if op.Delete? {
        DeleteSorted(cfg, list, op);
        DeleteFromNothing(cfg, op);
      } else {
        var now := if Now(front).None? then op.t1 else Now(front).value;
        EmptyBounded<K, V>(cfg, now);
        if op.Set? {
          SetSorted(cfg, list, op, now);
        } else {
          GetSorted(cfg, list, op, now);
        }
      }
    }
  }

  lemma DeleteFromNothing<K, V>(cfg: Config, op: Op<K, V>)
    requires op.Delete?
    ensures Apply(cfg, [], op).list == []
  {
  }

  lemma EmptyBounded<K, V>(cfg: Config, now: int)
    ensures Bounded<K, V>(cfg, [], now)
  {
  }

  // ----- exactly when the order holds -----

  ghost predicate AlwaysSorted<K(!new), V(!new)>(cfg: Config) {
    forall ops: seq<Op<K, V>> :: Clocked(ops) && OwnExpiries(ops) ==> Sorted(Run(cfg, ops).list)
  }

  /** Set a, set b one second later, read a: now b is in front of a but expires after it. */
  function OutOfOrder<K, V>(a: K, b: K, v: V): seq<Op<K, V>> {
    [Op.Set(a, v, 0, 0), Op.Set(b, v, 1, 1), Op.Get(a, 1, 1)]
  }

  lemma RunSnoc<K, V>(cfg: Config, ops: seq<Op<K, V>>, op: Op<K, V>)
    ensures Run(cfg, ops + [op]).list == Apply(cfg, Run(cfg, ops).list, op).list
  {
    assert (ops + [op])[..|ops|] == ops;
  }

  lemma NothingExpiredInFront<K, V>(cfg: Config, list: seq<Entry<K, V>>, now: int)
    requires list != [] && list[0].expires > now
    ensures DeleteOldest(cfg, list, now).list == list
  {
    assert ExpiredPrefix(list, now) == 0;
  }

  lemma PlacedLast<K, V>(cfg: Config, list: seq<Entry<K, V>>, e: Entry<K, V>)
    requires Find(list, e.key) < 0 && !(0 < cfg.maxSize <= |list|)
    ensures Place(cfg, list, e).list == list + [e]
  {
    hide Find, Without;
  }

  lemma FreshSet<K, V>(cfg: Config, list: seq<Entry<K, V>>, op: Op<K, V>)
    requires cfg.Ages() && op.Set? && Find(list, op.key) < 0 && !(0 < cfg.maxSize <= |list|)
    requires op.t2 < op.t1 + cfg.maxAge && (list != [] ==> list[0].expires > op.t2)
    ensures Apply(cfg, list, op).list == list + [Entry(op.key, op.value, op.t1 + cfg.maxAge)]
  {
    hide Find, Without, DeleteOldest, Place;
    var e := Entry(op.key, op.value, op.t1 + cfg.maxAge);
    NothingExpiredInFront(cfg, list + [e], op.t2);
    PlacedLast(cfg, list, e);
  }

  lemma FreshGet<K, V>(cfg: Config, x: Entry<K, V>, y: Entry<K, V>, op: Op<K, V>)
    requires cfg.Ages() && !cfg.updateAgeOnGet && op.Get? && op.key == x.key && x.expires > op.t1
    ensures Apply(cfg, [x, y], op).list == [y, x]
  {
    assert Find([x, y], op.key) == 0;
    assert Without([x, y], 0) == [y];
  }

  lemma OutOfOrderList<K, V>(cfg: Config, a: K, b: K, v: V)
    requires a != b && cfg.Ages() && !cfg.updateAgeOnGet && cfg.maxAge >= 2 && cfg.maxSize != 1
    ensures Run(cfg, OutOfOrder(a, b, v)).list == [Entry(b, v, 1 + cfg.maxAge), Entry(a, v, cfg.maxAge)]
  {
    hide Apply;
    var A := cfg.maxAge;
    var ops := OutOfOrder(a, b, v);
    RunSnoc(cfg, [], ops[0]);
    RunSnoc(cfg, [] + [ops[0]], ops[1]);
    RunSnoc(cfg, [] + [ops[0]] + [ops[1]], ops[2]);
    assert ops == [] + [ops[0]] + [ops[1]] + [ops[2]];
    FreshSet(cfg, [], ops[0]);
    assert [] + [Entry(a, v, A)] == [Entry(a, v, A)];
    FreshSet(cfg, [Entry(a, v, A)], ops[1]);
    assert [Entry(a, v, A)] + [Entry(b, v, 1 + A)] == [Entry(a, v, A), Entry(b, v, 1 + A)];
    FreshGet(cfg, Entry(a, v, A), Entry(b, v, 1 + A), ops[2]);
  }

  /** With aging on, expiries stay sorted in every clocked history of `Set`, `Get` and `Delete` if and only if
      reads renew the age, or the age is one second, or there is room for one entry only. */
  lemma SortedExactlyWhen<K(!new), V(!new)>(cfg: Config, a: K, b: K, v: V)
    requires cfg.Ages() && a != b
    ensures AlwaysSorted<K, V>(cfg) <==> ReadsKeepOrder(cfg) || cfg.maxSize == 1
  {
    if ReadsKeepOrder(cfg) || cfg.maxSize == 1 {
      forall ops: seq<Op<K, V>> | Clocked(ops) && OwnExpiries(ops) ensures Sorted(Run(cfg, ops).list) {
        RunSorted(cfg, ops);
      }
    } else {
      var ops := OutOfOrder(a, b, v);
      assert Clocked(ops) && OwnExpiries(ops);
      OutOfOrderList(cfg, a, b, v);
      var list := Run(cfg, ops).list;
      assert list[0].expires > list[1].expires;
      assert !Sorted(list);
    }
  }

  // ----- exactly when eviction by age is complete -----

  /** This `Get` finds its key expired, so it evicts. */
  predicate FindsExpired<K(==), V>(cfg: Config, list: seq<Entry<K, V>>, op: Op<K, V>) {
    op.Get? && var i := Find(list, op.key); i >= 0 && list[i].expires <= op.t1
  }

  /** After every `Set`, and every `Get` that finds its key expired, nothing expired is left anywhere. */
  ghost predicate AlwaysClean<K(!new), V(!new)>(cfg: Config) {
    forall ops: seq<Op<K, V>>, op: Op<K, V> {:trigger ops + [op]} ::
      Clocked(ops + [op]) && OwnExpiries(ops + [op]) && (op.Set? || FindsExpired(cfg, Run(cfg, ops).list, op)) ==>
        NoneExpired(Run(cfg, ops + [op]).list, op.t2)
  }

  predicate EvictionComplete(cfg: Config) {
    ReadsKeepOrder(cfg) || 1 <= cfg.maxSize <= 2
  }

  /** With at most two entries the one just set is last and largest, so order is never an issue. */
  lemma SetShort<K, V>(cfg: Config, list: seq<Entry<K, V>>, op: Op<K, V>, now: int)
    requires cfg.Ages() && op.Set? && now <= op.t1 <= op.t2 && Bounded(cfg, list, now)
    requires 1 <= cfg.maxSize <= 2 && |list| <= cfg.maxSize
    ensures NoneExpired(Apply(cfg, list, op).list, op.t2)
  {
    hide Find, Without, DeleteOldest, Bounded, Sorted, NoneExpired;
    Later(cfg, list, now, op.t1);
    var i := Find(list, op.key);
    var e := Entry(op.key, op.value, op.t1 + cfg.maxAge);
    if i >= 0 {
      WithoutSorted(list, i);
    }
    var rest := if i >= 0 then Without(list, i) else list;
    var over := if i < 0 && cfg.maxSize > 0 && |rest + [e]| > cfg.maxSize then 1 else 0;
    SuffixSorted(rest, over);
    assert (rest + [e])[over..] == rest[over..] + [e];
    OneSorted(rest[over..]);
    SnocSorted(cfg, rest[over..], e, op.t1);
    AgingSorted(cfg, (rest + [e])[over..], op.t1, op.t2);
  }

  lemma OneSorted<K, V>(list: seq<Entry<K, V>>)
    requires |list| <= 1
    ensures Sorted(list)
  {
  }

  lemma ExpiredGetCleans<K, V>(cfg: Config, list: seq<Entry<K, V>>, op: Op<K, V>, now: int)
    requires cfg.Ages() && FindsExpired(cfg, list, op) && now <= op.t1 <= op.t2 && Bounded(cfg, list, now)
    requires Sorted(list) || |list| <= 2
    ensures NoneExpired(Apply(cfg, list, op).list, op.t2)
  {
    hide Find, ExpiredPrefix, Bounded, Sorted, Without;
    var i := Find(list, op.key);
    Later(cfg, list, now, op.t2);
    WithoutSorted(list, i);
    if |list| <= 2 {
      OneSorted(Without(list, i));
    }
    AgingSorted(cfg, Without(list, i), op.t2, op.t2);
  }

  lemma StepCleans<K, V>(cfg: Config, ops: seq<Op<K, V>>, op: Op<K, V>)
    requires cfg.Ages() && EvictionComplete(cfg) && Clocked(ops + [op]) && OwnExpiries(ops + [op])
    requires op.Set? || FindsExpired(cfg, Run(cfg, ops).list, op)
    ensures NoneExpired(Run(cfg, ops + [op]).list, op.t2)
  {
    hide Apply, Find, Bounded, Sorted;
    FrontClocked(ops + [op]);
    assert (ops + [op])[..|ops|] == ops;
    RunSnoc(cfg, ops, op);
    RunSorted(cfg, ops);
    RunWellFormed(cfg, ops);
    var list := Run(cfg, ops).list;
    var now := if Now(ops).None? then op.t1 else Now(ops).value;
    EmptyBounded<K, V>(cfg, now);
    if !op.Set? {
      ExpiredGetCleans(cfg, list, op, now);
    } else if ReadsKeepOrder(cfg) {
      SetSorted(cfg, list, op, now);
    } else {
      SetShort(cfg, list, op, now);
    }
  }

  /** With aging on, eviction by age is complete in every clocked history of `Set`, `Get` and `Delete` if and only
      if reads renew the age, or the age is one second, or there is room for at most two entries. */
  lemma CleanExactlyWhen<K(!new), V(!new)>(cfg: Config, a: K, b: K, c: K, v: V)
    requires cfg.Ages() && a != b && b != c && a != c
    ensures AlwaysClean<K, V>(cfg) <==> EvictionComplete(cfg)
  {
    hide Run, Clocked, OwnExpiries, NoneExpired, EvictionComplete, Find;
    if EvictionComplete(cfg) {
      forall ops: seq<Op<K, V>>, op: Op<K, V> |
        Clocked(ops + [op]) && OwnExpiries(ops + [op]) && (op.Set? || FindsExpired(cfg, Run(cfg, ops).list, op))
        ensures NoneExpired(Run(cfg, ops + [op]).list, op.t2)
      {
        StepCleans(cfg, ops, op);
      }
    } else {
      var ops, op := StaleSurvives(cfg, a, b, c, v);
    }
  }

  /** Otherwise: with b in front of the earlier-expiring a, a later `Set` stops at b and leaves a expired. */
  lemma StaleSurvives<K(!new), V(!new)>(cfg: Config, a: K, b: K, c: K, v: V) returns (ops: seq<Op<K, V>>, op: Op<K, V>)
    requires cfg.Ages() && a != b && b != c && a != c && !EvictionComplete(cfg)
    ensures Clocked(ops + [op]) && OwnExpiries(ops + [op]) && op.Set? && !NoneExpired(Run(cfg, ops + [op]).list, op.t2)
  {
    hide Run, Apply;
    var A := cfg.maxAge;
    ops, op := OutOfOrder(a, b, v), Op.Set(c, v, A, A);
    OutOfOrderList(cfg, a, b, v);
    RunSnoc(cfg, ops, op);
    var list := [Entry(b, v, 1 + A), Entry(a, v, A)];
    FreshSet(cfg, list, op);
    assert Run(cfg, ops + [op]).list[1].expires == A;
  }

  // ----- with expiries from outside -----

  ghost predicate AlwaysSortedAny<K(!new), V(!new)>(cfg: Config) {
    forall ops: seq<Op<K, V>> :: Clocked(ops) ==> Sorted(Run(cfg, ops).list)
  }

  ghost predicate AlwaysCleanAny<K(!new), V(!new)>(cfg: Config) {
    forall ops: seq<Op<K, V>>, op: Op<K, V> {:trigger ops + [op]} ::
      Clocked(ops + [op]) && (IsWrite(op) || FindsExpired(cfg, Run(cfg, ops).list, op)) ==>
        NoneExpired(Run(cfg, ops + [op]).list, op.t2)
  }

  /** Once `SetWithExpire` may give any expiry, both the order and complete eviction hold in every clocked history
      if and only if there is room for one entry only. */
  lemma AnyExpiryExactlyWhen<K(!new), V(!new)>(cfg: Config, a: K, b: K, v: V)
    requires cfg.Ages() && a != b
    ensures AlwaysSortedAny<K, V>(cfg) <==> cfg.maxSize == 1
    ensures AlwaysCleanAny<K, V>(cfg) <==> cfg.maxSize == 1
  {
    hide Run, Apply, Clocked, NoneExpired, Find;
    if cfg.maxSize == 1 {
      forall ops: seq<Op<K, V>> | Clocked(ops) ensures Sorted(Run(cfg, ops).list) {
        RunWellFormed(cfg, ops);
      }
      forall ops: seq<Op<K, V>>, op: Op<K, V> |
        Clocked(ops + [op]) && (IsWrite(op) || FindsExpired(cfg, Run(cfg, ops).list, op))
        ensures NoneExpired(Run(cfg, ops + [op]).list, op.t2)
      {
        RunWellFormed(cfg, ops + [op]);
        RunSnoc(cfg, ops, op);
        OneIsClean(cfg, Run(cfg, ops).list, op);
      }
    } else {
      var ops, op := EarlierBehindLater(cfg, a, b, v);
    }
  }

  /** An eviction that leaves at most one entry leaves nothing expired. */
  lemma OneIsClean<K, V>(cfg: Config, list: seq<Entry<K, V>>, op: Op<K, V>)
    requires cfg.Ages() && (IsWrite(op) || FindsExpired(cfg, list, op)) && |Apply(cfg, list, op).list| <= 1
    ensures NoneExpired(Apply(cfg, list, op).list, op.t2)
  {
    hide Find, Without, ExpiredPrefix, Place;
  }

  /** The failing history: an entry that expires earlier is put behind one that expires later. */
  lemma EarlierBehindLater<K(!new), V(!new)>(cfg: Config, a: K, b: K, v: V) returns (ops: seq<Op<K, V>>, op: Op<K, V>)
    requires cfg.Ages() && a != b && cfg.maxSize != 1
    ensures Clocked(ops + [op]) && op.SetAt?
    ensures !Sorted(Run(cfg, ops + [op]).list) && !NoneExpired(Run(cfg, ops + [op]).list, op.t2)
  {
    hide Run, Apply;
    var first := Op.SetAt(a, v, 2, 0);
    ops, op := [] + [first], Op.SetAt(b, v, 1, 1);
    RunNothing<K, V>(cfg);
    RunSnoc(cfg, [], first);
    FreshPut(cfg, [], first);
    assert [] + [Entry(a, v, 2)] == [Entry(a, v, 2)];
    RunSnoc(cfg, ops, op);
    FreshPut(cfg, [Entry(a, v, 2)], op);
    var list := Run(cfg, ops + [op]).list;
    assert list == [Entry(a, v, 2), Entry(b, v, 1)];
    assert list[0].expires > list[1].expires && list[1].expires <= 1;
  }

  lemma FreshPut<K, V>(cfg: Config, list: seq<Entry<K, V>>, op: Op<K, V>)
    requires cfg.Ages() && op.SetAt? && Find(list, op.key) < 0 && !(0 < cfg.maxSize <= |list|)
    requires (if list == [] then op.expires else list[0].expires) > op.t2
    ensures Apply(cfg, list, op).list == list + [Entry(op.key, op.value, op.expires)]
  {
    hide Find, Without, DeleteOldest, Place;
    var e := Entry(op.key, op.value, op.expires);
    NothingExpiredInFront(cfg, list + [e], op.t2);
    PlacedLast(cfg, list, e);
  }

  // ----- the age-blind lookup that `GetWithExpire` is documented to be -----

  /** As documented: no age is checked and none is renewed; only the entry moves to the back. */
  function AgeBlind<K(==), V>(list: seq<Entry<K, V>>, key: K): (Option<Entry<K, V>>, Outcome<K, V>) {
    var i := Find(list, key);
    if i < 0 then (None, Outcome(list, []))
    else (Some(list[i]), Outcome(Without(list, i) + [list[i]], []))
  }

  /** On one list at one time the lookup is as documented exactly when the key is missing, or its entry is not
      evicted and the expiry a renewal would give it is the one it has. */
  lemma AgeBlindExactlyWhen<K, V>(cfg: Config, list: seq<Entry<K, V>>, key: K, t1: int, t2: int)
    ensures GetEntry(cfg, list, key, t1, t2) == AgeBlind(list, key) <==>
            var i := Find(list, key);
            i >= 0 ==>
              && !(cfg.Ages() && list[i].expires <= t1)
              && (Renews(cfg, list[i].expires, t1) ==> list[i].expires == t2 + cfg.maxAge)
  {
    hide Find, DeleteOldest;
    var i := Find(list, key);
    if i >= 0 {
      assert list[i].(expires := list[i].expires) == list[i];
    }
  }

  ghost predicate AlwaysAgeBlind<K(!new), V(!new)>(cfg: Config) {
    forall ops: seq<Op<K, V>>, key: K, t1: int, t2: int {:trigger ops + [Op.Get(key, t1, t2)]} ::
      Clocked(ops + [Op.Get(key, t1, t2)]) ==>
        GetEntry(cfg, Run(cfg, ops).list, key, t1, t2) == AgeBlind(Run(cfg, ops).list, key)
  }

  predicate IgnoresAge(cfg: Config) {
    cfg.maxAge <= 0 || (cfg.staleReturn && !cfg.updateAgeOnGet)
  }

  /** `GetWithExpire` does what its comment says in every clocked history if and only if no age is configured,
      or stale entries are returned and reads do not renew. Otherwise one write and a read after exactly the
      maximum age show the difference. */
  lemma DocumentedExactlyWhen<K(!new), V(!new)>(cfg: Config, a: K, v: V)
    ensures AlwaysAgeBlind<K, V>(cfg) <==> IgnoresAge(cfg)
  {
    hide Run, Apply, Clocked, GetEntry, AgeBlind;
    if IgnoresAge(cfg) {
      forall ops: seq<Op<K, V>>, key: K, t1: int, t2: int | Clocked(ops + [Op.Get(key, t1, t2)])
        ensures GetEntry(cfg, Run(cfg, ops).list, key, t1, t2) == AgeBlind(Run(cfg, ops).list, key)
      {
        AgeBlindExactlyWhen(cfg, Run(cfg, ops).list, key, t1, t2);
      }
    } else {
      var ops := AgeShows(cfg, a, v);
    }
  }

  /** The failing history: the entry read is either gone or has a new expiry. */
  lemma AgeShows<K(!new), V(!new)>(cfg: Config, a: K, v: V) returns (ops: seq<Op<K, V>>)
    requires !IgnoresAge(cfg)
    ensures var A := cfg.maxAge;
            && Clocked(ops + [Op.Get(a, A, A)])
            && GetEntry(cfg, Run(cfg, ops).list, a, A, A) != AgeBlind(Run(cfg, ops).list, a)
  {
    hide Run, Apply, GetEntry, AgeBlind;
    var op := Op.Set(a, v, 0, 0);
    ops := [] + [op];
    RunSnoc(cfg, [], op);
    assert Run<K, V>(cfg, []).list == [] by {
      RunNothing<K, V>(cfg);
    }
    FirstSet(cfg, op);
    AgeBlindExactlyWhen(cfg, Run(cfg, ops).list, a, cfg.maxAge, cfg.maxAge);
  }

  lemma RunNothing<K, V>(cfg: Config)
    ensures Run<K, V>(cfg, []).list == []
  {
  }

  lemma FirstSet<K, V>(cfg: Config, op: Op<K, V>)
    requires op.Set? && cfg.maxAge > 0 && op.t1 == op.t2
    ensures Apply(cfg, [], op).list == [Entry(op.key, op.value, op.t1 + cfg.maxAge)]
  {
    hide DeleteOldest, Find;
    var e := Entry(op.key, op.value, op.t1 + cfg.maxAge);
    NothingExpiredInFront(cfg, [e], op.t2);
    var empty: seq<Entry<K, V>> := [];
    assert empty + [e] == [e] && Place(cfg, empty, e).list == [e];
  }
}
