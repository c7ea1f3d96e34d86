/** What reads return over whole histories: each key lives on its own, whatever happens to the others. */
module LruReads {
  import opened Bytes
  import opened LruCaches
  import opened LruExpiry
  import opened LruRuns
  import opened LruSpec

  // ----- one key on its own -----

  /** What one operation does to the entry of a key, if that key were the only one. */
  function Fated<K(==), V>(cfg: Config, f: Option<Entry<K, V>>, op: Op<K, V>): Option<Entry<K, V>> {
    match op
    case Set(_, v, t1, _) => Some(Entry(op.key, v, if cfg.maxAge > 0 then t1 + cfg.maxAge else 0))
    case SetAt(_, v, expires, _) => Some(Entry(op.key, v, expires))
    case Get(_, t1, t2) => Answer(cfg, f, t1, t2)
    case Delete(_) => None
  }

  /** What a read makes of an entry: nothing once it has expired, otherwise the entry, renewed if reads renew. */
  function Answer<K, V>(cfg: Config, f: Option<Entry<K, V>>, t1: int, t2: int): Option<Entry<K, V>> {
    if f.None? || (cfg.maxAge > 0 && !cfg.staleReturn && f.value.expires <= t1) then None
    else if cfg.maxAge > 0 && cfg.updateAgeOnGet then Some(f.value.(expires := t2 + cfg.maxAge))
    else f
  }

  /** What a history leaves of a key, by the operations on that key alone. */
  function Fate<K(==), V>(cfg: Config, ops: seq<Op<K, V>>, key: K): Option<Entry<K, V>> {
    if ops == [] then None
    else
      var f, op := Fate(cfg, ops[..|ops| - 1], key), ops[|ops| - 1];
      if op.key == key then Fated(cfg, f, op) else f
  }

  /** The list has at most what fate says of the key; without a size limit it lacks only what has expired. */
  ghost predicate Follows<K, V>(cfg: Config, list: seq<Entry<K, V>>, key: K, f: Option<Entry<K, V>>, now: Option<int>) {
    && (forall e {:trigger e in list} :: e in list && e.key == key ==> f == Some(e))
    && (f.Some? ==> f.value.key == key)
    && (cfg.maxSize <= 0 && f.Some? && f.value !in list ==> cfg.Ages() && now.Some? && f.value.expires <= now.value)
  }

  lemma AgedOut<K, V>(cfg: Config, list: seq<Entry<K, V>>, now: int, x: Entry<K, V>)
    requires x in list && x !in DeleteOldest(cfg, list, now).list
    ensures cfg.Ages() && x.expires <= now
  {
    hide ExpiredPrefix;
    var i :| 0 <= i < |list| && list[i] == x;
    var n := if cfg.Ages() then ExpiredPrefix(list, now) else 0;
    assert forall j {:trigger list[j]} :: n <= j < |list| ==> list[j] == list[n..][j - n];
  }

  lemma AgedFrom<K, V>(cfg: Config, list: seq<Entry<K, V>>, now: int, x: Entry<K, V>)
    requires x in DeleteOldest(cfg, list, now).list
    ensures x in list
  {
    hide ExpiredPrefix;
  }

  lemma OthersRemain<K, V>(list: seq<Entry<K, V>>, i: nat, x: Entry<K, V>)
    requires i < |list| && x in list && x.key != list[i].key
    ensures x in Without(list, i)
  {
    var j :| 0 <= j < |list| && list[j] == x;
    assert Without(list, i)[if j < i then j else j - 1] == x;
  }

  /** Without a size limit a write loses only what has expired. */
  lemma SetLoses<K, V>(cfg: Config, list: seq<Entry<K, V>>, w: Entry<K, V>, now: int, x: Entry<K, V>)
    requires cfg.maxSize <= 0 && (x == w || (x in list && x.key != w.key))
    requires x !in SetWithExpire(cfg, list, w.key, w.value, w.expires, now).list
    ensures cfg.Ages() && x.expires <= now
  {
    hide Find, Without, DeleteOldest;
    var i := Find(list, w.key);
    if i >= 0 && x != w {
      OthersRemain(list, i, x);
    }
    var placed := Place(cfg, list, w).list;
    assert placed == (if i >= 0 then Without(list, i) else list) + [w];
    assert x in placed;
    AgedOut(cfg, placed, now, x);
  }

  lemma SetFollows<K, V>(cfg: Config, list: seq<Entry<K, V>>, op: Op<K, V>, key: K, f: Option<Entry<K, V>>,
                         now: Option<int>)
    requires Distinct(list) && IsWrite(op) && Follows(cfg, list, key, f, now)
    requires now.Some? ==> now.value <= op.t2
    ensures Follows(cfg, Apply(cfg, list, op).list, key, if op.key == key then Fated(cfg, f, op) else f, Some(op.t2))
  {
    hide SetWithExpire, Distinct;
    var w := Written(cfg, op);
    var list' := SetWithExpire(cfg, list, w.key, w.value, w.expires, op.t2).list;
    var f' := if op.key == key then Fated(cfg, f, op) else f;
    assert op.key == key ==> f' == Some(w);
    forall e | e in list' && e.key == key ensures f' == Some(e) {
      SetSource(cfg, list, w.key, w.value, w.expires, op.t2, e);
    }
    if cfg.maxSize <= 0 && f'.Some? && f'.value !in list' {
      if op.key == key || f'.value in list {
        SetLoses(cfg, list, w, op.t2, f'.value);
      }
    }
  }

  /** A hit keeps every other entry. */
  lemma HitFollows<K, V>(cfg: Config, list: seq<Entry<K, V>>, op: Op<K, V>, key: K, f: Option<Entry<K, V>>,
                         now: Option<int>)
    requires Distinct(list) && op.Get? && Follows(cfg, list, key, f, now) && (now.Some? ==> now.value <= op.t2)
    requires var i := Find(list, op.key); i >= 0 && !(cfg.Ages() && list[i].expires <= op.t1)
    ensures Follows(cfg, Apply(cfg, list, op).list, key, if op.key == key then Fated(cfg, f, op) else f, Some(op.t2))
  {
    hide Find, Without, Distinct;
    var i := Find(list, op.key);
    var y := GetEntry(cfg, list, op.key, op.t1, op.t2).0.value;
    var list' := Apply(cfg, list, op).list;
    assert list' == Without(list, i) + [y] && y.key == op.key;
    assert list[i] in list;
    assert op.key == key ==> f == Some(list[i]);
    forall e | e in Without(list, i) ensures e in list && e.key != op.key {
      WithoutSource(list, i, e);
    }
    assert y in list';
    if f.Some? && f.value in list && op.key != key {
      OthersRemain(list, i, f.value);
    }
  }

  /** A read of an expired key loses, besides it, only what has expired. */
  lemma ExpiredFollows<K, V>(cfg: Config, list: seq<Entry<K, V>>, op: Op<K, V>, key: K, f: Option<Entry<K, V>>,
                             now: Option<int>)
    requires Distinct(list) && op.Get? && Follows(cfg, list, key, f, now) && (now.Some? ==> now.value <= op.t2)
    requires var i := Find(list, op.key); i >= 0 && cfg.Ages() && list[i].expires <= op.t1
    ensures Follows(cfg, Apply(cfg, list, op).list, key, if op.key == key then Fated(cfg, f, op) else f, Some(op.t2))
  {
    hide Find, Without, Distinct, DeleteOldest;
    var i := Find(list, op.key);
    var rest := Without(list, i);
    var list' := Apply(cfg, list, op).list;
    assert list' == DeleteOldest(cfg, rest, op.t2).list;
    assert list[i] in list;
    assert op.key == key ==> f == Some(list[i]);
    forall e | e in list' ensures e in list && e.key != op.key {
      AgedFrom(cfg, rest, op.t2, e);
      WithoutSource(list, i, e);
    }
    if op.key != key && f.Some? && f.value in list && f.value !in list' {
      OthersRemain(list, i, f.value);
      AgedOut(cfg, rest, op.t2, f.value);
    }
  }

  lemma GetFollows<K, V>(cfg: Config, list: seq<Entry<K, V>>, op: Op<K, V>, key: K, f: Option<Entry<K, V>>,
                         now: Option<int>)
    requires Distinct(list) && op.Get? && Follows(cfg, list, key, f, now)
    requires op.t1 <= op.t2 && (now.Some? ==> now.value <= op.t1)
    ensures Follows(cfg, Apply(cfg, list, op).list, key, if op.key == key then Fated(cfg, f, op) else f, Some(op.t2))
  {
    hide Find, Distinct;
    var i := Find(list, op.key);
    if i < 0 {
      assert Apply(cfg, list, op).list == list;
      assert f.Some? && op.key == key ==> f.value !in list;
    } else {
      hide Follows, Apply, Fated;
      if cfg.Ages() && list[i].expires <= op.t1 {
        ExpiredFollows(cfg, list, op, key, f, now);
      } else {
        HitFollows(cfg, list, op, key, f, now);
      }
    }
  }

  lemma DeleteFollows<K, V>(cfg: Config, list: seq<Entry<K, V>>, op: Op<K, V>, key: K, f: Option<Entry<K, V>>,
                            now: Option<int>)
    requires Distinct(list) && op.Delete? && Follows(cfg, list, key, f, now)
    ensures Follows(cfg, Apply(cfg, list, op).list, key, if op.key == key then Fated(cfg, f, op) else f, now)
  {
    hide Find, Without, Distinct;
    var i := Find(list, op.key);
    if i >= 0 {
      forall e | e in Without(list, i) ensures e in list && e.key != op.key {
        WithoutSource(list, i, e);
      }
      if f.Some? && f.value in list && op.key != key {
        OthersRemain(list, i, f.value);
      }
    }
  }

  /** In every clocked history the list follows the fate of every key. */
  lemma {:induction false} RunFollows<K, V>(cfg: Config, ops: seq<Op<K, V>>, key: K)
    requires Clocked(ops)
    ensures Follows(cfg, Run(cfg, ops).list, key, Fate(cfg, ops, key), Now(ops))
  {
    if ops != [] {
      hide Clocked, Apply, Follows, Fated, Distinct;
      FrontClocked(ops);
      var front, op := ops[..|ops| - 1], ops[|ops| - 1];
      RunFollows(cfg, front, key);
      RunWellFormed(cfg, front);
      var list, f, now := Run(cfg, front).list, Fate(cfg, front, key), Now(front);
      match op
      case Set(_, _, _, _) => SetFollows(cfg, list, op, key, f, now);
      case SetAt(_, _, _, _) => SetFollows(cfg, list, op, key, f, now);
      case Get(_, _, _) => GetFollows(cfg, list, op, key, f, now);
      case Delete(_) => DeleteFollows(cfg, list, op, key, f, now);
    }
  }

  /** What a read finds is what the operations on its own key have left, in every clocked history: nothing else ever
      changes it. Without a size limit it finds exactly that, so eviction by age is never noticed; with one, it may
      also find nothing. */
  lemma ReadsAreIndependent<K, V>(cfg: Config, ops: seq<Op<K, V>>, key: K, t1: int, t2: int)
    requires Clocked(ops) && (Now(ops).Some? ==> Now(ops).value <= t1)
    ensures var r := GetEntry(cfg, Run(cfg, ops).list, key, t1, t2).0;
            && (r.Some? ==> r == Answer(cfg, Fate(cfg, ops, key), t1, t2))
            && (cfg.maxSize <= 0 ==> r == Answer(cfg, Fate(cfg, ops, key), t1, t2))
  {
    hide Clocked, Run, Find, Without, DeleteOldest;
    RunFollows(cfg, ops, key);
    var list, f := Run(cfg, ops).list, Fate(cfg, ops, key);
    var i := Find(list, key);
    if i >= 0 {
      assert list[i] in list && f == Some(list[i]);
    } else {
      assert f.Some? ==> f.value !in list;
    }
  }

  // ----- what is returned -----

  /** After every history a read returns something if and only if the list holds an entry for the key that has not
      expired by the first clock reading, or that may be returned stale. It is the value last written to the key,
      with the expiry the entry had, or the second clock reading plus the maximum age where reads renew. */
  lemma ReadReturns<K, V>(cfg: Config, ops: seq<Op<K, V>>, key: K, t1: int, t2: int)
    ensures var list := Run(cfg, ops).list; var r := GetEntry(cfg, list, key, t1, t2).0;
            && (r.Some? <==>
                exists e :: e in list && e.key == key && (cfg.maxAge <= 0 || cfg.staleReturn || e.expires > t1))
            && (r.Some? ==>
                  LastWrite(cfg, ops, key).Some? && r.value.key == key &&
                  r.value.value == LastWrite(cfg, ops, key).value.value)
            && (forall e :: e in list && e.key == key && r.Some? ==>
                  r.value.expires == if cfg.maxAge > 0 && cfg.updateAgeOnGet then t2 + cfg.maxAge else e.expires)
  {
    hide Run, Find, Without, DeleteOldest;
    RunWellFormed(cfg, ops);
    var list := Run(cfg, ops).list;
    var i := Find(list, key);
    if i >= 0 {
      assert list[i] in list;
      EntriesAreLastWrites(cfg, ops, list[i]);
    }
  }

  /** A key that was deleted is gone until it is written again. */
  lemma {:induction false} DeletedStaysGone<K, V>(cfg: Config, ops: seq<Op<K, V>>, i: nat, key: K)
    requires i < |ops| && ops[i] == Op.Delete(key)
    requires forall j :: i < j < |ops| && ops[j].key == key ==> !IsWrite(ops[j])
    ensures forall e :: e in Run(cfg, ops).list ==> e.key != key
    ensures forall t1, t2 :: GetEntry(cfg, Run(cfg, ops).list, key, t1, t2).0 == None
    decreases |ops|
  {
    hide Apply, Find, Without, DeleteOldest, Distinct;
    var front, op := ops[..|ops| - 1], ops[|ops| - 1];
    var list := Run(cfg, front).list;
    RunWellFormed(cfg, front);
    if i < |front| {
      DeletedStaysGone(cfg, front, i, key);
      forall e | e in Apply(cfg, list, op).list ensures e.key != key {
        var w := ApplySource(cfg, list, op, e);
      }
    } else {
      forall e | e in Apply(cfg, list, op).list ensures e.key != key {
        DeletedGone(cfg, list, key, e);
      }
    }
  }

  lemma DeletedGone<K, V>(cfg: Config, list: seq<Entry<K, V>>, key: K, e: Entry<K, V>)
    requires Distinct(list) && e in Apply(cfg, list, Op.Delete(key)).list
    ensures e.key != key
  {
    hide Find, Without, Distinct;
    if Find(list, key) >= 0 {
      WithoutSource(list, Find(list, key), e);
    }
  }

  // ----- how long an entry stays -----

  /** At most `n` entries are behind that of the key. */
  predicate Near<K(==), V>(list: seq<Entry<K, V>>, key: K, n: nat) {
    Find(list, key) >= 0 && |list| - 1 - Find(list, key) <= n
  }

  lemma NearIf<K, V>(list: seq<Entry<K, V>>, key: K, i: nat, n: nat)
    requires Distinct(list) && i < |list| && list[i].key == key && |list| - 1 - i <= n
    ensures Near(list, key, n)
  {
    hide Find;
    assert Find(list, key) == i;
  }

  lemma MovedNear<K, V>(list: seq<Entry<K, V>>, i: nat, e: Entry<K, V>, key: K, n: nat)
    requires Distinct(list) && i < |list| && e.key == list[i].key && Near(list, key, n)
    requires Distinct(Without(list, i) + [e])
    ensures Near(Without(list, i) + [e], key, n + 1)
  {
    hide Find, Distinct;
    var moved, j := Without(list, i) + [e], Find(list, key);
    var k := if j == i then |moved| - 1 else if j < i then j else j - 1;
    assert moved[k].key == key;
    NearIf(moved, key, k, n + 1);
  }

  lemma AddedNear<K, V>(cfg: Config, list: seq<Entry<K, V>>, e: Entry<K, V>, key: K, n: nat)
    requires Near(list, key, n) && (cfg.maxSize > 0 ==> n + 1 < cfg.maxSize && |list| <= cfg.maxSize)
    requires Find(list, e.key) < 0 && Distinct(Place(cfg, list, e).list)
    ensures Near(Place(cfg, list, e).list, key, n + 1)
  {
    hide Find, Distinct;
    var list', j := Place(cfg, list, e).list, Find(list, key);
    var k := j - (|list| + 1 - |list'|);
    assert list'[k].key == key;
    NearIf(list', key, k, n + 1);
  }

  /** Where entries do not age, an operation lets an entry slip back by at most one place, and drops it only if that
      makes the cache too large. */
  lemma NearKept<K, V>(cfg: Config, list: seq<Entry<K, V>>, op: Op<K, V>, key: K, n: nat)
    requires WellFormed(cfg, list) && !cfg.Ages() && Near(list, key, n) && op != Op.Delete(key)
    requires cfg.maxSize > 0 ==> n + 1 < cfg.maxSize
    ensures Near(Apply(cfg, list, op).list, key, n + 1)
  {
    ApplyDistinct(cfg, list, op);
    hide Find, Near, Distinct;
    var i := Find(list, op.key);
    if op.Delete? {
      if i >= 0 {
        RemovedNear(list, i, key, n);
      } else {
        NearWeaker(list, key, n);
      }
    } else if op.Get? {
      if i >= 0 {
        MovedNear(list, i, GetEntry(cfg, list, op.key, op.t1, op.t2).0.value, key, n);
      } else {
        NearWeaker(list, key, n);
      }
    } else {
      var w := Written(cfg, op);
      assert Apply(cfg, list, op).list == Place(cfg, list, w).list;
      if i >= 0 {
        MovedNear(list, i, w, key, n);
      } else {
        AddedNear(cfg, list, w, key, n);
      }
    }
  }

  lemma NearWeaker<K, V>(list: seq<Entry<K, V>>, key: K, n: nat)
    requires Near(list, key, n)
    ensures Near(list, key, n + 1)
  {
  }

  lemma RemovedNear<K, V>(list: seq<Entry<K, V>>, i: nat, key: K, n: nat)
    requires i < |list| && list[i].key != key && Near(list, key, n) && Distinct(Without(list, i))
    ensures Near(Without(list, i), key, n + 1)
  {
    hide Find, Distinct;
    var j := Find(list, key);
    var k := if j < i then j else j - 1;
    assert Without(list, i)[k].key == key;
    NearIf(Without(list, i), key, k, n + 1);
  }

  lemma WrittenLast<K, V>(cfg: Config, list: seq<Entry<K, V>>, op: Op<K, V>)
    requires WellFormed(cfg, list) && !cfg.Ages() && IsWrite(op)
    ensures Near(Apply(cfg, list, op).list, op.key, 0)
  {
    ApplyDistinct(cfg, list, op);
    hide Find, Distinct;
    var list', w := Apply(cfg, list, op).list, Written(cfg, op);
    assert list' == Place(cfg, list, w).list;
    assert list' != [] && list'[|list'| - 1] == w;
    NearIf(list', op.key, |list'| - 1, 0);
  }

  /** Where entries do not age, a key that was written and not deleted since is still there while fewer operations
      than the configured size have followed, and has at most that many entries behind it. */
  lemma {:induction false} WrittenStays<K, V>(cfg: Config, ops: seq<Op<K, V>>, i: nat)
    requires !cfg.Ages() && i < |ops| && IsWrite(ops[i])
    requires forall j :: i < j < |ops| ==> ops[j] != Op.Delete(ops[i].key)
    requires cfg.maxSize > 0 ==> |ops| - 1 - i < cfg.maxSize
    ensures Near(Run(cfg, ops).list, ops[i].key, |ops| - 1 - i)
    decreases |ops|
  {
    hide Near, Apply, Distinct;
    var front, op := ops[..|ops| - 1], ops[|ops| - 1];
    var list := Run(cfg, front).list;
    RunWellFormed(cfg, front);
    if i == |ops| - 1 {
      WrittenLast(cfg, list, op);
    } else {
      WrittenStays(cfg, front, i);
      NearKept(cfg, list, op, ops[i].key, |front| - 1 - i);
    }
  }

  // ----- on the linked structure -----

  /** `Get` on the linked structure after any clocked history on a new cache: the value last written to the key or
      nothing and, without a size limit, exactly what the operations on the key alone have left. */
  method ReadAfter<K(==), V>(cfg: Config, ops: seq<Op<K, V>>, key: K, t1: int, t2: int) returns (r: Option<V>)
    requires Clocked(ops) && (Now(ops).Some? ==> Now(ops).value <= t1)
    ensures r.Some? ==> LastWrite(cfg, ops, key).Some? && r.value == LastWrite(cfg, ops, key).value.value
    ensures var f := Answer(cfg, Fate(cfg, ops, key), t1, t2);
            && (r.Some? ==> f.Some? && r.value == f.value.value)
            && (cfg.maxSize <= 0 ==> (r.Some? <==> f.Some?))
  {
    hide Clocked, Run, GetEntry, Answer, Fate, Agrees;
    var c := Replay(cfg, false, ops);
    ReadReturns(cfg, ops, key, t1, t2);
    ReadsAreIndependent(cfg, ops, key, t1, t2);
    c.TouchedIsOverwritten(Op.Get(key, t1, t2));
    r := c.Get(key, t1, t2);
  }
}
