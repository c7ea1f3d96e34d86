/** The LRU cache as a plain sequence of entries, least recently used first. */
module LruSpec {
  import opened Bytes

  datatype Entry<K, V> = Entry(key: K, value: V, expires: int)

  datatype Config = Config(maxAge: int, maxSize: int, updateAgeOnGet: bool, staleReturn: bool) {
    /** Entries are dropped by age. */
    predicate Ages() {
      !staleReturn && maxAge > 0
    }
  }

  /** The list after an operation, and the entries it removed in the order of their callbacks. */
  datatype Outcome<K, V> = Outcome(list: seq<Entry<K, V>>, evicted: seq<Entry<K, V>>)

  function Keys<K, V>(list: seq<Entry<K, V>>): (ks: seq<K>)
    ensures |ks| == |list|
  {
    seq(|list|, i requires 0 <= i < |list| => list[i].key)
  }

  ghost predicate Distinct<K, V>(list: seq<Entry<K, V>>) {
    forall i, j :: 0 <= i < j < |list| ==> list[i].key != list[j].key
  }

  /** Where a key is in the list, or -1. */
  function Find<K(==), V>(list: seq<Entry<K, V>>, key: K): (i: int)
    ensures -1 <= i < |list|
    ensures i >= 0 ==> list[i].key == key
    ensures i < 0 ==> forall j :: 0 <= j < |list| ==> list[j].key != key
  {
    if list == [] then -1
    else if list[0].key == key then 0
    else
      var r := Find(list[1..], key);
      if r >= 0 then r + 1
      else
        assert forall j :: 0 < j < |list| ==> list[j] == list[1..][j - 1];
        -1
  }

  function Without<T>(s: seq<T>, i: nat): (r: seq<T>)
    requires i < |s|
    ensures |r| == |s| - 1
  {
    s[..i] + s[i + 1..]
  }

  /** Length of the longest prefix of entries expired at `now`. */
  function ExpiredPrefix<K, V>(list: seq<Entry<K, V>>, now: int): (n: nat)
    ensures n <= |list|
    ensures forall i :: 0 <= i < n ==> list[i].expires <= now
    ensures n < |list| ==> list[n].expires > now
  {
    if list == [] || list[0].expires > now then 0
    else 1 + ExpiredPrefix(list[1..], now)
  }

  function DeleteOldest<K, V>(cfg: Config, list: seq<Entry<K, V>>, now: int): Outcome<K, V> {
    var n := if cfg.Ages() then ExpiredPrefix(list, now) else 0;
    Outcome(list[n..], list[..n])
  }

  /** A write before any aging: the key goes to the back; a new key may push out the front. */
  function Place<K(==), V>(cfg: Config, list: seq<Entry<K, V>>, e: Entry<K, V>): Outcome<K, V> {
    var i := Find(list, e.key);
    var grown := if i >= 0 then Without(list, i) + [e] else list + [e];
    var over := if i < 0 && cfg.maxSize > 0 && |grown| > cfg.maxSize then 1 else 0;
    Outcome(grown[over..], grown[..over])
  }

  /** `SetWithExpire` at time `now`. */
  function SetWithExpire<K(==), V>(cfg: Config, list: seq<Entry<K, V>>, key: K, value: V, expires: int, now: int)
    : Outcome<K, V>
  {
    var placed := Place(cfg, list, Entry(key, value, expires));
    var aged := DeleteOldest(cfg, placed.list, now);
    Outcome(aged.list, placed.evicted + aged.evicted)
  }

  /** The expiry `Set` computes from its own clock reading. */
  function ExpiryAt(cfg: Config, t: int): int {
    if cfg.maxAge > 0 then t + cfg.maxAge else 0
  }

  /** A read at `t1` of an entry with this expiry renews it. */
  predicate Renews(cfg: Config, expires: int, t1: int) {
    cfg.maxAge > 0 && cfg.updateAgeOnGet && !(cfg.Ages() && expires <= t1)
  }

  /** `get`, with the first clock reading for the expiry test and a later one for what follows it. */
  function GetEntry<K(==), V>(cfg: Config, list: seq<Entry<K, V>>, key: K, t1: int, t2: int)
    : (Option<Entry<K, V>>, Outcome<K, V>)
  {
    var i := Find(list, key);
    if i < 0 then (None, Outcome(list, []))
    else if cfg.Ages() && list[i].expires <= t1 then
      var aged := DeleteOldest(cfg, Without(list, i), t2);
      (None, Outcome(aged.list, [list[i]] + aged.evicted))
    else
      var e := if cfg.maxAge > 0 && cfg.updateAgeOnGet then list[i].(expires := t2 + cfg.maxAge) else list[i];
      (Some(e), Outcome(Without(list, i) + [e], []))
  }

  function DeleteKey<K(==), V>(list: seq<Entry<K, V>>, key: K): Outcome<K, V> {
    var i := Find(list, key);
    if i < 0 then Outcome(list, []) else Outcome(Without(list, i), [list[i]])
  }

  // ----- operations and runs -----

  /** The public operations, with the clock readings they make in order. */
  datatype Op<K, V> =
    | Set(key: K, value: V, t1: int, t2: int)
    | SetAt(key: K, value: V, expires: int, t2: int)
    | Get(key: K, t1: int, t2: int)
    | Delete(key: K)

  predicate IsWrite<K, V>(op: Op<K, V>) {
    op.Set? || op.SetAt?
  }

  /** The entry a write puts into the list. */
  function Written<K, V>(cfg: Config, op: Op<K, V>): Entry<K, V>
    requires IsWrite(op)
  {
    Entry(op.key, op.value, if op.Set? then ExpiryAt(cfg, op.t1) else op.expires)
  }

  function Apply<K(==), V>(cfg: Config, list: seq<Entry<K, V>>, op: Op<K, V>): Outcome<K, V> {
    match op
    case Set(k, v, t1, t2) => SetWithExpire(cfg, list, k, v, ExpiryAt(cfg, t1), t2)
    case SetAt(k, v, expires, t2) => SetWithExpire(cfg, list, k, v, expires, t2)
    case Get(k, t1, t2) => GetEntry(cfg, list, k, t1, t2).1
    case Delete(k) => DeleteKey(list, k)
  }

  /** The list after a sequence of operations on a new cache, and everything evicted on the way. */
  function Run<K(==), V>(cfg: Config, ops: seq<Op<K, V>>): Outcome<K, V> {
    if ops == [] then Outcome([], [])
    else
      var before := Run(cfg, ops[..|ops| - 1]);
      var last := Apply(cfg, before.list, ops[|ops| - 1]);
      Outcome(last.list, before.evicted + last.evicted)
  }

  /** Not more entries than the configured size, and no key twice. */
  ghost predicate WellFormed<K, V>(cfg: Config, list: seq<Entry<K, V>>) {
    Distinct(list) && (cfg.maxSize > 0 ==> |list| <= cfg.maxSize)
  }

  lemma DistinctWithout<K, V>(list: seq<Entry<K, V>>, i: nat)
    requires Distinct(list) && i < |list|
    ensures Distinct(Without(list, i))
    ensures forall j :: 0 <= j < |list| - 1 ==> Without(list, i)[j].key != list[i].key
  {
    var r := Without(list, i);
    assert forall j :: 0 <= j < |r| ==> r[j] == if j < i then list[j] else list[j + 1];
  }

  lemma DistinctSnoc<K, V>(list: seq<Entry<K, V>>, e: Entry<K, V>)
    requires Distinct(list) && forall j :: 0 <= j < |list| ==> list[j].key != e.key
    ensures Distinct(list + [e])
  {
  }

  lemma DistinctSuffix<K, V>(list: seq<Entry<K, V>>, n: nat)
    requires Distinct(list) && n <= |list|
    ensures Distinct(list[n..])
  {
  }

  lemma SetDistinct<K, V>(cfg: Config, list: seq<Entry<K, V>>, key: K, value: V, expires: int, now: int)
    requires Distinct(list)
    ensures Distinct(SetWithExpire(cfg, list, key, value, expires, now).list)
  {
    hide Find, Without, ExpiredPrefix, Distinct;
    var i := Find(list, key);
    var e := Entry(key, value, expires);
    if i >= 0 {
      DistinctWithout(list, i);
    }
    var rest := if i >= 0 then Without(list, i) else list;
    DistinctSnoc(rest, e);
    var grown := rest + [e];
    var over := if i < 0 && cfg.maxSize > 0 && |grown| > cfg.maxSize then 1 else 0;
    DistinctSuffix(grown, over);
    var n := if cfg.Ages() then ExpiredPrefix(grown[over..], now) else 0;
    DistinctSuffix(grown[over..], n);
  }

  lemma GetDistinct<K, V>(cfg: Config, list: seq<Entry<K, V>>, key: K, t1: int, t2: int)
    requires Distinct(list)
    ensures Distinct(GetEntry(cfg, list, key, t1, t2).1.list)
  {
    hide Find, Without, ExpiredPrefix, Distinct;
    var i := Find(list, key);
    if i >= 0 {
      DistinctWithout(list, i);
      var rest := Without(list, i);
      var n := if cfg.Ages() then ExpiredPrefix(rest, t2) else 0;
      DistinctSuffix(rest, n);
      DistinctSnoc(rest, list[i]);
      DistinctSnoc(rest, list[i].(expires := t2 + cfg.maxAge));
    }
  }

  lemma ApplyDistinct<K, V>(cfg: Config, list: seq<Entry<K, V>>, op: Op<K, V>)
    requires Distinct(list)
    ensures Distinct(Apply(cfg, list, op).list)
  {
    hide Find, Without, GetEntry, SetWithExpire, Distinct;
    match op
    case Set(k, v, t1, t2) => SetDistinct(cfg, list, k, v, ExpiryAt(cfg, t1), t2);
    case SetAt(k, v, expires, t2) => SetDistinct(cfg, list, k, v, expires, t2);
    case Get(k, t1, t2) => GetDistinct(cfg, list, k, t1, t2);
    case Delete(k) =>
      var i := Find(list, k);
      if i >= 0 {
        DistinctWithout(list, i);
      }
  }

  lemma SetKeeps<K, V>(cfg: Config, list: seq<Entry<K, V>>, key: K, value: V, expires: int, now: int)
    requires WellFormed(cfg, list)
    ensures WellFormed(cfg, SetWithExpire(cfg, list, key, value, expires, now).list)
  {
    hide Find, Without, ExpiredPrefix, Distinct;
    SetDistinct(cfg, list, key, value, expires, now);
  }

  lemma GetKeeps<K, V>(cfg: Config, list: seq<Entry<K, V>>, key: K, t1: int, t2: int)
    requires WellFormed(cfg, list)
    ensures WellFormed(cfg, GetEntry(cfg, list, key, t1, t2).1.list)
  {
    hide Find, Without, ExpiredPrefix, Distinct;
    GetDistinct(cfg, list, key, t1, t2);
  }

  lemma ApplyKeeps<K, V>(cfg: Config, list: seq<Entry<K, V>>, op: Op<K, V>)
    requires WellFormed(cfg, list)
    ensures WellFormed(cfg, Apply(cfg, list, op).list)
  {
    hide Find, Without, ExpiredPrefix, Distinct;
    ApplyDistinct(cfg, list, op);
  }

  /** Every run keeps the keys distinct and the length within the configured size. */
  lemma {:induction false} RunWellFormed<K, V>(cfg: Config, ops: seq<Op<K, V>>)
    ensures WellFormed(cfg, Run(cfg, ops).list)
  {
    if ops != [] {
      RunWellFormed(cfg, ops[..|ops| - 1]);
      ApplyKeeps(cfg, Run(cfg, ops[..|ops| - 1]).list, ops[|ops| - 1]);
    }
  }
}
