/** What the LRU cache promises over whole runs: conservation, recency, last writes, expiry order. */
module LruRuns {
  import opened Bytes
  import opened LruSpec

  // ----- conservation: every fresh insertion is either still there or was called back once -----

  /** The keys inserted while absent, in order. */
  function Inserted<K(==), V>(cfg: Config, ops: seq<Op<K, V>>): seq<K> {
    if ops == [] then []
    else
      var front, op := ops[..|ops| - 1], ops[|ops| - 1];
      Inserted(cfg, front) + (if IsWrite(op) && Find(Run(cfg, front).list, op.key) < 0 then [op.key] else [])
  }

  ghost function KeyBag<K, V>(list: seq<Entry<K, V>>): multiset<K> {
    multiset(Keys(list))
  }

  lemma BagConcat<K, V>(a: seq<Entry<K, V>>, b: seq<Entry<K, V>>)
    ensures KeyBag(a + b) == KeyBag(a) + KeyBag(b)
  {
    assert Keys(a + b) == Keys(a) + Keys(b);
  }

  lemma BagOne<K, V>(e: Entry<K, V>)
    ensures KeyBag([e]) == multiset{e.key}
  {
    assert Keys([e]) == [e.key];
  }

  lemma BagSplit<K, V>(list: seq<Entry<K, V>>, n: nat)
    requires n <= |list|
    ensures KeyBag(list) == KeyBag(list[..n]) + KeyBag(list[n..])
  {
    BagConcat(list[..n], list[n..]);
    assert list[..n] + list[n..] == list;
  }

  lemma BagWithout<K, V>(list: seq<Entry<K, V>>, i: nat)
    requires i < |list|
    ensures KeyBag(list) == KeyBag(Without(list, i)) + multiset{list[i].key}
  {
    hide KeyBag;
    BagSplit(list, i);
    BagSplit(list[i..], 1);
    assert list[i..][..1] == [list[i]] && list[i..][1..] == list[i + 1..];
    BagOne(list[i]);
    BagConcat(list[..i], list[i + 1..]);
  }

  lemma AgingConserves<K, V>(cfg: Config, list: seq<Entry<K, V>>, now: int)
    ensures var o := DeleteOldest(cfg, list, now); KeyBag(list) == KeyBag(o.list) + KeyBag(o.evicted)
  {
    BagSplit(list, if cfg.Ages() then ExpiredPrefix(list, now) else 0);
  }

  lemma SetConserves<K, V>(cfg: Config, list: seq<Entry<K, V>>, key: K, value: V, expires: int, now: int)
    ensures var o := SetWithExpire(cfg, list, key, value, expires, now);
            KeyBag(list) + (if Find(list, key) < 0 then multiset{key} else multiset{}) ==
            KeyBag(o.list) + KeyBag(o.evicted)
  {
    hide KeyBag, Find, Without, DeleteOldest;
    var i := Find(list, key);
    var e := Entry(key, value, expires);
    if i >= 0 {
      BagWithout(list, i);
    }
    var rest := if i >= 0 then Without(list, i) else list;
    BagConcat(rest, [e]);
    BagOne(e);
    var grown := rest + [e];
    var over := if i < 0 && cfg.maxSize > 0 && |grown| > cfg.maxSize then 1 else 0;
    BagSplit(grown, over);
    AgingConserves(cfg, grown[over..], now);
    BagConcat(grown[..over], DeleteOldest(cfg, grown[over..], now).evicted);
  }

  lemma BagEmpty<K, V>()
    ensures KeyBag<K, V>([]) == multiset{}
  {
  }

  lemma ApplyConserves<K, V>(cfg: Config, list: seq<Entry<K, V>>, op: Op<K, V>)
    ensures var o := Apply(cfg, list, op);
            KeyBag(list) + (if IsWrite(op) && Find(list, op.key) < 0 then multiset{op.key} else multiset{})
            == KeyBag(o.list) + KeyBag(o.evicted)
  {
    hide KeyBag, Find, Without, DeleteOldest, SetWithExpire;
    BagEmpty<K, V>();
    match op
    case Set(k, v, t1, t2) => SetConserves(cfg, list, k, v, ExpiryAt(cfg, t1), t2);
    case SetAt(k, v, expires, t2) => SetConserves(cfg, list, k, v, expires, t2);
    case Get(k, t1, t2) =>
      var i := Find(list, k);
      if i >= 0 {
        BagWithout(list, i);
        var rest := Without(list, i);
        AgingConserves(cfg, rest, t2);
        BagConcat([list[i]], DeleteOldest(cfg, rest, t2).evicted);
        BagOne(list[i]);
        var e := list[i].(expires := t2 + cfg.maxAge);
        BagOne(e);
        BagConcat(rest, [e]);
        BagConcat(rest, [list[i]]);
      }
    case Delete(k) =>
      var i := Find(list, k);
      if i >= 0 {
        BagWithout(list, i);
        BagOne(list[i]);
      }
  }

  /** Over any run, the keys inserted while absent are, counted with multiplicity, the keys still present
      and the keys handed to the eviction callback: one callback per removal, none for anything else. */
  lemma {:induction false} CallbacksBalance<K, V>(cfg: Config, ops: seq<Op<K, V>>)
    ensures multiset(Inserted(cfg, ops)) == KeyBag(Run(cfg, ops).list) + KeyBag(Run(cfg, ops).evicted)
    ensures |Inserted(cfg, ops)| == |Run(cfg, ops).list| + |Run(cfg, ops).evicted|
  {
    hide KeyBag, Apply, Find;
    if ops == [] {
      BagEmpty<K, V>();
      assert multiset(Inserted(cfg, ops)) == multiset{};
    } else {
      var front, op := ops[..|ops| - 1], ops[|ops| - 1];
      CallbacksBalance(cfg, front);
      var before := Run(cfg, front);
      ApplyConserves(cfg, before.list, op);
      BagConcat(before.evicted, Apply(cfg, before.list, op).evicted);
      var added := if IsWrite(op) && Find(before.list, op.key) < 0 then [op.key] else [];
      assert Inserted(cfg, ops) == Inserted(cfg, front) + added;
      assert Run(cfg, ops) ==
             Outcome(Apply(cfg, before.list, op).list, before.evicted + Apply(cfg, before.list, op).evicted);
      assert KeyBag(Run(cfg, ops).evicted) == KeyBag(before.evicted) + KeyBag(Apply(cfg, before.list, op).evicted);
      assert multiset(Inserted(cfg, ops)) == multiset(Inserted(cfg, front)) + multiset(added);
      var after := Apply(cfg, before.list, op);
      assert multiset(added) == if IsWrite(op) && Find(before.list, op.key) < 0 then multiset{op.key} else multiset{};
      Regroup(multiset(Inserted(cfg, front)), multiset(added), KeyBag(before.list), KeyBag(before.evicted),
              KeyBag(after.list), KeyBag(after.evicted));
    }
    BagSize(Run(cfg, ops).list);
    BagSize(Run(cfg, ops).evicted);
    assert |multiset(Inserted(cfg, ops))| == |Inserted(cfg, ops)|;
  }

  lemma Regroup<K>(inserted: multiset<K>, added: multiset<K>, a: multiset<K>, b: multiset<K>, a': multiset<K>,
                   b': multiset<K>)
    requires inserted == a + b && a + added == a' + b'
    ensures inserted + added == a' + (b + b')
  {
    assert inserted + added == (a + added) + b;
  }

  lemma BagSize<K, V>(list: seq<Entry<K, V>>)
    ensures |KeyBag(list)| == |list|
  {
  }

  // ----- recency: the list is the most recently touched distinct keys, in order of last touch -----

  /** The distinct keys of a touch log, in order of their last touch. */
  function LastTouchOrder<K(==)>(log: seq<K>): seq<K> {
    if log == [] then []
    else if log[0] in log[1..] then LastTouchOrder(log[1..])
    else [log[0]] + LastTouchOrder(log[1..])
  }

  /** The last `m` of a sequence, or all of it. */
  function LastOf<T>(s: seq<T>, m: nat): (r: seq<T>)
    ensures |r| == if |s| < m then |s| else m
  {
    if |s| <= m then s else s[|s| - m..]
  }

  function MostRecent<K(==)>(log: seq<K>, m: nat): seq<K> {
    LastOf(LastTouchOrder(log), m)
  }

  /** The touch log of a history of `Set` and `Get`: a write always touches, a read only when it hits, and it
      hits exactly the `m` most recently touched keys. The cache is not mentioned. */
  function Touches<K(==), V>(m: nat, ops: seq<Op<K, V>>): seq<K> {
    if ops == [] then []
    else
      var log, op := Touches(m, ops[..|ops| - 1]), ops[|ops| - 1];
      if IsWrite(op) || (op.Get? && op.key in MostRecent(log, m)) then log + [op.key] else log
  }

  /** The entry of the last write to a key. */
  function LastWrite<K(==), V>(cfg: Config, ops: seq<Op<K, V>>, key: K): Option<Entry<K, V>> {
    if ops == [] then None
    else
      var op := ops[|ops| - 1];
      if IsWrite(op) && op.key == key then Some(Written(cfg, op))
      else LastWrite(cfg, ops[..|ops| - 1], key)
  }

  ghost predicate NoRepeat<K>(s: seq<K>) {
    forall i, j :: 0 <= i < j < |s| ==> s[i] != s[j]
  }

  lemma {:induction false} OrderMembers<K>(log: seq<K>)
    ensures NoRepeat(LastTouchOrder(log))
    ensures forall k :: k in LastTouchOrder(log) <==> k in log
  {
    if log != [] {
      OrderMembers(log[1..]);
      assert log == [log[0]] + log[1..];
    }
  }

  /** Removes a key from a sequence without repetitions. */
  function Minus<K(==)>(s: seq<K>, k: K): (r: seq<K>)
    ensures k !in s ==> r == s
  {
    if s == [] then []
    else
      assert s == [s[0]] + s[1..];
      if s[0] == k then Minus(s[1..], k) else [s[0]] + Minus(s[1..], k)
  }

  lemma {:induction false} MinusConcat<K>(a: seq<K>, b: seq<K>, k: K)
    ensures Minus(a + b, k) == Minus(a, k) + Minus(b, k)
  {
    if a == [] {
      assert a + b == b;
    } else {
      assert (a + b)[1..] == a[1..] + b;
      MinusConcat(a[1..], b, k);
    }
  }

  lemma MinusBetween<K>(a: seq<K>, k: K, b: seq<K>)
    requires k !in a && k !in b
    ensures Minus(a + [k] + b, k) == a + b
  {
    hide Minus;
    MinusConcat(a + [k], b, k);
    MinusConcat(a, [k], k);
    MinusSelf(k);
    assert a + [] == a;
  }

  lemma MinusSelf<K>(k: K)
    ensures Minus([k], k) == []
  {
  }

  lemma OnceOnly<K>(s: seq<K>, i: nat)
    requires NoRepeat(s) && i < |s|
    ensures s[i] !in s[..i] && s[i] !in s[i + 1..]
  {
  }

  lemma MinusAt<K>(s: seq<K>, i: nat)
    requires NoRepeat(s) && i < |s|
    ensures Minus(s, s[i]) == s[..i] + s[i + 1..]
  {
    hide Minus, NoRepeat;
    OnceOnly(s, i);
    assert s == s[..i] + [s[i]] + s[i + 1..];
    MinusBetween(s[..i], s[i], s[i + 1..]);
  }

  /** Touching a key moves it to the end of the order of last touch. */
  lemma {:induction false} TouchMovesToEnd<K>(log: seq<K>, k: K)
    ensures LastTouchOrder(log + [k]) == Minus(LastTouchOrder(log), k) + [k]
  {
    if log == [] {
      assert log + [k] == [k];
    } else {
      assert (log + [k])[1..] == log[1..] + [k];
      TouchMovesToEnd(log[1..], k);
      MinusConcat([log[0]], LastTouchOrder(log[1..]), k);
      OrderMembers(log[1..]);
    }
  }

  lemma WindowInside<K>(p: seq<K>, w: seq<K>, m: nat, k: K)
    requires |w| <= m && (p != [] ==> |w| == m) && w != []
    ensures LastOf((p + w[1..]) + [k], m) == w[1..] + [k]
  {
  }

  lemma WindowOutside<K>(p: seq<K>, w: seq<K>, m: nat, k: K)
    requires m > 0 && |w| <= m && (p != [] ==> |w| == m)
    ensures LastOf((p + w) + [k], m) == if |w| < m then w + [k] else w[1..] + [k]
  {
  }

  /** How a touch changes the window of the `m` most recent keys. */
  lemma TouchWindow<K>(order: seq<K>, m: nat, k: K)
    requires NoRepeat(order) && m > 0
    ensures var w := LastOf(order, m);
            LastOf(Minus(order, k) + [k], m) ==
            if k in w then Minus(w, k) + [k] else if |w| < m then w + [k] else w[1..] + [k]
  {
    var w := LastOf(order, m);
    var p := LastOfSplit(order, m, k);
    hide Minus, LastOf, NoRepeat;
    MinusConcat(p, w, k);
    if k in w {
      MinusOne(w, k);
      var rest := Minus(w, k);
      assert ([k] + rest)[1..] == rest;
      WindowInside(p, [k] + rest, m, k);
    } else {
      MinusLength(p, k);
      WindowOutside(Minus(p, k), w, m, k);
    }
  }

  lemma LastOfSplit<K>(order: seq<K>, m: nat, k: K) returns (p: seq<K>)
    requires NoRepeat(order)
    ensures var w := LastOf(order, m);
            && order == p + w && |w| <= m && (p != [] ==> |w| == m) && NoRepeat(w)
            && (k in w ==> k !in p)
  {
    p := order[..|order| - |LastOf(order, m)|];
  }

  lemma MinusOne<K>(s: seq<K>, k: K)
    requires NoRepeat(s) && k in s
    ensures |Minus(s, k)| == |s| - 1
  {
    var i :| 0 <= i < |s| && s[i] == k;
    MinusAt(s, i);
  }

  lemma {:induction false} MinusLength<K>(s: seq<K>, k: K)
    ensures |Minus(s, k)| <= |s|
  {
    if s != [] {
      MinusLength(s[1..], k);
    }
  }

  lemma KeysOfWithout<K, V>(list: seq<Entry<K, V>>, i: nat)
    requires Distinct(list) && i < |list|
    ensures Keys(Without(list, i)) == Minus(Keys(list), list[i].key)
  {
    MinusAt(Keys(list), i);
    assert Keys(Without(list, i)) == Keys(list)[..i] + Keys(list)[i + 1..];
  }

  predicate SetsAndGets<K, V>(ops: seq<Op<K, V>>) {
    forall i :: 0 <= i < |ops| ==> !ops[i].Delete?
  }

  /** Without aging, a write or a hit puts its key at the back and drops at most the front. */
  lemma ApplyMoves<K, V>(cfg: Config, list: seq<Entry<K, V>>, op: Op<K, V>) returns (e: Entry<K, V>)
    requires cfg.maxSize > 0 && cfg.maxAge <= 0 && !op.Delete? && |list| <= cfg.maxSize
    requires IsWrite(op) || Find(list, op.key) >= 0
    ensures e.key == op.key
    ensures Apply(cfg, list, op).list ==
            var i := Find(list, op.key);
            if i >= 0 then Without(list, i) + [e]
            else if |list| < cfg.maxSize then list + [e] else (list + [e])[1..]
  {
    hide Find, Without;
    match op
    case Set(k, v, t1, t2) => e := Entry(k, v, 0);
    case SetAt(k, v, expires, t2) => e := Entry(k, v, expires);
    case Get(k, t1, t2) => e := list[Find(list, k)];
  }

  lemma GetMisses<K, V>(cfg: Config, list: seq<Entry<K, V>>, op: Op<K, V>)
    requires op.Get? && Find(list, op.key) < 0
    ensures Apply(cfg, list, op).list == list
  {
  }

  /** One operation on the list is one touch of the reference. */
  lemma ApplyTouches<K, V>(cfg: Config, list: seq<Entry<K, V>>, op: Op<K, V>, log: seq<K>)
    requires cfg.maxSize > 0 && cfg.maxAge <= 0 && !op.Delete? && WellFormed(cfg, list)
    requires Keys(list) == MostRecent(log, cfg.maxSize)
    ensures Keys(Apply(cfg, list, op).list) ==
            var touched := IsWrite(op) || op.key in MostRecent(log, cfg.maxSize);
            MostRecent(if touched then log + [op.key] else log, cfg.maxSize)
  {
    hide Find, LastTouchOrder, LastOf, Minus, Apply;
    var m, k := cfg.maxSize, op.key;
    OrderMembers(log);
    TouchMovesToEnd(log, k);
    TouchWindow(LastTouchOrder(log), m, k);
    var i := Find(list, k);
    if i >= 0 {
      assert Keys(list)[i] == k;
      KeysOfWithout(list, i);
      var e := ApplyMoves(cfg, list, op);
      assert Keys(Without(list, i) + [e]) == Keys(Without(list, i)) + [k];
    } else {
      assert k !in Keys(list);
      if IsWrite(op) {
        var e := ApplyMoves(cfg, list, op);
        assert Keys(list + [e]) == Keys(list) + [k];
        assert Keys((list + [e])[1..]) == (Keys(list) + [k])[1..];
      } else {
        GetMisses(cfg, list, op);
      }
    }
  }

  /** With a size limit and no aging, after every run of `Set` and `Get` the list from front to back is
      exactly the most recently touched distinct keys, at most `maxSize` of them, in order of last touch. */
  lemma {:induction false} ListIsMostRecent<K, V>(cfg: Config, ops: seq<Op<K, V>>)
    requires cfg.maxSize > 0 && cfg.maxAge <= 0 && SetsAndGets(ops)
    ensures Keys(Run(cfg, ops).list) == MostRecent(Touches(cfg.maxSize, ops), cfg.maxSize)
  {
    hide Apply, MostRecent;
    if ops == [] {
      EmptyWindow<K, V>(cfg.maxSize);
    } else {
      var front, op := ops[..|ops| - 1], ops[|ops| - 1];
      assert !op.Delete?;
      ListIsMostRecent(cfg, front);
      RunWellFormed(cfg, front);
      ApplyTouches(cfg, Run(cfg, front).list, op, Touches(cfg.maxSize, front));
    }
  }

  lemma EmptyWindow<K, V>(m: nat)
    ensures MostRecent<K>([], m) == Keys<K, V>([])
  {
  }

  // ----- last writes -----

  /** Reads leave expiries alone. */
  predicate KeepsExpiry(cfg: Config) {
    cfg.maxAge <= 0 || !cfg.updateAgeOnGet
  }

  /** `e` carries the key and value of `w`, and its expiry unless reads renew it. */
  ghost predicate Carries<K, V>(cfg: Config, e: Entry<K, V>, w: Entry<K, V>) {
    e.key == w.key && e.value == w.value && (KeepsExpiry(cfg) ==> e.expires == w.expires)
  }

  lemma WithoutSource<K, V>(list: seq<Entry<K, V>>, i: nat, x: Entry<K, V>)
    requires Distinct(list) && i < |list| && x in Without(list, i)
    ensures x in list && x.key != list[i].key
  {
    DistinctWithout(list, i);
  }

  lemma SetSource<K, V>(cfg: Config, list: seq<Entry<K, V>>, key: K, value: V, expires: int, now: int, e: Entry<K, V>)
    requires Distinct(list) && e in SetWithExpire(cfg, list, key, value, expires, now).list
    ensures e == Entry(key, value, expires) || (e in list && e.key != key)
  {
    hide Find, Without, ExpiredPrefix, Distinct;
    var i := Find(list, key);
    var rest := if i >= 0 then Without(list, i) else list;
    assert e in rest + [Entry(key, value, expires)];
    if e in rest && i >= 0 {
      WithoutSource(list, i, e);
    }
  }

  lemma GetSource<K, V>(cfg: Config, list: seq<Entry<K, V>>, key: K, t1: int, t2: int, e: Entry<K, V>)
    requires Distinct(list) && e in GetEntry(cfg, list, key, t1, t2).1.list
    ensures e in list || (Find(list, key) >= 0 && Carries(cfg, e, list[Find(list, key)]))
  {
    hide Find, Without, ExpiredPrefix, Distinct;
    var i := Find(list, key);
    if i >= 0 && e in Without(list, i) {
      WithoutSource(list, i, e);
    }
  }

  /** Every entry after an operation is the one just written or carries one that was there before. */
  lemma ApplySource<K, V>(cfg: Config, list: seq<Entry<K, V>>, op: Op<K, V>, e: Entry<K, V>) returns (w: Entry<K, V>)
    requires Distinct(list) && e in Apply(cfg, list, op).list
    ensures (IsWrite(op) && e == Written(cfg, op)) ||
            (!(IsWrite(op) && e.key == op.key) && w in list && Carries(cfg, e, w))
  {
    hide Find, Without, SetWithExpire, GetEntry, Distinct;
    w := e;
    match op
    case Set(k, v, t1, t2) => SetSource(cfg, list, k, v, ExpiryAt(cfg, t1), t2, e);
    case SetAt(k, v, expires, t2) => SetSource(cfg, list, k, v, expires, t2, e);
    case Get(k, t1, t2) =>
      GetSource(cfg, list, k, t1, t2, e);
      if e !in list {
        w := list[Find(list, k)];
      }
    case Delete(k) =>
      if Find(list, k) >= 0 {
        WithoutSource(list, Find(list, k), e);
      }
  }

  /** In every run each entry carries the last write to its key. */
  lemma {:induction false} EntriesAreLastWrites<K, V>(cfg: Config, ops: seq<Op<K, V>>, e: Entry<K, V>)
    requires e in Run(cfg, ops).list
    ensures LastWrite(cfg, ops, e.key).Some? && Carries(cfg, e, LastWrite(cfg, ops, e.key).value)
  {
    hide Apply, Find;
    var front, op := ops[..|ops| - 1], ops[|ops| - 1];
    var list := Run(cfg, front).list;
    RunWellFormed(cfg, front);
    var w := ApplySource(cfg, list, op, e);
    if !(IsWrite(op) && e.key == op.key) {
      EntriesAreLastWrites(cfg, front, w);
    }
  }
}
