/** A cache and its clone: two lists and maps over entry objects that stay shared until one of them drops the key. */
module LruClones {
  import opened Bytes
  import opened LinkedList
  import opened LruCaches
  import opened LruRuns
  import opened LruSpec

  // ----- the specification -----

  function KeySet<K, V>(list: seq<Entry<K, V>>): set<K> {
    set i | 0 <= i < |list| :: list[i].key
  }

  /** A list in which the entry of a shared key has been overwritten from the other side. */
  function Shown<K(==), V>(list: seq<Entry<K, V>>, shared: set<K>, w: Option<Entry<K, V>>): (r: seq<Entry<K, V>>)
    ensures |r| == |list|
  {
    if w.Some? && w.value.key in shared && Find(list, w.value.key) >= 0
    then list[Find(list, w.value.key) := w.value] else list
  }

  /** The lists of the two caches, and the keys whose entry object they share. */
  datatype Pair<K, V> = Pair(a: seq<Entry<K, V>>, b: seq<Entry<K, V>>, shared: set<K>)

  /** An operation on one of them. */
  datatype PairOp<K, V> = OnA(op: Op<K, V>) | OnB(op: Op<K, V>)

  function PairNext<K(==), V>(ca: Config, cb: Config, p: Pair<K, V>, x: PairOp<K, V>): Pair<K, V> {
    match x
    case OnA(op) =>
      var a := Apply(ca, p.a, op).list;
      Pair(a, Shown(p.b, p.shared, Overwritten(ca, p.a, op)), p.shared * KeySet(a))
    case OnB(op) =>
      var b := Apply(cb, p.b, op).list;
      Pair(Shown(p.a, p.shared, Overwritten(cb, p.b, op)), b, p.shared * KeySet(b))
  }

  /** An interleaved history on a cache with this list and its new clone. */
  function PairRun<K(==), V>(ca: Config, cb: Config, list: seq<Entry<K, V>>, xs: seq<PairOp<K, V>>): Pair<K, V> {
    if xs == [] then Pair(list, list, KeySet(list))
    else PairNext(ca, cb, PairRun(ca, cb, list, xs[..|xs| - 1]), xs[|xs| - 1])
  }

  // ----- the caches -----

  /** Two caches with separate lists; they may share entry objects. */
  ghost predicate Apart<K, V>(c: LruCache<K, V>, n: LruCache<K, V>)
    reads c, n, c.lru, n.lru, c.lru.nodes, n.lru.nodes
  {
    && c.Valid() && n.Valid() && c != n && c.lru != n.lru
    && (forall j {:trigger n.lru.nodes[j]} :: 0 <= j < |n.lru.nodes| ==> n.lru.nodes[j] !in c.lru.nodes)
  }

  /** The keys whose entry object both hold. */
  ghost function Common<K, V>(c: LruCache<K, V>, n: LruCache<K, V>): set<K>
    reads c, n
  {
    SameCell(c.cache, n.cache)
  }

  lemma KeysOfCache<K, V>(c: LruCache<K, V>)
    requires c.Valid()
    ensures c.cache.Keys == KeySet(c.Contents())
  {
    forall k | k in c.cache ensures k in KeySet(c.Contents()) {
      c.Lookup(k);
      var i := Find(c.Contents(), k);
      assert c.Contents()[i].key == k;
    }
    forall i | 0 <= i < |c.lru.nodes| ensures c.Contents()[i].key in c.cache {
      EntryAt(c.lru.nodes, i);
    }
  }

  /** The element of a key stays the same as long as the key stays. */
  lemma SameElement<K, V>(cache: map<K, Element<K, V>>, nodes: seq<Element<K, V>>, cache': map<K, Element<K, V>>,
                          nodes': seq<Element<K, V>>, k: K)
    requires Agrees(cache, nodes) && Agrees(cache', nodes') && k in cache' && cache'[k] in nodes
    ensures k in cache && cache[k] == cache'[k]
  {
  }

  lemma ElementThere<K, V>(cache: map<K, Element<K, V>>, nodes: seq<Element<K, V>>, k: K)
    requires Agrees(cache, nodes) && k in cache
    ensures cache[k] in nodes && cache[k].cell.key == k
  {
  }

  /** An entry object of the first cache is in the second only under its own key. */
  lemma OtherwiseApart<K, V>(c: LruCache<K, V>, n: LruCache<K, V>, key: K, j: nat)
    requires c.Valid() && n.Valid() && key in c.cache && j < |n.lru.nodes|
    requires n.lru.nodes[j].cell == c.cache[key].cell
    ensures key in Common(c, n) && j == Find(n.Contents(), key)
  {
    c.KeyOf(key);
    n.Lookup(key);
    n.KeyOf(key);
    n.lru.Position(n.lru.nodes[j]);
  }

  lemma OverwrittenKey<K, V>(cfg: Config, list: seq<Entry<K, V>>, op: Op<K, V>)
    ensures var w := Overwritten(cfg, list, op); w.Some? ==> w.value.key == op.key && Find(list, op.key) >= 0
  {
    hide Find;
  }

  /** Where the entry object that an operation on the first cache writes is found in the second. */
  lemma WhereShown<K, V>(c: LruCache<K, V>, n: LruCache<K, V>, op: Op<K, V>, j: nat)
    requires c.Valid() && n.Valid() && j < |n.lru.nodes|
    ensures n.lru.nodes[j].cell in c.TouchedCell(op) <==>
            Overwritten(c.cfg, c.Contents(), op).Some? && op.key in Common(c, n) && j == Find(n.Contents(), op.key)
  {
    c.TouchedIsOverwritten(op);
    var w := Overwritten(c.cfg, c.Contents(), op);
    hide Overwritten, Agrees, DList.Valid, Entries, Find, LruCache.TouchedCell;
    if w.Some? && n.lru.nodes[j].cell == c.cache[op.key].cell {
      OtherwiseApart(c, n, op.key, j);
    }
    if op.key in n.cache {
      n.Lookup(op.key);
      n.lru.Position(n.cache[op.key]);
    }
  }

  method PerformApart<K(==), V>(c: LruCache<K, V>, n: LruCache<K, V>, op: Op<K, V>)
    requires Apart(c, n)
    modifies c, c.lru, c.lru.nodes, c.TouchedCell(op)
    ensures Apart(c, n) && c.lru == old(c.lru) && c.Grown()
    ensures c.Contents() == Apply(c.cfg, old(c.Contents()), op).list
    ensures var w := Overwritten(c.cfg, old(c.Contents()), op); w.Some? ==>
              op.key in old(c.cache) && var e := old(c.cache[op.key]).cell; w.value == Entry(e.key, e.value, e.expires)
    ensures n.cache == old(n.cache) && n.lru == old(n.lru) && n.lru.nodes == old(n.lru.nodes)
  {
    hide Agrees, DList.Valid, Entries, Apply, Overwritten, LruCache.TouchedCell;
    Perform(c, op);
  }

  method PerformCommon<K(==), V>(c: LruCache<K, V>, n: LruCache<K, V>, op: Op<K, V>)
    requires Apart(c, n)
    modifies c, c.lru, c.lru.nodes, c.TouchedCell(op)
    ensures Apart(c, n) && c.lru == old(c.lru) && c.Grown()
    ensures c.Contents() == Apply(c.cfg, old(c.Contents()), op).list
    ensures var w := Overwritten(c.cfg, old(c.Contents()), op); w.Some? ==>
              op.key in old(c.cache) && var e := old(c.cache[op.key]).cell; w.value == Entry(e.key, e.value, e.expires)
    ensures n.lru == old(n.lru) && n.lru.nodes == old(n.lru.nodes)
    ensures Common(c, n) == old(Common(c, n)) * c.cache.Keys
  {
    hide Agrees, DList.Valid, Entries, Apply, Overwritten, LruCache.TouchedCell, SameCell;
    ghost var cache, nodes := c.cache, c.lru.nodes;
    PerformApart(c, n, op);
    CommonFrom(cache, nodes, c.cache, c.lru.nodes, n.cache, n.lru.nodes);
  }

  /** An operation on the first of two such caches: the first refines the plain sequence, the second shows what
      was written to a shared entry object, and a key is shared as long as the first still holds it. */
  method OperateBeside<K(==), V>(c: LruCache<K, V>, n: LruCache<K, V>, op: Op<K, V>)
    requires Apart(c, n)
    modifies c, c.lru, c.lru.nodes, c.TouchedCell(op)
    ensures Apart(c, n) && c.lru == old(c.lru) && c.Grown()
    ensures c.Contents() == Apply(c.cfg, old(c.Contents()), op).list
    ensures n.Contents() == Shown(old(n.Contents()), old(Common(c, n)), Overwritten(c.cfg, old(c.Contents()), op))
    ensures Common(c, n) == old(Common(c, n)) * c.cache.Keys
  {
    hide Agrees, DList.Valid, Entries, Apply, Overwritten, Find, Shown, LruCache.TouchedCell, SameCell, Apart,
         LruCache.Grown;
    ghost var other, shared, copies := n.Contents(), Common(c, n), n.lru.nodes;
    ghost var w := Overwritten(c.cfg, c.Contents(), op);
    OverwrittenKey(c.cfg, c.Contents(), op);
    Remember(c, n, op);
    PerformCommon(c, n, op);
    forall j | 0 <= j < |copies|
      ensures n.Contents()[j] == if w.Some? && op.key in shared && j == Find(other, op.key) then w.value else other[j]
    {
      EntryAt(copies, j);
    }
    ShownFrom(other, n.Contents(), shared, w, op.key);
  }

  /** What the second cache holds before an operation on the first, and where that operation will show. */
  lemma Remember<K, V>(c: LruCache<K, V>, n: LruCache<K, V>, op: Op<K, V>)
    requires Apart(c, n)
    ensures forall j {:trigger n.lru.nodes[j]} :: 0 <= j < |n.lru.nodes| ==>
              var e := n.lru.nodes[j].cell;
              && n.Contents()[j] == Entry(e.key, e.value, e.expires)
              && (e in c.TouchedCell(op) <==>
                  && Overwritten(c.cfg, c.Contents(), op).Some? && op.key in Common(c, n)
                  && j == Find(n.Contents(), op.key))
              && (e in c.TouchedCell(op) ==> op.key in c.cache && c.cache[op.key].cell == e)
  {
    c.TouchedIsOverwritten(op);
    hide Agrees, DList.Valid, Entries, Overwritten, Find, LruCache.TouchedCell, Common;
    forall j | 0 <= j < |n.lru.nodes|
      ensures var e := n.lru.nodes[j].cell;
              && n.Contents()[j] == Entry(e.key, e.value, e.expires)
              && (e in c.TouchedCell(op) <==>
                  && Overwritten(c.cfg, c.Contents(), op).Some? && op.key in Common(c, n)
                  && j == Find(n.Contents(), op.key))
    {
      EntryAt(n.lru.nodes, j);
      WhereShown(c, n, op, j);
    }
  }

  lemma ShownFrom<K, V>(other: seq<Entry<K, V>>, now: seq<Entry<K, V>>, shared: set<K>, w: Option<Entry<K, V>>, key: K)
    requires |now| == |other| && (w.Some? ==> w.value.key == key)
    requires forall j :: 0 <= j < |now| ==>
               now[j] == if w.Some? && key in shared && j == Find(other, key) then w.value else other[j]
    ensures now == Shown(other, shared, w)
  {
    hide Find;
  }

  /** The keys under which two maps have the same entry object. */
  ghost function SameCell<K, V>(cache: map<K, Element<K, V>>, other: map<K, Element<K, V>>): set<K> {
    set k | k in cache && k in other && cache[k].cell == other[k].cell
  }

  /** Keys that stay keep their elements, and new elements have entry objects of their own. */
  lemma CommonFrom<K, V>(cache: map<K, Element<K, V>>, nodes: seq<Element<K, V>>, cache': map<K, Element<K, V>>,
                         nodes': seq<Element<K, V>>, other: map<K, Element<K, V>>, copies: seq<Element<K, V>>)
    requires Agrees(cache, nodes) && Agrees(cache', nodes') && Agrees(other, copies)
    requires forall i {:trigger nodes'[i]} :: 0 <= i < |nodes'| ==>
               || nodes'[i] in nodes
               || (nodes'[i].cell.key !in cache &&
                   forall j {:trigger copies[j]} :: 0 <= j < |copies| ==> copies[j].cell != nodes'[i].cell)
    ensures SameCell(cache', other) == SameCell(cache, other) * cache'.Keys
  {
    forall k | k in cache' && k in other
      ensures k in SameCell(cache', other) <==> k in SameCell(cache, other)
    {
      ElementThere(cache', nodes', k);
      ElementThere(other, copies, k);
      if cache'[k] in nodes {
        SameElement(cache, nodes, cache', nodes', k);
      }
    }
  }

  lemma Symmetric<K, V>(c: LruCache<K, V>, n: LruCache<K, V>)
    requires Apart(c, n)
    ensures Apart(n, c) && Common(n, c) == Common(c, n)
  {
  }

  ghost function Both<K, V>(c: LruCache<K, V>, n: LruCache<K, V>): Pair<K, V>
    reads c, n, c.lru, n.lru, c.Cells(), n.Cells()
  {
    Pair(c.Contents(), n.Contents(), Common(c, n))
  }

  /** One operation of an interleaved history, on either cache. */
  method OperateOn<K(==), V>(c: LruCache<K, V>, n: LruCache<K, V>, x: PairOp<K, V>)
    requires Apart(c, n)
    modifies c, n, c.lru, n.lru, c.lru.nodes, n.lru.nodes, c.Cells(), n.Cells()
    ensures Apart(c, n) && c.lru == old(c.lru) && n.lru == old(n.lru) && c.Grown() && n.Grown()
    ensures Both(c, n) == PairNext(c.cfg, n.cfg, old(Both(c, n)), x)
  {
    hide Agrees, DList.Valid, Entries, Apply, Overwritten, Find, Shown, LruCache.TouchedCell, SameCell, KeySet;
    match x
    case OnA(op) =>
      OneOf(c, n, op);
      OperateBeside(c, n, op);
      KeysOfCache(c);
    case OnB(op) =>
      Symmetric(c, n);
      OneOf(n, c, op);
      OperateBeside(n, c, op);
      Symmetric(n, c);
      KeysOfCache(n);
  }

  lemma OneOf<K, V>(c: LruCache<K, V>, n: LruCache<K, V>, op: Op<K, V>)
    requires Apart(c, n)
    ensures c.TouchedCell(op) <= c.Cells()
  {
    hide Agrees, DList.Valid, Entries, LruCache.TouchedCell;
    c.TouchedIsOverwritten(op);
  }

  lemma PairSnoc<K, V>(ca: Config, cb: Config, list: seq<Entry<K, V>>, xs: seq<PairOp<K, V>>, i: nat)
    requires i < |xs|
    ensures PairRun(ca, cb, list, xs[..i + 1]) == PairNext(ca, cb, PairRun(ca, cb, list, xs[..i]), xs[i])
  {
    assert xs[..i + 1][..i] == xs[..i];
  }

  lemma PairStart<K, V>(ca: Config, cb: Config, list: seq<Entry<K, V>>, xs: seq<PairOp<K, V>>)
    ensures PairRun(ca, cb, list, xs[..0]) == Pair(list, list, KeySet(list))
  {
  }

  lemma CloneShares<K, V>(c: LruCache<K, V>, n: LruCache<K, V>)
    requires c.Valid() && n.Valid() && |n.lru.nodes| == |c.lru.nodes|
    requires forall i {:trigger n.lru.nodes[i]} :: 0 <= i < |c.lru.nodes| ==> n.lru.nodes[i].cell == c.lru.nodes[i].cell
    ensures Common(c, n) == c.cache.Keys
  {
    forall k | k in c.cache ensures k in Common(c, n) {
      c.KeyOf(k);
      c.lru.Position(c.cache[k]);
      assert n.lru.nodes[c.cache[k].pos].cell.key == k;
    }
  }

  /** A new clone: separate lists over the same entry objects. */
  method Clone<K(==), V>(c: LruCache<K, V>, n: LruCache<K, V>)
    requires c.Valid() && c != n
    modifies n
    ensures Apart(c, n) && c.Contents() == old(c.Contents()) && c.lru == old(c.lru) && fresh(n.lru)
    ensures Both(c, n) == Pair(old(c.Contents()), old(c.Contents()), KeySet(old(c.Contents())))
    ensures forall i {:trigger n.lru.nodes[i]} :: 0 <= i < |n.lru.nodes| ==>
              fresh(n.lru.nodes[i]) && n.lru.nodes[i].cell in c.Cells()
  {
    hide Agrees, DList.Valid, Entries, SameCell, KeySet;
    c.CloneTo(n);
    CloneShares(c, n);
    KeysOfCache(c);
  }

  /** Any interleaved history on a cache and its new clone: both stay valid, and their lists, and the keys whose
      entries they share, are those of the specification. */
  method Interleave<K(==), V>(c: LruCache<K, V>, n: LruCache<K, V>, xs: seq<PairOp<K, V>>)
    requires c.Valid() && c != n
    modifies c, n, c.lru, c.lru.nodes, c.Cells()
    ensures c.Valid() && n.Valid()
    ensures Both(c, n) == PairRun(c.cfg, n.cfg, old(c.Contents()), xs)
  {
    hide Agrees, DList.Valid, Entries, PairRun, PairNext, SameCell, KeySet;
    ghost var list := c.Contents();
    Clone(c, n);
    PairStart(c.cfg, n.cfg, list, xs);
    for i := 0 to |xs|
      invariant Apart(c, n) && c.lru == old(c.lru) && fresh(n.lru)
      invariant forall j {:trigger c.lru.nodes[j]} :: 0 <= j < |c.lru.nodes| ==>
                  c.lru.nodes[j] in old(c.lru.nodes) || (fresh(c.lru.nodes[j]) && fresh(c.lru.nodes[j].cell))
      invariant forall j {:trigger n.lru.nodes[j]} :: 0 <= j < |n.lru.nodes| ==>
                  fresh(n.lru.nodes[j]) && (n.lru.nodes[j].cell in old(c.Cells()) || fresh(n.lru.nodes[j].cell))
      invariant Both(c, n) == PairRun(c.cfg, n.cfg, list, xs[..i])
    {
      PairSnoc(c.cfg, n.cfg, list, xs, i);
      OperateOn(c, n, xs[i]);
    }
    assert xs[..|xs|] == xs;
  }

  // ----- what the specification promises -----

  /** Every entry after an operation: that of the operation's key is the one overwritten, or as it was; the others
      were there. */
  lemma EntrySource<K, V>(cfg: Config, list: seq<Entry<K, V>>, op: Op<K, V>, e: Entry<K, V>)
    requires Distinct(list) && e in Apply(cfg, list, op).list
    ensures e.key != op.key ==> e in list
    ensures e.key == op.key && Find(list, op.key) >= 0 ==>
              var w := Overwritten(cfg, list, op); e == if w.Some? then w.value else list[Find(list, op.key)]
  {
    hide Find, Without, ExpiredPrefix, Distinct, SetWithExpire;
    match op
    case Set(k, v, t1, t2) => SetSource(cfg, list, k, v, ExpiryAt(cfg, t1), t2, e);
    case SetAt(k, v, expires, t2) => SetSource(cfg, list, k, v, expires, t2, e);
    case Get(k, t1, t2) =>
      if Find(list, k) >= 0 && e in Without(list, Find(list, k)) {
        WithoutSource(list, Find(list, k), e);
      }
    case Delete(k) =>
      if Find(list, k) >= 0 {
        WithoutSource(list, Find(list, k), e);
      }
  }

  lemma ShownSource<K, V>(list: seq<Entry<K, V>>, shared: set<K>, w: Option<Entry<K, V>>, e: Entry<K, V>)
    requires Distinct(list) && e in Shown(list, shared, w)
    ensures w.Some? && w.value.key in shared && e.key == w.value.key ==> e == w.value
    ensures !(w.Some? && w.value.key in shared && e.key == w.value.key) ==> e in list
  {
    hide Find;
  }

  /** Both lists hold a shared key, with the same value and expiry. */
  ghost predicate InStep<K(!new), V(!new)>(p: Pair<K, V>) {
    && Distinct(p.a) && Distinct(p.b) && p.shared <= KeySet(p.a) && p.shared <= KeySet(p.b)
    && (forall x, y :: x in p.a && y in p.b && x.key == y.key && x.key in p.shared ==> x == y)
  }

  lemma InStepAfterA<K(!new), V(!new)>(ca: Config, cb: Config, p: Pair<K, V>, op: Op<K, V>)
    requires InStep(p)
    ensures InStep(PairNext(ca, cb, p, OnA(op)))
  {
    hide Apply, Overwritten, Find, Shown, Distinct, KeySet;
    var q, w := PairNext(ca, cb, p, OnA(op)), Overwritten(ca, p.a, op);
    ApplyDistinct(ca, p.a, op);
    OverwrittenKey(ca, p.a, op);
    ShownKeys(p.b, p.shared, w);
    forall x, y | x in q.a && y in q.b && x.key == y.key && x.key in q.shared ensures x == y {
      EntrySource(ca, p.a, op, x);
      ShownSource(p.b, p.shared, w, y);
      Present(p.a, x.key);
    }
  }

  lemma ShownKeys<K, V>(list: seq<Entry<K, V>>, shared: set<K>, w: Option<Entry<K, V>>)
    ensures Distinct(list) ==> Distinct(Shown(list, shared, w))
    ensures KeySet(Shown(list, shared, w)) == KeySet(list)
    ensures Keys(Shown(list, shared, w)) == Keys(list)
  {
    hide Find;
    var r := Shown(list, shared, w);
    assert forall j :: 0 <= j < |list| ==> r[j].key == list[j].key;
    assert KeySet(r) == KeySet(list);
  }

  lemma Present<K, V>(list: seq<Entry<K, V>>, k: K)
    requires k in KeySet(list)
    ensures Find(list, k) >= 0 && list[Find(list, k)].key == k && list[Find(list, k)] in list
  {
    hide Find;
  }

  function Swapped<K, V>(p: Pair<K, V>): Pair<K, V> {
    Pair(p.b, p.a, p.shared)
  }

  lemma InStepAfter<K(!new), V(!new)>(ca: Config, cb: Config, p: Pair<K, V>, x: PairOp<K, V>)
    requires InStep(p)
    ensures InStep(PairNext(ca, cb, p, x))
  {
    hide Apply, Overwritten, Shown, Distinct, KeySet;
    match x
    case OnA(op) => InStepAfterA(ca, cb, p, op);
    case OnB(op) =>
      InStepAfterA(cb, ca, Swapped(p), op);
      assert PairNext(ca, cb, p, x) == Swapped(PairNext(cb, ca, Swapped(p), OnA(op)));
  }

  /** In every interleaved history, as long as both have held a key since the cloning they show the same value and
      expiry for it, whichever of them wrote it. */
  lemma {:induction false} SharedStayInStep<K(!new), V(!new)>(ca: Config, cb: Config, list: seq<Entry<K, V>>,
                                                              xs: seq<PairOp<K, V>>)
    requires Distinct(list)
    ensures InStep(PairRun(ca, cb, list, xs))
  {
    if xs != [] {
      hide InStep, PairNext;
      SharedStayInStep(ca, cb, list, xs[..|xs| - 1]);
      InStepAfter(ca, cb, PairRun(ca, cb, list, xs[..|xs| - 1]), xs[|xs| - 1]);
    }
  }

  // ----- keys and their order -----

  /** The operations on one side of an interleaved history. */
  function OpsOnA<K, V>(xs: seq<PairOp<K, V>>): seq<Op<K, V>> {
    if xs == [] then []
    else
      var before, x := OpsOnA(xs[..|xs| - 1]), xs[|xs| - 1];
      if x.OnA? then before + [x.op] else before
  }

  /** A cache with this list, by itself. */
  function RunFrom<K(==), V>(cfg: Config, list: seq<Entry<K, V>>, ops: seq<Op<K, V>>): seq<Entry<K, V>> {
    if ops == [] then list else Apply(cfg, RunFrom(cfg, list, ops[..|ops| - 1]), ops[|ops| - 1]).list
  }

  lemma {:induction false} FindByKeys<K, V>(l: seq<Entry<K, V>>, m: seq<Entry<K, V>>, key: K)
    requires Keys(l) == Keys(m)
    ensures Find(l, key) == Find(m, key)
  {
    assert |l| == |m|;
    if l != [] {
      assert Keys(l)[0] == Keys(m)[0];
      assert Keys(l[1..]) == Keys(l)[1..] == Keys(m)[1..] == Keys(m[1..]);
      FindByKeys(l[1..], m[1..], key);
    }
  }

  lemma KeysOfParts<K, V>(l: seq<Entry<K, V>>, e: Entry<K, V>, i: nat)
    ensures Keys(l + [e]) == Keys(l) + [e.key]
    ensures i < |l| ==> Keys(Without(l, i)) == Without(Keys(l), i)
    ensures i <= |l| ==> Keys(l[i..]) == Keys(l)[i..]
  {
  }

  /** Without aging, the keys after an operation depend on the keys before it alone. */
  lemma KeysAfter<K, V>(cfg: Config, l: seq<Entry<K, V>>, m: seq<Entry<K, V>>, op: Op<K, V>)
    requires Keys(l) == Keys(m) && !cfg.Ages()
    ensures Keys(Apply(cfg, l, op).list) == Keys(Apply(cfg, m, op).list)
  {
    assert |Keys(l)| == |l| && |Keys(m)| == |m|;
    FindByKeys(l, m, op.key);
    var i := Find(l, op.key);
    if IsWrite(op) {
      KeysAfterWrite(cfg, l, Written(cfg, op), op.t2);
      KeysAfterWrite(cfg, m, Written(cfg, op), op.t2);
    } else if i >= 0 {
      KeysOfParts(l, l[i], i);
      KeysOfParts(m, m[i], i);
      hide Find, Keys, Without;
      if op.Get? {
        var x := if Renews(cfg, l[i].expires, op.t1) then l[i].(expires := op.t2 + cfg.maxAge) else l[i];
        var y := if Renews(cfg, m[i].expires, op.t1) then m[i].(expires := op.t2 + cfg.maxAge) else m[i];
        KeysOfParts(Without(l, i), x, 0);
        KeysOfParts(Without(m, i), y, 0);
      }
    }
  }

  lemma KeysAfterWrite<K, V>(cfg: Config, l: seq<Entry<K, V>>, e: Entry<K, V>, now: int)
    requires !cfg.Ages()
    ensures var i := Find(l, e.key);
            var grown := (if i >= 0 then Without(Keys(l), i) else Keys(l)) + [e.key];
            Keys(SetWithExpire(cfg, l, e.key, e.value, e.expires, now).list) ==
            grown[if i < 0 && cfg.maxSize > 0 && |grown| > cfg.maxSize then 1 else 0..]
  {
    var i := Find(l, e.key);
    var rest := if i >= 0 then Without(l, i) else l;
    KeysOfParts(l, e, if i >= 0 then i else 0);
    KeysOfParts(rest, e, 0);
    hide Find, Keys, Without;
    var grown := rest + [e];
    var over := if i < 0 && cfg.maxSize > 0 && |grown| > cfg.maxSize then 1 else 0;
    KeysOfParts(grown, e, over);
    assert SetWithExpire(cfg, l, e.key, e.value, e.expires, now).list == grown[over..];
  }

  lemma {:induction false} OwnOrder<K, V>(ca: Config, cb: Config, list: seq<Entry<K, V>>, xs: seq<PairOp<K, V>>)
    requires !ca.Ages()
    ensures Keys(PairRun(ca, cb, list, xs).a) == Keys(RunFrom(ca, list, OpsOnA(xs)))
  {
    if xs != [] {
      var front, x := xs[..|xs| - 1], xs[|xs| - 1];
      OwnOrder(ca, cb, list, front);
      hide Apply, Overwritten, Shown, KeySet, Keys;
      var p := PairRun(ca, cb, list, front);
      if x.OnA? {
        assert OpsOnA(xs)[..|OpsOnA(front)|] == OpsOnA(front);
        KeysAfter(ca, p.a, RunFrom(ca, list, OpsOnA(front)), x.op);
      } else {
        ShownKeys(p.a, p.shared, Overwritten(cb, p.b, x.op));
      }
    }
  }

  ghost predicate AlwaysOwnOrder<K(!new), V(!new)>(ca: Config, cb: Config) {
    forall list: seq<Entry<K, V>>, xs: seq<PairOp<K, V>> {:trigger PairRun(ca, cb, list, xs)} ::
      Distinct(list) ==> Keys(PairRun(ca, cb, list, xs).a) == Keys(RunFrom(ca, list, OpsOnA(xs)))
  }

  /** The keys of a cache and their order follow its own operations, whatever is done to the other, in all
      interleaved histories if and only if it does not age: otherwise a write to the other keeps an entry alive. */
  lemma OwnOrderExactlyWhen<K(!new), V(!new)>(ca: Config, cb: Config, k: K, v: V)
    ensures AlwaysOwnOrder<K, V>(ca, cb) <==> !ca.Ages()
  {
    hide Keys, PairRun, RunFrom, OpsOnA, Distinct;
    if !ca.Ages() {
      forall list: seq<Entry<K, V>>, xs: seq<PairOp<K, V>> | Distinct(list)
        ensures Keys(PairRun(ca, cb, list, xs).a) == Keys(RunFrom(ca, list, OpsOnA(xs)))
      {
        OwnOrder(ca, cb, list, xs);
      }
    } else {
      var list, xs := KeptAlive(ca, cb, k, v);
    }
  }

  /** The failing history: the other cache extends an entry which this one then finds alive. */
  lemma KeptAlive<K(!new), V(!new)>(ca: Config, cb: Config, k: K, v: V)
      returns (list: seq<Entry<K, V>>, xs: seq<PairOp<K, V>>)
    requires ca.Ages()
    ensures Distinct(list) && Keys(PairRun(ca, cb, list, xs).a) != Keys(RunFrom(ca, list, OpsOnA(xs)))
  {
    hide Apply, Overwritten, Find, Shown, KeySet, PairRun, PairNext, OpsOnA, RunFrom;
    var e, write, read := Entry(k, v, 1), Op.SetAt(k, v, 5, 0), Op.Get(k, 2, 2);
    list, xs := [e], [OnB(write), OnA(read)];
    assert xs[..0] == [] && xs[..1] == [OnB(write)] && xs[..2] == xs;
    PairStart(ca, cb, list, xs);
    PairSnoc(ca, cb, list, xs, 0);
    PairSnoc(ca, cb, list, xs, 1);
    ExtendedByB(ca, cb, e, write);
    ReadByA(ca, cb, PairRun(ca, cb, list, xs[..1]), Entry(k, v, 5), read);
    OnlyRead(ca, list, write, read);
    ReadDead(ca, e, read);
  }

  lemma ExtendedByB<K, V>(ca: Config, cb: Config, e: Entry<K, V>, op: Op<K, V>)
    requires op.SetAt? && op.key == e.key
    ensures PairNext(ca, cb, Pair([e], [e], KeySet([e])), OnB(op)).a == [Written(cb, op)]
  {
    hide Apply;
    assert Find([e], e.key) == 0 && [e][0].key in KeySet([e]);
    assert [e][0 := Written(cb, op)] == [Written(cb, op)];
  }

  lemma ReadByA<K, V>(ca: Config, cb: Config, p: Pair<K, V>, e: Entry<K, V>, op: Op<K, V>)
    requires ca.Ages() && op.Get? && op.key == e.key && e.expires > op.t1 && p.a == [e]
    ensures |PairNext(ca, cb, p, OnA(op)).a| == 1
  {
    hide Apply;
    ReadAlive(ca, e, op);
  }

  lemma OnlyRead<K, V>(ca: Config, list: seq<Entry<K, V>>, write: Op<K, V>, read: Op<K, V>)
    ensures RunFrom(ca, list, OpsOnA([OnB(write), OnA(read)])) == Apply(ca, list, read).list
  {
    hide Apply;
    var xs := [OnB(write), OnA(read)];
    assert xs[..1] == [OnB(write)] && xs[..1][..0] == [] && [read][..0] == [];
    assert OpsOnA(xs[..1]) == [];
    assert OpsOnA(xs) == [] + [read] == [read];
  }

  lemma ReadAlive<K, V>(cfg: Config, e: Entry<K, V>, op: Op<K, V>)
    requires cfg.Ages() && op.Get? && op.key == e.key && e.expires > op.t1
    ensures |Apply(cfg, [e], op).list| == 1
  {
    assert Find([e], op.key) == 0;
  }

  lemma ReadDead<K, V>(cfg: Config, e: Entry<K, V>, op: Op<K, V>)
    requires cfg.Ages() && op.Get? && op.key == e.key && e.expires <= op.t1
    ensures Apply(cfg, [e], op).list == []
  {
    assert Find([e], op.key) == 0;
    assert Without([e], 0) == [];
  }

  // ----- one operation after cloning -----

  /** The operation on the source that a clone notices: a write that changes the entry of a present key, or a
      hit that moves its expiry. New keys, evictions and deletions are not. */
  ghost predicate ShowsInClone<K, V>(cfg: Config, list: seq<Entry<K, V>>, op: Op<K, V>) {
    var i := Find(list, op.key);
    && i >= 0
    && (IsWrite(op) ==> list[i] != Written(cfg, op))
    && (op.Get? ==> Renews(cfg, list[i].expires, op.t1) && list[i].expires != op.t2 + cfg.maxAge)
    && !op.Delete?
  }

  lemma ShowsExactlyWhen<K, V>(ca: Config, cb: Config, list: seq<Entry<K, V>>, op: Op<K, V>)
    ensures var b := PairRun(ca, cb, list, [OnA(op)]).b;
            && Keys(b) == Keys(list)
            && (b == list <==> !ShowsInClone(ca, list, op))
  {
    hide Find, PairRun, Apply, Overwritten, Shown, KeySet, ShowsInClone, Keys;
    OneStep(ca, cb, list, op);
    ShownKeys(list, KeySet(list), Overwritten(ca, list, op));
    ShownExactlyWhen(ca, list, op);
  }

  lemma OneStep<K, V>(ca: Config, cb: Config, list: seq<Entry<K, V>>, op: Op<K, V>)
    ensures PairRun(ca, cb, list, [OnA(op)]).b == Shown(list, KeySet(list), Overwritten(ca, list, op))
  {
    hide Find, Apply, Overwritten, Shown, KeySet;
    var xs: seq<PairOp<K, V>> := [OnA(op)];
    assert xs[..0] == [];
  }

  lemma ShownExactlyWhen<K, V>(ca: Config, list: seq<Entry<K, V>>, op: Op<K, V>)
    ensures Shown(list, KeySet(list), Overwritten(ca, list, op)) == list <==> !ShowsInClone(ca, list, op)
  {
    hide Find;
    var i, w := Find(list, op.key), Overwritten(ca, list, op);
    if w.Some? {
      assert list[i].key in KeySet(list);
      assert list[i := w.value][i] == w.value;
      assert w.value == list[i] ==> list[i := w.value] == list;
    }
  }

  /** A clone shares the entry objects of its source, so it is independent of it for exactly the operations
      that do not show. Its keys and their order never change. */
  method OperateAfterClone<K(==), V>(c: LruCache<K, V>, n: LruCache<K, V>, op: Op<K, V>)
    requires c.Valid() && c != n
    modifies c, n, c.lru, c.lru.nodes, c.Cells()
    ensures c.Valid() && n.Valid()
    ensures Both(c, n) == PairRun(c.cfg, n.cfg, old(c.Contents()), [OnA(op)])
    ensures n.Contents() == old(c.Contents()) <==> !ShowsInClone(c.cfg, old(c.Contents()), op)
    ensures Keys(n.Contents()) == Keys(old(c.Contents()))
  {
    hide Agrees, DList.Valid, Entries, ShowsInClone, PairRun;
    ShowsExactlyWhen(c.cfg, n.cfg, c.Contents(), op);
    Interleave(c, n, [OnA(op)]);
  }

  /** The concrete case: overwriting a present key in the source overwrites it in the clone. */
  method WriteShowsInClone<K(==), V>(c: LruCache<K, V>, n: LruCache<K, V>, key: K, value: V, expires: int, now: int)
    requires c.Valid() && c != n && key in c.cache
    modifies c, n, c.lru, c.lru.nodes, c.Cells()
    ensures exists i :: 0 <= i < |n.Contents()| && n.Contents()[i] == Entry(key, value, expires)
  {
    hide Agrees, DList.Valid, Entries;
    c.Lookup(key);
    WriteShows(c.cfg, n.cfg, c.Contents(), SetAt(key, value, expires, now));
    ghost var i := Find(c.Contents(), key);
    hide PairRun, Find;
    OperateAfterClone(c, n, SetAt(key, value, expires, now));
    assert n.Contents()[i] == Entry(key, value, expires);
  }

  lemma WriteShows<K, V>(ca: Config, cb: Config, list: seq<Entry<K, V>>, op: Op<K, V>)
    requires IsWrite(op) && Find(list, op.key) >= 0
    ensures var b := PairRun(ca, cb, list, [OnA(op)]).b; |b| == |list| && b[Find(list, op.key)] == Written(ca, op)
  {
    hide Find, Apply, PairRun;
    OneStep(ca, cb, list, op);
    assert list[Find(list, op.key)].key in KeySet(list);
  }
}
