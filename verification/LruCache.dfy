/** The cache itself: a hash map onto the elements of a doubly linked list, refining the plain sequence. */
module LruCaches {
  import opened Bytes
  import opened LinkedList
  import opened LruSpec

  /** The entries a sequence of elements points at. */
  ghost function Entries<K, V>(nodes: seq<Element<K, V>>): (es: seq<Entry<K, V>>)
    reads set i | 0 <= i < |nodes| :: nodes[i].cell
    ensures |es| == |nodes|
  {
    var cells := set i | 0 <= i < |nodes| :: nodes[i].cell;
    seq(|nodes|, i requires 0 <= i < |nodes| reads cells =>
      Entry(nodes[i].cell.key, nodes[i].cell.value, nodes[i].cell.expires))
  }

  /** Map and list in one-to-one agreement: each element is where the map says its key is, and the map has
      nothing else. */
  ghost predicate Agrees<K, V>(cache: map<K, Element<K, V>>, nodes: seq<Element<K, V>>) {
    && (forall i {:trigger nodes[i]} :: 0 <= i < |nodes| ==>
          nodes[i].cell.key in cache && cache[nodes[i].cell.key] == nodes[i])
    && (forall k {:trigger cache[k]} :: k in cache ==> cache[k] in nodes && cache[k].cell.key == k)
  }

  /** What the eviction callback is called with. */
  function CalledBack<K, V>(es: seq<Entry<K, V>>): seq<(K, V)> {
    seq(|es|, i requires 0 <= i < |es| => (es[i].key, es[i].value))
  }

  lemma EntriesWithout<K, V>(nodes: seq<Element<K, V>>, i: nat)
    requires i < |nodes|
    ensures Entries(Without(nodes, i)) == Without(Entries(nodes), i)
  {
  }

  lemma AgreesWithout<K, V>(cache: map<K, Element<K, V>>, nodes: seq<Element<K, V>>, i: nat)
    requires Agrees(cache, nodes) && i < |nodes| && nodes[i] !in Without(nodes, i)
    ensures Agrees(cache - {nodes[i].cell.key}, Without(nodes, i))
  {
    var cache', nodes' := cache - {nodes[i].cell.key}, Without(nodes, i);
    forall j | 0 <= j < |nodes'|
      ensures nodes'[j].cell.key in cache' && cache'[nodes'[j].cell.key] == nodes'[j]
    {
      assert nodes'[j] == nodes[if j < i then j else j + 1];
      assert nodes'[j] in nodes';
    }
    forall k | k in cache' ensures cache'[k] in nodes' && cache'[k].cell.key == k {
      var j :| 0 <= j < |nodes| && nodes[j] == cache[k];
      assert j != i;
      assert nodes'[if j < i then j else j - 1] == nodes[j];
    }
  }

  lemma AgreesMoved<K, V>(cache: map<K, Element<K, V>>, nodes: seq<Element<K, V>>, i: nat)
    requires Agrees(cache, nodes) && i < |nodes|
    ensures Agrees(cache, Without(nodes, i) + [nodes[i]])
  {
    var nodes' := Without(nodes, i) + [nodes[i]];
    forall j | 0 <= j < |nodes'|
      ensures nodes'[j].cell.key in cache && cache[nodes'[j].cell.key] == nodes'[j]
    {
      assert nodes'[j] == nodes[if j < i then j else if j < |nodes| - 1 then j + 1 else i];
    }
    forall k | k in cache ensures cache[k] in nodes' {
      var j :| 0 <= j < |nodes| && nodes[j] == cache[k];
      assert nodes'[if j < i then j else if j == i then |nodes| - 1 else j - 1] == nodes[j];
    }
  }

  lemma AgreesSnoc<K, V>(cache: map<K, Element<K, V>>, nodes: seq<Element<K, V>>, le: Element<K, V>)
    requires Agrees(cache, nodes) && le.cell.key !in cache
    ensures Agrees(cache[le.cell.key := le], nodes + [le])
  {
    var cache', nodes' := cache[le.cell.key := le], nodes + [le];
    forall k | k in cache' ensures cache'[k] in nodes' && cache'[k].cell.key == k {
      if k != le.cell.key {
        assert cache[k] in nodes;
      }
    }
  }

  lemma EntriesSnoc<K, V>(nodes: seq<Element<K, V>>, le: Element<K, V>)
    ensures Entries(nodes + [le]) == Entries(nodes) + [Entry(le.cell.key, le.cell.value, le.cell.expires)]
  {
  }

  lemma EntryAt<K, V>(nodes: seq<Element<K, V>>, i: nat)
    requires i < |nodes|
    ensures Entries(nodes)[i] == Entry(nodes[i].cell.key, nodes[i].cell.value, nodes[i].cell.expires)
  {
  }

  lemma PrefixIs<K, V>(list: seq<Entry<K, V>>, now: int, n: nat)
    requires n <= |list| && forall i :: 0 <= i < n ==> list[i].expires <= now
    requires n < |list| ==> list[n].expires > now
    ensures n == ExpiredPrefix(list, now)
  {
  }

  lemma PlaceNew<K, V>(cfg: Config, list: seq<Entry<K, V>>, e: Entry<K, V>)
    requires Find(list, e.key) < 0
    ensures Place(cfg, list, e) ==
            var grown := list + [e];
            if cfg.maxSize > 0 && |grown| > cfg.maxSize then Outcome(grown[1..], [grown[0]]) else Outcome(grown, [])
  {
  }

  /** The position of a key in the entries is the position of its element. */
  lemma FindIsLookup<K, V>(cache: map<K, Element<K, V>>, nodes: seq<Element<K, V>>, es: seq<Entry<K, V>>, key: K)
    requires Agrees(cache, nodes) && |es| == |nodes| && forall i :: 0 <= i < |es| ==> es[i].key == nodes[i].cell.key
    ensures var i := Find(es, key); if key in cache then i >= 0 && nodes[i] == cache[key] else i < 0
  {
    hide Find;
    var i := Find(es, key);
    if key in cache {
      var j :| 0 <= j < |nodes| && nodes[j] == cache[key];
      assert es[j].key == key;
    }
  }

  class LruCache<K(==), V> {
    const cfg: Config
    const hasCallback: bool
    var cache: map<K, Element<K, V>>
    var lru: DList<K, V>
    var calls: seq<(K, V)>   // the calls of the eviction callback so far

    ghost predicate Valid()
      reads this, lru, lru.nodes
    {
      lru.Valid() && Agrees(cache, lru.nodes)
    }

    ghost function Cells(): set<Cell<K, V>>
      reads this, lru
    {
      set i | 0 <= i < |lru.nodes| :: lru.nodes[i].cell
    }

    ghost function Contents(): seq<Entry<K, V>>
      reads this, lru, Cells()
    {
      Entries(lru.nodes)
    }

    constructor (cfg: Config, hasCallback: bool)
      ensures Valid() && this.cfg == cfg && this.hasCallback == hasCallback
      ensures Contents() == [] && calls == [] && fresh(lru)
    {
      this.cfg, this.hasCallback := cfg, hasCallback;
      cache, calls := map[], [];
      lru := new DList();
    }

    /** The map lookup finds what a search of the sequence would. */
    lemma Lookup(key: K)
      requires Valid()
      ensures key in cache ==> cache[key] in lru.nodes && Find(Contents(), key) == cache[key].pos
      ensures key !in cache ==> Find(Contents(), key) < 0
    {
      FindIsLookup(cache, lru.nodes, Contents(), key);
    }

    /** The calls that removing these entries adds to the callback log. */
    function Notified(es: seq<Entry<K, V>>): seq<(K, V)> {
      if hasCallback then CalledBack(es) else []
    }

    /** The entry object of a key. */
    ghost function CellOf(key: K): set<Cell<K, V>>
      reads this
    {
      if key in cache then {cache[key].cell} else {}
    }

    /** The entry object that a read at `t1` overwrites. */
    ghost function RenewedCell(key: K, t1: int): set<Cell<K, V>>
      reads this, CellOf(key)
    {
      if key in cache && Renews(cfg, cache[key].cell.expires, t1) then CellOf(key) else {}
    }

    ghost function TouchedCell(op: Op<K, V>): set<Cell<K, V>>
      reads this, CellOf(op.key)
    {
      if IsWrite(op) then CellOf(op.key) else if op.Get? then RenewedCell(op.key, op.t1) else {}
    }

    /** What an operation overwrites, said of the entry object of its key. */
    lemma OverwrittenIs(op: Op<K, V>)
      requires Valid()
      ensures op.key !in cache ==> Overwritten(cfg, Contents(), op).None?
      ensures op.key in cache ==> cache[op.key].cell.key == op.key
      ensures op.key in cache ==>
                var e := cache[op.key].cell;
                Overwritten(cfg, Contents(), op) ==
                if IsWrite(op) then Some(Written(cfg, op))
                else if op.Get? && Renews(cfg, e.expires, op.t1) then Some(Entry(e.key, e.value, op.t2 + cfg.maxAge))
                else None
    {
      Lookup(op.key);
      hide Find, DList.Valid;
      if op.key in cache {
        KeyOf(op.key);
        lru.Position(cache[op.key]);
        EntryAt(lru.nodes, cache[op.key].pos);
      }
    }

    /** The only entry object an operation overwrites is that of its key. */
    lemma TouchedIsOverwritten(op: Op<K, V>)
      requires Valid()
      ensures Overwritten(cfg, Contents(), op).None? ==> TouchedCell(op) == {}
      ensures Overwritten(cfg, Contents(), op).Some? ==> op.key in cache && TouchedCell(op) == {cache[op.key].cell}
      ensures TouchedCell(op) <= Cells()
    {
      OverwrittenIs(op);
      hide Overwritten, DList.Valid, Agrees;
      if op.key in cache {
        KeyOf(op.key);
      }
    }

    /** `deleteElement`: out of the list, out of the map, then the callback. */
    method DeleteElement(le: Element<K, V>)
      requires Valid() && le in lru.nodes
      modifies this, lru, lru.nodes
      ensures Valid() && lru == old(lru) && lru.nodes == Without(old(lru.nodes), old(le.pos))
      ensures Contents() == Without(old(Contents()), old(le.pos))
      ensures calls == old(calls) + Notified([old(Contents())[old(le.pos)]])
    {
      hide Agrees, DList.Valid;
      ghost var i, nodes := le.pos, lru.nodes;
      lru.Position(le);
      EntriesWithout(nodes, i);
      lru.Remove(le, i);
      AgreesWithout(cache, nodes, i);
      var e := le.cell;
      cache := cache - {e.key};
      if hasCallback {
        calls := calls + [(e.key, e.value)];
      }
    }

    lemma NotifiedSnoc(es: seq<Entry<K, V>>, n: nat)
      requires n < |es|
      ensures Notified(es[..n + 1]) == Notified(es[..n]) + Notified([es[n]])
    {
    }

    /** One turn of the eviction loop. */
    method DropFront(le: Element<K, V>)
      requires Valid() && lru.nodes != [] && lru.nodes[0] == le
      modifies this, lru, lru.nodes
      ensures Valid() && lru == old(lru) && lru.nodes == old(lru.nodes)[1..]
      ensures Contents() == old(Contents())[1..]
      ensures calls == old(calls) + Notified([old(Contents())[0]])
    {
      hide Agrees, DList.Valid;
      lru.AtFront(le);
      DeleteElement(le);
    }

    /** `maybeDeleteOldest`: removes exactly the longest prefix of expired entries, front first. */
    method MaybeDeleteOldest(now: int)
      requires Valid()
      modifies this, lru, lru.nodes
      ensures Valid() && lru == old(lru) && |lru.nodes| <= |old(lru.nodes)|
      ensures lru.nodes == old(lru.nodes)[|old(lru.nodes)| - |lru.nodes|..]
      ensures var o := DeleteOldest(cfg, old(Contents()), now);
              Contents() == o.list && calls == old(calls) + Notified(o.evicted)
    {
      hide Agrees, DList.Valid, CalledBack, Notified, Entries, ExpiredPrefix;
      ghost var list, nodes, n := Contents(), lru.nodes, 0;
      NothingNotified();
      if !cfg.staleReturn && cfg.maxAge > 0 {
        var le := lru.Front();
        while le != null && le.cell.expires <= now
          invariant Valid() && lru == old(lru)
          invariant 0 <= n <= |list| == |nodes| && lru.nodes == nodes[n..] && Contents() == list[n..]
          invariant le == if lru.nodes == [] then null else lru.nodes[0]
          invariant forall i :: 0 <= i < n ==> list[i].expires <= now
          invariant calls == old(calls) + Notified(list[..n])
          decreases |list| - n
        {
          EntryAt(lru.nodes, 0);
          NotifiedSnoc(list, n);
          DropFront(le);
          n := n + 1;
          le := lru.Front();
        }
        if n < |list| {
          EntryAt(lru.nodes, 0);
        }
        PrefixIs(list, now, n);
      }
    }

    lemma NotifiedAre(es: seq<Entry<K, V>>)
      ensures |Notified(es)| == if hasCallback then |es| else 0
      ensures forall i :: 0 <= i < |Notified(es)| ==> Notified(es)[i] == (es[i].key, es[i].value)
    {
    }

    lemma NothingNotified()
      ensures Notified([]) == []
    {
    }

    /** Elements are old, or new with a new entry object for a key that was absent. */
    twostate predicate Grown()
      reads this, lru
    {
      forall i {:trigger lru.nodes[i]} :: 0 <= i < |lru.nodes| ==>
        || lru.nodes[i] in old(lru.nodes)
        || (fresh(lru.nodes[i]) && fresh(lru.nodes[i].cell) && lru.nodes[i].cell.key !in old(cache))
    }

    /** `MoveToBack` on the element of a key. */
    method Touch(le: Element<K, V>)
      requires Valid() && le in lru.nodes
      modifies lru, lru.nodes
      ensures Valid() && Grown() && old(le.pos) < |old(lru.nodes)| && old(lru.nodes)[old(le.pos)] == le
      ensures lru.nodes == Without(old(lru.nodes), old(le.pos)) + [le]
      ensures Contents() == Without(old(Contents()), old(le.pos)) + [old(Contents())[old(le.pos)]]
    {
      hide Agrees, DList.Valid, Entries;
      ghost var i, nodes := le.pos, lru.nodes;
      lru.Position(le);
      EntriesWithout(nodes, i);
      EntriesSnoc(Without(nodes, i), le);
      EntryAt(nodes, i);
      AgreesMoved(cache, nodes, i);
      lru.MoveToBack(le, i);
    }

    /** The other elements point at other cells, because their keys differ. */
    lemma OtherCells(j: nat)
      requires Valid() && j < |lru.nodes| - 1
      ensures lru.nodes[j].cell != lru.nodes[|lru.nodes| - 1].cell
    {
      var last := lru.nodes[|lru.nodes| - 1];
      assert lru.nodes[j].pos == j && last.pos == |lru.nodes| - 1;
    }

    /** Writing the cell of the last element changes the last entry only. */
    method Store(le: Element<K, V>, value: V, expires: int)
      requires Valid() && lru.nodes != [] && lru.nodes[|lru.nodes| - 1] == le
      modifies le.cell
      ensures Valid() && le.cell.value == value && le.cell.expires == expires
      ensures Contents() == old(Contents())[..|lru.nodes| - 1] + [Entry(le.cell.key, value, expires)]
    {
      forall j | 0 <= j < |lru.nodes| - 1 ensures lru.nodes[j].cell != le.cell {
        OtherCells(j);
      }
      hide Agrees, DList.Valid;
      le.cell.value, le.cell.expires := value, expires;
    }

    /** Appends an element for an entry object whose key is new. */
    method Adopt(e: Cell<K, V>)
      requires Valid() && e.key !in cache
      modifies this, lru, lru.nodes
      ensures Valid() && lru == old(lru) && calls == old(calls)
      ensures |lru.nodes| == |old(lru.nodes)| + 1 && lru.nodes[..|old(lru.nodes)|] == old(lru.nodes)
      ensures var le := lru.nodes[|old(lru.nodes)|]; fresh(le) && le.cell == e
    {
      hide Agrees, DList.Valid;
      ghost var nodes := lru.nodes;
      var le := lru.PushBack(e);
      AgreesSnoc(cache, nodes, le);
      cache := cache[e.key := le];
    }

    method Insert(key: K, value: V, expires: int)
      requires Valid() && key !in cache
      modifies this, lru, lru.nodes
      ensures Valid() && lru == old(lru) && calls == old(calls)
      ensures |lru.nodes| == |old(lru.nodes)| + 1 && lru.nodes[..|old(lru.nodes)|] == old(lru.nodes)
      ensures var le := lru.nodes[|old(lru.nodes)|]; fresh(le) && fresh(le.cell) && le.cell.key == key
      ensures Contents() == old(Contents()) + [Entry(key, value, expires)]
    {
      hide Agrees, DList.Valid, Entries;
      ghost var nodes := lru.nodes;
      var e := new Cell(key, value, expires);
      Adopt(e);
      ghost var le := lru.nodes[|nodes|];
      assert lru.nodes == nodes + [le];
      EntriesSnoc(nodes, le);
    }

    /** The branch of `SetWithExpire` for a key that is present: moved to the back and overwritten. */
    method Renew(key: K, value: V, expires: int)
      requires Valid() && key in cache
      modifies lru, lru.nodes, CellOf(key)
      ensures Valid() && lru == old(lru) && Grown()
      ensures Place(cfg, old(Contents()), Entry(key, value, expires)) == Outcome(Contents(), [])
      ensures cache[key].cell.value == value && cache[key].cell.expires == expires
    {
      Lookup(key);
      var le := cache[key];
      ghost var i, nodes, list := le.pos, lru.nodes, Contents();
      hide Agrees, DList.Valid, Entries, Find;
      assert le.cell.key == key by {
        KeyOf(key);
      }
      Touch(le);
      Store(le, value, expires);
      assert (Without(list, i) + [list[i]])[..|list| - 1] == Without(list, i);
    }

    lemma KeyOf(key: K)
      requires Valid() && key in cache
      ensures cache[key] in lru.nodes && cache[key].cell.key == key && cache[key].cell in Cells()
    {
    }

    /** The branch for a new key: appended, and the front dropped when the size limit is passed. */
    method Admit(key: K, value: V, expires: int)
      requires Valid() && key !in cache
      modifies this, lru, lru.nodes
      ensures Valid() && lru == old(lru) && Grown()
      ensures var o := Place(cfg, old(Contents()), Entry(key, value, expires));
              Contents() == o.list && calls == old(calls) + Notified(o.evicted)
    {
      hide Agrees, DList.Valid, Entries, CalledBack, Find, Place;
      Lookup(key);
      NothingNotified();
      PlaceNew(cfg, Contents(), Entry(key, value, expires));
      Insert(key, value, expires);
      if cfg.maxSize > 0 {
        var l := lru.Len();
        if l > cfg.maxSize {
          var le := lru.Front();
          DropFront(le);
        }
      }
    }

    lemma NotifiedConcat(a: seq<Entry<K, V>>, b: seq<Entry<K, V>>)
      ensures Notified(a + b) == Notified(a) + Notified(b)
    {
    }

    /** `SetWithExpire` refines the operation on sequences; so do all operations below. */
    method SetWithExpire(key: K, value: V, expires: int, now: int)
      requires Valid()
      modifies this, lru, lru.nodes, CellOf(key)
      ensures Valid() && lru == old(lru) && Grown()
      ensures var o := LruSpec.SetWithExpire(cfg, old(Contents()), key, value, expires, now);
              Contents() == o.list && calls == old(calls) + Notified(o.evicted)
      ensures key in old(cache) ==>
                var e := old(cache[key]).cell; e.value == value && e.expires == expires
    {
      hide Agrees, DList.Valid, Entries, CalledBack, Place, DeleteOldest;
      NothingNotified();
      ghost var placed := Place(cfg, Contents(), Entry(key, value, expires));
      if key in cache {
        Renew(key, value, expires);
      } else {
        Admit(key, value, expires);
      }
      MaybeDeleteOldest(now);
      NotifiedConcat(placed.evicted, DeleteOldest(cfg, placed.list, now).evicted);
    }

    /** `Set`, with the clock read once for the expiry and once for the eviction. */
    method Set(key: K, value: V, t1: int, t2: int)
      requires Valid()
      modifies this, lru, lru.nodes, CellOf(key)
      ensures Valid() && lru == old(lru) && Grown()
      ensures var o := Apply(cfg, old(Contents()), Op.Set(key, value, t1, t2));
              Contents() == o.list && calls == old(calls) + Notified(o.evicted)
      ensures key in old(cache) ==>
                var e := old(cache[key]).cell; e.value == value && e.expires == ExpiryAt(cfg, t1)
    {
      hide Entries, Agrees, DList.Valid, CalledBack, LruSpec.SetWithExpire;
      var expires := 0;
      if cfg.maxAge > 0 {
        expires := t1 + cfg.maxAge;
      }
      SetWithExpire(key, value, expires, t2);
    }

    /** A read at `t1` returns an entry with this expiry: no age is configured, or stale entries are returned, or it
        has not expired. */
    predicate Returned(expires: int, t1: int) {
      cfg.maxAge <= 0 || cfg.staleReturn || expires > t1
    }

    /** The hit of `get`: moved to the back, its age renewed if so configured. */
    method Hit(key: K, t2: int) returns (e: Cell<K, V>)
      requires Valid() && key in cache
      modifies lru, lru.nodes, if cfg.maxAge > 0 && cfg.updateAgeOnGet then CellOf(key) else {}
      ensures Valid() && lru == old(lru) && Grown()
      ensures var i := Find(old(Contents()), key);
              i >= 0 && var x := old(Contents())[i];
              var y := if cfg.maxAge > 0 && cfg.updateAgeOnGet then x.(expires := t2 + cfg.maxAge) else x;
              Contents() == Without(old(Contents()), i) + [y] && y == Entry(e.key, e.value, e.expires)
      ensures e == old(cache[key]).cell
    {
      hide Agrees, DList.Valid, Entries, Find, Without;
      Lookup(key);
      KeyOf(key);
      var le := cache[key];
      ghost var i, list := le.pos, Contents();
      lru.Position(le);
      EntryAt(lru.nodes, i);
      Touch(le);
      e := le.cell;
      if cfg.maxAge > 0 && cfg.updateAgeOnGet {
        Store(le, e.value, t2 + cfg.maxAge);
        assert (Without(list, i) + [list[i]])[..|list| - 1] == Without(list, i);
      }
    }

    /** `get`: null for a missing or expired key, otherwise the entry object itself. */
    method Fetch(key: K, t1: int, t2: int) returns (e: Cell?<K, V>)
      requires Valid()
      modifies this, lru, lru.nodes, RenewedCell(key, t1)
      ensures Valid() && lru == old(lru) && Grown()
      ensures var (r, o) := GetEntry(cfg, old(Contents()), key, t1, t2);
              && Contents() == o.list && calls == old(calls) + Notified(o.evicted)
              && r == if e == null then None else Some(Entry(e.key, e.value, e.expires))
      ensures e != null <==> key in old(cache) && Returned(old(cache[key].cell.expires), t1)
      ensures e != null ==>
                && e == old(cache[key].cell) && e.value == old(cache[key].cell.value)
                && e.expires == if cfg.maxAge > 0 && cfg.updateAgeOnGet then t2 + cfg.maxAge
                                else old(cache[key].cell.expires)
      ensures key in old(cache) && Renews(cfg, old(cache[key].cell.expires), t1) ==>
                var e := old(cache[key]).cell; e.value == old(e.value) && e.expires == t2 + cfg.maxAge
    {
      hide Agrees, DList.Valid, Entries, CalledBack, Find, DeleteOldest;
      Lookup(key);
      NothingNotified();
      if key !in cache {
        return null;
      }
      var le := cache[key];
      ghost var i, list := le.pos, Contents();
      lru.Position(le);
      EntryAt(lru.nodes, i);
      if !cfg.staleReturn && cfg.maxAge > 0 && le.cell.expires <= t1 {
        NotifiedConcat([list[i]], DeleteOldest(cfg, Without(list, i), t2).evicted);
        DeleteElement(le);
        MaybeDeleteOldest(t2);
        return null;
      }
      e := Hit(key, t2);
    }

    /** `Get`. */
    method Get(key: K, t1: int, t2: int) returns (r: Option<V>)
      requires Valid()
      modifies this, lru, lru.nodes, RenewedCell(key, t1)
      ensures Valid() && lru == old(lru) && Grown()
      ensures var (x, o) := GetEntry(cfg, old(Contents()), key, t1, t2);
              && Contents() == o.list && calls == old(calls) + Notified(o.evicted)
              && r == if x.None? then None else Some(x.value.value)
      ensures r.Some? <==> key in old(cache) && Returned(old(cache[key].cell.expires), t1)
      ensures r.Some? ==> r.value == old(cache[key].cell.value)
      ensures key in old(cache) && Renews(cfg, old(cache[key].cell.expires), t1) ==>
                var e := old(cache[key]).cell; e.value == old(e.value) && e.expires == t2 + cfg.maxAge
    {
      hide GetEntry, Entries, Agrees, DList.Valid, CalledBack;
      var e := Fetch(key, t1, t2);
      if e == null {
        return None;
      }
      r := Some(e.value);
    }

    /** `GetWithExpire`: like `Get` it checks and renews the age. */
    method GetWithExpire(key: K, t1: int, t2: int) returns (r: Option<(V, int)>)
      requires Valid()
      modifies this, lru, lru.nodes, RenewedCell(key, t1)
      ensures Valid() && lru == old(lru) && Grown()
      ensures var (x, o) := GetEntry(cfg, old(Contents()), key, t1, t2);
              && Contents() == o.list && calls == old(calls) + Notified(o.evicted)
              && r == if x.None? then None else Some((x.value.value, x.value.expires))
      ensures r.Some? <==> key in old(cache) && Returned(old(cache[key].cell.expires), t1)
      ensures r.Some? ==>
                && r.value.0 == old(cache[key].cell.value)
                && r.value.1 == if cfg.maxAge > 0 && cfg.updateAgeOnGet then t2 + cfg.maxAge
                                else old(cache[key].cell.expires)
      ensures key in old(cache) && Renews(cfg, old(cache[key].cell.expires), t1) ==>
                var e := old(cache[key]).cell; e.value == old(e.value) && e.expires == t2 + cfg.maxAge
    {
      hide GetEntry, Entries, Agrees, DList.Valid, CalledBack;
      var e := Fetch(key, t1, t2);
      if e == null {
        return None;
      }
      r := Some((e.value, e.expires));
    }

    /** `Delete`. */
    method Delete(key: K)
      requires Valid()
      modifies this, lru, lru.nodes
      ensures Valid() && lru == old(lru) && Grown()
      ensures var o := DeleteKey(old(Contents()), key);
              Contents() == o.list && calls == old(calls) + Notified(o.evicted)
    {
      hide Agrees, DList.Valid, Entries, CalledBack, Find;
      Lookup(key);
      NothingNotified();
      if key in cache {
        lru.Position(cache[key]);
        DeleteElement(cache[key]);
      }
    }

    /** One turn of `CloneTo`: the entry object at position `i` gets an element in the target. */
    method CopyNext(n: LruCache<K, V>, elm: Cell<K, V>, ghost i: nat)
      requires Valid() && n.Valid() && n != this && n.lru != lru && |n.lru.nodes| == i < |lru.nodes|
      requires elm == lru.nodes[i].cell
      requires forall j {:trigger n.lru.nodes[j]} :: 0 <= j < i ==> n.lru.nodes[j].cell == lru.nodes[j].cell
      modifies n, n.lru, n.lru.nodes
      ensures n.Valid() && n.lru == old(n.lru) && n.calls == old(n.calls)
      ensures |n.lru.nodes| == i + 1 && n.lru.nodes[..i] == old(n.lru.nodes)
      ensures fresh(n.lru.nodes[i]) && n.lru.nodes[i].cell == elm
    {
      lru.AllDistinct();
      hide Agrees, Entries, DList.Valid;
      NextKeyIsNew(cache, lru.nodes, n.cache, n.lru.nodes, i);
      n.Adopt(elm);
    }

    /** `CloneTo`: the target gets its own list and map but the same entry objects, in the same order,
        whatever its own size limit is. */
    method CloneTo(n: LruCache<K, V>)
      requires Valid() && n != this
      modifies n
      ensures n.Valid() && Valid() && Contents() == old(Contents()) && lru == old(lru) && fresh(n.lru)
      ensures n.Contents() == Contents() && |n.lru.nodes| == |lru.nodes|
      ensures forall i {:trigger n.lru.nodes[i]} :: 0 <= i < |lru.nodes| ==>
                fresh(n.lru.nodes[i]) && n.lru.nodes[i].cell == lru.nodes[i].cell
      ensures n.calls == old(n.calls)
    {
      hide Agrees, Entries, DList.Valid;
      n.lru := new DList();
      n.cache := map[];
      NoneAgree<K, V>();
      ghost var i := 0;
      var e := lru.Front();
      while e != null
        invariant 0 <= i <= |lru.nodes| && e == (if i < |lru.nodes| then lru.nodes[i] else null)
        invariant fresh(n.lru) && n.Valid() && |n.lru.nodes| == i && n.calls == old(n.calls)
        invariant forall j {:trigger n.lru.nodes[j]} :: 0 <= j < i ==>
                    fresh(n.lru.nodes[j]) && n.lru.nodes[j].cell == lru.nodes[j].cell
        decreases |lru.nodes| - i
      {
        CopyNext(n, e.cell, i);
        e := lru.Next(e, i);
        i := i + 1;
      }
      SameCells(n.lru.nodes, lru.nodes);
    }
  }

  /** What an operation writes into an entry object that exists already, if anything: a write to a present key,
      or a read that renews the age. */
  function Overwritten<K(==), V>(cfg: Config, list: seq<Entry<K, V>>, op: Op<K, V>): Option<Entry<K, V>> {
    var i := Find(list, op.key);
    if i < 0 then None
    else if IsWrite(op) then Some(Written(cfg, op))
    else if op.Get? && Renews(cfg, list[i].expires, op.t1) then Some(list[i].(expires := op.t2 + cfg.maxAge))
    else None
  }

  /** Any history of operations on a new cache leaves exactly the list, and makes exactly the callbacks, of
      the plain sequence: what is proved about `Run` holds of the linked structure. */
  method Replay<K(==), V>(cfg: Config, hasCallback: bool, ops: seq<Op<K, V>>) returns (c: LruCache<K, V>)
    ensures c.Valid() && c.cfg == cfg && c.hasCallback == hasCallback
    ensures c.Contents() == Run(cfg, ops).list && c.calls == c.Notified(Run(cfg, ops).evicted)
    ensures var es := Run(cfg, ops).evicted;
            && |c.calls| == (if hasCallback then |es| else 0)
            && forall i :: 0 <= i < |c.calls| ==> c.calls[i] == (es[i].key, es[i].value)
    ensures fresh(c) && fresh(c.lru)
    ensures forall j {:trigger c.lru.nodes[j]} :: 0 <= j < |c.lru.nodes| ==>
              fresh(c.lru.nodes[j]) && fresh(c.lru.nodes[j].cell)
  {
    hide Agrees, DList.Valid, Entries, CalledBack, Apply, Run;
    c := new LruCache(cfg, hasCallback);
    RunStart<K, V>(cfg);
    c.NothingNotified();
    assert ops[..0] == [];
    for i := 0 to |ops|
      invariant fresh(c) && fresh(c.lru) && c.Valid() && c.cfg == cfg && c.hasCallback == hasCallback
      invariant forall j {:trigger c.lru.nodes[j]} :: 0 <= j < |c.lru.nodes| ==>
                  fresh(c.lru.nodes[j]) && fresh(c.lru.nodes[j].cell)
      invariant c.Contents() == Run(cfg, ops[..i]).list && c.calls == c.Notified(Run(cfg, ops[..i]).evicted)
    {
      ghost var before := Run(cfg, ops[..i]);
      RunStep(cfg, ops, i);
      c.NotifiedConcat(before.evicted, Apply(cfg, before.list, ops[i]).evicted);
      c.TouchedIsOverwritten(ops[i]);
      Perform(c, ops[i]);
    }
    assert ops[..|ops|] == ops;
    c.NotifiedAre(Run(cfg, ops).evicted);
  }

  /** One operation of a history, on the cache. */
  method Perform<K(==), V>(c: LruCache<K, V>, op: Op<K, V>)
    requires c.Valid()
    modifies c, c.lru, c.lru.nodes, c.TouchedCell(op)
    ensures c.Valid() && c.lru == old(c.lru) && c.Grown()
    ensures var o := Apply(c.cfg, old(c.Contents()), op);
            c.Contents() == o.list && c.calls == old(c.calls) + c.Notified(o.evicted)
    ensures var w := Overwritten(c.cfg, old(c.Contents()), op); w.Some? ==>
              op.key in old(c.cache) && var e := old(c.cache[op.key]).cell; w.value == Entry(e.key, e.value, e.expires)
  {
    hide Agrees, DList.Valid, Entries, CalledBack, LruSpec.SetWithExpire, GetEntry, DeleteKey, Overwritten, Renews;
    c.OverwrittenIs(op);
    match op
    case Set(k, v, t1, t2) => c.Set(k, v, t1, t2);
    case SetAt(k, v, expires, t2) => c.SetWithExpire(k, v, expires, t2);
    case Get(k, t1, t2) => var _ := c.Get(k, t1, t2);
    case Delete(k) => c.Delete(k);
  }

  lemma RunStart<K, V>(cfg: Config)
    ensures Run<K, V>(cfg, []) == Outcome([], [])
  {
  }

  lemma RunStep<K, V>(cfg: Config, ops: seq<Op<K, V>>, i: nat)
    requires i < |ops|
    ensures var before := Run(cfg, ops[..i]); var o := Apply(cfg, before.list, ops[i]);
            Run(cfg, ops[..i + 1]) == Outcome(o.list, before.evicted + o.evicted)
  {
    assert ops[..i + 1][..i] == ops[..i];
  }

  lemma NoneAgree<K, V>()
    ensures Agrees<K, V>(map[], [])
  {
  }

  lemma SameCells<K, V>(a: seq<Element<K, V>>, b: seq<Element<K, V>>)
    requires |a| == |b| && forall i :: 0 <= i < |a| ==> a[i].cell == b[i].cell
    ensures Entries(a) == Entries(b)
  {
  }

  /** While copying in order, the next key is not in the copy yet. */
  lemma NextKeyIsNew<K, V>(cache: map<K, Element<K, V>>, nodes: seq<Element<K, V>>,
                           copy: map<K, Element<K, V>>, copied: seq<Element<K, V>>, i: nat)
    requires Agrees(cache, nodes) && Agrees(copy, copied) && |copied| == i < |nodes|
    requires forall a, b :: 0 <= a < b < |nodes| ==> nodes[a] != nodes[b]
    requires forall j :: 0 <= j < i ==> copied[j].cell == nodes[j].cell
    ensures nodes[i].cell.key !in copy
  {
  }
}
