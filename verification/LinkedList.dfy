/** The doubly linked list of `container/list`, as far as the cache uses it. */
module LinkedList {
  import opened LruSpec

  /** The `entry` object a list element points at; two lists may share it. */
  class Cell<K, V> {
    const key: K
    var value: V
    var expires: int

    constructor (key: K, value: V, expires: int)
      ensures this.key == key && this.value == value && this.expires == expires
    {
      this.key, this.value, this.expires := key, value, expires;
    }
  }

  class Element<K, V> {
    var prev: Element?<K, V>
    var next: Element?<K, V>
    const cell: Cell<K, V>
    ghost var pos: nat

    constructor (cell: Cell<K, V>)
      ensures this.cell == cell && prev == null && next == null
    {
      this.cell, prev, next := cell, null, null;
    }
  }

  class DList<K, V> {
    var head: Element?<K, V>
    var tail: Element?<K, V>
    var len: nat
    ghost var nodes: seq<Element<K, V>>

    /** The elements in order, linked both ways, each once. */
    ghost predicate Valid()
      reads this, nodes
    {
      && len == |nodes|
      && head == (if nodes == [] then null else nodes[0])
      && tail == (if nodes == [] then null else nodes[|nodes| - 1])
      && (forall i {:trigger nodes[i].prev} :: 0 <= i < |nodes| ==>
            nodes[i].prev == if i == 0 then null else nodes[i - 1])
      && (forall i {:trigger nodes[i].next} :: 0 <= i < |nodes| ==>
            nodes[i].next == if i == |nodes| - 1 then null else nodes[i + 1])
      && (forall i {:trigger nodes[i]} :: 0 <= i < |nodes| ==> nodes[i].pos == i)
    }

    constructor ()
      ensures Valid() && nodes == []
    {
      head, tail, len, nodes := null, null, 0, [];
    }

    lemma Position(le: Element<K, V>)
      requires Valid() && le in nodes
      ensures le.pos < |nodes| && nodes[le.pos] == le
    {
    }

    lemma AtFront(le: Element<K, V>)
      requires Valid() && nodes != [] && le == nodes[0]
      ensures le.pos == 0
    {
    }

    method Front() returns (le: Element?<K, V>)
      requires Valid()
      ensures le == if nodes == [] then null else nodes[0]
    {
      le := head;
    }

    lemma AllDistinct()
      requires Valid()
      ensures forall a, b :: 0 <= a < b < |nodes| ==> nodes[a] != nodes[b]
    {
    }

    /** `e.Next()` of the element at position `i`. */
    method Next(le: Element<K, V>, ghost i: nat) returns (r: Element?<K, V>)
      requires Valid() && i < |nodes| && nodes[i] == le
      ensures r == if i == |nodes| - 1 then null else nodes[i + 1]
    {
      r := le.next;
    }

    method Len() returns (l: nat)
      requires Valid()
      ensures l == |nodes|
    {
      l := len;
    }

    method PushBack(cell: Cell<K, V>) returns (le: Element<K, V>)
      requires Valid()
      modifies this, nodes
      ensures Valid() && fresh(le) && le.cell == cell && nodes == old(nodes) + [le]
    {
      le := new Element(cell);
      Link(le);
    }

    /** Appends an element that is in no list. */
    method Link(le: Element<K, V>)
      requires Valid() && le !in nodes
      modifies this, nodes, le
      ensures Valid() && nodes == old(nodes) + [le]
    {
      le.prev, le.next := tail, null;
      if tail == null {
        head := le;
      } else {
        tail.next := le;
      }
      tail := le;
      len := len + 1;
      le.pos := |nodes|;
      nodes := nodes + [le];
    }

    /** The element before position `k`, or after it, once position `i` is skipped. */
    ghost function Before(k: int, i: nat): Element?<K, V>
      requires 0 <= k < |nodes| && i < |nodes| && k != i
      reads this
    {
      var p := if k == i + 1 then k - 2 else k - 1;
      if p < 0 then null else nodes[p]
    }

    ghost function After(k: int, i: nat): Element?<K, V>
      requires 0 <= k < |nodes| && i < |nodes| && k != i
      reads this
    {
      var p := if k == i - 1 then k + 2 else k + 1;
      if p >= |nodes| then null else nodes[p]
    }

    /** The relinking of a removal: the neighbours of position `i` now skip it. */
    method Unlink(le: Element<K, V>, ghost i: nat)
      requires Valid() && i < |nodes| && nodes[i] == le
      modifies `head, `tail, `len, nodes
      ensures len == |nodes| - 1
      ensures head == if |nodes| == 1 then null else nodes[if i == 0 then 1 else 0]
      ensures tail == if |nodes| == 1 then null else nodes[if i == |nodes| - 1 then |nodes| - 2 else |nodes| - 1]
      ensures forall k {:trigger nodes[k].prev} :: 0 <= k < |nodes| && k != i ==> nodes[k].prev == Before(k, i)
      ensures forall k {:trigger nodes[k].next} :: 0 <= k < |nodes| && k != i ==> nodes[k].next == After(k, i)
      ensures forall k {:trigger nodes[k]} :: 0 <= k < |nodes| ==> nodes[k].pos == k
    {
      if le.prev == null {
        head := le.next;
      } else {
        le.prev.next := le.next;
      }
      if le.next == null {
        tail := le.prev;
      } else {
        le.next.prev := le.prev;
      }
      le.prev, le.next := null, null;
      len := len - 1;
    }

    /** Leaving out a skipped position gives a properly linked sequence. */
    lemma Compacted(i: nat)
      requires i < |nodes|
      requires forall k {:trigger nodes[k].prev} :: 0 <= k < |nodes| && k != i ==> nodes[k].prev == Before(k, i)
      requires forall k {:trigger nodes[k].next} :: 0 <= k < |nodes| && k != i ==> nodes[k].next == After(k, i)
      ensures var now := Without(nodes, i);
              && (forall k {:trigger now[k].prev} :: 0 <= k < |now| ==>
                    now[k].prev == if k == 0 then null else now[k - 1])
              && (forall k {:trigger now[k].next} :: 0 <= k < |now| ==>
                    now[k].next == if k == |now| - 1 then null else now[k + 1])
    {
      var now := Without(nodes, i);
      forall k | 0 <= k < |now|
        ensures now[k].prev == if k == 0 then null else now[k - 1]
        ensures now[k].next == if k == |now| - 1 then null else now[k + 1]
      {
        var w := if k < i then k else k + 1;
        assert now[k] == nodes[w];
        assert nodes[w].prev == Before(w, i) && nodes[w].next == After(w, i);
      }
    }

    method Remove(le: Element<K, V>, ghost i: nat)
      requires Valid() && i < |nodes| && nodes[i] == le
      modifies this, nodes
      ensures Valid() && nodes == Without(old(nodes), i) && le !in nodes
    {
      Unlink(le, i);
      Compacted(i);
      ghost var now := Without(nodes, i);
      forall k | i < k < |nodes| {
        nodes[k].pos := k - 1;
      }
      assert forall k {:trigger now[k]} :: 0 <= k < |now| ==> now[k] == if k < i then nodes[k] else nodes[k + 1];
      nodes := now;
    }

    method MoveToBack(le: Element<K, V>, ghost i: nat)
      requires Valid() && i < |nodes| && nodes[i] == le
      modifies this, nodes
      ensures Valid() && nodes == Without(old(nodes), i) + [le]
    {
      if le == tail {
        assert i == |nodes| - 1;
        assert nodes == Without(nodes, i) + [le];
      } else {
        Remove(le, i);
        Link(le);
      }
    }
  }
}
