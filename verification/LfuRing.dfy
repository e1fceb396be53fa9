/**
 The doubly linked ring of one frequency bucket. `root` is the sentinel: its
 `next` is the front (newest) entry and its `prev` the back (oldest) one.
 */
module LfuRing {

  class Entry<K(0), V(0)> {
    var next: Entry?<K, V>
    var prev: Entry?<K, V>
    var list: LfuList?<K, V>
    const Key: K
    var Value: V
    const Freq: int
    ghost const Stamp: nat  // logical time of the use that created the entry

    constructor (key: K, value: V, freq: int, ghost stamp: nat)
      ensures Key == key && Value == value && Freq == freq && Stamp == stamp
      ensures next == null && prev == null && list == null
    {
      Key, Value, Freq, Stamp := key, value, freq, stamp;
      next, prev, list := null, null, null;
    }

    /**
     The next newer entry of the ring, in which this one stands at place i; null at the front, and
     outside any ring.
     */
    method PrevEntry(ghost i: nat) returns (p: Entry?<K, V>)
      requires list != null ==> list.Valid() && i < |list.nodes| && list.nodes[i] == this
      ensures list == null ==> p == null
      ensures list != null ==> p == if i + 1 < |list.nodes| then list.nodes[i + 1] else null
    {
      p := if list != null && prev != list.root then prev else null;
      if list != null {
        assert At(list.nodes, list.root, i).prev == At(list.nodes, list.root, i + 1);
      }
    }
  }

  /** The i-th entry of a ring, its sentinel standing at both ends. */
  ghost function At<K(0), V(0)>(s: seq<Entry<K, V>>, root: Entry<K, V>, i: int): Entry<K, V> {
    if 0 <= i < |s| then s[i] else root
  }

  class LfuList<K(0), V(0)> {
    const root: Entry<K, V>
    var len: int
    ghost var nodes: seq<Entry<K, V>>  // oldest (back) first

    /** The objects the ring is made of. */
    ghost function Foot(): set<object>
      reads this
    {
      {this, root} + (set e | e in nodes)
    }

    ghost predicate Distinct()
      reads this
    {
      forall i, j :: 0 <= i < j < |nodes| ==> nodes[i] != nodes[j]
    }

    ghost predicate Linked()
      reads this, Foot()
    {
      && (forall i {:trigger At(nodes, root, i).prev} ::
            -1 <= i < |nodes| ==> At(nodes, root, i).prev == At(nodes, root, i + 1))
      && (forall i {:trigger At(nodes, root, i).next} ::
            0 <= i <= |nodes| ==> At(nodes, root, i).next == At(nodes, root, i - 1))
    }

    ghost predicate Valid()
      reads this, Foot()
    {
      && len == |nodes|
      && root !in nodes
      && root.list == null
      && Distinct()
      && Linked()
      && (forall i {:trigger nodes[i].list} :: 0 <= i < |nodes| ==> nodes[i].list == this)
    }

    /** NewList and Init: an empty ring. */
    constructor ()
      ensures Valid() && nodes == [] && fresh(root)
    {
      var key: K := *;
      var value: V := *;
      root := new Entry(key, value, 0, 0);  // its key and value are never read
      len, nodes := 0, [];
      new;
      root.next := root;
      root.prev := root;
    }

    method Length() returns (n: int)
      ensures n == len
    {
      n := len;
    }

    /** The oldest entry, or null. */
    method Back() returns (e: Entry?<K, V>)
      requires Valid()
      ensures e == if nodes == [] then null else nodes[0]
    {
      if len == 0 {
        return null;
      }
      assert At(nodes, root, -1).prev == nodes[0];
      e := root.prev;
    }

    /** Inserts e at the front of the ring, as its newest entry. */
    method InsertFront(e: Entry<K, V>)
      requires Valid() && e != root && e !in nodes
      modifies this, root`next, root`prev, nodes`next, nodes`prev, e`next, e`prev, e`list
      ensures Valid() && nodes == old(nodes) + [e] && Foot() == old(Foot()) + {e}
    {
      ghost var s := nodes;
      assert At(s, root, |s|).next == At(s, root, |s| - 1);
      var front := root.next;
      e.prev := root;
      e.next := front;
      root.next := e;
      front.prev := e;
      e.list := this;
      len := len + 1;
      nodes := nodes + [e];
      assert forall i {:trigger At(nodes, root, i)} ::
        -1 <= i <= |nodes| ==> At(nodes, root, i) == if i == |s| then e else At(s, root, i);
      forall i {:trigger At(nodes, root, i).prev} | -1 <= i < |nodes|
        ensures At(nodes, root, i).prev == At(nodes, root, i + 1)
      {
        assert i < |s| - 1 ==> old(At(s, root, i).prev) == At(s, root, i + 1);
      }
      forall i {:trigger At(nodes, root, i).next} | 0 <= i <= |nodes|
        ensures At(nodes, root, i).next == At(nodes, root, i - 1)
      {
        assert i < |s| ==> old(At(s, root, i).next) == At(s, root, i - 1);
      }
    }

    /** Joins the two neighbours of e. */
    method Bypass(e: Entry<K, V>, ghost k: nat)
      requires Distinct() && root !in nodes && Linked() && k < |nodes| && nodes[k] == e
      modifies this`nodes, root`next, root`prev, nodes`next, nodes`prev
      ensures nodes == old(nodes[..k] + nodes[k + 1..]) && Linked()
    {
      ghost var s := nodes;
      assert At(s, root, k).prev == At(s, root, k + 1) && At(s, root, k).next == At(s, root, k - 1);
      assert At(s, root, k - 1).prev == e && At(s, root, k + 1).next == e;
      e.prev.next := e.next;
      e.next.prev := e.prev;
      nodes := nodes[..k] + nodes[k + 1..];
      assert forall i {:trigger At(nodes, root, i)} ::
        -1 <= i <= |nodes| ==> At(nodes, root, i) == At(s, root, if i < k then i else i + 1);
      forall i {:trigger At(nodes, root, i).prev} | -1 <= i < |nodes|
        ensures At(nodes, root, i).prev == At(nodes, root, i + 1)
      {
        var j := if i < k then i else i + 1;
        assert j != k - 1 ==> old(At(s, root, j).prev) == At(s, root, j + 1);
      }
      forall i {:trigger At(nodes, root, i).next} | 0 <= i <= |nodes|
        ensures At(nodes, root, i).next == At(nodes, root, i - 1)
      {
        var j := if i < k then i else i + 1;
        assert j != k + 1 ==> old(At(s, root, j).next) == At(s, root, j - 1);
      }
    }

    /** Unlinks e. */
    method Remove(e: Entry<K, V>, ghost k: nat)
      requires Valid() && k < |nodes| && nodes[k] == e
      modifies this, root`next, root`prev, nodes`next, nodes`prev, e`list
      ensures Valid() && nodes == old(nodes[..k] + nodes[k + 1..])
    {
      Bypass(e, k);
      assert forall i {:trigger nodes[i]} ::
        0 <= i < |nodes| ==> nodes[i] == old(nodes)[if i < k then i else i + 1] && nodes[i] != e;
      e.next := null;
      e.prev := null;
      e.list := null;
      len := len - 1;
    }
  }
}
