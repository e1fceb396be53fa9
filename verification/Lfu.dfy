/**
 The O(1) LFU cache: an index from keys to entries and one ring per frequency.
 `model` is the reference sequence of `LfuOrder` the structure represents.
 */
module Lfu {
  import opened Options
  import opened LfuOrder
  import opened LfuRing

  /** An entry stands for an item; its value is accounted for separately. */
  ghost predicate Matches<K(0), V(0)>(e: Entry<K, V>, it: Item<K, V>) {
    e.Key == it.key && e.Freq == it.freq && e.Stamp == it.stamp
  }

  /** A run of entries represents a run of items, through the index. */
  ghost predicate Cells<K(0), V(0)>(nodes: seq<Entry<K, V>>, cells: seq<Item<K, V>>, index: map<K, Entry<K, V>>) {
    && |nodes| == |cells|
    && forall i {:trigger nodes[i]} {:trigger cells[i]} :: 0 <= i < |cells| ==>
         cells[i].key in index && index[cells[i].key] == nodes[i]
  }

  lemma CellsWithout<K(0), V(0)>(nodes: seq<Entry<K, V>>, cells: seq<Item<K, V>>, index: map<K, Entry<K, V>>, pos: nat)
    requires Cells(nodes, cells, index) && pos < |cells|
    ensures Cells(nodes[..pos] + nodes[pos + 1..], cells[..pos] + cells[pos + 1..], index)
  {
  }

  lemma CellsWith<K(0), V(0)>(nodes: seq<Entry<K, V>>, cells: seq<Item<K, V>>, index: map<K, Entry<K, V>>,
                              e: Entry<K, V>, it: Item<K, V>)
    requires Cells(nodes, cells, index) && it.key !in index
    ensures Cells(nodes + [e], cells + [it], index[it.key := e])
    ensures Cells(nodes, cells, index[it.key := e])
  {
  }

  lemma Reinsert<K, E>(m: map<K, E>, k: K, e: E)
    ensures m[k := e] == (m - {k})[k := e]
  {
  }

  class Lfu<K(==, 0), V(0)> {
    var size: int
    var minFreq: int
    var items: map<K, Entry<K, V>>
    var evictList: map<int, LfuList<K, V>>
    ghost var model: Order<K, V>
    ghost var Repr: set<object>

    /** Every ring is well formed and shares no object with another. */
    ghost predicate Separate()
      reads this`Repr, this`evictList, Repr
    {
      && this !in Repr
      && (forall f :: f in evictList ==>
            evictList[f] in Repr && evictList[f].Foot() <= Repr && evictList[f].Valid())
      && (forall f, g :: f in evictList && g in evictList && f != g ==> evictList[f].Foot() !! evictList[g].Foot())
    }

    /** Every ring represents its frequency's run of o. */
    ghost predicate Rings(o: seq<Item<K, V>>, index: map<K, Entry<K, V>>)
      reads this`Repr, this`evictList, Repr
      requires Separate()
    {
      forall f :: f in evictList ==> Cells(evictList[f].nodes, AtFreq(o, f), index)
    }

    /** The index agrees with o. */
    ghost predicate Indexed(o: seq<Item<K, V>>, index: map<K, Entry<K, V>>)
      reads this`Repr
    {
      forall k :: k in index ==> index[k] in Repr && Find(o, k).Some? && Matches(index[k], Find(o, k).value)
    }

    /** The entries of the index hold the values of o. */
    ghost predicate Valued(o: seq<Item<K, V>>, index: map<K, Entry<K, V>>)
      reads this`Repr, Repr
    {
      forall k :: k in index ==>
        index[k] in Repr && Find(o, k).Some? && index[k].Value == Find(o, k).value.value
    }

    /** Nothing in o is missing from the index or the rings, and no ring is empty. */
    ghost predicate Covered(o: seq<Item<K, V>>, index: map<K, Entry<K, V>>)
      reads this`evictList
    {
      && (forall i :: 0 <= i < |o| ==> o[i].key in index && o[i].freq in evictList)
      && (forall f :: f in evictList ==> AtFreq(o, f) != [])
    }

    ghost predicate Shape(o: seq<Item<K, V>>, index: map<K, Entry<K, V>>)
      reads this`Repr, this`evictList, Repr
    {
      Separate() && Rings(o, index) && Indexed(o, index) && Covered(o, index)
    }

    ghost predicate Valid()
      reads this, Repr
    {
      && Shape(model.items, items)
      && Valued(model.items, items)
      && LfuOrder.Valid(model)
      && model.size == size
      && minFreq == Least(model.items)
    }

    constructor (size: int)
      requires size > 0
      ensures Valid() && fresh(Repr)
      ensures model == Order([], size, 0)
    {
      this.size := size;
      minFreq := 0;
      items := map[];
      evictList := map[];
      model := Order([], size, 0);
      Repr := {};
    }

    /** NewLFU: an empty cache, or nothing for a size that is not positive. */
    static method NewLFU(size: int) returns (c: Option<Lfu<K, V>>)
      ensures c.Some? <==> size > 0
      ensures c.Some? ==>
        c.value.Valid() && fresh(c.value) && fresh(c.value.Repr) && c.value.model == Order([], size, 0)
    {
      if size <= 0 {
        return None;
      }
      var l := new Lfu(size);
      c := Some(l);
    }

    // ------------------------------------------------------- taking an entry out

    /** Takes e out of its ring and leaves every other ring as it was. */
    method RingRemove(e: Entry<K, V>, ghost pos: nat, ghost o: seq<Item<K, V>>, ghost index: map<K, Entry<K, V>>)
      requires Separate() && Valued(o, index) && e.Freq in evictList
      requires pos < |evictList[e.Freq].nodes| && evictList[e.Freq].nodes[pos] == e
      modifies Repr
      ensures Separate() && Valued(o, index)
      ensures e.Value == old(e.Value)
      ensures forall f :: f in evictList ==> var s := old(evictList[f].nodes);
                evictList[f].nodes == if f == e.Freq then s[..pos] + s[pos + 1..] else s
    {
      var bucket := evictList[e.Freq];
      bucket.Remove(e, pos);
      assert forall x :: x in bucket.nodes ==> x in old(bucket.nodes);
      assert bucket.Foot() <= old(bucket.Foot());
    }

    /** Deletes the ring of frequency f once it holds nothing. */
    method DropIfEmpty(f: int, ghost o: seq<Item<K, V>>, ghost index: map<K, Entry<K, V>>) returns (dropped: bool)
      requires Separate() && Rings(o, index) && f in evictList
      modifies this`evictList
      ensures Separate() && Rings(o, index)
      ensures dropped <==> AtFreq(o, f) == []
      ensures evictList == if dropped then old(evictList) - {f} else old(evictList)
    {
      var n := evictList[f].Length();
      dropped := n == 0;
      if dropped {
        evictList := evictList - {f};
      }
    }

    /** What is left of the rings represents o without k. */
    lemma RingsWithout(o: seq<Item<K, V>>, index: map<K, Entry<K, V>>, k: K, f: int)
      requires Unique(o) && Find(o, k).Some? && Find(o, k).value.freq == f
      requires Separate()
      requires f in evictList && Cells(evictList[f].nodes, RemoveKey(AtFreq(o, f), k), index)
      requires forall g :: g in evictList && g != f ==> Cells(evictList[g].nodes, AtFreq(o, g), index)
      ensures Rings(RemoveKey(o, k), index - {k})
    {
      forall g | g in evictList ensures Cells(evictList[g].nodes, AtFreq(RemoveKey(o, k), g), index - {k}) {
        RemoveAtFreq(o, k, g);
        FindAtFreq(RemoveKey(o, k), k, g) by { RemoveUnique(o, k); }
        RemoveFind(o, k, k);
        FindNone(AtFreq(RemoveKey(o, k), g), k);
      }
    }

    lemma IndexedWithout(o: seq<Item<K, V>>, index: map<K, Entry<K, V>>, k: K)
      requires Unique(o) && Indexed(o, index)
      ensures Indexed(RemoveKey(o, k), index - {k})
      ensures Valued(o, index - {k}) ==> Valued(RemoveKey(o, k), index - {k})
    {
      forall j | j in index - {k} ensures Find(RemoveKey(o, k), j) == Find(o, j) {
        RemoveFind(o, k, j);
      }
    }

    /** Dropping k, and its ring when it was alone there, leaves no gap. */
    lemma CoveredWithout(o: seq<Item<K, V>>, before: map<int, LfuList<K, V>>, index: map<K, Entry<K, V>>, k: K, f: int)
      requires Unique(o) && Find(o, k).Some? && Find(o, k).value.freq == f
      requires forall i :: 0 <= i < |o| ==> o[i].key in index && o[i].freq in before
      requires forall g :: g in before ==> AtFreq(o, g) != []
      requires evictList == if AtFreq(RemoveKey(o, k), f) == [] then before - {f} else before
      ensures Covered(RemoveKey(o, k), index - {k})
    {
      var t := RemoveKey(o, k);
      var p := RemoveSplit(o, k);
      AtFreqNone(t, f);
      forall i | 0 <= i < |t| ensures t[i].key in index - {k} && t[i].freq in evictList {
        assert t[i] == o[if i < p then i else i + 1];
      }
      forall g | g in evictList ensures AtFreq(t, g) != [] {
        RemoveAtFreq(o, k, g);
      }
    }

    /** Takes e out of its ring, dropping the ring when it was the last entry. */
    method Unlink(e: Entry<K, V>, ghost o: seq<Item<K, V>>, ghost index: map<K, Entry<K, V>>) returns (dropped: bool)
      requires Shape(o, index) && Unique(o)
      requires e.Key in index && index[e.Key] == e && Valued(o, index - {e.Key})
      modifies this`evictList, Repr
      ensures var t := RemoveKey(o, e.Key); var rest := index - {e.Key}; Shape(t, rest) && Valued(t, rest)
      ensures e.Value == old(e.Value)
      ensures dropped <==> AtFreq(RemoveKey(o, e.Key), e.Freq) == []
    {
      ghost var k, f := e.Key, e.Freq;
      FindNone(o, k);
      FindAtFreq(o, k, f);
      ghost var pos := RemoveSplit(AtFreq(o, f), k);
      assert Cells(evictList[f].nodes, AtFreq(o, f), index);
      CellsWithout(evictList[f].nodes, AtFreq(o, f), index, pos);
      RingRemove(e, pos, o, index - {k});
      forall g | g in evictList && g != f ensures Cells(evictList[g].nodes, AtFreq(o, g), index) {
        assert evictList[g].nodes == old(evictList[g].nodes);
      }
      RingsWithout(o, index, k, f);
      IndexedWithout(o, index, k);
      dropped := DropIfEmpty(e.Freq, RemoveKey(o, k), index - {k});
      CoveredWithout(o, old(evictList), index, k, f);
    }

    // ------------------------------------------------------- putting an entry in

    /** Like Shape, except that the ring of f is present and may still be empty. */
    ghost predicate Ready(o: seq<Item<K, V>>, index: map<K, Entry<K, V>>, f: int)
      reads this`Repr, this`evictList, Repr
    {
      && Separate() && Rings(o, index) && Indexed(o, index) && Valued(o, index)
      && f in evictList
      && (forall i :: 0 <= i < |o| ==> o[i].key in index && o[i].freq in evictList)
      && (forall g :: g in evictList && g != f ==> AtFreq(o, g) != [])
    }

    /** Registers the empty ring l under f. */
    method AddRing(f: int, l: LfuList<K, V>, ghost o: seq<Item<K, V>>, ghost index: map<K, Entry<K, V>>)
      requires Separate() && Rings(o, index) && f !in evictList
      requires l.Valid() && l.nodes == [] && l.Foot() !! Repr && this !in l.Foot() && AtFreq(o, f) == []
      modifies this`evictList, this`Repr
      ensures Separate() && Rings(o, index)
      ensures evictList == old(evictList)[f := l] && Repr == old(Repr) + l.Foot()
    {
      evictList := evictList[f := l];
      Repr := Repr + l.Foot();
    }

    /** Makes sure a ring for frequency f exists. */
    method EnsureRing(f: int, ghost o: seq<Item<K, V>>, ghost index: map<K, Entry<K, V>>)
      requires Shape(o, index) && Valued(o, index)
      modifies this`evictList, this`Repr
      ensures Ready(o, index, f)
      ensures Repr >= old(Repr) && fresh(Repr - old(Repr))
    {
      if f !in evictList {
        AtFreqNone(o, f);
        var l := new LfuList();
        assert fresh(l.Foot()) && l.Foot() !! Repr;
        assert Separate() && Rings(o, index);
        AddRing(f, l, o, index);
      }
    }

    /** Inserts e at the front of ring f and leaves every other ring as it was. */
    method RingPush(e: Entry<K, V>, f: int, ghost o: seq<Item<K, V>>, ghost index: map<K, Entry<K, V>>)
      requires Separate() && Valued(o, index) && f in evictList
      requires e in Repr && forall g :: g in evictList ==> e !in evictList[g].Foot()
      modifies Repr
      ensures Separate() && Valued(o, index)
      ensures e.Value == old(e.Value)
      ensures forall g :: g in evictList ==>
                evictList[g].nodes == old(evictList[g].nodes) + if g == f then [e] else []
    {
      evictList[f].InsertFront(e);
    }

    /** The rings after the push represent o with the new item. */
    lemma RingsWith(o: seq<Item<K, V>>, index: map<K, Entry<K, V>>, it: Item<K, V>, e: Entry<K, V>)
      requires Ordered(o) && it.key in index && index[it.key] == e && Separate()
      requires forall g :: g in evictList ==>
                 Cells(evictList[g].nodes, AtFreq(o, g) + if g == it.freq then [it] else [], index)
      ensures Rings(InsertNewest(o, it), index)
    {
      forall g | g in evictList ensures Cells(evictList[g].nodes, AtFreq(InsertNewest(o, it), g), index) {
        assert forall i, j :: 0 <= i < j < |o| ==> Before(o[i], o[j]);
        InsertAtFreq(o, it, g);
      }
    }

    lemma IndexedWith(o: seq<Item<K, V>>, index: map<K, Entry<K, V>>, it: Item<K, V>, e: Entry<K, V>)
      requires Unique(o) && Indexed(o, index) && Valued(o, index) && Find(o, it.key).None?
      requires e in Repr && Matches(e, it) && e.Value == it.value
      ensures Indexed(InsertNewest(o, it), index[it.key := e]) && Valued(InsertNewest(o, it), index[it.key := e])
    {
      forall j | j in index[it.key := e]
        ensures Find(InsertNewest(o, it), j) == if j == it.key then Some(it) else Find(o, j)
      {
        InsertFind(o, it, j);
      }
    }

    lemma CoveredWith(o: seq<Item<K, V>>, index: map<K, Entry<K, V>>, it: Item<K, V>, e: Entry<K, V>)
      requires Ordered(o) && it.freq in evictList
      requires forall i :: 0 <= i < |o| ==> o[i].key in index && o[i].freq in evictList
      requires forall g :: g in evictList && g != it.freq ==> AtFreq(o, g) != []
      ensures Covered(InsertNewest(o, it), index[it.key := e])
    {
      var p := InsertSplit(o, it);
      forall g | g in evictList ensures AtFreq(InsertNewest(o, it), g) != [] {
        assert forall i, j :: 0 <= i < j < |o| ==> Before(o[i], o[j]);
        InsertAtFreq(o, it, g);
      }
    }

    /** insert: links the new entry e for it into the ring of its frequency. */
    method Insert(e: Entry<K, V>, ghost it: Item<K, V>, ghost o: seq<Item<K, V>>, ghost index: map<K, Entry<K, V>>)
      requires Ready(o, index, it.freq)
      requires Ordered(o) && Unique(o) && Find(o, it.key).None?
      requires e in Repr && Matches(e, it) && e.Value == it.value
      requires forall g :: g in evictList ==> e !in evictList[g].Foot()
      modifies Repr
      ensures var t := InsertNewest(o, it); var all := index[it.key := e]; Shape(t, all) && Valued(t, all)
    {
      RingPush(e, e.Freq, o, index);
      forall g | g in evictList
        ensures Cells(evictList[g].nodes, AtFreq(o, g) + if g == it.freq then [it] else [], index[it.key := e])
      {
        assert Cells(old(evictList[g].nodes), AtFreq(o, g), index);
        CellsWith(old(evictList[g].nodes), AtFreq(o, g), index, e, it);
      }
      RingsWith(o, index[it.key := e], it, e);
      IndexedWith(o, index, it, e);
      CoveredWith(o, index, it, e);
    }

    method NewEntry(key: K, value: V, freq: int, ghost stamp: nat,
                    ghost o: seq<Item<K, V>>, ghost index: map<K, Entry<K, V>>)
      returns (e: Entry<K, V>)
      requires Ready(o, index, freq)
      modifies this`Repr
      ensures Ready(o, index, freq) && Repr == old(Repr) + {e} && fresh(e)
      ensures Matches(e, Item(key, value, freq, stamp)) && e.Value == value
      ensures forall g :: g in evictList ==> e !in evictList[g].Foot()
    {
      e := new Entry(key, value, freq, stamp);
      Repr := Repr + {e};
    }

    /** PushFrontFreq into the ring of freq, creating the ring when needed. */
    method PushFront(key: K, value: V, freq: int, ghost stamp: nat,
                     ghost o: seq<Item<K, V>>, ghost index: map<K, Entry<K, V>>)
      returns (e: Entry<K, V>)
      requires Shape(o, index) && Valued(o, index) && Ordered(o) && Unique(o) && Find(o, key).None?
      modifies this`evictList, this`Repr, Repr
      ensures var t := InsertNewest(o, Item(key, value, freq, stamp)); var all := index[key := e];
        Shape(t, all) && Valued(t, all)
      ensures Repr >= old(Repr) && fresh(Repr - old(Repr))
    {
      EnsureRing(freq, o, index);
      e := NewEntry(key, value, freq, stamp, o, index);
      Insert(e, Item(key, value, freq, stamp), o, index);
    }

    // ------------------------------------------------------------- the frequency

    /** Stores a new entry under key; rest is what is resident without it. */
    method Store(key: K, value: V, freq: int, ghost rest: Order<K, V>)
      requires Shape(rest.items, items - {key}) && Valued(rest.items, items - {key})
      requires Ordered(rest.items) && Unique(rest.items) && Find(rest.items, key).None?
      modifies this`evictList, this`items, this`model, this`Repr, Repr
      ensures model == rest.(items := InsertNewest(rest.items, Item(key, value, freq, rest.clock)),
                             clock := rest.clock + 1)
      ensures Shape(model.items, items) && Valued(model.items, items)
      ensures Repr >= old(Repr) && fresh(Repr - old(Repr))
    {
      var e := PushFront(key, value, freq, rest.clock, rest.items, items - {key});
      Reinsert(items, key, e);
      items := items[key := e];
      model := rest.(items := InsertNewest(rest.items, Item(key, value, freq, rest.clock)), clock := rest.clock + 1);
    }

    /** Moves ent to the ring of the next frequency. */
    method UpdateFreq(ent: Entry<K, V>)
      requires Shape(model.items, items) && LfuOrder.Valid(model)
      requires model.size == size && minFreq == Least(model.items)
      requires ent.Key in items && items[ent.Key] == ent && Valued(model.items, items - {ent.Key})
      modifies this, Repr
      ensures Valid() && fresh(Repr - old(Repr))
      ensures Find(old(model).items, ent.Key).Some?
      ensures model == Use(old(model), ent.Key, old(ent.Value))
    {
      hide InsertNewest, RemoveKey, AtFreq, Rings, Covered;
      ghost var k, rest := ent.Key, model.(items := RemoveKey(model.items, ent.Key));
      UseKeepsValid(model, k, ent.Value);
      LeastAfterUse(model, k, ent.Value);
      RemoveKeeps(model.items, k, model.clock);
      var oldFreq := ent.Freq;
      var dropped := Unlink(ent, model.items, items);
      if dropped && minFreq == oldFreq {
        minFreq := oldFreq + 1;
      }
      Store(ent.Key, ent.Value, oldFreq + 1, rest);
    }

    /** The least frequency of o is the least frequency that has a ring. */
    lemma LeastRing(o: seq<Item<K, V>>, index: map<K, Entry<K, V>>)
      requires Covered(o, index) && Ordered(o) && forall i :: 0 <= i < |o| ==> o[i].freq >= 1
      ensures forall f :: f in evictList ==> 1 <= Least(o) <= f
      ensures if o == [] then evictList.Keys == {} else Least(o) in evictList
    {
      LeastIsMinimum(o);
      forall f | f in evictList ensures 1 <= Least(o) <= f {
        AtFreqNone(o, f);
        var i :| 0 <= i < |o| && o[i].freq == f;
      }
    }

    /** Points minFreq at the smallest ring, or resets it to 0. */
    method RecomputeMinFreq(ghost o: seq<Item<K, V>>, ghost index: map<K, Entry<K, V>>)
      requires Covered(o, index) && Ordered(o) && forall i :: 0 <= i < |o| ==> o[i].freq >= 1
      modifies this`minFreq
      ensures minFreq == Least(o)
    {
      LeastRing(o, index);
      minFreq := 0;
      var todo: set<int> := evictList.Keys;
      while todo != {}
        invariant todo <= evictList.Keys
        invariant minFreq != 0 ==> minFreq in evictList
        invariant forall f :: f in evictList && f !in todo ==> 0 < minFreq <= f
      {
        ghost var some := Member(todo);
        var freq :| freq in todo;
        todo := todo - {freq};
        if minFreq == 0 || freq < minFreq {
          minFreq := freq;
        }
      }
      assert minFreq == 0 ==> evictList.Keys == {};
    }

    /** Takes ent out of its ring and repairs the minimum. */
    method Detach(ent: Entry<K, V>)
      requires Valid() && ent.Key in items && items[ent.Key] == ent
      modifies this`evictList, this`minFreq, Repr
      ensures var t := RemoveKey(model.items, ent.Key); var rest := items - {ent.Key};
        Shape(t, rest) && Valued(t, rest) && minFreq == Least(t)
    {
      hide RemoveKey, AtFreq, Rings, Covered;
      ghost var t := RemoveKey(model.items, ent.Key);
      RemoveKeeps(model.items, ent.Key, model.clock);
      LeastAfterRemove(model.items, ent.Key);
      var freq := ent.Freq;
      var dropped := Unlink(ent, model.items, items);
      if dropped && minFreq == freq {
        RecomputeMinFreq(t, items - {ent.Key});
      }
    }

    // ------------------------------------------------------------------- queries

    method Contains(key: K) returns (ok: bool)
      requires Valid()
      ensures ok <==> Find(model.items, key).Some?
    {
      FindNone(model.items, key);
      ok := key in items;
    }

    method Peek(key: K) returns (r: Option<V>)
      requires Valid()
      ensures r == match Find(model.items, key) case None => None case Some(it) => Some(it.value)
    {
      FindNone(model.items, key);
      r := if key in items then Some(items[key].Value) else None;
    }

    method Len() returns (n: nat)
      requires Valid()
      ensures n == |model.items|
    {
      forall k ensures k in items.Keys <==> Find(model.items, k).Some? {
        FindNone(model.items, k);
      }
      CountKeys(model.items, items.Keys);
      n := |items|;
    }

    /** The next victim: the oldest entry of the least frequency. */
    method Oldest() returns (e: Entry?<K, V>)
      requires Valid()
      ensures e == null <==> model.items == []
      ensures e != null ==> e.Key == model.items[0].key && e.Key in items && items[e.Key] == e
      ensures e != null ==> e.Value == model.items[0].value
    {
      var n := Len();
      if n == 0 {
        return null;
      }
      ghost var f := model.items[0].freq;
      assert AtFreq(model.items, f)[0] == model.items[0];
      FindUnique(model.items, 0);
      assert Cells(evictList[f].nodes, AtFreq(model.items, f), items);
      e := evictList[minFreq].Back();
    }

    method GetOldest() returns (r: Option<(K, V)>)
      requires Valid()
      ensures r == if model.items == [] then None else Some((model.items[0].key, model.items[0].value))
    {
      var e := Oldest();
      r := if e == null then None else Some((e.Key, e.Value));
    }

    // ---------------------------------------------------------------- operations

    /** Evicts the next victim. */
    method EvictOldest() returns (r: Option<(K, V)>)
      requires Valid()
      modifies this, Repr
      ensures Valid() && Repr == old(Repr)
      ensures r == if old(model).items == [] then None else
                     Some((old(model).items[0].key, old(model).items[0].value))
      ensures model == old(model).(items := if old(model).items == [] then [] else old(model).items[1..])
    {
      var ent := Oldest();
      if ent == null {
        return None;
      }
      r := Some((ent.Key, ent.Value));
      assert RemoveKey(model.items, ent.Key) == model.items[1..];
      RemoveElement(ent);
    }

    /** removeElement: drops a resident entry. */
    method RemoveElement(e: Entry<K, V>)
      requires Valid() && e.Key in items && items[e.Key] == e
      modifies this, Repr
      ensures Valid() && Repr == old(Repr)
      ensures model == LfuOrder.Remove(old(model), e.Key)
    {
      hide RemoveKey, AtFreq, Rings, Covered;
      RemoveKeeps(model.items, e.Key, model.clock);
      Detach(e);
      items := items - {e.Key};
      model := LfuOrder.Remove(model, e.Key);
    }

    method Add(key: K, value: V) returns (evicted: bool)
      requires Valid()
      modifies this, Repr
      ensures Valid() && fresh(Repr - old(Repr))
      ensures model == LfuOrder.Add(old(model), key, value)
      ensures evicted <==>
        old(model).size > 0 && Find(old(model).items, key).None? && Full(old(model))
    {
      if size <= 0 {
        return false;
      }
      FindNone(model.items, key);
      if key in items {
        var ent := items[key];
        SetValue(ent, value);
        UpdateFreq(ent);
        return false;
      }
      evicted := AddNew(key, value);
    }

    /** The assignment to a resident entry's value that precedes its use. */
    method SetValue(ent: Entry<K, V>, value: V)
      requires Valid() && ent.Key in items && items[ent.Key] == ent
      modifies ent`Value
      ensures Shape(model.items, items) && Valued(model.items, items - {ent.Key}) && ent.Value == value
      ensures LfuOrder.Valid(model) && model.size == size && minFreq == Least(model.items)
    {
      hide AtFreq, Find, LfuOrder.Valid, Least;
      forall k | k in items && k != ent.Key ensures items[k] != ent {
        FindNone(model.items, k);
      }
      ent.Value := value;
    }

    /** Add of a key that is not resident, with room for at least one entry. */
    method AddNew(key: K, value: V) returns (evicted: bool)
      requires Valid() && size > 0 && Find(model.items, key).None?
      modifies this, Repr
      ensures Valid() && fresh(Repr - old(Repr))
      ensures model == LfuOrder.Add(old(model), key, value)
      ensures evicted == Full(old(model))
    {
      hide InsertNewest, RemoveKey, AtFreq, Rings, Covered;
      AddKeepsValid(model, key, value);
      FindNone(model.items, key);
      var n := Len();
      evicted := false;
      if n > 0 && n >= size {
        var r := EvictOldest();
        evicted := r.Some?;
      }
      FindNone(model.items, key);
      assert items - {key} == items;
      LeastAfterInsert(model.items, Item(key, value, 1, model.clock));
      Store(key, value, 1, model);
      minFreq := 1;
    }

    method Get(key: K) returns (r: Option<V>)
      requires Valid()
      modifies this, Repr
      ensures Valid() && fresh(Repr - old(Repr))
      ensures model == LfuOrder.Get(old(model), key)
      ensures r == match Find(old(model).items, key) case None => None case Some(it) => Some(it.value)
    {
      FindNone(model.items, key);
      if key !in items {
        return None;
      }
      var ent := items[key];
      r := Some(ent.Value);
      UpdateFreq(ent);
    }

    method Remove(key: K) returns (present: bool)
      requires Valid()
      modifies this, Repr
      ensures Valid() && Repr == old(Repr)
      ensures model == LfuOrder.Remove(old(model), key)
      ensures present <==> Find(old(model).items, key).Some?
    {
      FindNone(model.items, key);
      present := key in items;
      if present {
        RemoveElement(items[key]);
      }
    }

    method Purge()
      requires Valid()
      modifies this
      ensures Valid() && Repr == old(Repr)
      ensures model == old(model).(items := [])
    {
      items := map[];
      evictList := map[];
      minFreq := 0;
      model := model.(items := []);
    }

    /** Evicts down to size and returns how many entries went. */
    method Resize(size: int) returns (evicted: nat)
      requires Valid()
      modifies this, Repr
      ensures Valid() && Repr == old(Repr)
      ensures model == LfuOrder.Resize(old(model), size)
      ensures evicted == Excess(old(model), size)
    {
      hide Rings, Covered, Indexed, Valued;
      var n := Len();
      var diff := n - size;
      if diff < 0 {
        diff := 0;
      }
      evicted := 0;
      while evicted < diff
        invariant Valid() && Repr == old(Repr)
        invariant evicted <= |old(model).items| && evicted <= diff
        invariant model == old(model).(items := old(model).items[evicted..])
      {
        var r := EvictOldest();
        if r.None? {
          break;
        }
        evicted := evicted + 1;
      }
      this.size := size;
      model := model.(size := size);
    }

    // --------------------------------------------------------------- enumeration

    /** The frequencies in use, sorted. */
    method SortedFreqs() returns (fs: seq<int>)
      requires Valid()
      ensures Ascending(fs) && forall f :: f in fs <==> f in evictList
    {
      fs := [];
      var todo: set<int> := evictList.Keys;
      while todo != {}
        invariant Ascending(fs)
        invariant todo <= evictList.Keys
        invariant forall f :: f in fs <==> f in evictList && f !in todo
      {
        ghost var some := Member(todo);
        var freq :| freq in todo;
        todo := todo - {freq};
        SortedInsertKeeps(fs, freq);
        fs := SortedInsert(fs, freq);
      }
    }

    /** The ring of f holds, oldest first, the items of that frequency. */
    lemma RingRun(f: int, lo: nat)
      requires Valid() && f in evictList
      requires lo + |AtFreq(model.items, f)| <= |model.items|
      requires AtFreq(model.items, f) == model.items[lo..lo + |AtFreq(model.items, f)|]
      ensures var run := evictList[f].nodes;
        && |run| == |AtFreq(model.items, f)|
        && forall i :: lo <= i < lo + |run| ==>
             run[i - lo].Key == model.items[i].key && run[i - lo].Value == model.items[i].value
    {
      hide AtFreq, Separate, Covered;
      var s, run := model.items, evictList[f].nodes;
      assert Cells(run, AtFreq(s, f), items);
      forall i | lo <= i < lo + |run| ensures run[i - lo].Key == s[i].key && run[i - lo].Value == s[i].value {
        assert AtFreq(s, f)[i - lo] == s[i];
        FindUnique(s, i);
      }
    }

    /** Keys and Values walk the same way: every frequency in turn, back to front. */
    method Keys() returns (keys: array<K>)
      requires Valid()
      ensures fresh(keys) && keys[..] == KeysOf(model.items)
    {
      hide AtFreq, Shape, Valued;
      var fs := SortedFreqs();
      var n := Len();
      var zero: K := *;
      keys := new K[n](_ => zero);
      var i: nat, m: nat := 0, 0;
      FreqsCovered(fs);
      while m < |fs|
        invariant m <= |fs| && i <= keys.Length == |model.items|
        invariant Split(model.items, fs, m, i)
        invariant forall j :: 0 <= j < i ==> keys[j] == model.items[j].key
      {
        RunOf(model.items, fs, m, i);
        i := KeysOfRing(keys, i, fs[m]);
        m := m + 1;
      }
      SplitMore(model.items, fs, m, i);
    }

    /** Copies the keys of one ring into place. */
    method KeysOfRing(keys: array<K>, start: nat, f: int) returns (i: nat)
      requires Valid() && keys !in Repr && f in evictList && keys.Length == |model.items|
      requires start + |AtFreq(model.items, f)| <= |model.items|
      requires AtFreq(model.items, f) == model.items[start..start + |AtFreq(model.items, f)|]
      modifies keys
      ensures i == start + |AtFreq(model.items, f)|
      ensures forall j :: 0 <= j < start ==> keys[j] == old(keys[j])
      ensures forall j :: start <= j < i ==> keys[j] == model.items[j].key
    {
      hide AtFreq, Rings, Covered, Indexed, Valued, LfuOrder.Valid;
      RingRun(f, start);
      i := start;
      var ent := evictList[f].Back();
      ghost var run := evictList[f].nodes;
      while ent != null
        invariant start <= i <= start + |run|
        invariant ent == if i - start < |run| then run[i - start] else null
        invariant forall j :: 0 <= j < start ==> keys[j] == old(keys[j])
        invariant forall j :: start <= j < i ==> keys[j] == run[j - start].Key
        decreases start + |run| - i
      {
        assert run[i - start].list == evictList[f];
        keys[i] := ent.Key;
        ent := ent.PrevEntry(i - start);
        i := i + 1;
      }
    }

    method Values() returns (values: array<V>)
      requires Valid()
      ensures fresh(values) && values[..] == ValuesOf(model.items)
    {
      hide AtFreq, Shape, Valued;
      var fs := SortedFreqs();
      var n := Len();
      var zero: V := *;
      values := new V[n](_ => zero);
      var i: nat, m: nat := 0, 0;
      FreqsCovered(fs);
      while m < |fs|
        invariant m <= |fs| && i <= values.Length == |model.items|
        invariant Split(model.items, fs, m, i)
        invariant forall j :: 0 <= j < i ==> values[j] == model.items[j].value
      {
        RunOf(model.items, fs, m, i);
        i := ValuesOfRing(values, i, fs[m]);
        m := m + 1;
      }
      SplitMore(model.items, fs, m, i);
    }

    /** Copies the values of one ring into place. */
    method ValuesOfRing(values: array<V>, start: nat, f: int) returns (i: nat)
      requires Valid() && values !in Repr && f in evictList && values.Length == |model.items|
      requires start + |AtFreq(model.items, f)| <= |model.items|
      requires AtFreq(model.items, f) == model.items[start..start + |AtFreq(model.items, f)|]
      modifies values
      ensures i == start + |AtFreq(model.items, f)|
      ensures forall j :: 0 <= j < start ==> values[j] == old(values[j])
      ensures forall j :: start <= j < i ==> values[j] == model.items[j].value
    {
      hide AtFreq, Rings, Covered, Indexed, Valued, LfuOrder.Valid;
      RingRun(f, start);
      i := start;
      var ent := evictList[f].Back();
      ghost var run := evictList[f].nodes;
      while ent != null
        invariant start <= i <= start + |run|
        invariant ent == if i - start < |run| then run[i - start] else null
        invariant forall j :: 0 <= j < start ==> values[j] == old(values[j])
        invariant forall j :: start <= j < i ==> values[j] == run[j - start].Value
        decreases start + |run| - i
      {
        assert run[i - start].list == evictList[f];
        values[i] := ent.Value;
        ent := ent.PrevEntry(i - start);
        i := i + 1;
      }
    }

    /** At the start every item belongs to a frequency still to come. */
    lemma FreqsCovered(fs: seq<int>)
      requires Valid() && forall f :: f in fs <==> f in evictList
      ensures Split(model.items, fs, 0, 0)
    {
    }
  }
}
