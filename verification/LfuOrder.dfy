/**
 The reference model of the LFU policy: one sequence of entries, ordered by
 frequency and, within a frequency, by the time of the last use. The head of the
 sequence is the next victim. The linked structure in `Lfu` refines it.
 */
module LfuOrder {
  import opened Options

  /** One resident entry. `stamp` is the logical time of its last use. */
  datatype Item<K, V> = Item(key: K, value: V, freq: int, stamp: nat)

  /** `clock` is later than every stamp; `size` is the capacity. */
  datatype Order<K, V> = Order(items: seq<Item<K, V>>, size: int, clock: nat)

  ghost predicate Before<K, V>(a: Item<K, V>, b: Item<K, V>) {
    a.freq < b.freq || (a.freq == b.freq && a.stamp < b.stamp)
  }

  ghost predicate Ordered<K, V>(s: seq<Item<K, V>>) {
    forall i, j :: 0 <= i < j < |s| ==> Before(s[i], s[j])
  }

  ghost predicate Unique<K, V>(s: seq<Item<K, V>>) {
    forall i, j :: 0 <= i < j < |s| ==> s[i].key != s[j].key
  }

  ghost predicate Stamped<K, V>(s: seq<Item<K, V>>, clock: nat) {
    forall i :: 0 <= i < |s| ==> s[i].freq >= 1 && s[i].stamp < clock
  }

  ghost predicate Valid<K, V>(o: Order<K, V>) {
    && Ordered(o.items)
    && Unique(o.items)
    && Stamped(o.items, o.clock)
    && |o.items| <= (if o.size > 0 then o.size else 0)
  }

  /** Places an item behind every item of its frequency or lower. */
  function InsertNewest<K, V>(s: seq<Item<K, V>>, it: Item<K, V>): seq<Item<K, V>> {
    if s != [] && s[0].freq <= it.freq then [s[0]] + InsertNewest(s[1..], it) else [it] + s
  }

  function RemoveKey<K(==), V>(s: seq<Item<K, V>>, k: K): seq<Item<K, V>> {
    if s == [] then [] else if s[0].key == k then s[1..] else [s[0]] + RemoveKey(s[1..], k)
  }

  function Find<K(==), V>(s: seq<Item<K, V>>, k: K): Option<Item<K, V>> {
    if s == [] then None else if s[0].key == k then Some(s[0]) else Find(s[1..], k)
  }

  function KeysOf<K, V>(s: seq<Item<K, V>>): seq<K> {
    seq(|s|, i requires 0 <= i < |s| => s[i].key)
  }

  function ValuesOf<K, V>(s: seq<Item<K, V>>): seq<V> {
    seq(|s|, i requires 0 <= i < |s| => s[i].value)
  }

  /** The items of one frequency, oldest first. */
  function AtFreq<K, V>(s: seq<Item<K, V>>, f: int): seq<Item<K, V>> {
    if s == [] then [] else if s[0].freq == f then [s[0]] + AtFreq(s[1..], f) else AtFreq(s[1..], f)
  }

  // ---------------------------------------------------------------- operations

  /** A use of a resident key: one frequency up, newest there, with value `v`. */
  function Use<K(==), V>(o: Order<K, V>, k: K, v: V): Order<K, V>
    requires Find(o.items, k).Some?
  {
    var it := Find(o.items, k).value;
    o.(items := InsertNewest(RemoveKey(o.items, k), Item(k, v, it.freq + 1, o.clock)), clock := o.clock + 1)
  }

  /** Whether storing a new key must evict first. */
  predicate Full<K, V>(o: Order<K, V>) { |o.items| > 0 && |o.items| >= o.size }

  function Add<K(==), V>(o: Order<K, V>, k: K, v: V): Order<K, V> {
    if o.size <= 0 then o
    else if Find(o.items, k).Some? then Use(o, k, v)
    else
      var room := if Full(o) then o.items[1..] else o.items;
      o.(items := InsertNewest(room, Item(k, v, 1, o.clock)), clock := o.clock + 1)
  }

  function Get<K(==), V>(o: Order<K, V>, k: K): Order<K, V> {
    match Find(o.items, k)
    case None => o
    case Some(it) => Use(o, k, it.value)
  }

  function Remove<K(==), V>(o: Order<K, V>, k: K): Order<K, V> {
    o.(items := RemoveKey(o.items, k))
  }

  /** How many entries a resize to `size` evicts. */
  function Excess<K, V>(o: Order<K, V>, size: int): (n: nat)
    ensures n <= |o.items|
  {
    if size < 0 then |o.items| else if |o.items| > size then |o.items| - size else 0
  }

  /** Sorted insertion, the effect of sorting a slice one element at a time. */
  function SortedInsert(fs: seq<int>, f: int): seq<int> {
    if fs == [] || f < fs[0] then [f] + fs else [fs[0]] + SortedInsert(fs[1..], f)
  }

  function Resize<K, V>(o: Order<K, V>, size: int): Order<K, V> {
    o.(items := o.items[Excess(o, size)..], size := size)
  }

  // ------------------------------------------------------- lemmas on sequences

  lemma {:induction false} InsertSplit<K, V>(s: seq<Item<K, V>>, it: Item<K, V>) returns (p: nat)
    ensures p <= |s|
    ensures InsertNewest(s, it) == s[..p] + [it] + s[p..]
    ensures forall i :: 0 <= i < p ==> s[i].freq <= it.freq
    ensures p < |s| ==> s[p].freq > it.freq
  {
    if s != [] && s[0].freq <= it.freq {
      var q := InsertSplit(s[1..], it);
      p := q + 1;
      assert s[1..][..q] == s[1..p] && s[1..][q..] == s[p..];
      forall i | 0 <= i < p ensures s[i].freq <= it.freq {
        assert i > 0 ==> s[i] == s[1..][i - 1];
      }
    } else {
      p := 0;
    }
  }

  lemma {:induction false} RemoveSplit<K, V>(s: seq<Item<K, V>>, k: K) returns (p: nat)
    requires Find(s, k).Some?
    ensures p < |s| && s[p] == Find(s, k).value && s[p].key == k
    ensures RemoveKey(s, k) == s[..p] + s[p + 1..]
    ensures forall i :: 0 <= i < p ==> s[i].key != k
  {
    if s[0].key == k {
      p := 0;
    } else {
      var q := RemoveSplit(s[1..], k);
      p := q + 1;
      assert s[1..][..q] == s[1..p] && s[1..][q + 1..] == s[p + 1..];
      forall i | 0 <= i < p ensures s[i].key != k {
        assert i > 0 ==> s[i] == s[1..][i - 1];
      }
    }
  }

  lemma {:induction false} FindNone<K, V>(s: seq<Item<K, V>>, k: K)
    ensures Find(s, k).None? <==> forall i :: 0 <= i < |s| ==> s[i].key != k
    ensures Find(s, k).None? ==> RemoveKey(s, k) == s
    ensures Find(s, k).Some? ==> exists i :: 0 <= i < |s| && s[i] == Find(s, k).value && s[i].key == k
  {
    if s != [] {
      FindNone(s[1..], k);
      if s[0].key != k {
        assert forall i :: 0 < i < |s| ==> s[i] == s[1..][i - 1];
        if Find(s, k).None? {
          assert s == [s[0]] + s[1..];
        }
        assert forall i :: 0 <= i < |s| - 1 ==> s[1..][i] == s[i + 1];
      }
    }
  }

  lemma {:induction false} FindUnique<K, V>(s: seq<Item<K, V>>, i: nat)
    requires Unique(s) && i < |s|
    ensures Find(s, s[i].key) == Some(s[i])
  {
    FindNone(s, s[i].key);
  }

  /** Insertion of the newest item keeps the order, whatever its frequency. */
  lemma InsertOrdered<K, V>(s: seq<Item<K, V>>, it: Item<K, V>)
    requires Ordered(s) && Stamped(s, it.stamp) && it.freq >= 1
    ensures Ordered(InsertNewest(s, it)) && Stamped(InsertNewest(s, it), it.stamp + 1)
    ensures |InsertNewest(s, it)| == |s| + 1
  {
    var p := InsertSplit(s, it);
    forall i | p <= i < |s| ensures s[i].freq > it.freq {
      assert i > p ==> Before(s[p], s[i]);
    }
  }

  lemma InsertUnique<K, V>(s: seq<Item<K, V>>, it: Item<K, V>)
    requires Unique(s) && Find(s, it.key).None?
    ensures Unique(InsertNewest(s, it))
  {
    var p := InsertSplit(s, it);
    FindNone(s, it.key);
  }

  lemma InsertFind<K, V>(s: seq<Item<K, V>>, it: Item<K, V>, j: K)
    requires Unique(s) && Find(s, it.key).None?
    ensures Find(InsertNewest(s, it), j) == if j == it.key then Some(it) else Find(s, j)
  {
    hide InsertNewest, Find;
    var p := InsertSplit(s, it);
    var t := InsertNewest(s, it);
    InsertUnique(s, it);
    FindNone(s, j);
    FindNone(t, j);
    if j == it.key {
      assert t[p] == it;
      FindUnique(t, p);
    } else if Find(s, j).Some? {
      var i :| 0 <= i < |s| && s[i] == Find(s, j).value;
      var i' := if i < p then i else i + 1;
      assert t[i'] == s[i];
      FindUnique(t, i');
    }
  }

  lemma RemoveUnique<K, V>(s: seq<Item<K, V>>, k: K)
    requires Unique(s)
    ensures Unique(RemoveKey(s, k))
  {
    FindNone(s, k);
    if Find(s, k).Some? {
      var p := RemoveSplit(s, k);
      var t := RemoveKey(s, k);
      assert forall i :: 0 <= i < |t| ==> t[i] == s[if i < p then i else i + 1];
    }
  }

  lemma RemoveKeeps<K, V>(s: seq<Item<K, V>>, k: K, clock: nat)
    requires Ordered(s) && Unique(s) && Stamped(s, clock)
    ensures var t := RemoveKey(s, k); Ordered(t) && Unique(t) && Stamped(t, clock)
    ensures |RemoveKey(s, k)| == if Find(s, k).Some? then |s| - 1 else |s|
  {
    FindNone(s, k);
    if Find(s, k).Some? {
      var p := RemoveSplit(s, k);
      var t := RemoveKey(s, k);
      assert forall i :: 0 <= i < |t| ==> t[i] == s[if i < p then i else i + 1];
    }
  }

  lemma RemoveFind<K, V>(s: seq<Item<K, V>>, k: K, j: K)
    requires Unique(s)
    ensures Find(RemoveKey(s, k), j) == if j == k then None else Find(s, j)
  {
    hide RemoveKey, Find;
    FindNone(s, k);
    if Find(s, k).Some? {
      var p := RemoveSplit(s, k);
      var t := RemoveKey(s, k);
      FindNone(t, j);
      FindNone(s, j);
      if j != k && Find(s, j).Some? {
        var i :| 0 <= i < |s| && s[i] == Find(s, j).value && s[i].key == j;
        var i' := if i < p then i else i - 1;
        assert t[i'] == s[i];
        assert Unique(t);
        FindUnique(t, i');
      }
    }
  }

  lemma {:induction false} InsertAtFreq<K, V>(s: seq<Item<K, V>>, it: Item<K, V>, f: int)
    requires forall i, j :: 0 <= i < j < |s| ==> s[i].freq <= s[j].freq
    ensures AtFreq(InsertNewest(s, it), f) == AtFreq(s, f) + if f == it.freq then [it] else []
  {
    if s != [] && s[0].freq <= it.freq {
      InsertAtFreq(s[1..], it, f);
      assert InsertNewest(s, it)[1..] == InsertNewest(s[1..], it);
    } else {
      assert ([it] + s)[1..] == s;
      if f == it.freq {
        AtFreqNone(s, f);
      }
    }
  }

  lemma {:induction false} AtFreqNone<K, V>(s: seq<Item<K, V>>, f: int)
    ensures AtFreq(s, f) == [] <==> forall i :: 0 <= i < |s| ==> s[i].freq != f
  {
    if s != [] {
      AtFreqNone(s[1..], f);
      assert forall i :: 0 < i < |s| ==> s[i] == s[1..][i - 1];
      assert forall i :: 0 <= i < |s| - 1 ==> s[1..][i] == s[i + 1];
    }
  }

  lemma {:induction false} RemoveAtFreq<K, V>(s: seq<Item<K, V>>, k: K, f: int)
    requires Unique(s)
    ensures AtFreq(RemoveKey(s, k), f) == RemoveKey(AtFreq(s, f), k)
    ensures Find(s, k).Some? && Find(s, k).value.freq != f ==> RemoveKey(AtFreq(s, f), k) == AtFreq(s, f)
    ensures Find(s, k).None? ==> RemoveKey(AtFreq(s, f), k) == AtFreq(s, f)
  {
    if s != [] {
      RemoveAtFreq(s[1..], k, f);
      if s[0].key == k {
        FindNone(s[1..], k);
        assert Find(s[1..], k).None?;
      } else {
        assert RemoveKey(s, k)[1..] == RemoveKey(s[1..], k);
        assert ([s[0]] + AtFreq(s[1..], f))[1..] == AtFreq(s[1..], f);
      }
    }
  }

  lemma {:induction false} FindAtFreq<K, V>(s: seq<Item<K, V>>, k: K, f: int)
    requires Unique(s)
    ensures Find(AtFreq(s, f), k) ==
            if Find(s, k).Some? && Find(s, k).value.freq == f then Find(s, k) else None
  {
    if s != [] {
      FindAtFreq(s[1..], k, f);
      if s[0].key == k {
        FindNone(s[1..], k);
      }
      if s[0].freq == f {
        assert ([s[0]] + AtFreq(s[1..], f))[1..] == AtFreq(s[1..], f);
      }
    }
  }

  // -------------------------------------------------------- the least frequency

  /** What the cached minimum must be: zero when nothing is resident. */
  function Least<K, V>(s: seq<Item<K, V>>): int {
    if s == [] then 0 else s[0].freq
  }

  lemma LeastIsMinimum<K, V>(s: seq<Item<K, V>>)
    requires Ordered(s)
    ensures forall i :: 0 <= i < |s| ==> Least(s) <= s[i].freq
  {
    forall i | 0 <= i < |s| ensures Least(s) <= s[i].freq {
      assert i > 0 ==> Before(s[0], s[i]);
    }
  }

  /** How the minimum moves when one item leaves. */
  lemma LeastAfterRemove<K, V>(s: seq<Item<K, V>>, k: K)
    requires Ordered(s) && Unique(s) && Find(s, k).Some?
    ensures var t := RemoveKey(s, k); var f := Find(s, k).value.freq;
      && f >= Least(s)
      && (AtFreq(t, f) != [] || f != Least(s) ==> t != [] && Least(t) == Least(s))
      && (AtFreq(t, f) == [] && f == Least(s) && t != [] ==> Least(t) >= f + 1)
  {
    hide RemoveKey, Find, AtFreq;
    var p := RemoveSplit(s, k);
    var t := RemoveKey(s, k);
    var f := Find(s, k).value.freq;
    LeastIsMinimum(s);
    AtFreqNone(t, f);
    assert forall i :: 0 <= i < |t| ==> t[i] == s[if i < p then i else i + 1];
    if p == 0 && t != [] {
      assert Before(s[0], s[1]);
      assert t[0] == s[1];
      if t[0].freq != f {
        assert forall i :: 1 < i < |s| ==> Before(s[1], s[i]);
        assert forall i :: 0 <= i < |t| ==> t[i].freq != f;
      }
    }
  }

  /** How the minimum moves when one item arrives. */
  lemma LeastAfterInsert<K, V>(s: seq<Item<K, V>>, it: Item<K, V>)
    ensures Least(InsertNewest(s, it)) == if s == [] || it.freq < Least(s) then it.freq else Least(s)
  {
  }

  // ------------------------------------------------------------- what the operations keep

  lemma UseKeepsValid<K, V>(o: Order<K, V>, k: K, v: V)
    requires Valid(o) && Find(o.items, k).Some?
    ensures Valid(Use(o, k, v))
    ensures Find(RemoveKey(o.items, k), k).None?
  {
    var t := RemoveKey(o.items, k);
    RemoveKeeps(o.items, k, o.clock);
    RemoveFind(o.items, k, k);
    FindNone(o.items, k);
    var it := Item(k, v, Find(o.items, k).value.freq + 1, o.clock);
    InsertOrdered(t, it);
    InsertUnique(t, it);
  }

  /** The rule by which a use repairs the cached minimum. */
  lemma LeastAfterUse<K, V>(o: Order<K, V>, k: K, v: V)
    requires Valid(o) && Find(o.items, k).Some?
    ensures var f := Find(o.items, k).value.freq;
      Least(Use(o, k, v).items) ==
      if AtFreq(RemoveKey(o.items, k), f) == [] && Least(o.items) == f then f + 1 else Least(o.items)
  {
    var f := Find(o.items, k).value.freq;
    LeastAfterRemove(o.items, k);
    LeastAfterInsert(RemoveKey(o.items, k), Item(k, v, f + 1, o.clock));
    if RemoveKey(o.items, k) == [] {
      RemoveKeeps(o.items, k, o.clock);
    }
  }

  lemma AddKeepsValid<K, V>(o: Order<K, V>, k: K, v: V)
    requires Valid(o)
    ensures Valid(Add(o, k, v))
  {
    if o.size > 0 {
      FindNone(o.items, k);
      if Find(o.items, k).Some? {
        UseKeepsValid(o, k, v);
      } else {
        var room := if Full(o) then o.items[1..] else o.items;
        FindNone(room, k);
        InsertOrdered(room, Item(k, v, 1, o.clock));
        InsertUnique(room, Item(k, v, 1, o.clock));
      }
    }
  }

  /** The index has one key per item. */
  lemma {:induction false} CountKeys<K, V>(s: seq<Item<K, V>>, keys: set<K>)
    requires Unique(s) && forall k :: k in keys <==> Find(s, k).Some?
    ensures |keys| == |s|
  {
    if s == [] {
      assert keys == {};
    } else {
      FindNone(s[1..], s[0].key);
      CountKeys(s[1..], keys - {s[0].key});
    }
  }

  /** In order, the items of one frequency are a contiguous run. */
  lemma {:induction false} Segment<K, V>(s: seq<Item<K, V>>, f: int, lo: nat)
    requires Ordered(s) && lo <= |s|
    requires forall i :: 0 <= i < lo ==> s[i].freq < f
    requires forall i :: lo <= i < |s| ==> s[i].freq >= f
    ensures lo + |AtFreq(s, f)| <= |s|
    ensures AtFreq(s, f) == s[lo..lo + |AtFreq(s, f)|]
    ensures forall i :: lo + |AtFreq(s, f)| <= i < |s| ==> s[i].freq > f
  {
    if s != [] {
      var t := s[1..];
      assert forall i :: 0 <= i < |t| ==> t[i] == s[i + 1];
      if lo > 0 {
        Segment(t, f, lo - 1);
      } else if s[0].freq == f {
        Segment(t, f, 0);
      } else {
        forall i | 0 <= i < |s| ensures s[i].freq > f {
          assert i > 0 ==> Before(s[0], s[i]);
        }
        AtFreqNone(s, f);
      }
    }
  }

  ghost predicate Ascending(fs: seq<int>) {
    forall i, j :: 0 <= i < j < |fs| ==> fs[i] < fs[j]
  }

  lemma {:induction false} SortedInsertKeeps(fs: seq<int>, f: int)
    requires Ascending(fs) && f !in fs
    ensures Ascending(SortedInsert(fs, f))
    ensures forall x :: x in SortedInsert(fs, f) <==> x == f || x in fs
  {
    if fs != [] && f >= fs[0] {
      var t := SortedInsert(fs[1..], f);
      SortedInsertKeeps(fs[1..], f);
      assert forall x :: x in fs <==> x == fs[0] || x in fs[1..];
      assert forall i :: 0 <= i < |t| ==> t[i] in t;
    }
  }

  /** The first n of the frequencies fs have exactly the first lo items. */
  ghost predicate Split<K, V>(s: seq<Item<K, V>>, fs: seq<int>, n: nat, lo: nat)
    requires n <= |fs| && lo <= |s|
  {
    && (forall i :: 0 <= i < lo ==> s[i].freq in fs[..n])
    && (forall i :: lo <= i < |s| ==> s[i].freq in fs[n..])
  }

  /** The run of the n-th smallest frequency starts where the runs before it end. */
  lemma RunOf<K, V>(s: seq<Item<K, V>>, fs: seq<int>, n: nat, lo: nat)
    requires Ordered(s) && Ascending(fs) && n < |fs| && lo <= |s| && Split(s, fs, n, lo)
    ensures var hi := lo + |AtFreq(s, fs[n])|;
      hi <= |s| && AtFreq(s, fs[n]) == s[lo..hi] && Split(s, fs, n + 1, hi)
  {
    var f := fs[n];
    assert fs[n + 1..] == fs[n..][1..] && fs[..n + 1] == fs[..n] + [f];
    Segment(s, f, lo);
    AtFreqRange(s, f);
    var hi := lo + |AtFreq(s, f)|;
    forall i | lo <= i < hi ensures s[i].freq == f {
      assert AtFreq(s, f)[i - lo] == s[i];
    }
    forall i | hi <= i < |s| ensures s[i].freq in fs[n + 1..] {
      assert s[i].freq > f && s[i].freq in fs[n..];
    }
  }

  /** While items are left, frequencies are left. */
  lemma SplitMore<K, V>(s: seq<Item<K, V>>, fs: seq<int>, n: nat, lo: nat)
    requires n <= |fs| && lo <= |s| && Split(s, fs, n, lo)
    ensures lo < |s| ==> n < |fs|
  {
    if lo < |s| {
      assert s[lo].freq in fs[n..];
    }
  }

  lemma {:induction false} AtFreqRange<K, V>(s: seq<Item<K, V>>, f: int)
    ensures forall i :: 0 <= i < |AtFreq(s, f)| ==> AtFreq(s, f)[i].freq == f
  {
    if s != [] {
      AtFreqRange(s[1..], f);
    }
  }
}
