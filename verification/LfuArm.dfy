/** The LFU as an arm: it meets the contract the cache relies on, on its order and on the heap. */
module LfuArm {
  import opened Options
  import opened ArmContract
  import opened LfuOrder
  import opened Contents
  import Lfu

  /** What a caller of the LFU sees. */
  function Entries<K(==), V>(s: seq<Item<K, V>>): map<K, V> {
    if s == [] then map[] else Entries(s[1..])[s[0].key := s[0].value]
  }

  lemma {:induction false} EntriesFind<K(!new), V>(s: seq<Item<K, V>>, k: K)
    ensures Lookup(Entries(s), k) == match Find(s, k) case None => None case Some(it) => Some(it.value)
  {
    if s != [] {
      EntriesFind(s[1..], k);
    }
  }

  lemma EntriesAll<K(!new), V>(s: seq<Item<K, V>>)
    ensures forall k :: k in Entries(s) <==> Find(s, k).Some?
    ensures forall k :: k in Entries(s) ==> Entries(s)[k] == Find(s, k).value.value
  {
    forall k ensures k in Entries(s) <==> Find(s, k).Some?
             ensures k in Entries(s) ==> Entries(s)[k] == Find(s, k).value.value
    {
      EntriesFind(s, k);
    }
  }

  lemma EntriesCount<K(!new), V>(s: seq<Item<K, V>>)
    requires Unique(s)
    ensures |Entries(s)| == |s|
  {
    EntriesAll(s);
    CountKeys(s, Entries(s).Keys);
  }

  /** Using a key changes at most its value. */
  lemma UseIsWrite<K(!new), V>(o: Order<K, V>, k: K, v: V)
    requires LfuOrder.Valid(o) && Find(o.items, k).Some?
    ensures Entries(Use(o, k, v).items) == Entries(o.items)[k := v]
  {
    hide InsertNewest, RemoveKey;
    EntriesAll(o.items);
    EntriesAll(Use(o, k, v).items);
    forall j ensures Find(Use(o, k, v).items, j) ==
                     if j == k then Some(Item(k, v, Find(o.items, k).value.freq + 1, o.clock)) else Find(o.items, j)
    {
      UseKeepsValid(o, k, v);
      RemoveKeeps(o.items, k, o.clock);
      RemoveFind(o.items, k, j);
      InsertFind(RemoveKey(o.items, k), Item(k, v, Find(o.items, k).value.freq + 1, o.clock), j);
    }
  }

  /** Storing a new key drops at most the head of the order. */
  lemma NewKeyIsWrite<K(!new), V>(o: Order<K, V>, k: K, v: V)
    requires LfuOrder.Valid(o) && o.size > 0 && Find(o.items, k).None?
    ensures Entries(Add(o, k, v).items) ==
            Entries(if Full(o) then o.items[1..] else o.items)[k := v]
  {
    var room := if Full(o) then o.items[1..] else o.items;
    FindNone(o.items, k);
    FindNone(room, k);
    hide InsertNewest;
    EntriesAll(room);
    EntriesAll(InsertNewest(room, Item(k, v, 1, o.clock)));
    forall j ensures Find(InsertNewest(room, Item(k, v, 1, o.clock)), j) ==
                     if j == k then Some(Item(k, v, 1, o.clock)) else Find(room, j)
    {
      InsertFind(room, Item(k, v, 1, o.clock), j);
    }
  }

  lemma SuffixWithin<K(!new), V>(s: seq<Item<K, V>>, n: nat)
    requires Unique(s) && n <= |s|
    ensures Within(Entries(s[n..]), Entries(s))
  {
    EntriesAll(s);
    EntriesAll(s[n..]);
    forall k | k in Entries(s[n..]) ensures Find(s[n..], k) == Find(s, k) {
      FindNone(s[n..], k);
      var i :| 0 <= i < |s[n..]| && s[n..][i] == Find(s[n..], k).value && s[n..][i].key == k;
      FindUnique(s, n + i);
    }
  }

  /** Add is a steady write, and reports an eviction exactly when an entry goes. */
  lemma AddMeetsContract<K(!new), V>(o: Order<K, V>, k: K, v: V)
    requires LfuOrder.Valid(o)
    ensures AddStep(Entries(o.items), Entries(Add(o, k, v).items), k, v)
    ensures SteadyAdd(Entries(o.items), Entries(Add(o, k, v).items), k, v, o.size)
    ensures Evicts(o, k) <==> Drops(Entries(o.items), Entries(Add(o, k, v).items))
  {
    EntriesCount(o.items);
    EntriesFind(o.items, k);
    if o.size > 0 {
      if Find(o.items, k).Some? {
        UseIsWrite(o, k, v);
      } else {
        NewKeyIsWrite(o, k, v);
        SuffixWithin(o.items, if Full(o) then 1 else 0);
        if Full(o) {
          HeadGoes(o, k);
        }
      }
    }
  }

  /** When Add reports an eviction. */
  predicate Evicts<K(==), V>(o: Order<K, V>, k: K) {
    o.size > 0 && Find(o.items, k).None? && Full(o)
  }

  /** Without its head, an order shows all it showed but the head's key. */
  lemma HeadGoes<K(!new), V>(o: Order<K, V>, k: K)
    requires LfuOrder.Valid(o) && o.items != [] && Find(o.items, k).None?
    ensures o.items[0].key in Entries(o.items) && o.items[0].key != k
    ensures Entries(o.items[1..]) == Entries(o.items) - {o.items[0].key}
  {
    EntriesAll(o.items[1..]);
    EntriesFind(o.items, o.items[0].key);
    FindNone(o.items[1..], o.items[0].key);
    FindNone(o.items, k);
  }

  /** Every resident key, once. */
  lemma KeysMeetContract<K(!new), V>(o: Order<K, V>)
    requires LfuOrder.Valid(o)
    ensures NoDuplicates(KeysOf(o.items)) && forall k :: k in KeysOf(o.items) <==> k in Entries(o.items)
  {
    forall k ensures k in KeysOf(o.items) <==> k in Entries(o.items) {
      EntriesFind(o.items, k);
      FindNone(o.items, k);
      if k in Entries(o.items) {
        var i :| 0 <= i < |o.items| && o.items[i].key == k;
        assert KeysOf(o.items)[i] == k;
      }
    }
  }

  /**
   Mirroring the Add of a key into a full source evicts its head. The window loses a key
   still to be migrated exactly when that head is one: pending, and not yet active.
   */
  lemma MirrorLosesPending<K(!new), V>(act: map<K, V>, o: Order<K, V>, pending: set<K>, key: K, zero: V)
    requires LfuOrder.Valid(o)
    ensures var before, after := Merge(act, Entries(o.items), pending),
                                 Merge(act, Entries(Add(o, key, zero).items), pending - {key});
      (exists k :: k != key && k in before && k !in after) <==>
        (Evicts(o, key) && o.items[0].key in pending && o.items[0].key !in act)
  {
    EntriesFind(o.items, key);
    AddMeetsContract(o, key, zero);
    var before := Merge(act, Entries(o.items), pending);
    var after := Merge(act, Entries(Add(o, key, zero).items), pending - {key});
    if Evicts(o, key) {
      HeadGoes(o, key);
      NewKeyIsWrite(o, key, zero);
      var head := o.items[0].key;
      assert head in pending && head !in act ==> head in before && head !in after;
    } else if o.size > 0 {
      EntriesCount(o.items);
      assert Entries(Add(o, key, zero).items) == Entries(o.items)[key := zero];
    }
  }

  /** Get changes nothing a caller sees. */
  lemma GetMeetsContract<K(!new), V>(o: Order<K, V>, k: K)
    requires LfuOrder.Valid(o)
    ensures Entries(Get(o, k).items) == Entries(o.items) && Get(o, k).size == o.size
  {
    EntriesFind(o.items, k);
    if Find(o.items, k).Some? {
      UseIsWrite(o, k, Find(o.items, k).value.value);
    }
  }

  lemma RemoveMeetsContract<K(!new), V>(o: Order<K, V>, k: K)
    requires LfuOrder.Valid(o)
    ensures Entries(Remove(o, k).items) == Entries(o.items) - {k}
  {
    hide RemoveKey;
    EntriesAll(o.items);
    EntriesAll(RemoveKey(o.items, k));
    forall j ensures Find(RemoveKey(o.items, k), j) == if j == k then None else Find(o.items, j) {
      RemoveFind(o.items, k, j);
    }
  }

  /** Resize drops entries only when they no longer fit, and leaves no more than fit. */
  lemma ResizeMeetsContract<K(!new), V>(o: Order<K, V>, size: int)
    requires LfuOrder.Valid(o)
    ensures LfuOrder.Valid(Resize(o, size))
    ensures Within(Entries(Resize(o, size).items), Entries(o.items))
    ensures |Entries(o.items)| <= size ==> Entries(Resize(o, size).items) == Entries(o.items)
    ensures |Entries(o.items)| == |Entries(Resize(o, size).items)| + Excess(o, size)
  {
    SuffixWithin(o.items, Excess(o, size));
    EntriesCount(o.items);
    EntriesCount(Resize(o, size).items);
  }

  /** There are such losses: a source of size one, the key it holds still to be migrated, a new key mirrored. */
  lemma MirrorLosesOne<K(!new), V>(kept: K, v: V, key: K, zero: V) returns (o: Order<K, V>)
    requires key != kept
    ensures LfuOrder.Valid(o) && Entries(o.items) == map[kept := v]
    ensures Lookup(Merge(map[], Entries(o.items), {kept}), kept) == Some(v)
    ensures kept !in Merge(map[], Entries(Add(o, key, zero).items), {kept} - {key})
  {
    o := Order([Item(kept, v, 1, 0)], 1, 1);
    assert o.items[1..] == [] && Find(o.items, key).None?;
    NewKeyIsWrite(o, key, zero);
    assert Entries(Add(o, key, zero).items) == map[key := zero];
  }

  /** The wrapper that makes a policy of the LFU, counting hits and misses. */
  class LfuPolicy<K(==, 0, !new), V(0)> {
    const cacher: Lfu.Lfu<K, V>
    var size: int
    var hits: nat
    var misses: nat

    ghost predicate Valid()
      reads this, cacher, cacher.Repr
    {
      cacher.Valid() && cacher.size == size && this !in cacher.Repr
    }

    /** What the arm contract calls the entries. */
    ghost function Shown(): map<K, V>
      reads cacher
    {
      Entries(cacher.model.items)
    }

    constructor (cacher: Lfu.Lfu<K, V>, size: int)
      requires cacher.Valid() && cacher.size == size
      ensures Valid() && this.cacher == cacher && this.size == size && hits == 0 && misses == 0
    {
      this.cacher, this.size := cacher, size;
      hits, misses := 0, 0;
    }

    method Add(key: K, value: V) returns (evicted: bool)
      requires Valid()
      modifies cacher, cacher.Repr
      ensures Valid() && fresh(cacher.Repr - old(cacher.Repr))
      ensures AddStep(old(Shown()), Shown(), key, value)
      ensures SteadyAdd(old(Shown()), Shown(), key, value, size)
      ensures evicted <==> Drops(old(Shown()), Shown())
    {
      hide AddStep, SteadyAdd, Drops;
      AddMeetsContract(cacher.model, key, value);
      evicted := cacher.Add(key, value);
    }

    method Get(key: K) returns (r: Option<V>)
      requires Valid()
      modifies this`hits, this`misses, cacher, cacher.Repr
      ensures Valid() && fresh(cacher.Repr - old(cacher.Repr))
      ensures Shown() == old(Shown()) && r == Lookup(Shown(), key)
      ensures hits == old(hits) + (if r.Some? then 1 else 0)
      ensures misses == old(misses) + (if r.Some? then 0 else 1)
    {
      hide LfuOrder.Get, Entries, Lfu.Lfu.Shape, Lfu.Lfu.Valued, LfuOrder.Valid, Least;
      GetMeetsContract(cacher.model, key);
      EntriesFind(cacher.model.items, key);
      r := cacher.Get(key);
      if r.Some? {
        hits := hits + 1;
      } else {
        misses := misses + 1;
      }
    }

    method Peek(key: K) returns (r: Option<V>)
      requires Valid()
      ensures r == Lookup(Shown(), key)
    {
      EntriesFind(cacher.model.items, key);
      r := cacher.Peek(key);
    }

    method Keys() returns (keys: array<K>)
      requires Valid()
      ensures fresh(keys) && NoDuplicates(keys[..]) && forall k :: k in keys[..] <==> k in Shown()
    {
      KeysMeetContract(cacher.model);
      keys := cacher.Keys();
    }

    method Remove(key: K) returns (present: bool)
      requires Valid()
      modifies cacher, cacher.Repr
      ensures Valid() && cacher.Repr == old(cacher.Repr)
      ensures Shown() == old(Shown()) - {key} && (present <==> key in old(Shown()))
    {
      RemoveMeetsContract(cacher.model, key);
      EntriesFind(cacher.model.items, key);
      present := cacher.Remove(key);
    }

    method Purge()
      requires Valid()
      modifies cacher
      ensures Valid() && cacher.Repr == old(cacher.Repr) && Shown() == map[]
    {
      cacher.Purge();
    }

    method Resize(size: int) returns (evicted: nat)
      requires Valid()
      modifies this`size, cacher, cacher.Repr
      ensures Valid() && cacher.Repr == old(cacher.Repr) && this.size == size
      ensures Within(Shown(), old(Shown())) && (|old(Shown())| <= size ==> Shown() == old(Shown()))
      ensures evicted == |old(Shown())| - |Shown()| && |Shown()| <= if size < 0 then 0 else size
    {
      ResizeMeetsContract(cacher.model, size);
      evicted := cacher.Resize(size);
      EntriesCount(cacher.model.items);
      this.size := size;
    }

    method Len() returns (n: nat)
      requires Valid()
      ensures n == |Shown()|
    {
      EntriesCount(cacher.model.items);
      n := cacher.Len();
    }

    method GetStats() returns (s: Stats)
      ensures s == Stats(hits, misses)
    {
      s := Stats(hits, misses);
    }

    method ResetStats()
      modifies this`hits, this`misses
      ensures hits == 0 && misses == 0
    {
      hits, misses := 0, 0;
    }
  }
}
