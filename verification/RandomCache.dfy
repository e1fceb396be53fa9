/**
 The random-eviction cache: a key slice, its inverse index and the values, with
 O(1) removal by swapping the last key into the freed slot. Draws are arbitrary.
 */
module RandomCache {
  import opened Options
  import opened ArmContract

  class RandomCache<K(==), V> {
    var data: map<K, V>
    var keys: seq<K>
    var index: map<K, int>
    var size: int

    /** The index is the exact inverse of the key slice, and both cover the data. */
    ghost predicate Consistent()
      reads this
    {
      && data.Keys == index.Keys
      && (forall k :: k in index ==> 0 <= index[k] < |keys| && keys[index[k]] == k)
      && (forall i :: 0 <= i < |keys| ==> keys[i] in index && index[keys[i]] == i)
    }

    ghost predicate Valid()
      reads this
    {
      Consistent() && size >= 0 && |keys| <= size
    }

    constructor (size: int)
      ensures Valid() && data == map[] && keys == [] && this.size == if size < 0 then 0 else size
    {
      data, keys, index := map[], [], map[];
      this.size := if size < 0 then 0 else size;
    }

    /** There are as many keys as entries, each once. */
    lemma Count()
      requires Consistent()
      ensures NoDuplicates(keys) && SetOf(keys) == data.Keys && |data| == |keys|
    {
      assert forall i, j :: 0 <= i < j < |keys| ==> index[keys[i]] != index[keys[j]];
      CountDistinct(keys);
    }

    /** Where the keys end up when slot is vacated. */
    ghost function SwapRemoved(s: seq<K>, slot: nat): seq<K>
      requires slot < |s|
    {
      s[slot := s[|s| - 1]][..|s| - 1]
    }

    /** Forgets the place of key; a key that is not tracked has none. */
    method UntrackLocked(key: K)
      requires data.Keys == index.Keys - {key}
      requires (forall k :: k in index ==> 0 <= index[k] < |keys| && keys[index[k]] == k)
      requires (forall i :: 0 <= i < |keys| ==> keys[i] in index && index[keys[i]] == i)
      modifies this`keys, this`index
      ensures Consistent()
      ensures keys == if key in old(index) then SwapRemoved(old(keys), old(index[key])) else old(keys)
    {
      if key !in index {
        return;
      }
      var slot := index[key];
      var last := |keys| - 1;
      if slot != last {
        var moved := keys[last];
        keys := keys[slot := moved];
        index := index[moved := slot];
      }
      keys := keys[..last];
      index := index - {key};
    }

    method RemoveLocked(key: K) returns (present: bool)
      requires Consistent()
      modifies this`data, this`keys, this`index
      ensures Consistent()
      ensures present <==> key in old(data)
      ensures data == old(data) - {key} && |keys| == |old(keys)| - (if present then 1 else 0)
    {
      present := key in data;
      if !present {
        assert data - {key} == data;
        return;
      }
      data := data - {key};
      UntrackLocked(key);
    }

    /** Evicts arbitrary entries until at most limit are left, returning how many. */
    method EvictTo(limit: nat) returns (evicted: nat)
      requires Consistent()
      modifies this`data, this`keys, this`index
      ensures Consistent() && Within(data, old(data))
      ensures evicted == if |old(keys)| > limit then |old(keys)| - limit else 0
      ensures |keys| == |old(keys)| - evicted
      ensures evicted == 0 ==> data == old(data)
    {
      evicted := 0;
      while |keys| > limit
        invariant Consistent() && Within(data, old(data))
        invariant |keys| + evicted == |old(keys)| && (evicted > 0 ==> |keys| >= limit)
        invariant evicted == 0 ==> data == old(data)
      {
        var draw :| 0 <= draw < |keys|;
        var _ := RemoveLocked(keys[draw]);
        evicted := evicted + 1;
      }
    }

    /** trackLocked and the write of the value: key is new and there is room for it. */
    method Insert(key: K, value: V)
      requires Consistent() && key !in data && |keys| < size
      modifies this`data, this`keys, this`index
      ensures Valid() && data == old(data)[key := value] && keys == old(keys) + [key]
    {
      index := index[key := |keys|];
      keys := keys + [key];
      data := data[key := value];
    }

    /** Some entry is gone if and only if the count of those gone is not zero. */
    lemma DropsCounted(before: map<K, V>, after: map<K, V>)
      ensures Drops(before, after) <==> |before.Keys - after.Keys| > 0
    {
      var gone := before.Keys - after.Keys;
      assert forall k :: k in before && k !in after <==> k in gone;
    }

    /** The key written stays, and at most one other entry goes. */
    method Add(key: K, value: V) returns (evicted: bool)
      requires Valid()
      modifies this
      ensures Valid() && size == old(size)
      ensures AddStep(old(data), data, key, value) && SteadyAdd(old(data), data, key, value, size)
      ensures evicted <==> Drops(old(data), data)
      ensures evicted <==> size > 0 && key !in old(data) && |old(data)| == size
      ensures |old(data).Keys - data.Keys| == if evicted then 1 else 0
    {
      Count();
      hide Drops;
      if key in data {
        data := data[key := value];
        assert data.Keys == old(data).Keys;
        assert old(data).Keys - data.Keys == {};
        DropsCounted(old(data), data);
        return false;
      }
      if size <= 0 {
        assert old(data).Keys - data.Keys == {};
        DropsCounted(data, data);
        return false;
      }
      evicted := AddNew(key, value);
      DropsCounted(old(data), data);
    }

    method AddNew(key: K, value: V) returns (evicted: bool)
      requires Valid() && key !in data && size > 0
      modifies this`data, this`keys, this`index
      ensures Valid()
      ensures AddStep(old(data), data, key, value) && SteadyAdd(old(data), data, key, value, size)
      ensures evicted <==> |old(data)| == size
      ensures |old(data).Keys - data.Keys| == if evicted then 1 else 0
    {
      hide Consistent, NoDuplicates, SetOf;
      Count();
      var n := EvictTo(size - 1);
      Count();
      ghost var kept := data;
      LostKeys(old(data).Keys, kept.Keys, key);
      Insert(key, value);
      assert data.Keys == kept.Keys + {key};
      evicted := n > 0;
    }

    /** How many keys a shrunk set has lost, whatever new key is added to it. */
    lemma LostKeys(before: set<K>, kept: set<K>, key: K)
      requires kept <= before && key !in before
      ensures |before - (kept + {key})| == |before| - |kept|
    {
      assert before - (kept + {key}) == before - kept;
    }

    method Get(key: K) returns (r: Option<V>)
      requires Valid()
      ensures r == Lookup(data, key)
    {
      r := Lookup(data, key);
    }

    method Remove(key: K) returns (present: bool)
      requires Valid()
      modifies this
      ensures Valid() && size == old(size) && data == old(data) - {key} && (present <==> key in old(data))
    {
      present := RemoveLocked(key);
    }

    method Purge()
      modifies this
      requires Valid()
      ensures Valid() && size == old(size) && data == map[]
    {
      data, keys, index := map[], [], map[];
    }

    method Keys() returns (ks: seq<K>)
      requires Valid()
      ensures NoDuplicates(ks) && forall k :: k in ks <==> k in data
    {
      Count();
      assert forall k :: k in SetOf(keys) <==> k in keys;
      ks := keys;
    }

    /** Every value, in the order of Keys. */
    method Values() returns (vs: seq<V>)
      requires Valid()
      ensures |vs| == |keys| && forall i :: 0 <= i < |vs| ==> vs[i] == data[keys[i]]
    {
      vs := [];
      for i := 0 to |keys|
        invariant |vs| == i && forall j :: 0 <= j < i ==> vs[j] == data[keys[j]]
      {
        vs := vs + [data[keys[i]]];
      }
    }

    /** Evicts exactly what no longer fits. */
    method Resize(size: int) returns (evicted: nat)
      requires Valid()
      modifies this
      ensures Valid() && this.size == (if size < 0 then 0 else size) && Within(data, old(data))
      ensures evicted == if |old(data)| > this.size then |old(data)| - this.size else 0
      ensures |data| == |old(data)| - evicted
      ensures |old(data)| <= size ==> data == old(data)
    {
      Count();
      this.size := if size < 0 then 0 else size;
      evicted := EvictTo(this.size);
      Count();
    }
  }
}
