/**
 What the cache may rely on about an arm, with eviction left free: an arm may drop
 entries whenever it likes, but it never invents a key or changes a value by itself.
 */
module ArmContract {
  import opened Options

  /** A policy type; number 0 names no policy. */
  datatype PolicyType = PolicyType(number: nat)

  const UNDEFINED := PolicyType(0)

  datatype Stats = Stats(hits: nat, misses: nat) {
    function Total(): nat { hits + misses }
  }

  const NO_STATS := Stats(0, 0)

  function Lookup<K, V>(m: map<K, V>, k: K): Option<V> {
    if k in m then Some(m[k]) else None
  }

  /** Entries may be gone, nothing else changed. */
  ghost predicate Within<K, V>(after: map<K, V>, before: map<K, V>) {
    forall k :: k in after ==> k in before && after[k] == before[k]
  }

  lemma WithinSelf<K, V>(m: map<K, V>)
    ensures Within(m, m) && Within(map[], m)
  {
  }

  lemma WithinTrans<K, V>(a: map<K, V>, b: map<K, V>, c: map<K, V>)
    requires Within(a, b) && Within(b, c)
    ensures Within(a, c)
  {
  }

  /** Entries within m over the same keys are all of m. */
  lemma WithinWhole<K, V>(a: map<K, V>, m: map<K, V>)
    requires Within(a, m) && a.Keys == m.Keys
    ensures a == m
  {
  }

  /** A write of k: k holds v if it is resident, other entries may be gone. */
  ghost predicate AddStep<K, V>(before: map<K, V>, after: map<K, V>, k: K, v: V) {
    forall j :: j in after ==> if j == k then after[j] == v else j in before && after[j] == before[j]
  }

  /** A write to an arm that evicts only to make room: the key written stays, and
      nothing else goes unless a new key arrives at a full arm. */
  ghost predicate SteadyAdd<K, V>(before: map<K, V>, after: map<K, V>, k: K, v: V, cap: int) {
    && (cap > 0 ==> k in after)
    && (k in before || |before| < cap ==> after == before[k := v])
  }

  /** Some entry is gone. */
  ghost predicate Drops<K, V>(before: map<K, V>, after: map<K, V>) {
    exists k :: k in before && k !in after
  }

  lemma SubsetCount<K>(a: set<K>, b: set<K>)
    requires a <= b
    ensures |a| <= |b|
  {
    var rest := b - a;
    assert b == a + rest;
  }

  /** The sum of what each arm reports. */
  ghost function Summed(m: map<PolicyType, nat>): nat
    decreases |m|
  {
    if m == map[] then 0
    else
      var p :| p in m;
      m[p] + Summed(m - {p})
  }

  lemma {:induction false} SummedAny(m: map<PolicyType, nat>, p: PolicyType)
    requires p in m
    ensures Summed(m) == m[p] + Summed(m - {p})
    decreases |m|
  {
    var q :| q in m && Summed(m) == m[q] + Summed(m - {q});
    if q != p {
      SummedAny(m - {q}, p);
      SummedAny(m - {p}, q);
      assert m - {q} - {p} == m - {p} - {q};
    }
  }

  lemma NothingSummed()
    ensures Summed(map[]) == 0
  {
  }

  lemma SummedMore(m: map<PolicyType, nat>, p: PolicyType, n: nat)
    requires p !in m
    ensures Summed(m[p := n]) == Summed(m) + n
  {
    SummedAny(m[p := n], p);
    assert m[p := n] - {p} == m;
  }

  lemma {:induction false} SummedDifference(a: map<PolicyType, nat>, b: map<PolicyType, nat>,
                                            lost: map<PolicyType, nat>)
    requires forall p :: (p in a <==> p in lost) && (p in b <==> p in lost)
    requires forall p :: p in lost ==> lost[p] + b[p] == a[p]
    ensures Summed(lost) + Summed(b) == Summed(a)
    decreases |lost|
  {
    hide Summed;
    if lost == map[] {
      NothingSummed();
      assert a == map[] && b == map[];
    } else {
      var p :| p in lost;
      SummedAny(a, p);
      SummedAny(b, p);
      SummedAny(lost, p);
      SummedDifference(a - {p}, b - {p}, lost - {p});
    }
  }

  ghost predicate NoDuplicates<K>(s: seq<K>) {
    forall i, j :: 0 <= i < j < |s| ==> s[i] != s[j]
  }

  function SetOf<K>(s: seq<K>): set<K> { set k | k in s }

  lemma {:induction false} CountDistinct<K>(s: seq<K>)
    requires NoDuplicates(s)
    ensures |SetOf(s)| == |s|
  {
    if s != [] {
      var init, last := s[..|s| - 1], s[|s| - 1];
      CountDistinct(init);
      assert SetOf(s) == SetOf(init) + {last};
      assert last !in SetOf(init);
    }
  }

  lemma PrefixSet<K>(s: seq<K>, i: nat)
    requires NoDuplicates(s) && i < |s|
    ensures s[i] !in SetOf(s[..i]) && SetOf(s[..i + 1]) == SetOf(s[..i]) + {s[i]}
    ensures |SetOf(s[..i])| == i < |SetOf(s)|
  {
    CountDistinct(s[..i]);
    CountDistinct(s);
  }

  /**
   An arm with demonic eviction. A `steady` arm, such as LRU, LFU or random, drops
   entries only to make room and keeps the key just written; any other may drop
   entries at any call, as an expiring or asynchronous cache does.
   */
  class Arm<K(==), V> {
    const kind: PolicyType
    const steady: bool
    var entries: map<K, V>
    var cap: int
    var hits: nat
    var misses: nat

    constructor (kind: PolicyType, steady: bool, entries: map<K, V>, cap: int)
      ensures this.kind == kind && this.steady == steady && this.entries == entries && this.cap == cap
      ensures hits == 0 && misses == 0
    {
      this.kind, this.steady, this.entries, this.cap := kind, steady, entries, cap;
      hits, misses := 0, 0;
    }

    /** The requests counted since the last reset. */
    ghost function Total(): nat
      reads this`hits, this`misses
    {
      hits + misses
    }

    /** Entries an arm that is not steady loses on its own. */
    method Decay()
      modifies this`entries
      ensures Within(entries, old(entries)) && (steady ==> entries == old(entries))
    {
      var lost: set<K> := *;
      if !steady {
        entries := entries - lost;
      }
    }

    method Add(key: K, value: V) returns (evicted: bool)
      modifies this`entries
      ensures AddStep(old(entries), entries, key, value)
      ensures steady ==>
        SteadyAdd(old(entries), entries, key, value, cap) && (evicted <==> Drops(old(entries), entries))
    {
      evicted := *;
      var lost: set<K> := *;
      var room := key in entries || |entries| < cap;
      var before := entries;
      var gives := if !steady then lost else if room then {} else if cap > 0 then lost - {key} else lost;
      entries := entries[key := value] - gives;
      if steady {
        var gone := before.Keys - entries.Keys;
        evicted := gone != {};
        assert forall k :: k in before && k !in entries <==> k in gone;
      }
    }

    method Get(key: K) returns (r: Option<V>)
      modifies this`entries, this`hits, this`misses
      ensures Within(entries, old(entries)) && (steady ==> entries == old(entries))
      ensures r == Lookup(entries, key)
      ensures hits == old(hits) + (if r.Some? then 1 else 0)
      ensures misses == old(misses) + (if r.Some? then 0 else 1)
    {
      Decay();
      r := Lookup(entries, key);
      if r.Some? {
        hits := hits + 1;
      } else {
        misses := misses + 1;
      }
    }

    method Peek(key: K) returns (r: Option<V>)
      modifies this`entries
      ensures Within(entries, old(entries)) && (steady ==> entries == old(entries))
      ensures r == Lookup(entries, key)
    {
      Decay();
      r := Lookup(entries, key);
    }

    /** Every resident key once, in the arm's own order. */
    method Keys() returns (keys: seq<K>)
      modifies this`entries
      ensures Within(entries, old(entries)) && (steady ==> entries == old(entries))
      ensures NoDuplicates(keys) && forall k :: k in keys <==> k in entries
    {
      Decay();
      keys := [];
      var todo := entries.Keys;
      while todo != {}
        invariant todo <= entries.Keys && NoDuplicates(keys)
        invariant forall k :: k in keys <==> k in entries && k !in todo
      {
        var k :| k in todo;
        todo := todo - {k};
        keys := keys + [k];
      }
    }

    method Remove(key: K) returns (present: bool)
      modifies this`entries
      ensures Within(entries, old(entries)) && key !in entries
      ensures steady ==> entries == old(entries) - {key} && (present <==> key in old(entries))
    {
      Decay();
      present := key in entries;
      entries := entries - {key};
    }

    method Purge()
      modifies this`entries
      ensures entries == map[]
    {
      entries := map[];
    }

    /** A steady arm keeps everything that fits, and no more than fits. */
    method Resize(size: int) returns (evicted: nat)
      modifies this`entries, this`cap
      ensures Within(entries, old(entries)) && cap == size
      ensures steady && |old(entries)| <= size ==> entries == old(entries)
      ensures steady ==> evicted == |old(entries)| - |entries| && |entries| <= if size < 0 then 0 else size
    {
      evicted := *;
      var before := entries;
      if !steady {
        Decay();
      } else if |entries| > size {
        var nothing: set<K> := {};
        assert nothing <= before.Keys && |nothing| == 0;
        var kept: set<K> :| kept <= before.Keys && |kept| <= if size < 0 then 0 else size;
        entries := map k | k in kept :: before[k];
        assert entries.Keys == kept;
      }
      SubsetCount(entries.Keys, before.Keys);
      if steady {
        evicted := |before| - |entries|;
      }
      cap := size;
    }

    /** Exact for steady arms; others may report an approximation. */
    method Len() returns (n: nat)
      ensures steady ==> n == |entries|
    {
      n := *;
      if steady {
        n := |entries|;
      }
    }

    method GetStats() returns (s: Stats)
      ensures s == Stats(hits, misses)
    {
      s := Stats(hits, misses);
    }

    method ResetStats()
      modifies this`hits, this`misses
      ensures hits == 0 && misses == 0
    {
      hits, misses := 0, 0;
    }
  }
}
