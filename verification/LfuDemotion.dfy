/**
 Demotion of an arm, run on the LFU: every sampled key is rewritten to the zero
 value in Keys() order, every other key is removed, and the arm is shrunk.
 */
module LfuDemotion {
  import opened Options
  import opened LfuOrder
  import Lfu

  /** The rewriting loop, over the keys still to visit. */
  function Rewrite<K(==), V>(o: Order<K, V>, keys: seq<K>, sampled: K -> bool, zero: V): Order<K, V>
    decreases |keys|
  {
    if keys == [] then o
    else Rewrite(if sampled(keys[0]) then Add(o, keys[0], zero) else Remove(o, keys[0]), keys[1..], sampled, zero)
  }

  function Demoted<K(==), V>(o: Order<K, V>, sampled: K -> bool, zero: V, shadowCap: int): Order<K, V> {
    var rewritten := Rewrite(o, KeysOf(o.items), sampled, zero);
    if shadowCap > 0 then Resize(rewritten, shadowCap) else rewritten
  }

  /** The items of a sampled key, in order. */
  function Survivors<K, V>(s: seq<Item<K, V>>, sampled: K -> bool): seq<Item<K, V>> {
    if s == [] then [] else (if sampled(s[0].key) then [s[0]] else []) + Survivors(s[1..], sampled)
  }

  /** Used once more, with the zero value. */
  function Bumped<K, V>(s: seq<Item<K, V>>, zero: V, clock: nat): seq<Item<K, V>> {
    seq(|s|, i requires 0 <= i < |s| => Item(s[i].key, zero, s[i].freq + 1, clock + i))
  }

  ghost predicate ByFreq<K, V>(s: seq<Item<K, V>>) {
    forall i, j :: 0 <= i < j < |s| ==> s[i].freq <= s[j].freq
  }

  ghost predicate Lacks<K, V>(s: seq<Item<K, V>>, k: K) {
    forall i :: 0 <= i < |s| ==> s[i].key != k
  }

  /** s after the items of xs have been inserted one by one. */
  function InsertAll<K, V>(s: seq<Item<K, V>>, xs: seq<Item<K, V>>): seq<Item<K, V>> {
    if xs == [] then s else InsertNewest(InsertAll(s, xs[..|xs| - 1]), xs[|xs| - 1])
  }

  lemma {:induction false} InsertByFreq<K, V>(s: seq<Item<K, V>>, it: Item<K, V>)
    requires ByFreq(s)
    ensures ByFreq(InsertNewest(s, it))
  {
    hide InsertNewest;
    var p := InsertSplit(s, it);
  }

  lemma {:induction false} InsertAllByFreq<K, V>(s: seq<Item<K, V>>, xs: seq<Item<K, V>>)
    requires ByFreq(s)
    ensures ByFreq(InsertAll(s, xs))
  {
    if xs != [] {
      InsertAllByFreq(s, xs[..|xs| - 1]);
      InsertByFreq(InsertAll(s, xs[..|xs| - 1]), xs[|xs| - 1]);
    }
  }

  /** Inserting one key and removing another commute. */
  lemma {:induction false} RemovePastInsert<K, V>(s: seq<Item<K, V>>, it: Item<K, V>, k: K)
    requires ByFreq(s) && it.key != k
    ensures RemoveKey(InsertNewest(s, it), k) == InsertNewest(RemoveKey(s, k), it)
    ensures Find(InsertNewest(s, it), k) == Find(s, k)
  {
    if s == [] {
      assert [it][1..] == [];
    } else if s[0].freq <= it.freq {
      RemovePastInsert(s[1..], it, k);
      assert InsertNewest(s, it)[1..] == InsertNewest(s[1..], it);
    } else {
      assert ([it] + s)[1..] == s;
      if Find(s, k).Some? {
        var p := RemoveSplit(s, k);
      } else {
        FindNone(s, k);
      }
    }
  }

  lemma {:induction false} RemovePastAll<K, V>(s: seq<Item<K, V>>, xs: seq<Item<K, V>>, k: K)
    requires ByFreq(s) && Lacks(xs, k)
    ensures RemoveKey(InsertAll(s, xs), k) == InsertAll(RemoveKey(s, k), xs)
    ensures Find(InsertAll(s, xs), k) == Find(s, k)
  {
    if xs != [] {
      var init := xs[..|xs| - 1];
      RemovePastAll(s, init, k);
      InsertAllByFreq(s, init);
      RemovePastInsert(InsertAll(s, init), xs[|xs| - 1], k);
    }
  }

  /** Items already in order, inserted one by one into nothing, stay in order. */
  lemma {:induction false} InsertAllAlone<K, V>(xs: seq<Item<K, V>>)
    requires ByFreq(xs)
    ensures InsertAll([], xs) == xs
  {
    if xs != [] {
      var init := xs[..|xs| - 1];
      InsertAllAlone(init);
      InsertLast(init, xs[|xs| - 1]);
      assert xs == init + [xs[|xs| - 1]];
    }
  }

  lemma {:induction false} InsertLast<K, V>(s: seq<Item<K, V>>, it: Item<K, V>)
    requires forall i :: 0 <= i < |s| ==> s[i].freq <= it.freq
    ensures InsertNewest(s, it) == s + [it]
  {
    if s != [] {
      InsertLast(s[1..], it);
      assert s + [it] == [s[0]] + (s[1..] + [it]);
    }
  }

  /** Two ordered runs, the second made of keys the first lacks, used at most once more than any still to visit. */
  ghost predicate Runs<K, V>(todo: seq<Item<K, V>>, done: seq<Item<K, V>>) {
    && ByFreq(todo) && ByFreq(done) && Unique(todo)
    && (forall i :: 0 <= i < |todo| ==> Lacks(done, todo[i].key))
    && (forall i, j :: 0 <= i < |done| && 0 <= j < |todo| ==> done[i].freq <= todo[j].freq + 1)
  }

  /** The state of the loop: what is still to visit merged with what has been rewritten. */
  ghost predicate Midway<K, V>(o: Order<K, V>, todo: seq<Item<K, V>>, done: seq<Item<K, V>>) {
    o.size > 0 && o.items == InsertAll(todo, done) && Runs(todo, done)
  }

  lemma RunsOn<K, V>(todo: seq<Item<K, V>>, done: seq<Item<K, V>>, t: Item<K, V>)
    requires Runs(todo, done) && todo != [] && t.key == todo[0].key && t.freq == todo[0].freq + 1
    ensures Runs(todo[1..], done) && Runs(todo[1..], done + [t])
  {
    var rest := todo[1..];
    assert forall i :: 0 <= i < |rest| ==> rest[i] == todo[i + 1];
  }

  /** Visiting a sampled key. */
  lemma VisitSampled<K, V>(o: Order<K, V>, todo: seq<Item<K, V>>, done: seq<Item<K, V>>, zero: V)
    requires Midway(o, todo, done) && todo != []
    ensures var t := todo[0]; var o' := Add(o, t.key, zero);
      && Midway(o', todo[1..], done + [Item(t.key, zero, t.freq + 1, o.clock)])
      && o'.size == o.size && o'.clock == o.clock + 1
  {
    var t := todo[0];
    var t' := Item(t.key, zero, t.freq + 1, o.clock);
    RunsOn(todo, done, t');
    assert ByFreq(todo) && Lacks(done, t.key);
    RemovePastAll(todo, done, t.key);
    hide InsertNewest, ByFreq, Lacks, Unique, Runs;
    assert (done + [t'])[..|done|] == done;
  }

  /** Visiting a key outside the sample. */
  lemma VisitUnsampled<K, V>(o: Order<K, V>, todo: seq<Item<K, V>>, done: seq<Item<K, V>>)
    requires Midway(o, todo, done) && todo != []
    ensures Midway(Remove(o, todo[0].key), todo[1..], done)
  {
    RunsOn(todo, done, todo[0].(freq := todo[0].freq + 1));
    assert ByFreq(todo) && Lacks(done, todo[0].key);
    RemovePastAll(todo, done, todo[0].key);
    hide InsertNewest, ByFreq, Lacks, Unique, Runs;
  }

  lemma BumpedFirst<K, V>(t: Item<K, V>, s: seq<Item<K, V>>, zero: V, clock: nat, done: seq<Item<K, V>>)
    ensures done + [Item(t.key, zero, t.freq + 1, clock)] + Bumped(s, zero, clock + 1) ==
            done + Bumped([t] + s, zero, clock)
  {
  }

  lemma RewriteHead<K, V>(o: Order<K, V>, todo: seq<Item<K, V>>, sampled: K -> bool, zero: V)
    requires todo != []
    ensures
      var next := if sampled(todo[0].key) then Add(o, todo[0].key, zero) else Remove(o, todo[0].key);
      Rewrite(o, KeysOf(todo), sampled, zero) == Rewrite(next, KeysOf(todo[1..]), sampled, zero)
    ensures Survivors(todo, sampled) == (if sampled(todo[0].key) then [todo[0]] else []) + Survivors(todo[1..], sampled)
  {
    hide Add, Remove;
    assert KeysOf(todo)[1..] == KeysOf(todo[1..]);
  }

  lemma RewriteNothing<K, V>(o: Order<K, V>, done: seq<Item<K, V>>, sampled: K -> bool, zero: V)
    requires Midway(o, [], done)
    ensures Rewrite(o, KeysOf<K, V>([]), sampled, zero) == o
    ensures o.items == done + Bumped(Survivors([], sampled), zero, o.clock)
  {
    InsertAllAlone(done);
  }

  /** The loop turns "todo merged with done" into done followed by what it makes of todo. */
  lemma {:induction false} RewriteMerged<K, V>(o: Order<K, V>, todo: seq<Item<K, V>>, done: seq<Item<K, V>>,
                                               sampled: K -> bool, zero: V)
    requires Midway(o, todo, done)
    ensures var r := Rewrite(o, KeysOf(todo), sampled, zero);
      r.items == done + Bumped(Survivors(todo, sampled), zero, o.clock) && r.size == o.size
    decreases |todo|
  {
    hide Midway, Add, KeysOf, Bumped, Survivors, Rewrite;
    if todo == [] {
      RewriteNothing(o, done, sampled, zero);
    } else {
      var t, rest := todo[0], todo[1..];
      RewriteHead(o, todo, sampled, zero);
      if sampled(t.key) {
        VisitSampled(o, todo, done, zero);
        var t' := Item(t.key, zero, t.freq + 1, o.clock);
        RewriteMerged(Add(o, t.key, zero), rest, done + [t'], sampled, zero);
        BumpedFirst(t, Survivors(rest, sampled), zero, o.clock, done);
      } else {
        VisitUnsampled(o, todo, done);
        RewriteMerged(Remove(o, t.key), rest, done, sampled, zero);
        assert [] + Survivors(rest, sampled) == Survivors(rest, sampled);
      }
    }
  }

  /** The whole loop: every sampled item is used once more, in order. */
  lemma RewriteAll<K, V>(o: Order<K, V>, sampled: K -> bool, zero: V)
    requires LfuOrder.Valid(o)
    ensures Rewrite(o, KeysOf(o.items), sampled, zero).items == Bumped(Survivors(o.items, sampled), zero, o.clock)
  {
    if o.size > 0 {
      hide Rewrite, Survivors;
      assert forall i, j :: 0 <= i < j < |o.items| ==> Before(o.items[i], o.items[j]);
      RewriteMerged(o, o.items, [], sampled, zero);
      assert [] + Bumped(Survivors(o.items, sampled), zero, o.clock) ==
             Bumped(Survivors(o.items, sampled), zero, o.clock);
    }
  }

  /**
   Demotion preserves the eviction order: what is left is the last
   min(count, shadowCap) sampled keys in their old order, each used exactly once
   more, each with the zero value.
   */
  lemma DemotionKeepsOrder<K, V>(o: Order<K, V>, sampled: K -> bool, zero: V, shadowCap: int)
    requires LfuOrder.Valid(o)
    ensures var were := Survivors(o.items, sampled);
      var left := if 0 < shadowCap < |were| then shadowCap else |were|;
      var are := Demoted(o, sampled, zero, shadowCap).items;
      && KeysOf(are) == KeysOf(were)[|were| - left..]
      && (forall i :: 0 <= i < left ==>
            are[i].freq == were[|were| - left + i].freq + 1 && are[i].value == zero)
  {
    hide Rewrite, Survivors;
    RewriteAll(o, sampled, zero);
  }

  /** demoteLocked on a concrete LFU cache. */
  method Demote<K(==, 0), V(0)>(c: Lfu.Lfu<K, V>, sampled: K -> bool, zero: V, shadowCap: int)
    requires c.Valid()
    modifies c, c.Repr
    ensures c.Valid() && fresh(c.Repr - old(c.Repr))
    ensures c.model == Demoted(old(c.model), sampled, zero, shadowCap)
  {
    hide LfuOrder.Add, LfuOrder.Remove, KeysOf, LfuOrder.Valid, Lfu.Lfu.Shape, Lfu.Lfu.Valued;
    var arr := c.Keys();
    var keys := arr[..];
    var i := 0;
    while i < |keys|
      invariant i <= |keys| && c.Valid() && fresh(c.Repr - old(c.Repr))
      invariant Rewrite(c.model, keys[i..], sampled, zero) ==
                Rewrite(old(c.model), KeysOf(old(c.model).items), sampled, zero)
    {
      var key := keys[i];
      assert keys[i..][1..] == keys[i + 1..];
      if sampled(key) {
        var _ := c.Add(key, zero);
      } else {
        var _ := c.Remove(key);
      }
      i := i + 1;
    }
    if shadowCap > 0 {
      var _ := c.Resize(shadowCap);
    }
  }
}
