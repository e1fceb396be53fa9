/** With room and steady arms, an open window cannot be told from a map that was never split. */
module Transparency {
  import opened Options
  import opened ArmContract
  import opened CacheHistory
  import opened AdaptiveCache
  import opened Contents
  import opened CacheRuns

  /** What a plain map does with an operation. */
  function MapStep<K(==), V>(m: map<K, V>, op: Operation<K, V>): map<K, V> {
    match op
    case DoAdd(k, v) => m[k := v]
    case DoRemove(k) => m - {k}
    case DoPurge => map[]
    case _ => m
  }

  function MapAfter<K(==), V>(m: map<K, V>, ops: seq<Operation<K, V>>): map<K, V> {
    if ops == [] then m else MapStep(MapAfter(m, ops[..|ops| - 1]), ops[|ops| - 1])
  }

  /** Nothing but an Add makes a map larger. */
  lemma StepGrows<K, V>(m: map<K, V>, op: Operation<K, V>)
    ensures |MapStep(m, op)| <= |m| + if op.DoAdd? then 1 else 0
  {
    match op
    case DoAdd(k, v) => SubsetCount(m[k := v].Keys, m.Keys + {k});
    case DoRemove(k) => SubsetCount((m - {k}).Keys, m.Keys);
    case _ =>
  }

  /** A map holds what was last added to it: the answers of a transparent run are never behind. */
  lemma {:induction false} MapHoldsLast<K, V>(m: map<K, V>, ops: seq<Operation<K, V>>, run: seq<Action<K, V>>, k: K)
    requires |run| == |ops| && forall i :: 0 <= i < |ops| ==> run[i] == Call(ops[i])
    ensures Lookup(MapAfter(m, ops), k) == Latest(Lookup(m, k), run, k)
  {
    if ops != [] {
      var n := |ops| - 1;
      MapHoldsLast(m, ops[..n], run[..n], k);
    }
  }

  /** The arms a caller can be served from keep what they are given, and have room for this many more entries. */
  ghost predicate Roomy<K, V>(c: AdaptiveCache<K, V>, adds: nat)
    reads c, c.objs
    requires c.Valid()
  {
    && c.arms[c.active].steady && |c.Logical()| + adds + 2 <= c.nominalCap[c.active]
    && (c.migrating ==>
          c.arms[c.migrateFrom].steady && c.SourceSize() + adds <= c.nominalCap[c.migrateFrom])
  }

  /** Such room is room in the arms themselves, and in an open window's source for one more write. */
  lemma RoomInArms<K, V>(c: AdaptiveCache<K, V>, adds: nat)
    requires c.Valid() && Roomy(c, adds)
    ensures c.HasRoom(1) && c.HasRoom(2) && c.arms[c.active].steady && c.arms[c.active].cap > 0
    ensures c.migrating ==> c.SteadyWindow() && c.migrateFrom in c.arms && c.arms[c.migrateFrom].steady
    ensures c.active in c.nominalCap && |c.Logical()| + adds + 2 <= c.nominalCap[c.active]
    ensures c.migrating ==> c.migrateFrom in c.nominalCap && c.SourceSize() + adds <= c.nominalCap[c.migrateFrom]
    ensures adds > 0 ==> forall key :: c.SourceSpares(key) && c.Spares(key)
  {
    hide AdaptiveCache.ShadowCounts, AdaptiveCache.ActiveCounts, AdaptiveCache.OrderOK, AdaptiveCache.Ledger;
    hide AdaptiveCache.FreshOK, CapsAgree;
    SubsetCount(c.arms[c.active].entries.Keys, c.Logical().Keys);
  }

  /** The room left after an operation, m being what could be served and n the source's size before it. */
  lemma RoomLeft<K, V>(c: AdaptiveCache<K, V>, adds: nat, op: Operation<K, V>, m: map<K, V>, n: nat)
    requires c.Valid() && (op.DoAdd? ==> adds > 0)
    requires c.arms[c.active].steady && |m| + adds + 2 <= c.nominalCap[c.active]
    requires c.migrating ==> c.arms[c.migrateFrom].steady && n + adds <= c.nominalCap[c.migrateFrom]
    requires c.Logical() == MapStep(m, op)
    requires c.SourceSize() <= n + if op.DoAdd? then 1 else 0
    ensures Roomy(c, if op.DoAdd? then adds - 1 else adds)
  {
    hide AdaptiveCache.RolesOK, AdaptiveCache.FreshOK, AdaptiveCache.ShadowCounts, AdaptiveCache.Ledger;
    hide AdaptiveCache.ActiveCounts, AdaptiveCache.OrderOK, AdaptiveCache.Logical, AdaptiveCache.SourceSize, MapStep;
    StepGrows(m, op);
  }

  /** One operation on a roomy cache does what it does on a map. */
  method MapLike<K(==), V>(c: AdaptiveCache<K, V>, op: Operation<K, V>, ghost adds: nat) returns (r: Option<V>)
    requires c.Valid() && Roomy(c, adds) && (op.DoAdd? ==> adds > 0) && !op.DoResize?
    modifies c, c.objs
    ensures c.Valid() && c.active == old(c.active) && Roomy(c, if op.DoAdd? then adds - 1 else adds)
    ensures c.Logical() == MapStep(old(c.Logical()), op)
    ensures op.DoGet? ==> r == Lookup(old(c.Logical()), op.key)
  {
    hide AdaptiveCache.RolesOK, AdaptiveCache.FreshOK, AdaptiveCache.ShadowCounts, AdaptiveCache.Ledger;
    hide AdaptiveCache.ActiveCounts, AdaptiveCache.OrderOK, AdaptiveCache.Logical, AdaptiveCache.SourceSize, Roomy;
    hide AdaptiveCache.AbandonsNone, AdaptiveCache.ShadowsHold, AdaptiveCache.WindowOK, Within, AddStep, LosesOnly;
    hide LastAdded, Totals, AdaptiveCache.HasRoom, AdaptiveCache.Spares, AdaptiveCache.SourceSpares;
    RoomInArms(c, adds);
    ghost var m, n := c.Logical(), c.SourceSize();
    r := None;
    match op {
      case DoGet(key) => r := c.Get(key);
      case DoPeek(key) => var _ := c.Peek(key);
      case DoStats => var _ := c.GetStats();
      case DoAdd(key, value) => var _, _, _ := c.Add(key, value);
      case DoRemove(key) => var _ := c.Remove(key);
      case DoPurge => c.Purge();
    }
    RoomLeft(c, adds, op, m, n);
  }

  /**
   Any operations but a resize, in an open window or outside one, with room in the arms that
   serve for everything they add: every Get answers exactly what a plain map would that
   started with what could be served, and that map is what can be served at the end.
   */
  method Transparent<K(==), V>(c: AdaptiveCache<K, V>, ops: seq<Operation<K, V>>) returns (answers: seq<Option<V>>)
    requires c.Valid() && Roomy(c, Adds(ops)) && forall i :: 0 <= i < |ops| ==> !ops[i].DoResize?
    modifies c, c.objs
    ensures c.Valid() && c.active == old(c.active) && |answers| == |ops|
    ensures c.Logical() == MapAfter(old(c.Logical()), ops)
    ensures forall i :: 0 <= i < |ops| && ops[i].DoGet? ==>
      answers[i] == Lookup(MapAfter(old(c.Logical()), ops[..i]), ops[i].key)
  {
    hide AdaptiveCache.RolesOK, AdaptiveCache.FreshOK, AdaptiveCache.ShadowCounts, AdaptiveCache.Ledger;
    hide AdaptiveCache.ActiveCounts, AdaptiveCache.OrderOK, AdaptiveCache.Logical, AdaptiveCache.SourceSize, Roomy;
    ghost var m := c.Logical();
    answers := [];
    NoAdds(ops);
    for i := 0 to |ops|
      invariant c.Valid() && c.active == old(c.active) && |answers| == i
      invariant Adds(ops[..i]) <= Adds(ops) && Roomy(c, Adds(ops) - Adds(ops[..i]))
      invariant c.Logical() == MapAfter(m, ops[..i])
      invariant forall j :: 0 <= j < i && ops[j].DoGet? ==> answers[j] == Lookup(MapAfter(m, ops[..j]), ops[j].key)
    {
      AddsBelow(ops, i);
      OneMore(m, ops, i);
      var r := MapLike(c, ops[i], Adds(ops) - Adds(ops[..i]));
      answers := answers + [r];
    }
    assert ops[..|ops|] == ops;
  }

  lemma NoAdds<K, V>(ops: seq<Operation<K, V>>)
    ensures Adds(ops[..0]) == 0 && forall m: map<K, V> {:trigger MapAfter(m, ops[..0])} :: MapAfter(m, ops[..0]) == m
  {
  }

  lemma OneMore<K, V>(m: map<K, V>, ops: seq<Operation<K, V>>, i: nat)
    requires i < |ops|
    ensures MapAfter(m, ops[..i + 1]) == MapStep(MapAfter(m, ops[..i]), ops[i])
    ensures Adds(ops[..i + 1]) == Adds(ops[..i]) + if ops[i].DoAdd? then 1 else 0
  {
    assert ops[..i + 1][..i] == ops[..i];
  }

  lemma {:induction false} AddsBelow<K, V>(ops: seq<Operation<K, V>>, i: nat)
    requires i < |ops|
    ensures Adds(ops[..i]) + (if ops[i].DoAdd? then 1 else 0) <= Adds(ops)
  {
    var n := |ops| - 1;
    assert ops[..n][..i] == ops[..i];
    if i < n {
      AddsBelow(ops[..n], i);
    }
  }
}
