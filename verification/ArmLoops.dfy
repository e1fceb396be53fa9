/** The loops of the cache over its arms, in whatever order the map yields them. */
module ArmLoops {
  import opened Options
  import opened ArmContract

  /** Every arm is filed under its own kind, so no two policies share one. */
  ghost predicate Filed<K, V>(arms: map<PolicyType, Arm<K, V>>, objs: set<Arm<K, V>>) {
    forall p :: p in arms ==> arms[p].kind == p && arms[p] in objs
  }

  /** The same lookup to every arm but the active one. */
  method MirrorGet<K(==), V>(arms: map<PolicyType, Arm<K, V>>, ghost objs: set<Arm<K, V>>, active: PolicyType, key: K)
    requires Filed(arms, objs) && active in arms
    modifies (objs - {arms[active]})`entries, (objs - {arms[active]})`hits, (objs - {arms[active]})`misses
    ensures forall p :: p in arms && p != active ==>
      && Within(arms[p].entries, old(arms[p].entries))
      && (arms[p].steady ==> arms[p].entries == old(arms[p].entries))
      && arms[p].Total() == old(arms[p].Total()) + 1
  {
    var todo := arms.Keys;
    while todo != {}
      invariant forall p :: p in todo ==> p in arms
      invariant forall p :: p in todo ==>
        arms[p].entries == old(arms[p].entries) && arms[p].Total() == old(arms[p].Total())
      invariant forall p :: p in arms && p !in todo && p != active ==>
        && Within(arms[p].entries, old(arms[p].entries))
        && (arms[p].steady ==> arms[p].entries == old(arms[p].entries))
        && arms[p].Total() == old(arms[p].Total()) + 1
    {
      var p :| p in todo;
      todo := todo - {p};
      if p != active {
        var _ := arms[p].Get(key);
      }
    }
  }

  /** key with the zero value to every arm but the active one. */
  method MirrorAdd<K(==), V>(arms: map<PolicyType, Arm<K, V>>, ghost objs: set<Arm<K, V>>, active: PolicyType,
                             key: K, zero: V)
    requires Filed(arms, objs) && active in arms
    modifies (objs - {arms[active]})`entries
    ensures forall p :: p in arms && p != active ==>
      && AddStep(old(arms[p].entries), arms[p].entries, key, zero)
      && (arms[p].steady ==> SteadyAdd(old(arms[p].entries), arms[p].entries, key, zero, arms[p].cap))
  {
    var todo := arms.Keys;
    while todo != {}
      invariant forall p :: p in todo ==> p in arms
      invariant forall p :: p in todo ==> arms[p].entries == old(arms[p].entries)
      invariant forall p :: p in arms && p !in todo && p != active ==>
        && AddStep(old(arms[p].entries), arms[p].entries, key, zero)
        && (arms[p].steady ==> SteadyAdd(old(arms[p].entries), arms[p].entries, key, zero, arms[p].cap))
    {
      var p :| p in todo;
      todo := todo - {p};
      if p != active {
        var _ := arms[p].Add(key, zero);
      }
    }
  }

  /** No arm but the active one holds key any more. */
  method MirrorRemove<K(==), V>(arms: map<PolicyType, Arm<K, V>>, ghost objs: set<Arm<K, V>>, active: PolicyType,
                                key: K)
    requires Filed(arms, objs) && active in arms
    modifies (objs - {arms[active]})`entries
    ensures forall p :: p in arms && p != active ==>
      && Within(arms[p].entries, old(arms[p].entries)) && key !in arms[p].entries
      && (arms[p].steady ==> arms[p].entries == old(arms[p].entries) - {key})
  {
    var todo := arms.Keys;
    while todo != {}
      invariant forall p :: p in todo ==> p in arms
      invariant forall p :: p in todo ==> arms[p].entries == old(arms[p].entries)
      invariant forall p :: p in arms && p !in todo && p != active ==>
        && Within(arms[p].entries, old(arms[p].entries)) && key !in arms[p].entries
        && (arms[p].steady ==> arms[p].entries == old(arms[p].entries) - {key})
    {
      var p :| p in todo;
      todo := todo - {p};
      if p != active {
        var _ := arms[p].Remove(key);
      }
    }
  }

  method PurgeEach<K(==), V>(arms: map<PolicyType, Arm<K, V>>, ghost objs: set<Arm<K, V>>)
    requires Filed(arms, objs)
    modifies objs`entries
    ensures forall p :: p in arms ==> arms[p].entries == map[]
  {
    var todo := arms.Keys;
    while todo != {}
      invariant forall p :: p in arms && p !in todo ==> arms[p].entries == map[]
      invariant forall p :: p in todo ==> p in arms
    {
      var p :| p in todo;
      todo := todo - {p};
      arms[p].Purge();
    }
  }

  /** Rewrites every sampled entry with the zero value and drops the others. */
  method RewriteSampled<K(==), V>(policy: Arm<K, V>, sampled: K -> bool, zero: V)
    modifies {policy}`entries
    ensures forall k :: k in policy.entries ==> sampled(k) && policy.entries[k] == zero
    ensures policy.entries.Keys <= old(policy.entries.Keys)
    ensures policy.steady ==> forall k :: k in old(policy.entries) && sampled(k) ==> k in policy.entries
  {
    var keys := policy.Keys();
    var i := 0;
    while i < |keys|
      invariant i <= |keys|
      invariant forall k :: k in policy.entries ==> (sampled(k) && policy.entries[k] == zero) || k in keys[i..]
      invariant policy.entries.Keys <= old(policy.entries.Keys)
      invariant policy.steady ==> forall k :: k in old(policy.entries) && sampled(k) ==> k in policy.entries
      invariant policy.steady ==> forall k :: k in keys[i..] ==> k in policy.entries
    {
      if sampled(keys[i]) {
        var _ := policy.Add(keys[i], zero);
      } else {
        var _ := policy.Remove(keys[i]);
      }
      i := i + 1;
    }
  }

  // ---- Copying ----

  /** The warm copy: every value the source still has goes to the target. */
  method CopyEntries<K(==), V>(source: Arm<K, V>, target: Arm<K, V>)
    requires source != target && target.entries == map[]
    modifies {source, target}`entries
    ensures Within(source.entries, old(source.entries))
    ensures Within(target.entries, old(source.entries))
    ensures source.steady ==> source.entries == old(source.entries)
    ensures source.steady && target.steady && |old(source.entries)| <= target.cap ==>
      target.entries == old(source.entries)
  {
    hide NoDuplicates, SetOf, Within;
    ghost var fits := source.steady && target.steady && |source.entries| <= target.cap;
    var keys := source.Keys();
    ghost var was := source.entries;
    SetOfKeys(keys, was);
    WithinSelf(was);
    var i := 0;
    while i < |keys|
      invariant i <= |keys|
      invariant Within(source.entries, was) && (source.steady ==> source.entries == was)
      invariant Within(target.entries, was)
      invariant fits ==> target.entries.Keys == SetOf(keys[..i])
    {
      PrefixSet(keys, i);
      CopyOne(source, target, keys[i], was);
      i := i + 1;
    }
    if fits {
      WithinWhole(target.entries, was);
    }
    WithinTrans(source.entries, was, old(source.entries));
    WithinTrans(target.entries, was, old(source.entries));
  }

  /** Copies one value, if the source still has it. */
  method CopyOne<K(==), V>(source: Arm<K, V>, target: Arm<K, V>, key: K, ghost was: map<K, V>)
    requires source != target && Within(source.entries, was) && Within(target.entries, was)
    modifies {source, target}`entries
    ensures Within(source.entries, was) && Within(target.entries, was)
    ensures source.steady ==> source.entries == old(source.entries)
    ensures source.steady && target.steady && |old(target.entries)| < target.cap && key in old(source.entries) ==>
      target.entries.Keys == old(target.entries).Keys + {key}
  {
    var r := source.Peek(key);
    if r.Some? {
      var _ := target.Add(key, r.value);
    }
  }

  lemma SetOfKeys<K, V>(keys: seq<K>, m: map<K, V>)
    requires forall k :: k in keys <==> k in m
    ensures SetOf(keys) == m.Keys && SetOf(keys[..0]) == {} && SetOf(keys[..|keys|]) == m.Keys
  {
    assert keys[..|keys|] == keys;
  }

  // ---- Resizing ----

  /** What a resize leaves of an arm: a part of its entries that fits, counted, if the arm is steady. */
  ghost predicate Fitted<K, V>(cap: int, target: int, entries: map<K, V>, was: map<K, V>, steady: bool, lost: nat) {
    && cap == target && Within(entries, was)
    && (steady ==> lost == |was| - |entries| && |entries| <= if cap < 0 then 0 else cap)
  }

  /** The arms that serve or still hold unmigrated values get the full size, the others their miniature. */
  function Target(p: PolicyType, active: PolicyType, migrating: bool, migrateFrom: PolicyType, size: int,
                  shadowSize: int): int {
    if p == active || (migrating && p == migrateFrom) then size else shadowSize
  }

  method ResizeOne<K(==), V>(arm: Arm<K, V>, p: PolicyType, active: PolicyType, migrating: bool,
                             migrateFrom: PolicyType, size: int, shadowSize: int) returns (evicted: nat)
    modifies {arm}`entries, {arm}`cap
    ensures Fitted(arm.cap, Target(p, active, migrating, migrateFrom, size, shadowSize),
                   arm.entries, old(arm.entries), arm.steady, evicted)
  {
    var target := shadowSize;
    if p == active || (migrating && p == migrateFrom) {
      target := size;
    }
    evicted := arm.Resize(target);
  }

  /** Both capacities are on record for every arm, and new for those no longer to do. */
  ghost predicate Booked<A>(nominal: map<PolicyType, int>, shadow: map<PolicyType, int>, arms: map<PolicyType, A>,
                            todo: set<PolicyType>, size: int, shadowSize: int) {
    && (forall p :: (p in nominal <==> p in arms) && (p in shadow <==> p in arms))
    && (forall p :: p in arms && p !in todo ==> nominal[p] == size && shadow[p] == shadowSize)
  }

  lemma BookOne<A>(nominal: map<PolicyType, int>, shadow: map<PolicyType, int>, arms: map<PolicyType, A>,
                   todo: set<PolicyType>, size: int, shadowSize: int, p: PolicyType)
    requires Booked(nominal, shadow, arms, todo, size, shadowSize) && p in arms
    ensures Booked(nominal[p := size], shadow[p := shadowSize], arms, todo - {p}, size, shadowSize)
  {
  }

  lemma BookedAll<A>(nominal: map<PolicyType, int>, shadow: map<PolicyType, int>, arms: map<PolicyType, A>,
                     size: int, shadowSize: int)
    requires Booked(nominal, shadow, arms, {}, size, shadowSize)
    ensures forall p :: (p in nominal <==> p in arms) && (p in shadow <==> p in arms)
    ensures forall p :: p in arms ==> nominal[p] == size && shadow[p] == shadowSize
  {
  }

  /** The count is the sum of what the arms done so far reported. */
  ghost predicate Counted<A>(evicted: nat, lost: map<PolicyType, nat>, arms: map<PolicyType, A>,
                             todo: set<PolicyType>) {
    evicted == Summed(lost) && forall p :: p in lost <==> p in arms && p !in todo
  }

  lemma CountOne<A>(evicted: nat, lost: map<PolicyType, nat>, arms: map<PolicyType, A>, todo: set<PolicyType>,
                    p: PolicyType, n: nat)
    requires Counted(evicted, lost, arms, todo) && p in arms && p in todo
    ensures Counted(evicted + n, lost[p := n], arms, todo - {p})
  {
    SummedMore(lost, p, n);
  }

  method ResizeEach<K(==), V>(arms: map<PolicyType, Arm<K, V>>, ghost objs: set<Arm<K, V>>,
                              active: PolicyType, migrating: bool, migrateFrom: PolicyType, size: int, shadowSize: int,
                              nominalCap: map<PolicyType, int>, shadowCap: map<PolicyType, int>)
    returns (evicted: nat, ghost lost: map<PolicyType, nat>, nominal: map<PolicyType, int>,
             shadow: map<PolicyType, int>)
    requires Filed(arms, objs) && Booked(nominalCap, shadowCap, arms, arms.Keys, size, shadowSize)
    modifies objs`entries, objs`cap
    ensures Counted(evicted, lost, arms, {}) && (forall p :: p in arms ==> p in lost)
    ensures Booked(nominal, shadow, arms, {}, size, shadowSize)
    ensures forall p :: p in arms ==>
      Fitted(arms[p].cap, Target(p, active, migrating, migrateFrom, size, shadowSize),
             arms[p].entries, old(arms[p].entries), arms[p].steady, lost[p])
  {
    NothingSummed();
    hide Summed, Fitted, Target, Booked;
    evicted, lost, nominal, shadow := 0, map[], nominalCap, shadowCap;
    var todo := arms.Keys;
    while todo != {}
      invariant forall p :: p in todo ==> p in arms
      invariant Booked(nominal, shadow, arms, todo, size, shadowSize) && Counted(evicted, lost, arms, todo)
      invariant forall p :: p in todo ==> arms[p].entries == old(arms[p].entries)
      invariant forall p :: p in arms && p !in todo ==>
        Fitted(arms[p].cap, Target(p, active, migrating, migrateFrom, size, shadowSize),
               arms[p].entries, old(arms[p].entries), arms[p].steady, lost[p])
    {
      var p :| p in todo;
      BookOne(nominal, shadow, arms, todo, size, shadowSize, p);
      nominal, shadow := nominal[p := size], shadow[p := shadowSize];
      var n := ResizeOne(arms[p], p, active, migrating, migrateFrom, size, shadowSize);
      CountOne(evicted, lost, arms, todo, p, n);
      lost := lost[p := n];
      evicted := evicted + n;
      todo := todo - {p};
    }
  }

  /** How many entries the arms hold together. */
  ghost function Held<K, V>(arms: map<PolicyType, Arm<K, V>>, objs: set<Arm<K, V>>): nat
    reads objs
    requires Filed(arms, objs)
  {
    Summed(map p | p in arms :: |arms[p].entries|)
  }

  /** A steady arm holds no more than it has room for. */
  ghost predicate Roomed<K, V>(arm: Arm<K, V>)
    reads arm
  {
    arm.steady ==> |arm.entries| <= if arm.cap < 0 then 0 else arm.cap
  }

  /** Every arm ends at the capacity its role asks for; with steady arms the count is what they lost together. */
  method ResizeAll<K(==), V>(arms: map<PolicyType, Arm<K, V>>, ghost objs: set<Arm<K, V>>,
                             active: PolicyType, migrating: bool, migrateFrom: PolicyType, size: int, shadowSize: int,
                             nominalCap: map<PolicyType, int>, shadowCap: map<PolicyType, int>)
    returns (evicted: nat, nominal: map<PolicyType, int>, shadow: map<PolicyType, int>)
    requires Filed(arms, objs) && Booked(nominalCap, shadowCap, arms, arms.Keys, size, shadowSize)
    modifies objs`entries, objs`cap
    ensures Booked(nominal, shadow, arms, {}, size, shadowSize)
    ensures forall p :: p in arms ==>
      && arms[p].cap == Target(p, active, migrating, migrateFrom, size, shadowSize)
      && Within(arms[p].entries, old(arms[p].entries)) && Roomed(arms[p])
    ensures (forall p :: p in arms ==> arms[p].steady) ==> evicted + Held(arms, objs) == old(Held(arms, objs))
  {
    hide Summed, Within, Booked, Target;
    ghost var before, lost := map p | p in arms :: |arms[p].entries|, map[];
    evicted, lost, nominal, shadow :=
      ResizeEach(arms, objs, active, migrating, migrateFrom, size, shadowSize, nominalCap, shadowCap);
    if forall p :: p in arms ==> arms[p].steady {
      SummedDifference(before, map p | p in arms :: |arms[p].entries|, lost);
    }
  }

  // ---- Reporting ----

  /** The counts of an epoch while it is being reported. */
  datatype Tally = Tally(global: Stats, hits: nat, misses: nat)

  /** What the report says of arm p, given its counters and the sampled ones of the active arm. */
  function Due(p: PolicyType, active: PolicyType, hits: nat, misses: nat, own: Stats): Stats {
    if p == active then Stats(hits, misses) else own
  }

  /** The order's next policy has not been visited. */
  lemma NextInOrder(order: seq<PolicyType>, i: nat)
    requires NoDuplicates(order) && i < |order|
    ensures order[i] !in order[..i]
    ensures forall p :: p in order[..i + 1] <==> p in order[..i] || p == order[i]
  {
    assert order[..i + 1] == order[..i] + [order[i]];
  }

  /**
   Takes every arm's counts once, folding the active arm's full counts into the totals and reporting
   its sampled ones.
   */
  method CollectEach<K(==), V>(arms: map<PolicyType, Arm<K, V>>, ghost objs: set<Arm<K, V>>, order: seq<PolicyType>,
                               active: PolicyType, before: Tally)
    returns (reported: map<PolicyType, Stats>, after: Tally)
    requires Filed(arms, objs) && active in arms && NoDuplicates(order) && forall p :: p in order <==> p in arms
    modifies objs`hits, objs`misses
    ensures forall p :: p in arms ==> arms[p].hits == 0 && arms[p].misses == 0
    ensures reported.Keys == arms.Keys
    ensures forall p :: p in arms ==>
      reported[p] == Due(p, active, before.hits, before.misses, old(Stats(arms[p].hits, arms[p].misses)))
    ensures after == old(Tally(Stats(before.global.hits + arms[active].hits,
                                     before.global.misses + arms[active].misses), 0, 0))
  {
    hide NoDuplicates;
    reported, after := map[], before;
    var i := 0;
    while i < |order|
      invariant i <= |order| && forall p :: p in reported <==> p in order[..i]
      invariant forall p :: p in arms && p in order[..i] ==>
        && arms[p].hits == 0 && arms[p].misses == 0
        && reported[p] == Due(p, active, before.hits, before.misses, old(Stats(arms[p].hits, arms[p].misses)))
      invariant forall p :: p in arms && p !in order[..i] ==>
        arms[p].hits == old(arms[p].hits) && arms[p].misses == old(arms[p].misses)
      invariant after == if active !in order[..i] then before
        else old(Tally(Stats(before.global.hits + arms[active].hits, before.global.misses + arms[active].misses), 0, 0))
    {
      var p := order[i];
      NextInOrder(order, i);
      var stats := arms[p].GetStats();
      arms[p].ResetStats();
      if p == active {
        after := after.(global := Stats(after.global.hits + stats.hits, after.global.misses + stats.misses));
        stats := Stats(after.hits, after.misses);
        after := after.(hits := 0, misses := 0);
      }
      reported := reported[p := stats];
      i := i + 1;
    }
    assert order[..|order|] == order;
  }
}
