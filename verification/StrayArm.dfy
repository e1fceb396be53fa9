/** The arm of kind 0, which a closing window does not demote. */
module StrayArm {
  import opened Options
  import opened ArmContract
  import opened CacheHistory
  import opened Stability
  import opened AdaptiveCache
  import opened Contents

  const ZERO := UNDEFINED
  const ONE := PolicyType(1)

  lemma FullSize<K, V>(c: AdaptiveCache<K, V>)
    requires c.Valid()
    ensures c.active in c.nominalCap && c.arms[c.active].cap == c.nominalCap[c.active]
  {
    hide AdaptiveCache.ShadowCounts, AdaptiveCache.ActiveCounts, AdaptiveCache.OrderOK, AdaptiveCache.Ledger;
  }

  /** A cache that migrates gradually and applies whatever it is told, over two arms of the given size. */
  method TwoArms<K(==), V>(cap: int, sampled: K -> bool, zero: V) returns (c: AdaptiveCache<K, V>)
    ensures fresh(c) && fresh(c.objs) && c.Valid() && c.AllInRole() && !c.migrating && ZERO in c.nominalCap
    ensures c.arms.Keys == {ZERO, ONE} && c.active == ZERO && c.sampled == sampled && c.zero == zero
    ensures c.arms[ZERO].steady && c.arms[ONE].steady && c.nominalCap[ZERO] == cap
    ensures c.settings == Settings(true, GRADUAL, 0.0, 0, 0, false)
  {
    hide AdaptiveCache.RolesOK, AdaptiveCache.ShadowCounts, AdaptiveCache.ActiveCounts, AdaptiveCache.OrderOK;
    hide AdaptiveCache.AllInRole, AdaptiveCache.FreshOK, AdaptiveCache.Ledger, AdaptiveCache.WindowOK;
    hide AdaptiveCache.LooksDemoted;
    var a := new Arm<K, V>(ZERO, true, map[], cap);
    var b := new Arm<K, V>(ONE, true, map[], cap);
    c := new AdaptiveCache(map[ZERO := a, ONE := b], [ZERO, ONE], ZERO, sampled, 1.0, 1,
                           Settings(true, GRADUAL, 0.0, 0, 0, false), zero);
    FullSize(c);
    c.RolesExactly();
  }

  /**
   A cache as built, one Add, a switch, and the epoch after it: the arm of kind 0 ends as a
   shadow that still holds what it held, which is no shadow's to hold.
   */
  method Strays<K(==), V>(k: K, v: V, cap: int, sampled: K -> bool, zero: V) returns (c: AdaptiveCache<K, V>)
    requires cap > 0 && !sampled(k)
    ensures fresh(c) && c.Valid() && c.active == ONE && !c.migrating
    ensures Strayed(c.history) && !c.AllInRole()
  {
    hide AdaptiveCache.RolesOK, AdaptiveCache.ShadowCounts, AdaptiveCache.ActiveCounts, AdaptiveCache.OrderOK;
    hide AdaptiveCache.AllInRole, AdaptiveCache.FreshOK, AdaptiveCache.Ledger, AdaptiveCache.Logical;
    hide AdaptiveCache.NeedsNoDemotion;
    c := TwoArms(cap, sampled, zero);
    var _, _, _ := c.Add(k, v);
    FullSize(c);
    c.RunEpoch(ONE);
    StillThere(c, k);
    c.RunEpoch(ONE);
    c.RolesExactly();
  }

  /** A key callers can be served that is still to be migrated is in the source. */
  lemma StillThere<K, V>(c: AdaptiveCache<K, V>, k: K)
    requires c.Valid() && c.migrating && k in c.pending && k in c.Logical()
    ensures k in c.arms[c.migrateFrom].entries
    ensures !c.sampled(k) ==> !c.NeedsNoDemotion(c.migrateFrom)
  {
    hide AdaptiveCache.RolesOK, AdaptiveCache.ShadowCounts, AdaptiveCache.ActiveCounts, AdaptiveCache.OrderOK;
    hide AdaptiveCache.Ledger;
  }
}
