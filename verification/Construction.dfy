/** NewAdaptiveCache: what is refused, and in which order, and what a cache starts from. */
module Construction {
  import opened Options
  import opened ArmContract
  import opened CacheHistory
  import opened Stability
  import opened AdaptiveCache

  datatype Error =
    | EmptyPolicies
    | NilSettings
    | NilBandit
    | InvalidEpochRequests
    | InvalidEpochDuration
    | NilPolicy
    | DuplicatePolicy(kind: PolicyType)

  datatype Config = Config(epochDuration: int, epochRequests: int, shadowSampleRate: real, minShadowCapacity: int,
                           settings: Settings)

  const DEFAULT_MIN_SHADOW_CAPACITY := 256

  /** The first n policies are there, each of its own kind. */
  ghost predicate Distinct<K, V>(policies: seq<Arm?<K, V>>, n: nat)
    requires n <= |policies|
  {
    && (forall i :: 0 <= i < n ==> policies[i] != null)
    && (forall i, j :: 0 <= i < j < n ==> policies[i].kind != policies[j].kind)
  }

  /** Policy n is the first that does not fit: it is missing, or of a kind already taken. */
  ghost predicate FirstMisfit<K, V>(policies: seq<Arm?<K, V>>, n: nat, error: Error) {
    && n < |policies| && Distinct(policies, n)
    && match error
       case NilPolicy => policies[n] == null
       case DuplicatePolicy(kind) =>
         policies[n] != null && policies[n].kind == kind && exists i :: 0 <= i < n && policies[i].kind == kind
       case _ => false
  }

  ghost predicate Ascending(order: seq<PolicyType>) {
    forall i, j :: 0 <= i < j < |order| ==> order[i].number < order[j].number
  }

  /** One step of sorting the policy numbers. */
  method InsertSorted(order: seq<PolicyType>, p: PolicyType) returns (longer: seq<PolicyType>)
    requires Ascending(order) && p !in order
    ensures Ascending(longer) && forall q :: q in longer <==> q == p || q in order
  {
    var i := 0;
    while i < |order| && order[i].number < p.number
      invariant 0 <= i <= |order|
      invariant forall j :: 0 <= j < i ==> order[j].number < p.number
    {
      i := i + 1;
    }
    if i < |order| {
      assert order[i] != p;
    }
    longer := order[..i] + [p] + order[i..];
    assert order == order[..i] + order[i..];
  }

  /** Files every policy under its kind, unless one is missing or repeated. */
  method FilePolicies<K, V>(policies: seq<Arm?<K, V>>)
    returns (error: Option<Error>, arms: map<PolicyType, Arm<K, V>>, order: seq<PolicyType>, ghost at: nat)
    ensures error.Some? ==> FirstMisfit(policies, at, error.value)
    ensures error.None? ==> Distinct(policies, |policies|)
    ensures error.None? ==> forall i :: 0 <= i < |policies| ==>
      policies[i].kind in arms && arms[policies[i].kind] == policies[i]
    ensures forall p :: p in arms ==> arms[p].kind == p && arms[p] in policies
    ensures Ascending(order) && forall p :: p in order <==> p in arms
  {
    error, arms, order, at := None, map[], [], 0;
    for i := 0 to |policies|
      invariant Distinct(policies, i)
      invariant forall j :: 0 <= j < i ==> policies[j].kind in arms && arms[policies[j].kind] == policies[j]
      invariant forall p :: p in arms ==> arms[p].kind == p && exists j :: 0 <= j < i && policies[j] == arms[p]
      invariant Ascending(order) && forall p :: p in order <==> p in arms
    {
      at := i;
      var policy := policies[i];
      if policy == null {
        error := Some(NilPolicy);
        return;
      }
      if policy.kind in arms {
        error := Some(DuplicatePolicy(policy.kind));
        return;
      }
      order := InsertSorted(order, policy.kind);
      arms := arms[policy.kind := policy];
    }
  }

  /** The epochs can be ended by something, and a bandit is there if it will be asked. */
  predicate Accepted(config: Config, hasBandit: bool) {
    && (hasBandit || config.settings.observeOnly)
    && config.epochRequests >= 0 && (config.epochDuration > 0 || config.epochRequests > 0)
  }

  /**
   A cache over the given policies, the first of them active, or the error for the first
   thing that is wrong; then nothing has been touched.
   */
  method NewAdaptiveCache<K(==), V>(policies: seq<Arm?<K, V>>, hasBandit: bool, config: Option<Config>,
                                    sampled: K -> bool, zero: V) returns (r: Result<AdaptiveCache<K, V>, Error>)
    modifies set p: Arm?<K, V> | p in policies && p != null
    ensures r.Success? <==>
      policies != [] && config.Some? && Accepted(config.value, hasBandit) && Distinct(policies, |policies|)
    ensures r == Failure(EmptyPolicies) <==> policies == []
    ensures r == Failure(NilSettings) <==> policies != [] && config.None?
    ensures r == Failure(NilBandit) <==>
      policies != [] && config.Some? && !hasBandit && !config.value.settings.observeOnly
    ensures r == Failure(InvalidEpochRequests) <==>
      policies != [] && config.Some? && (hasBandit || config.value.settings.observeOnly) &&
      config.value.epochRequests < 0
    ensures r == Failure(InvalidEpochDuration) <==>
      policies != [] && config.Some? && (hasBandit || config.value.settings.observeOnly) &&
      config.value.epochRequests == 0 && config.value.epochDuration <= 0
    ensures r.Failure? && (r.error.NilPolicy? || r.error.DuplicatePolicy?) ==>
      exists n :: FirstMisfit(policies, n, r.error)
    ensures r.Failure? ==> forall p :: p in policies && p != null ==> unchanged(p)
    ensures r.Success? ==>
      var c := r.value;
      && c.Valid() && fresh(c) && !c.migrating && c.active == policies[0].kind && unchanged(policies[0])
      && (forall i :: 0 <= i < |policies| ==> policies[i].kind in c.arms && c.arms[policies[i].kind] == policies[i])
      && (forall p :: p in c.arms ==> c.arms[p] in policies)
      && Ascending(c.order) && c.settings == config.value.settings && c.sampled == sampled && c.zero == zero
      && c.history == old(Start(policies[0].entries, Stats(policies[0].hits, policies[0].misses)))
  {
    if |policies| == 0 {
      return Failure(EmptyPolicies);
    }
    if config.None? {
      return Failure(NilSettings);
    }
    var cfg := config.value;
    if !hasBandit && !cfg.settings.observeOnly {
      return Failure(NilBandit);
    }
    if cfg.epochRequests < 0 {
      return Failure(InvalidEpochRequests);
    }
    if cfg.epochDuration <= 0 && cfg.epochRequests == 0 {
      return Failure(InvalidEpochDuration);
    }
    var error, arms, order, at := FilePolicies(policies);
    if error.Some? {
      assert FirstMisfit(policies, at, error.value);
      return Failure(error.value);
    }
    assert arms[policies[0].kind] == policies[0];
    var sampleRate := if cfg.shadowSampleRate <= 0.0 then 1.0 else cfg.shadowSampleRate;
    var minShadowCap := if cfg.minShadowCapacity <= 0 then DEFAULT_MIN_SHADOW_CAPACITY else cfg.minShadowCapacity;
    var c := new AdaptiveCache(arms, order, policies[0].kind, sampled, sampleRate, minShadowCap, cfg.settings, zero);
    r := Success(c);
  }
}
