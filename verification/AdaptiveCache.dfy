/**
 The adaptive cache: one active arm that serves, shadow arms that only measure,
 and, during a gradual window, a source arm that is drained into the active one.
 Each public operation, and each epoch, is one atomic step.
 */
module AdaptiveCache {
  import opened Options
  import opened ArmContract
  import opened ArmLoops
  import opened CacheHistory
  import opened Contents
  import opened Sampling
  import opened Stability

  /** The miniature of a positive capacity simulates it; a capacity of nothing has no miniature. */
  ghost predicate CapsAgree(nominal: int, shadow: int, rate: real) {
    if nominal > 0 then shadow > 0 && Simulates(shadow, nominal, rate) else shadow == nominal
  }

  class AdaptiveCache<K(==), V> {
    // --- data plane
    const arms: map<PolicyType, Arm<K, V>>
    ghost const objs: set<Arm<K, V>>  // the arms as a set of objects
    const order: seq<PolicyType>  // every policy once, the order reports are built in
    const sampled: K -> bool      // the sampler: a fixed set of keys
    const rate: real              // the rate it samples at
    const settings: Settings
    const zero: V                 // the zero value of V
    var active: PolicyType
    var nominalCap: map<PolicyType, int>
    var shadowCap: map<PolicyType, int>
    var activeHits: nat           // the active arm's results for sampled keys
    var activeMisses: nat
    var globalStats: Stats        // served up to the last report
    // --- gradual migration
    var migrating: bool
    var migrateFrom: PolicyType
    var queue: seq<K>             // migrationKeys
    var pending: set<K>           // migrationRealKeys
    // --- control plane
    var epochStats: map<PolicyType, Stats>
    var epochID: nat
    var lastSwitchEpoch: nat
    ghost var history: History<K, V>
    ghost var strayed: bool       // the arm of kind 0 was left as it was by a window that closed over it

    /** m is the smallest positive capacity among the arms, or 0 if there is none. */
    static ghost predicate IsSmallest(m: int, arms: map<PolicyType, Arm<K, V>>)
      reads arms.Values
    {
      && m >= 0 && (m == 0 || exists p :: p in arms && arms[p].cap == m)
      && forall p :: p in arms && arms[p].cap > 0 ==> 0 < m <= arms[p].cap
    }

    /** The capacity of every arm, and the one most at risk of shrinking into noise. */
    static method SmallestCapacity(arms: map<PolicyType, Arm<K, V>>) returns (m: int, caps: map<PolicyType, int>)
      ensures IsSmallest(m, arms) && forall p :: p in caps <==> p in arms
      ensures forall p :: p in arms ==> caps[p] == arms[p].cap
    {
      m, caps := 0, map[];
      var todo := arms.Keys;
      while todo != {}
        invariant todo <= arms.Keys && m >= 0 && (m == 0 || exists p :: p in arms && arms[p].cap == m)
        invariant forall p :: p in arms && p !in todo && arms[p].cap > 0 ==> 0 < m <= arms[p].cap
        invariant forall p :: p in caps <==> p in arms && p !in todo
        invariant forall p :: p in caps ==> caps[p] == arms[p].cap
      {
        var p :| p in todo;
        todo := todo - {p};
        caps := caps[p := arms[p].cap];
        if arms[p].cap > 0 && (m == 0 || arms[p].cap < m) {
          m := arms[p].cap;
        }
      }
    }

    /** The one rate for all arms lies in (0, 1]. */
    static lemma CommonRate(smallest: int, sampleRate: real, minShadowCap: int)
      requires smallest >= 0 && sampleRate > 0.0 && minShadowCap >= 1
      ensures 0.0 < ShadowCapacity(smallest, sampleRate, minShadowCap).1 <= 1.0
    {
      if smallest > 0 {
        OneRateForAll(smallest, smallest, sampleRate, minShadowCap);
      }
    }

    /**
     A cache over the given arms, one of which serves. Every other arm is put onto
     shadow duty at the miniature capacity that fits the common sample rate.
     */
    constructor (arms: map<PolicyType, Arm<K, V>>, order: seq<PolicyType>, active: PolicyType,
                 sampled: K -> bool, sampleRate: real, minShadowCap: int, settings: Settings, zero: V)
      requires forall p :: p in arms ==> arms[p].kind == p
      requires NoDuplicates(order) && forall p :: p in order <==> p in arms
      requires active in arms && sampleRate > 0.0 && minShadowCap >= 1
      modifies arms.Values
      ensures Valid() && !migrating && unchanged(arms[active])
      ensures this.arms == arms && objs == arms.Values && this.order == order && this.active == active
      ensures this.sampled == sampled && this.settings == settings && this.zero == zero
      ensures history == old(Start(arms[active].entries, Stats(arms[active].hits, arms[active].misses)))
      ensures forall p :: p in arms ==> nominalCap[p] == old(arms[p].cap)
      ensures exists m :: old(IsSmallest(m, arms)) && rate == ShadowCapacity(m, sampleRate, minShadowCap).1
    {
      hide *;
      this.arms, this.order, this.active := arms, order, active;
      objs := arms.Values;
      this.sampled, this.settings, this.zero := sampled, settings, zero;
      var smallest, caps := SmallestCapacity(arms);
      rate := ShadowCapacity(smallest, sampleRate, minShadowCap).1;
      activeHits, activeMisses, globalStats := 0, 0, NO_STATS;
      migrating, migrateFrom, queue, pending := false, UNDEFINED, [], {};
      nominalCap, shadowCap := caps, map[];
      epochStats, epochID, lastSwitchEpoch, strayed := map[], 0, 0, false;
      history := Start(arms[active].entries, Stats(arms[active].hits, arms[active].misses));
      new;
      CommonRate(smallest, sampleRate, minShadowCap);
      Starts();
      InitShadowDutyLocked(smallest, sampleRate, minShadowCap);
    }

    /** A cache whose arms have not been given their roles yet. */
    ghost predicate Unstarted()
      reads this, objs
    {
      && ArmsOK() && active in arms && objs == arms.Values
      && !migrating && migrateFrom == UNDEFINED && queue == [] && pending == {} && !strayed
      && history == Start(arms[active].entries, Stats(arms[active].hits, arms[active].misses))
      && activeHits == 0 && activeMisses == 0 && globalStats == NO_STATS && epochID == 0 && lastSwitchEpoch == 0
    }

    lemma Starts()
      requires NoDuplicates(order) && (forall p :: p in order <==> p in arms) && 0.0 < rate <= 1.0
      requires active in arms && objs == arms.Values && forall p :: p in arms ==> arms[p].kind == p
      requires !migrating && migrateFrom == UNDEFINED && queue == [] && pending == {} && !strayed
      requires history == Start(arms[active].entries, Stats(arms[active].hits, arms[active].misses))
      requires activeHits == 0 && activeMisses == 0 && globalStats == NO_STATS && epochID == 0 && lastSwitchEpoch == 0
      ensures Unstarted()
    {
    }

    /** Computes the miniatures and puts every arm but the active one onto shadow duty. */
    method InitShadowDutyLocked(smallest: int, ghost sampleRate: real, minShadowCap: int)
      requires Unstarted() && IsSmallest(smallest, arms) && sampleRate > 0.0 && minShadowCap >= 1
      requires rate == ShadowCapacity(smallest, sampleRate, minShadowCap).1
      requires (forall p :: p in nominalCap <==> p in arms) && forall p :: p in arms ==> nominalCap[p] == arms[p].cap
      modifies this`shadowCap, objs - {arms[active]}
      ensures Valid() && !migrating
    {
      hide Simulates, ShadowCapacity, OrderOK, RolesOK, WindowOK, ShadowCounts, Ledger, FreshOK, ActiveCounts;
      hide CapsAgree;
      shadowCap := map p | p in arms :: ShadowCapacity(nominalCap[p], rate, minShadowCap).0;
      MiniaturesFit(smallest, sampleRate, minShadowCap);
      DemoteAll();
    }

    /** At construction every miniature simulates its arm at the one common rate. */
    lemma MiniaturesFit(smallest: int, sampleRate: real, minShadowCap: int)
      requires sampleRate > 0.0 && minShadowCap >= 1 && rate == ShadowCapacity(smallest, sampleRate, minShadowCap).1
      requires OnRecord()
      requires forall p :: p in arms && nominalCap[p] > 0 ==> 0 < smallest <= nominalCap[p]
      requires forall p :: p in arms ==> shadowCap[p] == ShadowCapacity(nominalCap[p], rate, minShadowCap).0
      ensures forall p :: p in arms ==> CapsAgree(nominalCap[p], shadowCap[p], rate)
    {
      forall p | p in arms ensures CapsAgree(nominalCap[p], shadowCap[p], rate) {
        if nominalCap[p] > 0 {
          OneRateForAll(smallest, nominalCap[p], sampleRate, minShadowCap);
        }
      }
    }

    method DemoteAll()
      requires Unstarted() && OnRecord()
      requires forall p :: p in arms ==> CapsAgree(nominalCap[p], shadowCap[p], rate) && arms[p].cap == nominalCap[p]
      modifies objs - {arms[active]}
      ensures Valid()
    {
      DemoteEach();
      Started();
    }

    /** Every arm but the active one is a clean miniature that has counted nothing. */
    ghost predicate AllShadows()
      reads this`active, this`nominalCap, this`shadowCap, objs
      requires ArmsOK() && OnRecord()
    {
      forall p :: p in arms && p != active ==>
        arms[p].cap == shadowCap[p] && Clean(arms[p].entries) && arms[p].hits == 0 && arms[p].misses == 0
    }

    method DemoteEach()
      requires ArmsOK() && OnRecord() && active in arms
      requires forall p :: p in arms ==> CapsAgree(nominalCap[p], shadowCap[p], rate) && arms[p].cap == nominalCap[p]
      modifies objs - {arms[active]}
      ensures AllShadows()
    {
      hide Simulates, OrderOK, Clean;
      var todo := arms.Keys;
      while todo != {}
        invariant forall p :: p in todo ==> p in arms
        invariant forall p :: p in todo ==> arms[p].cap == nominalCap[p]
        invariant forall p :: p in arms && p !in todo && p != active ==>
          arms[p].cap == shadowCap[p] && Clean(arms[p].entries) && arms[p].hits == 0 && arms[p].misses == 0
      {
        var p :| p in todo;
        todo := todo - {p};
        if p != active {
          DemoteLocked(p);
        }
      }
    }

    lemma Started()
      requires Unstarted() && OnRecord() && AllShadows()
      requires forall p :: p in arms ==> CapsAgree(nominalCap[p], shadowCap[p], rate)
      requires arms[active].cap == nominalCap[active]
      ensures Valid()
    {
      hide Simulates, OrderOK, Clean, Obeys, CapsAgree;
    }

    // ---------------------------------------------------------------- invariants

    ghost predicate ArmsOK() {
      && (forall p :: p in arms ==> arms[p].kind == p && arms[p] in objs)
      && OrderOK()
    }

    /** The order lists every arm once. */
    ghost predicate OrderOK() {
      NoDuplicates(order) && (forall p :: p in order <==> p in arms) && 0.0 < rate <= 1.0
    }

    /** Both capacities are on record for every arm. */
    ghost predicate OnRecord()
      reads this`nominalCap, this`shadowCap
    {
      forall p :: (p in nominalCap <==> p in arms) && (p in shadowCap <==> p in arms)
    }

    /** The arms that hold real values: the active one and an open window's source. */
    ghost predicate OnDuty(p: PolicyType)
      reads this`active, this`migrating, this`migrateFrom
    {
      p == active || (migrating && p == migrateFrom)
    }

    /** Only sampled keys, only zero values. */
    ghost predicate Clean(m: map<K, V>) {
      forall k :: k in m ==> sampled(k) && m[k] == zero
    }

    /** The arm of kind 0, once a window over it has closed and while it is not on duty again. */
    ghost predicate Stray(p: PolicyType)
      reads this`active, this`migrating, this`migrateFrom, this`strayed
    {
      strayed && p == UNDEFINED && !OnDuty(p)
    }

    /** Every arm is on duty at its full size or a clean miniature, but for a stray one. */
    ghost predicate RolesOK()
      reads this`active, this`migrating, this`migrateFrom, this`nominalCap, this`shadowCap, this`strayed
      reads objs`entries, objs`cap
    {
      && ArmsOK()
      && OnRecord()
      && (forall p :: p in arms ==> CapsAgree(nominalCap[p], shadowCap[p], rate))
      && (forall p :: p in arms && !Stray(p) ==> arms[p].cap == if OnDuty(p) then nominalCap[p] else shadowCap[p])
      && (forall p :: p in arms && !Stray(p) && !OnDuty(p) ==> Clean(arms[p].entries))
      && (forall p :: p in arms && Stray(p) ==> arms[p].cap == nominalCap[p] || arms[p].cap == shadowCap[p])
    }

    /** The role invariant the design asks for: no arm is out of its role. */
    ghost predicate AllInRole()
      reads this`active, this`migrating, this`migrateFrom, this`nominalCap, this`shadowCap, objs`entries, objs`cap
    {
      && OnRecord()
      && (forall p :: p in arms ==> arms[p] in objs)
      && (forall p :: p in arms ==> arms[p].cap == if OnDuty(p) then nominalCap[p] else shadowCap[p])
      && (forall p :: p in arms && !OnDuty(p) ==> Clean(arms[p].entries))
    }

    /** The arm of kind 0 looks like a shadow: a miniature of sampled zeros. */
    ghost predicate LooksDemoted()
      reads this`nominalCap, this`shadowCap, objs`entries, objs`cap
      requires ArmsOK() && OnRecord() && UNDEFINED in arms
    {
      arms[UNDEFINED].cap == shadowCap[UNDEFINED] && Clean(arms[UNDEFINED].entries)
    }

    lemma RolesRecorded()
      requires RolesOK()
      ensures OnRecord()
    {
    }

    ghost predicate WindowOK()
      reads this`active, this`migrating, this`migrateFrom, this`queue, this`pending
    {
      && (migrating ==> settings.migrationStrategy == GRADUAL && migrateFrom in arms && migrateFrom != active)
      && (forall k :: k in pending ==> k in queue)
      && (!migrating ==> migrateFrom == UNDEFINED && queue == [] && pending == {})
    }

    /** The entries of an open window's source. */
    ghost function Source(): map<K, V>
      reads this`migrating, this`migrateFrom, objs`entries
      requires ArmsOK() && (migrating ==> migrateFrom in arms)
    {
      if migrating then arms[migrateFrom].entries else map[]
    }

    /** How many entries an open window's source holds. */
    ghost function SourceSize(): nat
      reads this`migrating, this`migrateFrom, objs`entries
      requires ArmsOK() && (migrating ==> migrateFrom in arms)
    {
      |Source()|
    }

    ghost predicate FreshOK()
      reads this`active, this`migrating, this`migrateFrom, this`pending, this`history, objs`entries
      requires ArmsOK() && active in arms && (migrating ==> migrateFrom in arms)
    {
      Fresh(history, arms[active].entries, Source(), pending)
    }

    /** Every shadow has counted exactly the sampled requests due to it. */
    ghost predicate ShadowCounts()
      reads this`active, this`history, objs`hits, objs`misses
    {
      ArmsOK() && forall p :: p in arms && p != active ==> arms[p].Total() == EvidenceDue(history, p, sampled)
    }

    ghost predicate Ledger()
      reads this`active, this`migrating, this`history, this`epochID, this`lastSwitchEpoch, this`strayed
    {
      && Sound(history, arms.Keys, sampled, settings)
      && (migrating ==> BeforeClose(history, sampled) == 0)
      && EvidenceDue(history, active, sampled) == SampledSince(history, sampled)
      && epochID == Epochs(history) && lastSwitchEpoch == LastSwitch(history) && strayed == Strayed(history)
    }

    ghost predicate ActiveCounts()
      reads this`active, this`history, this`globalStats, this`activeHits, this`activeMisses, objs`hits, objs`misses
      requires ArmsOK() && active in arms
    {
      && Totals(history) == Stats(globalStats.hits + arms[active].hits, globalStats.misses + arms[active].misses)
      && activeHits + activeMisses == SampledSince(history, sampled)
    }

    /** What holds at every point between the steps of an operation. */
    ghost predicate Core()
      reads this, objs
    {
      ArmsOK() && active in arms && RolesOK() && WindowOK() && ShadowCounts() && Ledger()
    }

    /** What holds between operations. */
    ghost predicate Valid()
      reads this, objs
    {
      && Core() && FreshOK() && ActiveCounts()
      && (migrating <==> pending != {})
    }

    /** The entries a caller can be served: the active arm's, and what is still to be migrated. */
    ghost function Logical(): map<K, V>
      reads this`active, this`migrating, this`migrateFrom, this`pending, objs`entries
      requires ArmsOK() && active in arms && (migrating ==> migrateFrom in arms)
    {
      Merge(arms[active].entries, Source(), pending)
    }

    lemma ValidTells()
      requires Valid()
      ensures Core() && FreshOK() && ActiveCounts() && (migrating <==> pending != {})
    {
    }

    lemma CoreTells()
      requires Core()
      ensures ArmsOK() && active in arms && OnRecord() && RolesOK() && WindowOK() && ShadowCounts() && Ledger()
    {
    }

    lemma ArmsTell()
      requires ArmsOK()
      ensures forall p :: p in arms ==> arms[p].kind == p && arms[p] in objs
    {
    }

    lemma WindowTells()
      requires WindowOK()
      ensures migrating ==> settings.migrationStrategy == GRADUAL && migrateFrom in arms && migrateFrom != active
      ensures !migrating ==> migrateFrom == UNDEFINED && queue == [] && pending == {}
      ensures forall k :: k in pending ==> k in queue
    {
    }

    lemma IsCore()
      requires ArmsOK() && active in arms && RolesOK() && WindowOK() && ShadowCounts() && Ledger()
      ensures Core()
    {
    }

    lemma IsValid()
      requires Core() && FreshOK() && ActiveCounts() && (migrating <==> pending != {})
      ensures Valid()
    {
    }

    /**
     At every point of every run: no arm is out of its role if and only if no window over the
     arm of kind 0 has closed since that arm last took over, or the arm happens to look like
     a shadow all the same.
     */
    lemma RolesExactly()
      requires Core()
      ensures AllInRole() <==>
              (UNDEFINED in arms && Strayed(history) && !OnDuty(UNDEFINED) ==> LooksDemoted())
    {
      hide OrderOK, CapsAgree, Clean, ShadowCounts;
    }

    // --------------------------------------------- what a step on the arms leaves alone

    /** The roles stay as they were while capacities do and shadows stay clean. */
    twostate lemma RolesKept()
      requires old(RolesOK()) && unchanged(`active, `migrating, `migrateFrom, `nominalCap, `shadowCap, `strayed)
      requires forall p :: p in arms ==> arms[p].cap == old(arms[p].cap)
      requires forall p :: p in arms && !OnDuty(p) && Clean(old(arms[p].entries)) ==> Clean(arms[p].entries)
      ensures RolesOK()
    {
    }

    twostate lemma CountsKept()
      requires old(ShadowCounts()) && unchanged(`active, `history)
      requires forall p :: p in arms && p != active ==> arms[p].Total() == old(arms[p].Total())
      ensures ShadowCounts()
    {
    }

    twostate lemma ActiveKept()
      requires ArmsOK() && active in arms && unchanged(`active, `history, `globalStats, `activeHits, `activeMisses)
      requires old(ActiveCounts())
      requires arms[active].hits == old(arms[active].hits) && arms[active].misses == old(arms[active].misses)
      ensures ActiveCounts()
    {
    }

    /** The source has lost entries, if anything. */
    twostate lemma SourceShrinks()
      requires ArmsOK() && unchanged(`migrating, `migrateFrom) && (migrating ==> migrateFrom in arms)
      requires Source() == old(Source()) || Within(Source(), old(Source()))
      ensures SourceSize() <= old(SourceSize())
    {
      FewerEntries(Source(), old(Source()));
    }

    /** The source has gained one entry, if any. */
    twostate lemma SourceGrows(key: K)
      requires ArmsOK() && unchanged(`migrating, `migrateFrom) && (migrating ==> migrateFrom in arms)
      requires Source() == old(Source()) || AddStep(old(Source()), Source(), key, zero)
      ensures SourceSize() <= old(SourceSize()) + 1
    {
      OneMoreEntry(Source(), old(Source()), key, zero);
    }

    /** A window that closes changes neither the active arm's counts nor the totals of the record. */
    twostate lemma ActiveSettled()
      requires ArmsOK() && active in arms && unchanged(`active, `globalStats, `activeHits, `activeMisses)
      requires old(ActiveCounts())
      requires arms[active].hits == old(arms[active].hits) && arms[active].misses == old(arms[active].misses)
      requires MayClose(old(history), history)
      ensures ActiveCounts()
    {
    }

    lemma PartIsClean(before: map<K, V>, after: map<K, V>)
      requires Clean(before) && Within(after, before)
      ensures Clean(after)
    {
    }

    lemma ZeroIsClean(before: map<K, V>, after: map<K, V>, key: K)
      requires Clean(before) && sampled(key) && AddStep(before, after, key, zero)
      ensures Clean(after)
    {
    }

    // ----------------------------------------------------------------- role changes

    /** Puts an arm that has stopped being active onto shadow duty. */
    method DemoteLocked(p: PolicyType)
      requires ArmsOK() && p in arms && p in shadowCap
      modifies arms[p]
      ensures Clean(arms[p].entries)
      ensures arms[p].cap == if shadowCap[p] > 0 then shadowCap[p] else old(arms[p].cap)
      ensures arms[p].hits == 0 && arms[p].misses == 0
      ensures arms[p].entries.Keys <= old(arms[p].entries.Keys)
      ensures arms[p].steady && (shadowCap[p] <= 0 || |old(arms[p].entries)| <= shadowCap[p]) ==>
        forall k :: k in old(arms[p].entries) && sampled(k) ==> k in arms[p].entries
    {
      var policy := arms[p];
      RewriteSampled(policy, sampled, zero);
      if shadowCap[p] > 0 {
        SubsetCount(policy.entries.Keys, old(arms[p].entries.Keys));
        var _ := policy.Resize(shadowCap[p]);
      }
      policy.ResetStats();
    }

    method ClearMigrationState()
      modifies this`migrating, this`migrateFrom, this`queue, this`pending
      ensures !migrating && migrateFrom == UNDEFINED && queue == [] && pending == {}
    {
      migrating, migrateFrom, queue, pending := false, UNDEFINED, [], {};
    }

    /** Core, except that the arm p still runs as the source of a window already cleared. */
    ghost predicate CoreBut(p: PolicyType)
      reads this, objs
    {
      && ArmsOK() && active in arms && p in arms && p != active && !migrating && WindowOK() && ShadowCounts()
      && Ledger() && BeforeClose(history, sampled) == 0
      && OnRecord()
      && (forall q :: q in arms ==> CapsAgree(nominalCap[q], shadowCap[q], rate))
      && (forall q :: q in arms && (q == p || !Stray(q)) ==>
            arms[q].cap == if q == active || q == p then nominalCap[q] else shadowCap[q])
      && (forall q :: q in arms && q != active && q != p && !Stray(q) ==> Clean(arms[q].entries))
      && (forall q :: q in arms && Stray(q) ==> arms[q].cap == nominalCap[q] || arms[q].cap == shadowCap[q])
    }

    /** Demotes the source of a window that has been cleared. */
    method RetireSource(source: PolicyType)
      requires CoreBut(source) && Demotes(source)
      modifies this`history, arms[source]
      ensures Core()
      ensures arms[source].entries.Keys <= old(arms[source].entries.Keys)
      ensures history == Then(old(history), WindowClosed(source))
    {
      hide Simulates, OrderOK, Clean, EvidenceDue, SampledSince, BeforeClose, Epochs, LastSwitch, Strayed;
      EvidenceAfter(history, WindowClosed(source), sampled);
      ClocksAfter(history, WindowClosed(source));
      history := Then(history, WindowClosed(source));
      DemoteLocked(source);
    }

    /** The arm of kind 0 stays as it is when the window over it has been cleared. */
    ghost method LeaveSource()
      requires CoreBut(UNDEFINED)
      modifies this`history, this`strayed
      ensures Core() && strayed
      ensures history == Then(old(history), WindowClosed(UNDEFINED))
    {
      hide *;
      history := Then(history, WindowClosed(UNDEFINED));
      strayed := true;
      LeftRoles();
      LeftCounts();
      IsCore();
    }

    twostate lemma LeftRoles()
      requires old(CoreBut(UNDEFINED)) && strayed
      requires unchanged(`active, `migrating, `migrateFrom, `queue, `pending, `nominalCap, `shadowCap, objs)
      ensures ArmsOK() && active in arms && RolesOK() && WindowOK()
    {
      hide OrderOK, CapsAgree, Clean, Ledger, ShadowCounts;
    }

    twostate lemma LeftCounts()
      requires old(CoreBut(UNDEFINED)) && strayed && history == Then(old(history), WindowClosed(UNDEFINED))
      requires unchanged(`active, `migrating, `epochID, `lastSwitchEpoch, objs)
      ensures ShadowCounts() && Ledger()
    {
      hide OrderOK, RolesOK, WindowOK, CapsAgree, Clean;
      hide EvidenceDue, SampledSince, BeforeClose, Epochs, LastSwitch, Strayed;
      EvidenceAfter(old(history), WindowClosed(UNDEFINED), sampled);
      ClocksAfter(old(history), WindowClosed(UNDEFINED));
    }

    /** A window opened by a switch away from an arm of kind 0. */
    ghost predicate Stranding()
      reads this`migrating, this`migrateFrom
    {
      migrating && migrateFrom == UNDEFINED
    }

    /** A miniature as large as the arm, of nothing but sampled zeros: such an arm need not be demoted. */
    ghost predicate NeedsNoDemotion(p: PolicyType)
      reads this`nominalCap, this`shadowCap, objs`entries
    {
      && p in arms && arms[p] in objs && p in nominalCap && p in shadowCap
      && nominalCap[p] == shadowCap[p] && Clean(arms[p].entries)
    }

    /**
     What a closing window leaves of the roles: all of them, if its source is not of kind 0;
     if it is, they hold if and only if the source already was what a demotion makes of it.
     */
    twostate predicate RolesAfterClosing()
      reads this, objs
    {
      AllInRole() <==> if old(Stranding()) then old(NeedsNoDemotion(UNDEFINED)) else old(AllInRole())
    }

    twostate lemma ClosingKeepsRoles()
      requires old(Core()) && Core() && !migrating && unchanged(`active, `nominalCap, `shadowCap)
      requires old(Stranding()) ==> strayed && unchanged(arms[UNDEFINED])
      requires !old(Stranding()) ==>
        strayed == old(strayed) && (UNDEFINED in arms ==> unchanged(arms[UNDEFINED]))
      ensures RolesAfterClosing()
    {
      hide OrderOK, CapsAgree, Clean, ShadowCounts, Sound, EvidenceDue, SampledSince, BeforeClose, Strayed;
      RolesExactly();
      assert old(AllInRole()) <==> old(UNDEFINED in arms && Stray(UNDEFINED) ==> LooksDemoted());
    }

    /** Once the window has been cleared, only its source is out of its role. */
    twostate lemma Cleared()
      requires old(Core()) && old(migrating) && !migrating && migrateFrom == UNDEFINED && queue == [] && pending == {}
      requires unchanged(`active, `nominalCap, `shadowCap, `strayed, `history, `epochID, `lastSwitchEpoch, objs)
      ensures CoreBut(old(migrateFrom))
    {
      hide OrderOK, CapsAgree, Clean, Sound, EvidenceDue, SampledSince, BeforeClose, Epochs, LastSwitch, Strayed;
    }

    /** Without a window there was nothing to clear. */
    twostate lemma NothingCleared()
      requires old(Core()) && !old(migrating) && !migrating && migrateFrom == UNDEFINED && queue == [] && pending == {}
      requires unchanged(`active, `nominalCap, `shadowCap, `strayed, `history, `epochID, `lastSwitchEpoch, objs)
      ensures Core()
    {
      hide OrderOK, CapsAgree, Clean, Sound, EvidenceDue, SampledSince, BeforeClose, Epochs, LastSwitch, Strayed;
    }

    lemma StrandingTells()
      ensures Stranding() <==> migrating && migrateFrom == UNDEFINED
    {
    }

    lemma ButTells(p: PolicyType)
      requires CoreBut(p)
      ensures p in arms && p in shadowCap && p != active && arms[p] in objs
      ensures Demotes(p) <==> p != UNDEFINED
    {
    }

    /**
     Ends a window, demoting its source, unless that is the arm of kind 0, which keeps its
     size, its values and its counts.
     */
    method CloseMigrationLocked()
      requires Core()
      modifies this`migrating, this`migrateFrom, this`queue, this`pending, this`history, this`strayed
      modifies if migrating && migrateFrom in arms then {arms[migrateFrom]} else {}
      ensures Core() && !migrating && unchanged(arms[active])
      ensures history == if old(migrating) then Then(old(history), WindowClosed(old(migrateFrom))) else old(history)
      ensures old(Stranding()) ==> unchanged(arms[UNDEFINED])
      ensures forall p :: p in arms ==> arms[p].entries.Keys <= old(arms[p].entries.Keys)
      ensures RolesAfterClosing()
    {
      hide *;
      CoreTells();
      ArmsTell();
      WindowTells();
      StrandingTells();
      var source, wasMigrating := migrateFrom, migrating;
      ClearMigrationState();
      if wasMigrating && source != UNDEFINED && source != active {
        Cleared();
        ButTells(source);
        RetireSource(source);
      } else if wasMigrating {
        Cleared();
        LeaveSource();
      } else {
        NothingCleared();
      }
      CoreTells();
      ClosingKeepsRoles();
    }

    // --------------------------------------------------------------------- migration

    /** Both arms of the window keep what they are given. */
    ghost predicate SteadyWindow()
      reads this`active, this`migrating, this`migrateFrom
    {
      active in arms && migrateFrom in arms && arms[active].steady && arms[migrateFrom].steady
    }

    /** The active arm can take this many more entries. */
    ghost predicate HasRoom(n: nat)
      reads this`active, objs`entries, objs`cap
      requires ArmsOK() && active in arms
    {
      |arms[active].entries| + n <= arms[active].cap
    }

    /** Takes a pending key out of the window, moving its value if the source still has it. */
    method MoveKey(key: K) returns (moved: bool)
      requires Core() && FreshOK() && migrating && key in pending
      modifies this`pending, {arms[active], arms[migrateFrom]}`entries
      ensures RolesOK() && WindowOK() && ShadowCounts() && Ledger()
      ensures FreshOK() && pending == old(pending) - {key}
      ensures Within(Logical(), old(Logical()))
      ensures GainsOnly(arms[active].entries.Keys, old(arms[active].entries.Keys), key, old(pending))
      ensures !moved ==> arms[active].entries == old(arms[active].entries)
      ensures SteadyWindow() && (!moved || old(HasRoom(1))) ==> Logical() == old(Logical())
      ensures SteadyWindow() && arms[active].cap > 0 ==>
        && LosesOnly(Logical(), old(Logical()), old(arms[active].entries.Keys))
        && Lookup(arms[active].entries, key) == Lookup(old(Logical()), key)
      ensures SourceSize() <= old(SourceSize())
    {
      hide SourceSize, RolesOK, ShadowCounts, OrderOK, Ledger, Clean, Fresh, EvidenceDue, LastAdded, Merge;
      hide LosesOnly, Drops;
      ghost var act, src, h := arms[active].entries, arms[migrateFrom].entries, history;
      LosesNothing(old(Logical()), act.Keys);
      var r := arms[migrateFrom].Peek(key);
      moved := r.Some?;
      if moved {
        var _ := arms[active].Add(key, r.value);
        Moved(h, act, arms[active].entries, src, arms[migrateFrom].entries, pending, key, r.value);
      } else {
        GivenUp(h, act, src, arms[migrateFrom].entries, pending, key);
      }
      SourceShrinks();
      pending := pending - {key};
      RolesKept();
      CountsKept();
    }

    /** Closes a window in which nothing is pending. */
    method CloseEmptyWindow()
      requires Core() && FreshOK() && migrating && pending == {}
      modifies this`migrating, this`migrateFrom, this`queue, this`pending, this`history, this`strayed, arms[migrateFrom]
      ensures Core() && FreshOK() && !migrating && pending == {} && queue == []
      ensures history == Then(old(history), WindowClosed(old(migrateFrom)))
      ensures unchanged(arms[active]) && Logical() == old(Logical())
      ensures forall p :: p in arms ==> arms[p].entries.Keys <= old(arms[p].entries.Keys)
      ensures SourceSize() == 0
    {
      hide OrderOK, RolesOK, ShadowCounts, Ledger, Fresh, Merge, Within;
      FreshClosed(history, migrateFrom, arms[active].entries, Source(), pending);
      CloseMigrationLocked();
    }

    /** A key that is not pending is served by the active arm alone. */
    lemma NotPending(key: K)
      requires ArmsOK() && active in arms && WindowOK() && FreshOK()
      ensures key !in pending ==> Lookup(arms[active].entries, key) == Lookup(Logical(), key)
    {
    }

    /** Serves key from the window: moves it over if it is pending, and closes an empty window. */
    method PromoteLocked(key: K)
      requires Core() && FreshOK() && migrating
      modifies this`migrating, this`migrateFrom, this`queue, this`pending, this`history, this`strayed
      modifies {arms[active]}`entries, arms[migrateFrom]
      ensures Core() && FreshOK() && (migrating <==> pending != {})
      ensures history == if migrating then old(history) else Then(old(history), WindowClosed(old(migrateFrom)))
      ensures queue == (if migrating then old(queue) else []) && pending == old(pending) - {key}
      ensures migrating ==> migrateFrom == old(migrateFrom)
      ensures Within(Logical(), old(Logical()))
      ensures old(SteadyWindow()) && (old(key in pending) ==> arms[active].cap > 0) ==>
        && LosesOnly(Logical(), old(Logical()), old(arms[active].entries.Keys))
        && Lookup(arms[active].entries, key) == Lookup(old(Logical()), key)
      ensures old(SteadyWindow()) && old(HasRoom(1)) ==> Logical() == old(Logical())
      ensures SourceSize() <= old(SourceSize())
    {
      hide SourceSize, OrderOK, RolesOK, ShadowCounts, Ledger, Fresh, Merge, Within, LosesOnly;
      WithinSelf(Logical());
      LosesNothing(Logical(), arms[active].entries.Keys);
      NotPending(key);
      if key in pending {
        var _ := MoveKey(key);
      }
      if pending == {} {
        CloseEmptyWindow();
      }
    }

    /** The last key leaves the queue; it is no longer to be migrated. */
    method PopKey()
      requires WindowOK() && |queue| > 0 && queue[|queue| - 1] !in pending
      modifies this`queue
      ensures WindowOK() && queue == old(queue)[..|old(queue)| - 1]
    {
      queue := queue[..|queue| - 1];
      forall k | k in pending ensures k in queue {
        assert k in old(queue);
      }
    }

    /** Pops one key and moves it if it is still to be migrated. */
    method DrainLast() returns (moved: bool, ghost key: K)
      requires Core() && FreshOK() && migrating && |queue| > 0
      modifies this`queue, this`pending, {arms[active], arms[migrateFrom]}`entries
      ensures Core() && FreshOK() && pending <= old(pending) && queue == old(queue)[..|old(queue)| - 1]
      ensures Within(Logical(), old(Logical())) && SourceSize() <= old(SourceSize())
      ensures GainsOnly(arms[active].entries.Keys, old(arms[active].entries.Keys), key, old(pending))
      ensures !moved ==> arms[active].entries == old(arms[active].entries)
      ensures SteadyWindow() && (!moved || old(HasRoom(1))) ==> Logical() == old(Logical())
      ensures SteadyWindow() && arms[active].cap > 0 ==>
        LosesOnly(Logical(), old(Logical()), old(arms[active].entries.Keys))
    {
      hide SourceSize, OrderOK, RolesOK, ShadowCounts, Ledger, Fresh, Merge, Within, LosesOnly, GainsOnly;
      key := queue[|queue| - 1];
      moved := false;
      WithinSelf(Logical());
      LosesNothing(Logical(), arms[active].entries.Keys);
      GainsNothing(arms[active].entries.Keys, key, pending);
      if queue[|queue| - 1] in pending {
        moved := MoveKey(queue[|queue| - 1]);
      }
      PopKey();
    }

    /**
     Moves one pending key, popping the queue until it finds one. When the queue runs
     out the window closes, and no pending key the source still holds is abandoned.
     Returns the key moved, if any.
     */
    method DrainOneKey() returns (ghost drained: K)
      requires Core() && FreshOK() && migrating && pending != {}
      modifies this`migrating, this`migrateFrom, this`queue, this`pending, this`history, this`strayed
      modifies {arms[active]}`entries, arms[migrateFrom]
      ensures Core() && FreshOK() && (migrating <==> pending != {})
      ensures history == if migrating then old(history) else Then(old(history), WindowClosed(old(migrateFrom)))
      ensures |queue| < |old(queue)| && pending <= old(pending) && (migrating ==> migrateFrom == old(migrateFrom))
      ensures Within(Logical(), old(Logical()))
      ensures GainsOnly(arms[active].entries.Keys, old(arms[active].entries.Keys), drained, old(pending))
      ensures old(SteadyWindow()) && arms[active].cap > 0 ==>
        LosesOnly(Logical(), old(Logical()), old(arms[active].entries.Keys))
      ensures old(SteadyWindow() && HasRoom(1)) ==> Logical() == old(Logical())
      ensures SourceSize() <= old(SourceSize())
    {
      hide SourceSize, OrderOK, RolesOK, ShadowCounts, Ledger, Fresh, Merge, Within, LosesOnly, GainsOnly;
      ghost var was := Logical();
      WithinSelf(was);
      LosesNothing(was, arms[active].entries.Keys);
      drained :| drained in pending;
      GainsNothing(arms[active].entries.Keys, drained, pending);
      while |queue| > 0
        invariant Core() && FreshOK() && migrating && migrateFrom == old(migrateFrom) && history == old(history)
        invariant pending <= old(pending)
        invariant |queue| <= |old(queue)| && (pending == old(pending) || |queue| < |old(queue)|)
        invariant arms[active].entries == old(arms[active].entries)
        invariant SourceSize() <= old(SourceSize())
        invariant Within(Logical(), was)
        invariant old(SteadyWindow()) ==> Logical() == was
      {
        ghost var now, left := Logical(), pending;
        var moved, key := DrainLast();
        GainsMore(arms[active].entries.Keys, old(arms[active].entries.Keys), key, left, old(pending));
        WithinTrans(Logical(), now, was);
        if moved {
          drained := key;
          if pending == {} {
            CloseEmptyWindow();
          }
          return;
        }
      }
      CloseEmptyWindow();
    }

    // -------------------------------------------------------------- public operations

    /** Counts the active arm's result for a sampled key. */
    method RecordActiveSample(isSampled: bool, hit: bool)
      modifies this`activeHits, this`activeMisses
      ensures activeHits == old(activeHits) + (if isSampled && hit then 1 else 0)
      ensures activeMisses == old(activeMisses) + (if isSampled && !hit then 1 else 0)
    {
      if isSampled {
        if hit {
          activeHits := activeHits + 1;
        } else {
          activeMisses := activeMisses + 1;
        }
      }
    }

    /** The shadows look the key up; the record does not know of it yet. */
    method FeedShadows(key: K)
      requires Core() && FreshOK()
      modifies (objs - {arms[active]})`entries, (objs - {arms[active]})`hits, (objs - {arms[active]})`misses
      ensures ArmsOK() && RolesOK() && WindowOK() && FreshOK() && Ledger()
      ensures forall p :: p in arms && p != active ==>
                arms[p].Total() == EvidenceDue(history, p, sampled) + if sampled(key) then 1 else 0
      ensures Within(Logical(), old(Logical())) && (migrating && SteadyWindow() ==> Logical() == old(Logical()))
      ensures SourceSize() <= old(SourceSize())
    {
      hide SourceSize, RolesOK, OrderOK, Ledger, Clean, Fresh, Merge, Within, PendingKept, EvidenceDue;
      ghost var act, src := arms[active].entries, Source();
      if sampled(key) {
        MirrorGet(arms, objs, active, key);
        forall p | p in arms && !OnDuty(p) && Clean(old(arms[p].entries)) ensures Clean(arms[p].entries) {
          PartIsClean(old(arms[p].entries), arms[p].entries);
        }
      }
      RolesKept();
      WithinSelf(act);
      PartKeepsPending(src, Source(), pending);
      SourceShrinks();
      FreshShrinks(history, act, act, src, Source(), pending, pending);
    }

    /** The lookup enters the record, and with it the evidence due to every arm. */
    method RecordAsked(ghost key: K)
      requires ArmsOK() && active in arms && RolesOK() && WindowOK() && FreshOK() && Ledger()
      requires forall p :: p in arms && p != active ==>
                 arms[p].Total() == EvidenceDue(history, p, sampled) + if sampled(key) then 1 else 0
      modifies this`history
      ensures history == Then(old(history), Asked(key)) && Core() && FreshOK()
    {
      hide RolesOK, OrderOK, EvidenceDue, SampledSince, BeforeClose, Epochs, LastSwitch, Fresh;
      EvidenceAfter(history, Asked(key), sampled);
      ClocksAfter(history, Asked(key));
      FreshSilent(history, Asked(key), arms[active].entries, Source(), pending);
      history := Then(history, Asked(key));
    }

    /** The first half of a lookup: the shadows count it. */
    method AskShadows(key: K)
      requires Valid()
      modifies this`history
      modifies (objs - {arms[active]})`entries, (objs - {arms[active]})`hits, (objs - {arms[active]})`misses
      ensures history == Then(old(history), Asked(key))
      ensures Core() && FreshOK()
      ensures Within(Logical(), old(Logical()))
      ensures migrating && SteadyWindow() ==> Logical() == old(Logical())
      ensures SourceSize() <= old(SourceSize())
    {
      hide SourceSize, RolesOK, OrderOK, Ledger, WindowOK, Fresh, Merge, Within, EvidenceDue;
      FeedShadows(key);
      RecordAsked(key);
    }

    /**
     All of a lookup but the answer: the shadows have counted it, and in a window the key, if
     it was still to be migrated, has been.
     */
    method Locate(key: K)
      requires Valid()
      modifies this`migrating, this`migrateFrom, this`queue, this`pending, this`history, this`strayed
      modifies objs
      ensures Core() && FreshOK() && (migrating <==> pending != {})
      ensures MayClose(Then(old(history), Asked(key)), history)
      ensures history.event == if old(migrating) && !migrating then WindowClosed(old(migrateFrom)) else Asked(key)
      ensures Totals(history) == old(Totals(history))
      ensures SampledSince(history, sampled) == old(SampledSince(history, sampled)) + if sampled(key) then 1 else 0
      ensures queue == (if migrating then old(queue) else []) && pending == old(pending) - {key}
      ensures migrating ==> migrateFrom == old(migrateFrom)
      ensures SourceSize() <= old(SourceSize()) && Within(Logical(), old(Logical()))
      ensures arms[active].hits == old(arms[active].hits) && arms[active].misses == old(arms[active].misses)
      ensures old(migrating ==> SteadyWindow() && arms[active].cap > 0) ==>
        && LosesOnly(Logical(), old(Logical()), old(arms[active].entries.Keys))
        && Lookup(arms[active].entries, key) == Lookup(old(Logical()), key)
      ensures old(migrating ==> SteadyWindow() && HasRoom(1)) ==> Logical() == old(Logical())
    {
      hide OrderOK, RolesOK, Fresh, Ledger, ShadowCounts, Merge, LosesOnly, Within, SampledSince, Totals;
      hide LastAdded, SourceSize, ActiveCounts, BeforeClose, EvidenceDue, Strayed, Epochs, LastSwitch;
      ghost var was := Logical();
      EvidenceAfter(history, Asked(key), sampled);
      ClocksAfter(history, Asked(key));
      LosesNothing(was, arms[active].entries.Keys);
      NothingToMerge(arms[active].entries, pending);
      AskShadows(key);
      ghost var asked := Logical();
      WithinTrans(asked, asked, was);
      EvidenceAfter(history, WindowClosed(migrateFrom), sampled);
      ClocksAfter(history, WindowClosed(migrateFrom));
      if migrating {
        PromoteLocked(key);
      }
      WithinTrans(Logical(), asked, was);
    }

    /** The active arm answers. */
    method AnswerActive(key: K) returns (r: Option<V>)
      requires Core() && FreshOK()
      modifies arms[active]
      ensures Core() && FreshOK()
      ensures Within(Logical(), old(Logical())) && (arms[active].steady ==> Logical() == old(Logical()))
      ensures r == Lookup(arms[active].entries, key) && (r.Some? ==> LastAdded(history, key) == r)
      ensures arms[active].steady ==> arms[active].entries == old(arms[active].entries)
      ensures arms[active].hits == old(arms[active].hits) + (if r.Some? then 1 else 0)
      ensures arms[active].misses == old(arms[active].misses) + (if r.Some? then 0 else 1)
      ensures SourceSize() == old(SourceSize())
    {
      hide RolesOK, ShadowCounts, OrderOK, Ledger, Clean, Fresh, Merge, Within, PendingKept, EvidenceDue;
      ghost var act, src := arms[active].entries, Source();
      r := arms[active].Get(key);
      RolesKept();
      CountsKept();
      PartKeepsPending(src, Source(), pending);
      FreshShrinks(history, act, arms[active].entries, src, Source(), pending, pending);
      FreshActive(history, arms[active].entries, Source(), pending);
    }

    /** The answer is counted for the sample and enters the record. */
    method RecordAnswer(key: K, r: Option<V>)
      requires Core() && FreshOK() && (migrating <==> pending != {}) && HonestAnswer(history, key, r)
      requires Totals(history).hits + (if r.Some? then 1 else 0) == globalStats.hits + arms[active].hits
      requires Totals(history).misses + (if r.Some? then 0 else 1) == globalStats.misses + arms[active].misses
      requires activeHits + activeMisses + (if sampled(key) then 1 else 0) == SampledSince(history, sampled)
      modifies this`activeHits, this`activeMisses, this`history
      ensures Valid() && history == Then(old(history), Served(key, r))
    {
      hide RolesOK, OrderOK, HonestAnswer, EvidenceDue, SampledSince, BeforeClose, Totals, Epochs, LastSwitch, Fresh;
      EvidenceAfter(history, Served(key, r), sampled);
      ClocksAfter(history, Served(key, r));
      FreshSilent(history, Served(key, r), arms[active].entries, Source(), pending);
      RecordActiveSample(sampled(key), r.Some?);
      history := Then(history, Served(key, r));
    }

    /**
     An answer is the value last added, if any. While a gradual window is open a key
     still to be migrated is served as if it had been migrated already; with steady arms
     a lookup loses nothing but what the active arm evicts, and nothing at all if it has room.
     */
    method Get(key: K) returns (r: Option<V>)
      requires Valid()
      modifies this, objs
      ensures Valid() && active == old(active)
      ensures r.Some? ==> LastAdded(old(history), key) == r
      ensures Within(Logical(), old(Logical()))
      ensures arms[active].hits == old(arms[active].hits) + (if r.Some? then 1 else 0)
      ensures arms[active].misses == old(arms[active].misses) + (if r.Some? then 0 else 1)
      ensures old(arms[active].steady && (migrating ==> arms[migrateFrom].steady && arms[active].cap > 0)) ==>
        r == Lookup(old(Logical()), key) && LosesOnly(Logical(), old(Logical()), old(arms[active].entries.Keys))
      ensures old(arms[active].steady && (migrating ==> arms[migrateFrom].steady && HasRoom(1))) ==>
        Logical() == old(Logical())
      ensures queue == (if migrating then old(queue) else []) && pending == old(pending) - {key}
      ensures migrating ==> migrateFrom == old(migrateFrom)
      ensures history == Then(if old(migrating) && !migrating
                              then Then(Then(old(history), Asked(key)), WindowClosed(old(migrateFrom)))
                              else Then(old(history), Asked(key)), Served(key, r))
      ensures SourceSize() <= old(SourceSize()) && nominalCap == old(nominalCap)
    {
      hide OrderOK, RolesOK, Fresh, Ledger, ShadowCounts, Merge, LosesOnly, Within, AllLast, SampledSince, Totals;
      hide LastAdded, SourceSize;
      ghost var h, was := history, Logical();
      Locate(key);
      ghost var located := Logical();
      ValuesAsked(h, history, key);
      r := AnswerActive(key);
      WithinTrans(Logical(), located, was);
      RecordAnswer(key, r);
    }

    /** Every shadow that keeps what it is given holds key, except possibly one. */
    ghost predicate ShadowsHold(key: K, except: PolicyType)
      reads this`active, objs`entries, objs`cap
    {
      && ArmsOK()
      && forall p :: p in arms && p != active && p != except && arms[p].steady && arms[p].cap > 0 ==>
           key in arms[p].entries
    }

    /** Mirroring key into the source of an open window evicts nothing there. */
    ghost predicate SourceSpares(key: K)
      reads this`migrating, this`migrateFrom, objs`entries, objs`cap
      requires ArmsOK() && (migrating ==> migrateFrom in arms)
    {
      migrating ==>
        && arms[migrateFrom].steady
        && (sampled(key) ==> key in arms[migrateFrom].entries || |arms[migrateFrom].entries| < arms[migrateFrom].cap)
    }

    /** Every shadow gets a sampled key. */
    method MirrorToShadows(key: K)
      requires ArmsOK() && active in arms && RolesOK() && WindowOK() && ShadowCounts()
      modifies (objs - {arms[active]})`entries
      ensures RolesOK() && ShadowCounts()
      ensures Source() == old(Source()) || AddStep(old(Source()), Source(), key, zero)
      ensures old(SourceSpares(key)) ==> Source() == old(Source()) || Source() == old(Source())[key := zero]
      ensures sampled(key) ==> ShadowsHold(key, active)
    {
      hide RolesOK, ShadowCounts, OrderOK, Clean, EvidenceDue;
      if sampled(key) {
        MirrorAdd(arms, objs, active, key, zero);
        forall p | p in arms && !OnDuty(p) && Clean(old(arms[p].entries)) ensures Clean(arms[p].entries) {
          ZeroIsClean(old(arms[p].entries), arms[p].entries, key);
        }
      }
      RolesKept();
      CountsKept();
    }

    /** The first half of an Add: every shadow gets the key, and key is no longer to be migrated. */
    method AddToShadows(key: K)
      requires Valid()
      modifies this`pending, (objs - {arms[active]})`entries
      ensures RolesOK() && WindowOK() && ShadowCounts() && Ledger()
      ensures FreshOK() && pending == old(pending) - {key}
      ensures Within(Logical(), old(Logical()))
      ensures old(SourceSpares(key)) ==> Logical() == old(Logical()) - Withdrawn(old(pending), key)
      ensures sampled(key) ==> ShadowsHold(key, active)
      ensures SourceSize() <= old(SourceSize()) + 1
    {
      hide SourceSize, SourceSpares, ShadowsHold, AddStep;
      hide RolesOK, ShadowCounts, OrderOK, Ledger, Clean, Fresh, Merge, Within, PendingKept, EvidenceDue;
      ghost var act, src := arms[active].entries, Source();
      MirrorToShadows(key);
      if migrating {
        pending := pending - {key};
      }
      WriteKeepsPending(src, Source(), key, zero, pending);
      SourceGrows(key);
      WithinSelf(act);
      FreshShrinks(history, act, act, src, Source(), old(pending), pending);
      if old(SourceSpares(key)) {
        KeyWithdrawn(history, act, src, Source(), old(pending), key);
      }
    }

    /** The window's share of an Add: close it when nothing is pending, else drain one key. */
    method AdvanceWindow(ghost key: K) returns (ghost drained: K)
      requires Core() && FreshOK() && migrating
      modifies this`migrating, this`migrateFrom, this`queue, this`pending, this`history, this`strayed
      modifies {arms[active]}`entries, arms[migrateFrom]
      ensures Core() && FreshOK() && (migrating <==> pending != {})
      ensures history == if migrating then old(history) else Then(old(history), WindowClosed(old(migrateFrom)))
      ensures Within(Logical(), old(Logical()))
      ensures |queue| < |old(queue)| || queue == []
      ensures pending <= old(pending) && (migrating ==> migrateFrom == old(migrateFrom))
      ensures GainsOnly(arms[active].entries.Keys, old(arms[active].entries.Keys), drained, old(pending))
      ensures old(SteadyWindow()) && arms[active].cap > 0 ==>
        LosesOnly(Logical(), old(Logical()), old(arms[active].entries.Keys))
      ensures old(SteadyWindow() && HasRoom(1)) ==> Logical() == old(Logical())
      ensures SourceSize() <= old(SourceSize())
    {
      hide SourceSize, OrderOK, RolesOK, ShadowCounts, Ledger, Fresh, Merge, Within, LosesOnly, GainsOnly;
      WithinSelf(Logical());
      LosesNothing(Logical(), arms[active].entries.Keys);
      GainsNothing(arms[active].entries.Keys, key, pending);
      drained := key;
      if pending == {} {
        CloseEmptyWindow();
      } else {
        drained := DrainOneKey();
      }
    }

    /** A write enters the record. */
    method RecordChange(ghost e: Event<K, V>)
      requires e.Added? || e.Removed? || e.Purged? || e.Resized?
      requires ArmsOK() && active in arms && ShadowCounts() && Ledger() && ActiveCounts()
      modifies this`history
      ensures history == Then(old(history), e) && ShadowCounts() && Ledger() && ActiveCounts()
    {
      hide OrderOK, EvidenceDue, SampledSince, BeforeClose, Totals, Epochs, LastSwitch;
      EvidenceAfter(history, e, sampled);
      ClocksAfter(history, e);
      history := Then(history, e);
    }

    /** The second half of an Add: the active arm takes the value. */
    method StoreActive(key: K, value: V) returns (evicted: bool)
      requires Core() && FreshOK() && ActiveCounts() && (migrating <==> pending != {}) && key !in pending
      modifies this`history, {arms[active]}`entries
      ensures Valid() && history == Then(old(history), Added(key, value))
      ensures AddStep(old(Logical()), Logical(), key, value)
      ensures LosesOnly(Logical(), old(Logical()), old(arms[active].entries.Keys))
      ensures arms[active].steady && arms[active].cap > 0 ==> key in arms[active].entries && key in Logical()
      ensures arms[active].steady && (old(HasRoom(1)) || key in old(arms[active].entries)) ==>
        Logical() == old(Logical())[key := value]
      ensures arms[active].steady ==> (evicted <==> Drops(old(arms[active].entries), arms[active].entries))
      ensures SourceSize() == old(SourceSize())
    {
      hide RolesOK, ShadowCounts, OrderOK, Ledger, ActiveCounts, Clean, Fresh, Merge, EvidenceDue, Drops, LosesOnly;
      hide AddStep;
      ghost var act := arms[active].entries;
      evicted := arms[active].Add(key, value);
      RolesKept();
      CountsKept();
      ActiveKept();
      FreshAdded(history, act, arms[active].entries, Source(), pending, key, value);
      MergeHolds(arms[active].entries, Source(), pending, key);
      RecordChange(Added(key, value));
    }

    lemma MergeHolds(act: map<K, V>, src: map<K, V>, pending: set<K>, key: K)
      ensures key in act ==> key in Merge(act, src, pending)
    {
    }

    /** With steady arms, and room for what is mirrored and moved, an Add writes its own key and does nothing else. */
    ghost predicate Spares(key: K)
      reads this`active, this`migrating, this`migrateFrom, objs`entries, objs`cap
      requires ArmsOK() && active in arms && (migrating ==> migrateFrom in arms)
    {
      arms[active].steady && SourceSpares(key) && HasRoom(if migrating then 2 else 1)
    }

    /** Everything an Add does before the active arm takes the value. */
    method MakeWay(key: K) returns (ghost drained: K)
      requires Valid()
      modifies this`migrating, this`migrateFrom, this`queue, this`pending, this`history, this`strayed, objs
      ensures Core() && FreshOK() && ActiveCounts() && (migrating <==> pending != {}) && key !in pending
      ensures history == if old(migrating) && !migrating
                         then Then(old(history), WindowClosed(old(migrateFrom))) else old(history)
      ensures Within(Logical(), old(Logical()))
      ensures GainsOnly(arms[active].entries.Keys, old(arms[active].entries.Keys), drained, old(pending))
      ensures old(SourceSpares(key)) && arms[active].steady && arms[active].cap > 0 ==>
        LosesOnly(Logical(), old(Logical()) - Withdrawn(old(pending), key), old(arms[active].entries.Keys))
      ensures old(Spares(key)) ==> HasRoom(1) && Logical() == old(Logical()) - Withdrawn(old(pending), key)
      ensures !old(migrating) ==> arms[active].entries == old(arms[active].entries)
      ensures old(migrating) ==> |queue| < |old(queue)|
      ensures pending <= old(pending) - {key} && (migrating ==> migrateFrom == old(migrateFrom))
      ensures sampled(key) ==> ShadowsHold(key, if old(migrating) then old(migrateFrom) else active)
      ensures arms[active].cap == old(arms[active].cap)
      ensures SourceSize() <= old(SourceSize()) + 1
    {
      hide SourceSize, OrderOK, RolesOK, ShadowCounts, Ledger, Fresh, Merge, Within, LosesOnly, GainsOnly;
      hide ActiveCounts, Withdrawn;
      assert migrating ==> |queue| > 0;
      ghost var was, act := Logical(), arms[active].entries;
      AddToShadows(key);
      ghost var shadowed, left := Logical(), pending;
      drained := key;
      WithinSelf(shadowed);
      LosesNothing(shadowed, act.Keys);
      GainsNothing(act.Keys, key, old(pending));
      if migrating {
        drained := AdvanceWindow(key);
        GainsMore(arms[active].entries.Keys, act.Keys, drained, left, old(pending));
      }
      ActiveSettled();
      WithinTrans(Logical(), shadowed, was);
      GainsOne(arms[active].entries, act, drained, old(pending));
    }

    /** What an Add or a Remove of key takes out of the window. */
    static ghost function Withdrawn(pending: set<K>, key: K): set<K> {
      if key in pending then {key} else {}
    }

    /**
     Nothing is lost but keys the active arm held before, or held when it took the value;
     all it gained in between is the one pending key drained.
     */
    ghost predicate AbandonsNone(after: map<K, V>, before: map<K, V>, act: set<K>, held: set<K>, drained: K,
                                 pending: set<K>) {
      LosesOnly(after, before, act + held) && GainsOnly(held, act, drained, pending)
    }

    /**
     The value becomes the last one added. During a window every Add shortens the
     queue, so a window lasts at most as many Adds as keys it started with. With steady
     arms no pending key is abandoned, and with room an Add changes nothing else.
     Also returned: the keys the active arm held when it took the value, and the key drained.
     */
    method Add(key: K, value: V) returns (evicted: bool, ghost held: set<K>, ghost drained: K)
      requires Valid()
      modifies this, objs
      ensures Valid() && active == old(active)
      ensures LastAdded(history, key) == Some(value)
      ensures forall k :: k != key ==> LastAdded(history, k) == LastAdded(old(history), k)
      ensures AddStep(old(Logical()), Logical(), key, value)
      ensures old(arms[active].steady && arms[active].cap > 0 && SourceSpares(key)) ==>
        AbandonsNone(Logical(), old(Logical()), old(arms[active].entries.Keys), held, drained, old(pending))
      ensures old(Spares(key)) ==> Logical() == old(Logical())[key := value]
      ensures arms[active].steady && arms[active].cap > 0 ==> key in arms[active].entries
      ensures old(migrating) ==> |queue| < |old(queue)|
      ensures pending <= old(pending) - {key} && (migrating ==> migrateFrom == old(migrateFrom))
      ensures sampled(key) ==> ShadowsHold(key, if old(migrating) then old(migrateFrom) else active)
      ensures !old(migrating) && arms[active].steady ==>
        (evicted <==> Drops(old(arms[active].entries), arms[active].entries))
      ensures history == Then(if old(migrating) && !migrating
                              then Then(old(history), WindowClosed(old(migrateFrom))) else old(history),
                              Added(key, value))
      ensures SourceSize() <= old(SourceSize()) + 1 && nominalCap == old(nominalCap)
    {
      hide SourceSize, OrderOK, RolesOK, ShadowCounts, Ledger, Fresh, Merge, Within, LosesOnly, Drops, AddStep;
      hide AbandonsNone;
      hide GainsOnly;
      hide ActiveCounts;
      ghost var was, act, taken := Logical(), arms[active].entries.Keys, Withdrawn(pending, key);
      drained := MakeWay(key);
      ghost var moved := Logical();
      held := arms[active].entries.Keys;
      evicted := StoreActive(key, value);
      AddSteps(was, moved, Logical(), key, value);
      if old(arms[active].steady && arms[active].cap > 0 && SourceSpares(key)) {
        AddLost(was, moved, Logical(), taken, key, act, held, drained, old(pending));
      }
      if old(Spares(key)) {
        AddExact(was, moved, Logical(), taken, key, value);
      }
    }

    /** The losses of an Add's steps, taken together. */
    lemma AddLost(was: map<K, V>, moved: map<K, V>, now: map<K, V>, taken: set<K>, key: K, act: set<K>, held: set<K>,
                  drained: K, pending: set<K>)
      requires taken <= {key} && key in now && GainsOnly(held, act, drained, pending)
      requires LosesOnly(moved, was - taken, act) && LosesOnly(now, moved, held)
      ensures AbandonsNone(now, was, act, held, drained, pending)
    {
    }

    lemma AddSteps(was: map<K, V>, moved: map<K, V>, now: map<K, V>, key: K, value: V)
      requires Within(moved, was) && AddStep(moved, now, key, value)
      ensures AddStep(was, now, key, value)
    {
    }

    lemma AddExact(was: map<K, V>, moved: map<K, V>, now: map<K, V>, taken: set<K>, key: K, value: V)
      requires moved == was - taken && taken <= {key} && now == moved[key := value]
      ensures now == was[key := value]
    {
    }

    /** The first half of a Remove: no shadow holds key, and key is no longer to be migrated. */
    method RemoveFromShadows(key: K)
      requires Valid()
      modifies this`pending, (objs - {arms[active]})`entries
      ensures RolesOK() && WindowOK() && ShadowCounts() && Ledger()
      ensures FreshOK() && pending == old(pending) - {key}
      ensures Within(Logical(), old(Logical()))
      ensures old(migrating ==> arms[migrateFrom].steady) ==>
        Logical() == old(Logical()) - Withdrawn(old(pending), key)
      ensures forall p :: p in arms && p != active ==> key !in arms[p].entries
      ensures SourceSize() <= old(SourceSize())
    {
      hide SourceSize, RolesOK, ShadowCounts, OrderOK, Ledger, Clean, Fresh, Merge, Within, PendingKept, EvidenceDue;
      ghost var act, src := arms[active].entries, Source();
      MirrorRemove(arms, objs, active, key);
      forall p | p in arms && !OnDuty(p) && Clean(old(arms[p].entries)) ensures Clean(arms[p].entries) {
        PartIsClean(old(arms[p].entries), arms[p].entries);
      }
      if migrating {
        pending := pending - {key};
      }
      RolesKept();
      CountsKept();
      PartKeepsPending(src, Source(), pending);
      SourceShrinks();
      WithinSelf(act);
      FreshShrinks(history, act, act, src, Source(), old(pending), pending);
      if old(migrating ==> arms[migrateFrom].steady) {
        KeyWithdrawn(history, act, src, Source(), old(pending), key);
      }
    }

    /** The second half of a Remove: the active arm lets key go. */
    method ForgetActive(key: K) returns (present: bool)
      requires Core() && FreshOK() && ActiveCounts() && (migrating <==> pending != {}) && key !in pending
      modifies this`history, {arms[active]}`entries
      ensures Valid() && history == Then(old(history), Removed(key))
      ensures Within(Logical(), old(Logical())) && key !in Logical() && key !in arms[active].entries
      ensures arms[active].steady ==>
        (present <==> key in old(arms[active].entries)) && Logical() == old(Logical()) - {key}
      ensures SourceSize() == old(SourceSize())
    {
      hide RolesOK, ShadowCounts, OrderOK, Ledger, ActiveCounts, Clean, Fresh, Merge, EvidenceDue;
      ghost var act := arms[active].entries;
      present := arms[active].Remove(key);
      RolesKept();
      CountsKept();
      ActiveKept();
      FreshRemoved(history, act, arms[active].entries, Source(), pending, key);
      RecordChange(Removed(key));
    }

    /** With steady arms exactly the key goes from what can be served. */
    method Remove(key: K) returns (present: bool)
      requires Valid()
      modifies this, objs
      ensures Valid() && active == old(active)
      ensures LastAdded(history, key) == None && forall p :: p in arms ==> key !in arms[p].entries
      ensures forall k :: k != key ==> LastAdded(history, k) == LastAdded(old(history), k)
      ensures arms[active].steady ==> (present <==> key in old(arms[active].entries))
      ensures Within(Logical(), old(Logical()))
      ensures old(arms[active].steady && (migrating ==> arms[migrateFrom].steady)) ==>
        Logical() == old(Logical()) - {key}
      ensures queue == (if migrating then old(queue) else []) && pending == old(pending) - {key}
      ensures migrating ==> migrateFrom == old(migrateFrom)
      ensures history == Then(if old(migrating) && !migrating
                              then Then(old(history), WindowClosed(old(migrateFrom))) else old(history), Removed(key))
      ensures SourceSize() <= old(SourceSize()) && nominalCap == old(nominalCap)
    {
      hide SourceSize, OrderOK, RolesOK, ShadowCounts, Ledger, Fresh, Merge, Within, LastAdded, ActiveCounts;
      ghost var was, h := Logical(), history;
      RemoveFromShadows(key);
      ghost var shadowed := Logical();
      if migrating && pending == {} {
        CloseEmptyWindow();
      }
      ActiveSettled();
      ghost var mid := history;
      present := ForgetActive(key);
      ValuesRemoved(h, mid, key);
      WithinTrans(Logical(), shadowed, was);
    }

    /** Every arm emptied, and the purge recorded; the window is still to be closed. */
    method EmptyArms()
      requires Valid()
      modifies this`history, objs`entries
      ensures Core() && ActiveCounts()
      ensures forall p :: p in arms ==> arms[p].entries == map[]
      ensures history == Then(old(history), Purged)
    {
      hide RolesOK, ShadowCounts, OrderOK, Ledger, ActiveCounts, Clean, Fresh, EvidenceDue;
      PurgeEach(arms, objs);
      forall p | p in arms && !OnDuty(p) && Clean(old(arms[p].entries)) ensures Clean(arms[p].entries) {
        NothingIsClean();
      }
      RolesKept();
      CountsKept();
      ActiveKept();
      RecordChange(Purged);
    }

    lemma NothingIsClean()
      ensures Clean(map[])
    {
    }

    /** A cache with an empty active arm and no window serves nothing. */
    lemma NothingServed()
      requires ArmsOK() && active in arms && arms[active].entries.Keys == {} && !migrating && pending == {}
      ensures FreshOK() && Logical() == map[] && SourceSize() == 0
    {
    }

    /** The window closes over empty arms. */
    method EndPurge()
      requires Core() && ActiveCounts() && forall p :: p in arms ==> arms[p].entries == map[]
      modifies this`migrating, this`migrateFrom, this`queue, this`pending, this`history, this`strayed
      modifies if migrating && migrateFrom in arms then {arms[migrateFrom]} else {}
      ensures Valid() && !migrating && SourceSize() == 0 && Logical() == map[]
      ensures forall p :: p in arms ==> arms[p].entries.Keys == {}
      ensures history == if old(migrating) then Then(old(history), WindowClosed(old(migrateFrom))) else old(history)
    {
      hide *;
      CoreTells();
      CloseMigrationLocked();
      CoreTells();
      WindowTells();
      ActiveSettled();
      NothingServed();
      IsValid();
    }

    method Purge()
      requires Valid()
      modifies this, objs
      ensures Valid() && active == old(active) && !migrating
      ensures forall p :: p in arms ==> arms[p].entries.Keys == {}
      ensures SourceSize() == 0 && Logical() == map[] && forall k :: LastAdded(history, k) == None
      ensures history == if old(migrating)
                         then Then(Then(old(history), Purged), WindowClosed(old(migrateFrom)))
                         else Then(old(history), Purged)
      ensures nominalCap == old(nominalCap)
    {
      hide *;
      ValidTells();
      CoreTells();
      ArmsTell();
      EmptyArms();
      EndPurge();
      ValuesPurged(old(history), history);
    }

    ghost predicate AllSteady() {
      forall p :: p in arms ==> arms[p].steady
    }

    /** Every arm gets the capacity its role asks for, and both capacities are put on record. */
    method ResizeArms(size: int) returns (evicted: nat)
      requires ArmsOK() && OnRecord()
      modifies this`nominalCap, this`shadowCap, objs`entries, objs`cap
      ensures OnRecord()
      ensures forall p :: p in arms ==> nominalCap[p] == size && shadowCap[p] == ScaledCapacity(size, rate)
      ensures forall p :: p in arms ==>
        && arms[p].cap == Target(p, active, migrating, migrateFrom, size, ScaledCapacity(size, rate))
        && Within(arms[p].entries, old(arms[p].entries)) && Roomed(arms[p])
      ensures AllSteady() ==> evicted + Held(arms, objs) == old(Held(arms, objs))
    {
      hide OrderOK, ScaledCapacity, Within, Target, Held, Roomed;
      evicted, nominalCap, shadowCap :=
        ResizeAll(arms, objs, active, migrating, migrateFrom, size, ScaledCapacity(size, rate), nominalCap, shadowCap);
      hide Booked;
      BookedAll(nominalCap, shadowCap, arms, size, ScaledCapacity(size, rate));
    }

    twostate lemma RolesResized(size: int)
      requires old(RolesOK()) && unchanged(`active, `migrating, `migrateFrom, `strayed) && OnRecord()
      requires forall p :: p in arms ==> nominalCap[p] == size && shadowCap[p] == ScaledCapacity(size, rate)
      requires forall p :: p in arms ==>
        && arms[p].cap == Target(p, active, migrating, migrateFrom, size, ScaledCapacity(size, rate))
        && Within(arms[p].entries, old(arms[p].entries))
      ensures RolesOK()
    {
      hide ScaledCapacity, CapsAgree, Clean, Within;
      MiniatureAgrees(size);
      forall p | p in arms && !Stray(p) && !OnDuty(p) ensures Clean(arms[p].entries) {
        PartIsClean(old(arms[p].entries), arms[p].entries);
      }
    }

    lemma MiniatureAgrees(size: int)
      requires ArmsOK()
      ensures CapsAgree(size, ScaledCapacity(size, rate), rate)
    {
      if size > 0 {
        ScaledSimulates(size, rate);
      }
    }

    /** Resizing keeps every arm in its role, also during a window and down to nothing. */
    method Resize(size: int) returns (evicted: nat)
      requires Valid()
      modifies this, objs
      ensures Valid() && active == old(active)
      ensures unchanged(`migrating, `migrateFrom, `queue, `pending)
      ensures Within(Logical(), old(Logical()))
      ensures forall p :: p in arms ==>
        nominalCap[p] == size && shadowCap[p] == ScaledCapacity(size, rate) && Roomed(arms[p])
      ensures history == Then(old(history), Resized(size))
      ensures AllSteady() ==> evicted + Held(arms, objs) == old(Held(arms, objs))
    {
      hide ActiveCounts, RolesOK, ShadowCounts, Ledger, ScaledCapacity, Held, Fresh, Merge, Within;
      evicted := ResizeInRole(size);
      FreshSilent(history, Resized(size), arms[active].entries, Source(), pending);
      RecordChange(Resized(size));
    }

    /** The capacities change; every arm stays in its role. */
    method ResizeInRole(size: int) returns (evicted: nat)
      requires Valid()
      modifies this`nominalCap, this`shadowCap, objs`entries, objs`cap
      ensures RolesOK() && WindowOK() && ShadowCounts() && Ledger() && FreshOK() && ActiveCounts()
      ensures Within(Logical(), old(Logical()))
      ensures forall p :: p in arms ==>
        nominalCap[p] == size && shadowCap[p] == ScaledCapacity(size, rate) && Roomed(arms[p])
      ensures AllSteady() ==> evicted + Held(arms, objs) == old(Held(arms, objs))
    {
      hide OrderOK, RolesOK, ShadowCounts, ScaledCapacity, EvidenceDue, LastAdded, Ledger, Held, Summed, Target, Roomed;
      hide Fresh, Merge, Within, PendingKept;
      RolesRecorded();
      ghost var act, src := arms[active].entries, Source();
      evicted := ResizeArms(size);
      RolesResized(size);
      CountsKept();
      PartKeepsPending(src, Source(), pending);
      FreshShrinks(history, act, arms[active].entries, src, Source(), pending, pending);
    }

    /** Everything served since construction, whatever epochs and switches lie between. */
    method GetStats() returns (s: Stats)
      requires Valid()
      ensures s == Totals(history)
    {
      var ps := arms[active].GetStats();
      s := Stats(globalStats.hits + ps.hits, globalStats.misses + ps.misses);
    }

    /** A peek, too, shows nothing but the value last added. */
    method Peek(key: K) returns (r: Option<V>)
      requires Valid()
      modifies {arms[active]}`entries
      ensures Valid()
      ensures r.Some? ==> LastAdded(history, key) == r
      ensures arms[active].steady ==> r == Lookup(old(arms[active].entries), key)
      ensures SourceSize() == old(SourceSize()) && (arms[active].steady ==> Logical() == old(Logical()))
    {
      hide RolesOK, ShadowCounts, OrderOK, Ledger, ActiveCounts, Clean, Fresh, Merge, Within, PendingKept;
      ghost var act, src := arms[active].entries, Source();
      r := arms[active].Peek(key);
      RolesKept();
      CountsKept();
      ActiveKept();
      PartKeepsPending(src, Source(), pending);
      FreshShrinks(history, act, arms[active].entries, src, Source(), pending, pending);
      FreshActive(history, arms[active].entries, Source(), pending);
    }

    // ------------------------------------------------------------------------ epochs

    /** Restores an arm to its full capacity before it takes over. */
    method PromoteLockedCapacity(p: PolicyType)
      requires Core() && !migrating && p in arms && p != active
      modifies {arms[p]}`entries, {arms[p]}`cap
      ensures arms[p].cap == nominalCap[p]
    {
      hide Simulates, OrderOK, Clean;
      if nominalCap[p] > 0 && arms[p].cap != nominalCap[p] {
        var _ := arms[p].Resize(nominalCap[p]);
      }
    }

    /** Fills the arm to from the active one, as the strategy says; the target starts empty. */
    method MigrateData(to: PolicyType)
      requires ArmsOK() && active in arms && to in arms && to != active
      modifies this`migrating, this`migrateFrom, this`queue, this`pending, {arms[to], arms[active]}`entries
      ensures Within(arms[active].entries, old(arms[active].entries))
      ensures Within(arms[to].entries, old(arms[active].entries))
      ensures settings.migrationStrategy == GRADUAL || settings.migrationStrategy == WARM || arms[to].entries == map[]
      ensures migrating <==> pending != {}
      ensures migrating ==> settings.migrationStrategy == GRADUAL && migrateFrom == active && arms[to].entries == map[]
      ensures migrating ==> pending == arms[active].entries.Keys && forall k :: k in pending ==> k in queue
      ensures !migrating ==> migrateFrom == UNDEFINED && queue == []
      ensures settings.migrationStrategy == WARM && old(CopyFits(to)) ==> arms[to].entries == old(arms[active].entries)
      ensures settings.migrationStrategy == GRADUAL && arms[active].steady ==>
        arms[active].entries == old(arms[active].entries) && (migrating || arms[active].entries == map[])
    {
      hide OrderOK;
      ClearMigrationState();
      arms[to].Purge();
      if settings.migrationStrategy == WARM {
        CopyEntries(arms[active], arms[to]);
      } else if settings.migrationStrategy == GRADUAL {
        var keys := arms[active].Keys();
        if |keys| > 0 {
          assert keys[0] in arms[active].entries;
          migrating, migrateFrom, queue := true, active, keys;
          pending := set k | k in keys;
          assert keys[0] in pending;
        } else {
          assert arms[active].entries.Keys == {};
        }
      }
    }

    /** Both arms evict only to make room, and the target has room for everything. */
    ghost predicate CopyFits(to: PolicyType)
      reads this`active, objs`entries, objs`cap
      requires ArmsOK() && active in arms && to in arms
    {
      arms[active].steady && arms[to].steady && |arms[active].entries| <= arms[to].cap
    }

    /** Right after a report: nothing has been counted yet. */
    ghost predicate NothingCounted()
      reads this`history, objs`hits, objs`misses
    {
      && ArmsOK() && SampledSince(history, sampled) == 0
      && forall p :: p in arms ==> arms[p].hits == 0 && arms[p].misses == 0
    }

    /** The roles while the arm to is about to take over: it runs at full size, and so does the active one. */
    ghost predicate RolesFor(to: PolicyType)
      reads this`active, this`nominalCap, this`shadowCap, this`strayed, objs`entries, objs`cap
    {
      && ArmsOK() && active in arms && to in arms && to != active && OnRecord()
      && (forall p :: p in arms ==> CapsAgree(nominalCap[p], shadowCap[p], rate))
      && (forall p :: p in arms && (p == active || p == to) ==> arms[p].cap == nominalCap[p])
      && (forall p :: p in arms && p != active && p != to && !(strayed && p == UNDEFINED) ==>
            arms[p].cap == shadowCap[p] && Clean(arms[p].entries))
      && (forall p :: p in arms ==> arms[p].cap == nominalCap[p] || arms[p].cap == shadowCap[p])
    }

    twostate lemma RolesPrepared(to: PolicyType)
      requires old(RolesOK()) && !old(migrating) && unchanged(`active, `nominalCap, `shadowCap, `strayed)
      requires active in arms && to in arms && to != active && arms[to].cap == nominalCap[to]
      requires forall p :: p in arms && p != to ==> arms[p].cap == old(arms[p].cap)
      requires forall p :: p in arms && p != to && p != active ==> arms[p].entries == old(arms[p].entries)
      ensures RolesFor(to)
    {
      hide OrderOK, CapsAgree, Clean;
    }

    /** What of the active arm is still to be migrated, if a window has been opened. */
    ghost function Waiting(): map<K, V>
      reads this`active, this`migrating, objs`entries
      requires ArmsOK() && active in arms
    {
      if migrating then arms[active].entries else map[]
    }

    /** The incoming arm is at full size and filled, and nothing else has changed. */
    ghost predicate Prepared(to: PolicyType)
      reads this, objs
    {
      && RolesFor(to)
      && AllLast(history, arms[active].entries) && AllLast(history, arms[to].entries)
      && (migrating <==> pending != {})
      && (migrating ==> settings.migrationStrategy == GRADUAL && migrateFrom == active && arms[to].entries == map[])
      && (migrating ==> forall k :: k in pending ==> k in queue)
      && (!migrating ==> migrateFrom == UNDEFINED && queue == [])
    }

    /** What callers will see once the arm to has taken over. */
    ghost function Offered(to: PolicyType): map<K, V>
      reads this`active, this`migrating, this`pending, objs`entries
      requires ArmsOK() && active in arms && to in arms
    {
      Merge(arms[to].entries, Waiting(), pending)
    }

    /**
     What callers see after a switch, given what the outgoing arm held: all of it after a
     warm switch into an arm it fits in, and after a gradual one from an arm that keeps what
     it is given; never anything else; and nothing after any other strategy.
     */
    ghost predicate CarriedOver(now: map<K, V>, was: map<K, V>, fits: bool, steady: bool) {
      && Within(now, was)
      && (settings.migrationStrategy == WARM && fits ==> now == was)
      && (settings.migrationStrategy == GRADUAL && steady ==> now == was)
      && (settings.migrationStrategy != WARM && settings.migrationStrategy != GRADUAL ==> now == map[])
    }

    /** A gradual switch opens a window over exactly the outgoing arm's keys, unless it has none. */
    ghost predicate OpenedOver(was: map<K, V>, steady: bool)
      reads this`migrating, this`pending
    {
      settings.migrationStrategy == GRADUAL && steady ==>
        (migrating <==> was.Keys != {}) && (migrating ==> pending == was.Keys)
    }

    /** The target can take everything the active arm holds. */
    ghost predicate Fits(to: PolicyType)
      reads this`active, this`nominalCap, objs`entries
      requires ArmsOK() && active in arms
    {
      && to in arms && to in nominalCap
      && arms[active].steady && arms[to].steady && |arms[active].entries| <= nominalCap[to]
    }

    method PrepareIncoming(to: PolicyType)
      requires Core() && FreshOK() && !migrating && to in arms && to != active
      modifies this`migrating, this`migrateFrom, this`queue, this`pending
      modifies {arms[to], arms[active]}`entries, {arms[to]}`cap
      ensures Prepared(to) && (migrating ==> settings.migrationStrategy == GRADUAL && migrateFrom == active)
      ensures CarriedOver(Offered(to), old(arms[active].entries), old(Fits(to)), arms[active].steady)
      ensures OpenedOver(old(arms[active].entries), arms[active].steady)
    {
      hide RolesOK, OrderOK, ShadowCounts, Ledger, AllLast, Merge, Fresh, Within;
      RolesRecorded();
      ghost var was := arms[active].entries;
      FreshActive(history, was, Source(), pending);
      PromoteLockedCapacity(to);
      MigrateData(to);
      RolesPrepared(to);
      PartLast(history, arms[active].entries, was);
      PartLast(history, arms[to].entries, was);
      MergedParts(arms[to].entries, arms[active].entries, was);
    }

    lemma NothingTells()
      requires NothingCounted()
      ensures SampledSince(history, sampled) == 0
      ensures forall p :: p in arms ==> arms[p].hits == 0 && arms[p].misses == 0
    {
    }

    /** No shadow has counted anything if no sampled request was made. */
    lemma StillNothing()
      requires Core() && SampledSince(history, sampled) == 0 && arms[active].hits == 0 && arms[active].misses == 0
      ensures NothingCounted()
    {
      forall p | p in arms && p != active ensures arms[p].hits == 0 && arms[p].misses == 0 {
        NoneDue(history);
        assert arms[p].Total() == 0;
      }
    }

    twostate lemma RolesTaken(to: PolicyType)
      requires old(RolesFor(to)) && active == to && unchanged(`nominalCap, `shadowCap, `migrating, `strayed)
      requires migrating ==> migrateFrom == old(active)
      requires forall p :: p in arms && p != old(active) ==>
        arms[p].cap == old(arms[p].cap) && arms[p].entries == old(arms[p].entries)
      requires old(active) in arms && old(active) in shadowCap
      requires arms[old(active)].cap ==
        if migrating || shadowCap[old(active)] <= 0 then old(arms[active].cap) else shadowCap[old(active)]
      requires !migrating ==> Clean(arms[old(active)].entries)
      ensures RolesOK()
    {
      hide OrderOK, Clean, Simulates;
    }

    lemma PreparedTells(to: PolicyType)
      requires Prepared(to)
      ensures RolesFor(to)
      ensures ArmsOK() && active in arms && to in arms && to != active && OnRecord() && arms[to] in objs
      ensures arms[active] != arms[to]
    {
    }

    /** The window, if one was opened, is in order once the incoming arm is active. */
    twostate lemma WindowTaken(to: PolicyType)
      requires old(Prepared(to)) && active == to && unchanged(`migrating, `migrateFrom, `queue, `pending)
      ensures WindowOK() && (migrating <==> pending != {}) && (migrating ==> migrateFrom == old(active))
    {
    }

    /** What has just been reported leaves every count at zero, whoever is active. */
    twostate lemma CountsTaken()
      requires ArmsOK() && active in arms && old(active) in arms
      requires old(NothingCounted()) && old(Ledger()) && old(ActiveCounts())
      requires unchanged(`history, `epochID, `lastSwitchEpoch, `strayed, `globalStats, `activeHits, `activeMisses)
      requires forall p :: p in arms ==> arms[p].hits == 0 && arms[p].misses == 0
      ensures NothingCounted() && ShadowCounts() && Ledger() && ActiveCounts()
    {
      hide OrderOK, EvidenceDue, SampledSince, BeforeClose, Sound, Totals, Epochs, LastSwitch, Strayed;
      NoneDue(history);
    }

    /** Without a sampled request nothing is due to anyone. */
    lemma NoneDue(h: History<K, V>)
      requires Sound(h, arms.Keys, sampled, settings) && SampledSince(h, sampled) == 0
      ensures BeforeClose(h, sampled) == 0 && forall p :: EvidenceDue(h, p, sampled) == 0
    {
      EqualEvidence(h, arms.Keys, sampled, settings);
      assert EvidenceDue(h, Lagging(h), sampled) >= 0;
    }

    /** What the incoming arm offered is what callers see once it is active. */
    twostate lemma FreshTaken(to: PolicyType)
      requires ArmsOK() && to in arms && old(active) in arms && to != old(active)
      requires old(Prepared(to)) && active == to && unchanged(`history, `migrating, `migrateFrom, `pending)
      requires arms[to].entries == old(arms[to].entries)
      requires migrating ==> arms[old(active)].entries == old(arms[active].entries)
      ensures FreshOK() && Logical() == old(Offered(to))
    {
      hide OrderOK, RolesFor, AllLast, Fresh, Merge, NothingCounted;
      NothingIsLast(history);
      OpenedFresh(history, arms[to].entries, Source(), pending);
    }

    method TakeOver(to: PolicyType)
      requires Prepared(to)
      modifies this`active, arms[active]
      ensures ArmsOK() && active in arms && active == to && RolesOK() && WindowOK()
      ensures migrating ==> migrateFrom == old(active) && migrateFrom in arms
      ensures FreshOK() && (migrating <==> pending != {}) && Logical() == old(Offered(to))
      ensures forall p :: p in arms ==> arms[p].hits <= old(arms[p].hits) && arms[p].misses <= old(arms[p].misses)
    {
      hide *;
      PreparedTells(to);
      RoledFor(to);
      var from := active;
      active := to;
      if !migrating {
        DemoteLocked(from);
      }
      WindowTaken(to);
      RolesTaken(to);
      FreshTaken(to);
    }

    lemma RoledFor(to: PolicyType)
      requires RolesFor(to)
      ensures ArmsOK() && active in arms && to in arms && to != active && OnRecord()
    {
    }

    /** Closes the window of an earlier epoch; between operations nothing else is open. */
    method CloseOldWindow()
      requires Valid()
      modifies this`migrating, this`migrateFrom, this`queue, this`pending, this`history, this`strayed
      modifies if migrating && migrateFrom in arms then {arms[migrateFrom]} else {}
      ensures Valid() && !migrating && Within(Logical(), old(Logical()))
      ensures unchanged(arms[active]) && Logical() == arms[active].entries
      ensures history == if old(migrating) then Then(old(history), WindowClosed(old(migrateFrom))) else old(history)
      ensures RolesAfterClosing()
      ensures forall p :: Fits(p) <==> old(Fits(p))
    {
      hide RolesAfterClosing, OrderOK, RolesOK, ShadowCounts, Ledger, Fresh, Merge, Within;
      NothingToMerge(arms[active].entries, {});
      FreshClosed(history, migrateFrom, arms[active].entries, Source(), pending);
      CloseMigrationLocked();
    }

    /**
     A switch with no window open. The incoming arm is resized and filled while it is not
     active; the outgoing one loses its values only once it is no longer active, or when the
     window that still needs them closes. The counts stay in order if they have just been
     reported; the outgoing arm's would be lost.
     */
    method Install(to: PolicyType)
      requires Valid() && !migrating && to in arms && to != active
      modifies this`active, this`migrating, this`migrateFrom, this`queue, this`pending, arms[to], arms[active]
      ensures ArmsOK() && active in arms && active == to && RolesOK() && WindowOK()
      ensures migrating ==> migrateFrom == old(active) && migrateFrom in arms && settings.migrationStrategy == GRADUAL
      ensures FreshOK() && (migrating <==> pending != {})
      ensures CarriedOver(Logical(), old(arms[active].entries), old(Fits(to)), old(arms[active].steady))
      ensures OpenedOver(old(arms[active].entries), old(arms[active].steady))
      ensures old(NothingCounted()) ==> Valid() && NothingCounted()
    {
      hide *;
      ValidTells();
      CoreTells();
      ArmsTell();
      ghost var silent := NothingCounted();
      if silent {
        NothingTells();
      }
      PrepareIncoming(to);
      TakeOver(to);
      if silent {
        CountsTaken();
        IsCore();
        IsValid();
      }
    }

    /** The whole switch: any window of an earlier one is abandoned first. */
    method SwitchLocked(to: PolicyType)
      requires Valid() && to in arms && to != active
      modifies this`active, this`migrating, this`migrateFrom, this`queue, this`pending, this`history, this`strayed, objs
      ensures ArmsOK() && active in arms && active == to && RolesOK() && WindowOK()
      ensures migrating ==> migrateFrom == old(active) && migrateFrom in arms && settings.migrationStrategy == GRADUAL
      ensures FreshOK() && (migrating <==> pending != {})
      ensures history == if old(migrating) then Then(old(history), WindowClosed(old(migrateFrom))) else old(history)
      ensures CarriedOver(Logical(), old(arms[active].entries), old(Fits(to)), old(arms[active].steady))
      ensures OpenedOver(old(arms[active].entries), old(arms[active].steady))
      ensures old(NothingCounted()) ==> Valid() && NothingCounted()
    {
      hide *;
      ValidTells();
      CoreTells();
      ArmsTell();
      ghost var silent := NothingCounted();
      if silent {
        NothingTells();
      }
      EvidenceAfter(history, WindowClosed(migrateFrom), sampled);
      CloseOldWindow();
      ValidTells();
      if silent {
        StillNothing();
      }
      Install(to);
    }

    // --------------------------------------------------------------- reporting

    /** Collects every arm once, in order. */
    method CollectAll()
      requires ArmsOK() && active in arms
      modifies this`globalStats, this`activeHits, this`activeMisses, this`epochStats, objs`hits, objs`misses
      ensures forall p :: p in arms ==> arms[p].hits == 0 && arms[p].misses == 0
      ensures epochStats.Keys == arms.Keys && forall p :: p in arms ==>
        epochStats[p] == Due(p, active, old(activeHits), old(activeMisses), old(Stats(arms[p].hits, arms[p].misses)))
      ensures activeHits == 0 && activeMisses == 0
      ensures globalStats == old(Stats(globalStats.hits + arms[active].hits, globalStats.misses + arms[active].misses))
    {
      hide NoDuplicates, Due;
      var after;
      epochStats, after := CollectEach(arms, objs, order, active, Tally(globalStats, activeHits, activeMisses));
      globalStats, activeHits, activeMisses := after.global, after.hits, after.misses;
    }

    /** What each arm is due is what it has counted, the active one for the sample. */
    twostate lemma ReportIsFair()
      requires old(Valid()) && unchanged(`active, `history) && epochStats.Keys == arms.Keys
      requires forall p :: p in arms ==>
        epochStats[p] == Due(p, active, old(activeHits), old(activeMisses), old(Stats(arms[p].hits, arms[p].misses)))
      ensures FairReport(history, epochStats, arms.Keys, sampled)
    {
      hide RolesOK, FreshOK, WindowOK, OrderOK;
    }

    /** The report enters the record. */
    method RecordReport()
      requires ArmsOK() && active in arms && RolesOK() && WindowOK() && FreshOK() && Ledger() && !migrating
      requires forall p :: p in arms ==> arms[p].hits == 0 && arms[p].misses == 0
      requires Totals(history) == globalStats && activeHits == 0 && activeMisses == 0
      requires FairReport(history, epochStats, arms.Keys, sampled)
      modifies this`history
      ensures Valid() && NothingCounted() && history == Then(old(history), Reported(active, epochStats))
    {
      hide RolesOK, OrderOK, FairReport, EvidenceDue, SampledSince, BeforeClose, Totals, Epochs, LastSwitch, Fresh;
      ghost var e: Event<K, V> := Reported(active, epochStats);
      EvidenceAfter(history, e, sampled);
      ClocksAfter(history, e);
      FreshSilent(history, e, arms[active].entries, Source(), pending);
      history := Then(history, e);
    }

    /** Reports every arm and starts counting afresh. */
    method ReportEpoch()
      requires Valid() && !migrating
      modifies this`globalStats, this`activeHits, this`activeMisses, this`epochStats, this`history
      modifies objs`hits, objs`misses
      ensures Valid() && NothingCounted() && Logical() == old(Logical())
      ensures history == Then(old(history), Reported(active, epochStats)) && epochStats.Keys == arms.Keys
    {
      hide RolesOK, OrderOK, Ledger, ShadowCounts, Fresh, FairReport, Merge, Due;
      CollectAll();
      RolesKept();
      ReportIsFair();
      RecordReport();
    }

    // --------------------------------------------------------------- the epoch step

    /** The active arm holds as many entries as it has room for. */
    ghost predicate Filled()
      reads this`active, objs`entries, objs`cap
      requires ArmsOK() && active in arms
    {
      |arms[active].entries| == arms[active].cap
    }

    /** The capacity gate: a cache that is not full yet, unless it may switch early or only observes. */
    method HeldBack() returns (held: bool)
      requires ArmsOK() && active in arms
      ensures settings.observeOnly || settings.evictPartialCapacityFilling ==> !held
      ensures arms[active].steady ==>
        (held <==> !settings.observeOnly && !settings.evictPartialCapacityFilling && !Filled())
    {
      held := false;
      if !settings.observeOnly && !settings.evictPartialCapacityFilling {
        var n := arms[active].Len();
        held := n != arms[active].cap;
      }
    }

    /** An epoch that measures nothing leaves no numbers behind. */
    method DropStats()
      requires Valid()
      modifies this`epochStats
      ensures Valid() && epochStats == map[]
    {
      hide *;
      ValidTells();
      CoreTells();
      epochStats := map[];
      IsCore();
      IsValid();
    }

    /**
     Reports and asks the bandit, whose choice is arbitrary. A cache that is not full
     yet, unless it may evict early or only observes, skips both and keeps its policy.
     */
    method SelectPolicyLocked(choice: PolicyType) returns (selected: PolicyType, ghost reported: bool)
      requires Valid() && !migrating
      modifies this`globalStats, this`activeHits, this`activeMisses, this`epochStats, this`history
      modifies objs`hits, objs`misses
      ensures Valid() && Logical() == old(Logical())
      ensures !reported ==> selected == active && epochStats == map[] && history == old(history)
      ensures reported ==> selected == choice && NothingCounted() && epochStats.Keys == arms.Keys
      ensures reported ==> history == Then(old(history), Reported(active, epochStats))
      ensures settings.observeOnly || settings.evictPartialCapacityFilling ==> reported
      ensures arms[active].steady ==>
        (reported <==> settings.observeOnly || settings.evictPartialCapacityFilling || Filled())
    {
      hide *;
      ValidTells();
      CoreTells();
      var held := HeldBack();
      if held {
        DropStats();
        return active, false;
      }
      ReportEpoch();
      return choice, true;
    }

    /** The cooldown is over and the evidence of this epoch is good enough. */
    ghost predicate GatesPass(from: PolicyType, to: PolicyType, epoch: int, last: int, stats: map<PolicyType, Stats>) {
      && (settings.switchCooldownEpochs > 0 ==> epoch - last >= settings.switchCooldownEpochs)
      && from in stats && to in stats && EvidencePasses(settings, stats[from], stats[to])
    }

    /** Whether a selection is applied: it names another held arm and the gates, if any, let it through. */
    ghost predicate Switches(from: PolicyType, to: PolicyType, epoch: int, last: int, stats: map<PolicyType, Stats>) {
      to != from && to in arms && (!SwitchGated(settings) || GatesPass(from, to, epoch, last, stats))
    }

    /** Whether the gates let a switch to candidate through. */
    method AllowSwitchLocked(candidate: PolicyType) returns (ok: bool)
      requires Valid()
      ensures ok <==> (!SwitchGated(settings) || GatesPass(active, candidate, epochID, lastSwitchEpoch, epochStats))
    {
      if !SwitchGated(settings) {
        return true;
      }
      if settings.switchCooldownEpochs > 0 && epochID - lastSwitchEpoch < settings.switchCooldownEpochs {
        return false;
      }
      if active !in epochStats || candidate !in epochStats {
        return false;
      }
      var act, cand := epochStats[active], epochStats[candidate];
      if settings.minEpochRequests > 0 &&
         (act.Total() < settings.minEpochRequests || cand.Total() < settings.minEpochRequests) {
        return false;
      }
      if settings.minHitRateImprovement > 0.0 && HitRate(cand) - HitRate(act) < settings.minHitRateImprovement {
        return false;
      }
      return true;
    }

    /** An arm that has taken over is no longer astray. */
    twostate lemma RolesCleared()
      requires old(RolesOK()) && unchanged(`active, `migrating, `migrateFrom, `nominalCap, `shadowCap, objs)
      requires strayed == old(strayed) || active == UNDEFINED
      ensures RolesOK()
    {
      hide OrderOK, CapsAgree, Clean;
    }

    /** The end of an epoch: its number is kept if it switched, and enters the record. */
    method EndEpoch(switchedTo: Option<PolicyType>)
      requires Valid()
      requires switchedTo.Some? ==>
        switchedTo.value == active && JustifiedSwitch(history, switchedTo.value, arms.Keys, settings)
      modifies this`epochID, this`lastSwitchEpoch, this`history, this`strayed
      ensures Valid() && epochID == old(epochID) + 1 && history == Then(old(history), EpochEnded(switchedTo))
    {
      hide OrderOK, RolesOK, EvidenceDue, SampledSince, BeforeClose, Totals, Epochs, LastSwitch, Strayed;
      hide JustifiedSwitch, Fresh;
      EvidenceAfter(history, EpochEnded(switchedTo), sampled);
      ClocksAfter(history, EpochEnded(switchedTo));
      FreshSilent(history, EpochEnded(switchedTo), arms[active].entries, Source(), pending);
      EpochsAfter(history, switchedTo);
      if switchedTo.Some? {
        lastSwitchEpoch := epochID;
      }
      epochID := epochID + 1;
      if switchedTo == Some(UNDEFINED) {
        strayed := false;
      }
      history := Then(history, EpochEnded(switchedTo));
      RolesCleared();
    }

    lemma EpochsAfter(h: History<K, V>, switchedTo: Option<PolicyType>)
      ensures var t: History<K, V> := Then(h, EpochEnded(switchedTo));
        Epochs(t) == Epochs(h) + 1 && LastSwitch(t) == if switchedTo.Some? then Epochs(h) else LastSwitch(h)
    {
    }

    /** A switch the gates let through right after a report is justified by it. */
    lemma PassedGates(to: PolicyType)
      requires Valid() && !settings.observeOnly && to in arms && to != active
      requires history.Then? && history.event == Reported(active, epochStats) && epochStats.Keys == arms.Keys
      requires !SwitchGated(settings) || GatesPass(active, to, epochID, lastSwitchEpoch, epochStats)
      ensures JustifiedSwitch(history, to, arms.Keys, settings)
    {
      hide RolesOK, FreshOK, ShadowCounts, OrderOK, WindowOK, ActiveCounts, Sound, HitRate;
    }

    /** Applies the selection if it names another held arm and the gates let it through. */
    method ApplySelection(newPolicy: PolicyType, ghost reported: bool)
      requires Valid() && !migrating && !settings.observeOnly
      requires reported ==> NothingCounted() && epochStats.Keys == arms.Keys
      requires reported ==> history.Then? && history.event == Reported(active, epochStats)
      requires !reported ==> newPolicy == active
      modifies this, objs
      ensures Valid() && epochID == old(epochID) + 1 && epochStats == old(epochStats)
      ensures active == if Switches(old(active), newPolicy, old(epochID), old(lastSwitchEpoch), old(epochStats))
                        then newPolicy else old(active)
      ensures active == old(active) ==> !migrating && Logical() == old(Logical()) && (AllInRole() <==> old(AllInRole()))
      ensures active != old(active) ==>
        && CarriedOver(Logical(), old(arms[active].entries), old(Fits(newPolicy)), old(arms[active].steady))
        && OpenedOver(old(arms[active].entries), old(arms[active].steady))
      ensures migrating ==> migrateFrom == old(active) && settings.migrationStrategy == GRADUAL
      ensures history == Then(old(history), EpochEnded(if active != old(active) then Some(active) else None))
    {
      hide RolesOK, WindowOK, FreshOK, ShadowCounts, Ledger, ActiveCounts, OrderOK, CapsAgree, Clean, EvidenceDue;
      hide AllInRole, CarriedOver, OpenedOver, GatesPass, SwitchGated, JustifiedSwitch, Stray;
      hide BeforeClose, Sound, FairReport, Within, Merge;
      if active != newPolicy && newPolicy in arms {
        var ok := AllowSwitchLocked(newPolicy);
        if ok {
          PassedGates(newPolicy);
          SwitchLocked(newPolicy);
          EndEpoch(Some(newPolicy));
          return;
        }
      }
      EndEpoch(None);
    }

    /**
     The record of an epoch up to its decision: an open window closes, and unless the epoch is gated
     all arms report.
     */
    static ghost function EpochReported(h: History<K, V>, active: PolicyType, report: map<PolicyType, Stats>,
                                        window: Option<PolicyType>): History<K, V> {
      var closed := if window.Some? then Then(h, WindowClosed(window.value)) else h;
      if report == map[] then closed else Then(closed, Reported(active, report))
    }

    /**
     What an epoch does once no window is open: report, select, and switch if the selection
     names another held arm and the gates let it through.
     */
    method ConcludeEpoch(choice: PolicyType)
      requires Valid() && !migrating
      modifies this, objs
      ensures Valid() && epochID == old(epochID) + 1
      ensures active == if !settings.observeOnly && epochStats != map[] &&
                           Switches(old(active), choice, old(epochID), old(lastSwitchEpoch), epochStats) then choice
                        else old(active)
      ensures settings.observeOnly || settings.evictPartialCapacityFilling ==> epochStats != map[]
      ensures arms[old(active)].steady ==>
        (epochStats != map[] <==> settings.observeOnly || settings.evictPartialCapacityFilling || old(Filled()))
      ensures epochStats != map[] ==> epochStats.Keys == arms.Keys
      ensures active == old(active) ==> !migrating && Logical() == old(Logical()) && (AllInRole() <==> old(AllInRole()))
      ensures active != old(active) ==>
        && CarriedOver(Logical(), old(arms[active].entries), old(Fits(choice)), old(arms[active].steady))
        && OpenedOver(old(arms[active].entries), old(arms[active].steady))
      ensures migrating ==> migrateFrom == old(active) && settings.migrationStrategy == GRADUAL
      ensures history == Then(EpochReported(old(history), old(active), epochStats, None),
                              EpochEnded(if active != old(active) then Some(active) else None))
    {
      hide RolesOK, FreshOK, ShadowCounts, Ledger, ActiveCounts, OrderOK, CapsAgree, Clean, EvidenceDue;
      hide BeforeClose, Sound, FairReport, Merge, Switches, GatesPass, SwitchGated, NothingCounted;
      hide AllInRole, CarriedOver, OpenedOver, WindowOK, Stray, Logical;
      var newPolicy, reported := SelectPolicyLocked(choice);
      if settings.observeOnly {
        EndEpoch(None);
      } else {
        ApplySelection(newPolicy, reported);
      }
    }

    /**
     One epoch. A window still open is closed first, so a window open afterwards was opened
     by this epoch, and no window outlives one.
     */
    method RunEpoch(choice: PolicyType)
      requires Valid()
      modifies this, objs
      ensures Valid() && epochID == old(epochID) + 1
      ensures active == if !settings.observeOnly && epochStats != map[] &&
                           Switches(old(active), choice, old(epochID), old(lastSwitchEpoch), epochStats) then choice
                        else old(active)
      ensures settings.observeOnly || settings.evictPartialCapacityFilling ==> epochStats != map[]
      ensures old(arms[active].steady) ==>
        (epochStats != map[] <==> settings.observeOnly || settings.evictPartialCapacityFilling || old(Filled()))
      ensures epochStats != map[] ==> epochStats.Keys == arms.Keys
      ensures active == old(active) ==> !migrating && Logical() == old(arms[active].entries) && RolesAfterClosing()
      ensures active != old(active) ==>
        && CarriedOver(Logical(), old(arms[active].entries), old(Fits(choice)), old(arms[active].steady))
        && OpenedOver(old(arms[active].entries), old(arms[active].steady))
      ensures migrating ==> migrateFrom == old(active) && settings.migrationStrategy == GRADUAL
      ensures history == Then(EpochReported(old(history), old(active), epochStats,
                                            if old(migrating) then Some(old(migrateFrom)) else None),
                              EpochEnded(if active != old(active) then Some(active) else None))
    {
      hide RolesOK, FreshOK, ShadowCounts, Ledger, ActiveCounts, OrderOK, CapsAgree, Clean, EvidenceDue;
      hide BeforeClose, Sound, FairReport, Merge, Switches, GatesPass, SwitchGated, NothingCounted;
      hide AllInRole, CarriedOver, OpenedOver, Stray, Logical, NeedsNoDemotion;
      CloseOldWindow();
      ConcludeEpoch(choice);
    }
  }
}
