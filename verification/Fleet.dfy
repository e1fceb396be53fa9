/**
 * The coordination protocol as a state machine: any number of replicas, every interleaving of their
 * rounds against one store, with refused calls, lost replies and expiry.
 */
module Fleet {
  import opened Options
  import opened ArmContract
  import opened Window
  import opened MemStore
  import opened Distributed

  datatype Mode = Leader | SharedPosterior

  /** The one configuration the fleet shares; the epoch is in nanoseconds. */
  datatype Config = Config(epoch: int, window: int, decay: real, mode: Mode, evidence: EvidenceMode) {
    function EpochMillis(): int { epoch / MILLISECOND }

    function CounterTTL(): int { (window + 2) * epoch }

    function LeaderTTL(): int { 2 * epoch }

    function DecisionTTL(): int { 3 * epoch }

    /** The first instant of a bucket. */
    function Start(bucket: int): int { bucket * Length() }

    function Length(): (n: int)
      ensures n >= MILLISECOND
    {
      MILLISECOND * (if EpochMillis() <= 0 then 1 else EpochMillis())
    }

    function BucketOf(now: nat): int { BucketAt(now, EpochMillis()) }
  }

  /** What validation leaves: the mode and evidence defaults resolved, window and decay positive. */
  ghost predicate Configured(cfg: Config) {
    && cfg.epoch > 0 && cfg.window > 0 && 0.0 < cfg.decay <= 1.0
    && (cfg.mode == Leader ==> cfg.evidence == EvidenceAll)
  }

  /** The hypothesis on the coordination epoch: at least one millisecond. */
  ghost predicate WholeMillis(cfg: Config) {
    cfg.epoch >= MILLISECOND
  }

  /** Where a replica stands in its coordination round. */
  datatype Round =
    | Idle
    | Sending(req: SyncRequest)
    | Reading(key: BucketKey, known: Option<PolicyType>)
    | Deciding(key: BucketKey, known: Option<PolicyType>, choice: PolicyType)
    | Applying(key: BucketKey, decision: Option<PolicyType>)

  /** A replica, with a record of all it was ever told and of what it gave up. */
  datatype Member = Member(replica: Replica, round: Round, buffered: Arms, discarded: Arms)

  /** The Syncs the store carried out, oldest first. */
  datatype Log = Nothing | Entry(past: Log, key: BucketKey, node: NodeId, counts: seq<ArmCounts>)

  /** A decision a replica obtained for a bucket, by Sync or from its own Decide. */
  datatype Obtained = Obtained(node: NodeId, key: BucketKey, policy: PolicyType)

  datatype Fleet = Fleet(
    now: nat,
    store: Contents,
    members: map<NodeId, Member>,
    log: Log,
    leads: multiset<BucketKey>,               // one for every Sync that was granted a bucket
    published: map<BucketKey, PolicyType>,    // what the first Decide carried out for a bucket asked for
    obtained: set<Obtained>)

  const START := Fleet(0, EMPTY, map[], Nothing, multiset{}, map[], {})

  /** A call is answered, has no effect, or takes effect and its reply is lost. */
  datatype Fate = Answered | Refused | Lost

  datatype Event =
    | Joins(node: NodeId)
    | Reports(node: NodeId, report: Report)
    | Notes(node: NodeId, stats: ShadowStats)
    | Drains(node: NodeId, name: string, counts: seq<ArmCounts>)
    | Syncs(node: NodeId, at: nat, fate: Fate)
    | Reads(node: NodeId, at: nat, fate: Fate, drawn: PolicyType)
    | Decides(node: NodeId, at: nat, fate: Fate)
    | Applies(node: NodeId)
    | FallsBack(node: NodeId, choice: PolicyType)

  function RequestOf(cfg: Config, node: NodeId, ns: Namespace, counts: seq<ArmCounts>): SyncRequest {
    SyncRequest(ns, node, counts, cfg.EpochMillis(), cfg.CounterTTL(), cfg.LeaderTTL(), cfg.mode == Leader)
  }

  /** The window a reader of a bucket asks for: it stops one bucket short of the current one. */
  function ReadBy(cfg: Config, store: Contents, now: nat, key: BucketKey): seq<WindowCounts> {
    WindowOf(Live(store.counts, now), key.namespace, key.bucket - cfg.window, key.bucket - 1)
  }

  ghost predicate Enabled(cfg: Config, f: Fleet, e: Event) {
    (e.Joins? <==> e.node !in f.members) &&
    match e
    case Joins(node) => true
    case Reports(node, report) => true
    case Notes(node, stats) => true
    case Drains(node, name, counts) =>
      var m := f.members[node];
      m.round == Idle && m.replica.regime.Some? && Lists(m.replica.pending, counts)
    case Syncs(node, at, fate) => f.members[node].round.Sending? && at >= f.now
    case Reads(node, at, fate, drawn) =>
      var r := f.members[node].round;
      r.Reading? && at >= f.now &&
      (drawn == UNDEFINED || Pools(ReadBy(cfg, f.store, at, r.key), r.key.bucket - 1, cfg.decay, cfg.evidence, drawn))
    case Decides(node, at, fate) => f.members[node].round.Deciding? && at >= f.now
    case Applies(node) => f.members[node].round.Applying?
    case FallsBack(node, choice) => choice in f.members[node].replica.arms
  }

  function Put(f: Fleet, node: NodeId, m: Member): Fleet {
    f.(members := f.members[node := m])
  }

  function Merge(a: Arms, b: Arms): Arms {
    map k | k in a.Keys + b.Keys :: Plus(At(a, k), At(b, k))
  }

  function AfterReport(m: Member, report: Report): Member {
    m.(replica := Recorded(m.replica, report),
       buffered := Deposit(m.buffered, CountsOf(report)),
       discarded := if ChangesRegime(m.replica, report) then Merge(m.discarded, m.replica.pending) else m.discarded)
  }

  function AfterNote(m: Member, s: ShadowStats): Member {
    m.(replica := Noted(m.replica, s),
       buffered := Deposit(m.buffered, [ArmCounts(ArmKey(s.policy, Shadow), s.counts)]))
  }

  function AfterDrain(cfg: Config, m: Member, node: NodeId, name: string, counts: seq<ArmCounts>): Member
    requires m.replica.regime.Some?
  {
    m.(replica := m.replica.(pending := map[]),
       round := Sending(RequestOf(cfg, node, Namespace(name, m.replica.regime.value), counts)))
  }

  function RoundAfterSync(cfg: Config, key: BucketKey, result: SyncResult): Round {
    if cfg.mode == SharedPosterior then Reading(key, None)
    else if result.leader then Reading(key, result.decision)
    else Applying(key, result.decision)
  }

  function Told(node: NodeId, key: BucketKey, decision: Option<PolicyType>): set<Obtained> {
    match decision
    case None => {}
    case Some(p) => {Obtained(node, key, p)}
  }

  function AfterSync(cfg: Config, f: Fleet, node: NodeId, at: nat, fate: Fate): Fleet
    requires node in f.members && f.members[node].round.Sending?
  {
    var m := f.members[node];
    var req := m.round.req;
    var key := KeyOf(at, req);
    var result := SyncAnswer(f.store, at, req);
    if fate == Refused then
      Put(f, node, m.(round := Idle, discarded := Deposit(m.discarded, req.counts))).(now := at)
    else
      Fleet(at, Synced(f.store, at, req),
            f.members[node := m.(round := if fate == Lost then Idle else RoundAfterSync(cfg, key, result))],
            Entry(f.log, key, node, req.counts),
            if result.leader then f.leads + multiset{key} else f.leads,
            f.published,
            if fate == Lost then f.obtained else f.obtained + Told(node, key, result.decision))
  }

  function RoundAfterRead(cfg: Config, r: Round, fate: Fate, drawn: PolicyType): Round
    requires r.Reading?
  {
    if fate != Answered || drawn == UNDEFINED then Applying(r.key, r.known)
    else if cfg.mode == SharedPosterior then Applying(r.key, Some(drawn))
    else Deciding(r.key, r.known, drawn)
  }

  function AfterRead(cfg: Config, f: Fleet, node: NodeId, at: nat, fate: Fate, drawn: PolicyType): Fleet
    requires node in f.members && f.members[node].round.Reading?
  {
    var m := f.members[node];
    Put(f, node, m.(round := RoundAfterRead(cfg, m.round, fate, drawn))).(
      now := at, store := if fate == Refused then f.store else Expire(f.store, at))
  }

  function AfterDecide(cfg: Config, f: Fleet, node: NodeId, at: nat, fate: Fate): Fleet
    requires node in f.members && f.members[node].round.Deciding?
  {
    var m := f.members[node];
    var r := m.round;
    var inForce := InForce(f.store, at, r.key, r.choice);
    var decision := if fate == Answered && inForce != UNDEFINED then Some(inForce) else r.known;
    var g := Put(f, node, m.(round := Applying(r.key, decision))).(now := at);
    if fate == Refused then g
    else
      g.(store := Decided(f.store, at, r.key, r.choice, cfg.DecisionTTL()),
         published := if r.key in f.published then f.published else f.published[r.key := r.choice],
         obtained := if fate == Answered then f.obtained + {Obtained(node, r.key, inForce)} else f.obtained)
  }

  predicate Local(e: Event) {
    !e.Syncs? && !e.Reads? && !e.Decides?
  }

  const NEWCOMER := Member(FRESH, Idle, map[], map[])

  /** A step that concerns one replica alone. */
  ghost function AfterLocal(cfg: Config, f: Fleet, e: Event): Member
    requires Enabled(cfg, f, e) && Local(e)
  {
    match e
    case Joins(node) => NEWCOMER
    case Reports(node, report) => AfterReport(f.members[node], report)
    case Notes(node, stats) => AfterNote(f.members[node], stats)
    case Drains(node, name, counts) => AfterDrain(cfg, f.members[node], node, name, counts)
    case Applies(node) =>
      var m := f.members[node];
      m.(replica := Applied(m.replica, m.round.decision), round := Idle)
    case FallsBack(node, choice) =>
      var m := f.members[node];
      m.(replica := m.replica.(selection := choice))
  }

  ghost function Take(cfg: Config, f: Fleet, e: Event): Fleet
    requires Enabled(cfg, f, e)
  {
    match e
    case Syncs(node, at, fate) => AfterSync(cfg, f, node, at, fate)
    case Reads(node, at, fate, drawn) => AfterRead(cfg, f, node, at, fate, drawn)
    case Decides(node, at, fate) => AfterDecide(cfg, f, node, at, fate)
    case _ => Put(f, e.node, AfterLocal(cfg, f, e))
  }

  /** A local step starts a round, ends one, or leaves it where it is. */
  lemma LocalRound(cfg: Config, f: Fleet, e: Event)
    requires Enabled(cfg, f, e) && Local(e)
    ensures var r := AfterLocal(cfg, f, e).round;
      || r == Idle
      || (e.node in f.members && r == f.members[e.node].round)
      || (r.Sending? && r.req == RequestOf(cfg, e.node, r.req.namespace, r.req.counts))
  {
  }

  /** The events lead from one state of the fleet to the other. */
  ghost predicate Runs(cfg: Config, f: Fleet, events: seq<Event>, g: Fleet)
    decreases |events|
  {
    if events == [] then f == g
    else Enabled(cfg, f, events[0]) && Runs(cfg, Take(cfg, f, events[0]), events[1..], g)
  }

  /** A run can take one more enabled step. */
  lemma {:induction false} Extend(cfg: Config, f: Fleet, events: seq<Event>, g: Fleet, e: Event)
    requires Runs(cfg, f, events, g) && Enabled(cfg, g, e)
    ensures Runs(cfg, f, events + [e], Take(cfg, g, e))
    decreases |events|
  {
    if events == [] {
      assert events + [e] == [e] && [e][1..] == [];
    } else {
      Extend(cfg, Take(cfg, f, events[0]), events[1..], g, e);
      assert (events + [e])[1..] == events[1..] + [e];
    }
  }

  // ---- Buckets and lifetimes ----

  /** A bucket holds the instants from its own start up to the next bucket's. */
  lemma BucketBounds(cfg: Config, now: nat)
    ensures cfg.Start(cfg.BucketOf(now)) <= now < cfg.Start(cfg.BucketOf(now) + 1)
  {
    var millis := if cfg.EpochMillis() <= 0 then 1 else cfg.EpochMillis();
    var ms := now / MILLISECOND;
    var b := ms / millis;
    assert b * millis <= ms < (b + 1) * millis;
    assert ms * MILLISECOND <= now < (ms + 1) * MILLISECOND;
    Rescale(b, millis, ms);
  }

  lemma Rescale(b: int, millis: int, ms: int)
    requires b * millis <= ms < (b + 1) * millis
    ensures b * (MILLISECOND * millis) <= ms * MILLISECOND
    ensures (ms + 1) * MILLISECOND <= (b + 1) * (MILLISECOND * millis)
  {
    assert b * (MILLISECOND * millis) == (b * millis) * MILLISECOND;
    assert (b + 1) * (MILLISECOND * millis) == ((b + 1) * millis) * MILLISECOND;
  }

  lemma StartMonotone(cfg: Config, a: int, b: int)
    ensures a <= b ==> cfg.Start(a) <= cfg.Start(b)
    ensures cfg.Start(a) < cfg.Start(b) ==> a < b
  {
    if a <= b {
      assert (b - a) * cfg.Length() >= 0;
    } else {
      assert (a - b) * cfg.Length() >= 0;
    }
  }

  /** The store's clock never hands out an earlier bucket later. */
  lemma BucketMonotone(cfg: Config, s: nat, t: nat)
    requires s <= t
    ensures cfg.BucketOf(s) <= cfg.BucketOf(t)
  {
    BucketBounds(cfg, s);
    BucketBounds(cfg, t);
    StartMonotone(cfg, cfg.BucketOf(s), cfg.BucketOf(t) + 1);
  }

  /** A counter written in a bucket outlives the window that can still ask for it. */
  lemma CountersOutlive(cfg: Config, now: nat)
    requires Configured(cfg) && WholeMillis(cfg)
    ensures now + cfg.CounterTTL() >= cfg.Start(cfg.BucketOf(now) + cfg.window + 2)
  {
    BucketBounds(cfg, now);
    var b, w := cfg.BucketOf(now), cfg.window + 2;
    assert cfg.Length() <= cfg.epoch;
    assert w * cfg.Length() <= w * cfg.epoch;
    assert cfg.Start(b + w) == cfg.Start(b) + w * cfg.Length();
  }

  /** A claim outlives its own bucket. */
  ghost predicate ClaimsOutlive(cfg: Config) {
    cfg.LeaderTTL() >= cfg.Length() - 1
  }

  lemma ClaimLasts(cfg: Config, claimed: nat)
    requires ClaimsOutlive(cfg)
    ensures claimed + cfg.LeaderTTL() >= cfg.Start(cfg.BucketOf(claimed) + 1) - 1
  {
    BucketBounds(cfg, claimed);
    assert cfg.Start(cfg.BucketOf(claimed) + 1) == cfg.Start(cfg.BucketOf(claimed)) + cfg.Length();
  }

  /** Every request in flight carries the fleet's configuration and its sender's name. */
  ghost predicate Proper(cfg: Config, f: Fleet) {
    forall n :: n in f.members && f.members[n].round.Sending? ==>
      var req := f.members[n].round.req;
      req == RequestOf(cfg, n, req.namespace, req.counts)
  }

  lemma ProperStep(cfg: Config, f: Fleet, e: Event)
    requires Proper(cfg, f) && Enabled(cfg, f, e)
    ensures Proper(cfg, Take(cfg, f, e))
  {
    if Local(e) {
      LocalRound(cfg, f, e);
      hide AfterLocal;
    }
  }
}
