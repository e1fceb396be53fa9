/** Leadership and decisions over every run of the fleet. */
module FleetLeadership {
  import opened Options
  import opened ArmContract
  import opened Window
  import opened MemStore
  import opened Distributed
  import opened Fleet

  // ---- At most one Sync is granted a bucket ----

  /** A bucket granted while it is current is still claimed in the store, and will be until it is over. */
  ghost predicate Claimed(cfg: Config, f: Fleet, key: BucketKey) {
    && f.leads[key] <= 1
    && (key in f.leads ==> key.bucket <= cfg.BucketOf(f.now))
    && (key in f.leads && key.bucket == cfg.BucketOf(f.now) ==>
          key in f.store.leaders && f.store.leaders[key].expires >= cfg.Start(key.bucket + 1) - 1)
  }

  ghost predicate Claims(cfg: Config, f: Fleet) {
    forall key :: Claimed(cfg, f, key)
  }

  /** Time passes and expired claims go. */
  lemma ClaimAges(cfg: Config, f: Fleet, at: nat, key: BucketKey)
    requires Claimed(cfg, f, key) && at >= f.now
    ensures key in f.leads ==> key.bucket <= cfg.BucketOf(at)
    ensures key in f.leads && key.bucket == cfg.BucketOf(at) ==>
              key in Live(f.store.leaders, at) && f.store.leaders[key].expires >= cfg.Start(key.bucket + 1) - 1
  {
    hide Config.Start;
    BucketMonotone(cfg, f.now, at);
    BucketBounds(cfg, at);
  }

  lemma ClaimsStep(cfg: Config, f: Fleet, e: Event)
    requires ClaimsOutlive(cfg) && Proper(cfg, f) && Claims(cfg, f) && Enabled(cfg, f, e)
    ensures Claims(cfg, Take(cfg, f, e))
  {
    var g := Take(cfg, f, e);
    forall key ensures Claimed(cfg, g, key) {
      assert Claimed(cfg, f, key);
      if e.Syncs? || e.Reads? || e.Decides? {
        ClaimAges(cfg, f, e.at, key);
      }
      if e.Syncs? {
        ClaimLasts(cfg, e.at);
      }
    }
  }

  lemma {:induction false} ClaimsRun(cfg: Config, f: Fleet, events: seq<Event>, g: Fleet)
    requires ClaimsOutlive(cfg) && Proper(cfg, f) && Claims(cfg, f) && Runs(cfg, f, events, g)
    ensures Proper(cfg, g) && Claims(cfg, g)
    decreases |events|
  {
    if events != [] {
      ProperStep(cfg, f, events[0]);
      ClaimsStep(cfg, f, events[0]);
      ClaimsRun(cfg, Take(cfg, f, events[0]), events[1..], g);
    }
  }

  /** A report of no arms, enough to let a replica sync. */
  const BARE := Report(UNDEFINED, [], 1, 10_000)

  const HOME := Namespace("fleet", Regime([], 1, 10_000))

  function Ready(cfg: Config, node: NodeId): Member {
    Member(FRESH.(regime := Some(HOME.regime)), Sending(RequestOf(cfg, node, HOME, [])), map[], map[])
  }

  /** A replica can join, take its first report and start a round. */
  lemma GetReady(cfg: Config, f: Fleet, events: seq<Event>, node: NodeId) returns (more: seq<Event>)
    requires Runs(cfg, START, events, f) && node !in f.members
    ensures Runs(cfg, START, more, Put(f, node, Ready(cfg, node)))
  {
    var joined := Take(cfg, f, Joins(node));
    Extend(cfg, START, events, f, Joins(node));
    var told := Take(cfg, joined, Reports(node, BARE));
    Extend(cfg, START, events + [Joins(node)], joined, Reports(node, BARE));
    assert RegimeOf(BARE) == HOME.regime && CountsOf(BARE) == [] && PoliciesOf(BARE) == {};
    assert Merge(map[], map[]) == map[];
    var m := Member(FRESH.(regime := Some(HOME.regime)), Idle, map[], map[]);
    assert f.members[node := Member(FRESH, Idle, map[], map[])][node := m] == f.members[node := m];
    assert told == Put(f, node, m);
    var drain := Drains(node, "fleet", []);
    more := events + [Joins(node)] + [Reports(node, BARE)] + [drain];
    Extend(cfg, START, events + [Joins(node)] + [Reports(node, BARE)], told, drain);
    assert f.members[node := m][node := Ready(cfg, node)] == f.members[node := Ready(cfg, node)];
    assert Take(cfg, told, drain) == Put(f, node, Ready(cfg, node));
  }

  /** When claims do not outlive their bucket, its first and its last instant can both be granted. */
  lemma TwoLeaders(cfg: Config) returns (events: seq<Event>, g: Fleet)
    requires cfg.mode == Leader && cfg.epoch > 0 && !ClaimsOutlive(cfg)
    ensures Runs(cfg, START, events, g) && g.leads[BucketKey(HOME, 0)] == 2
  {
    var key := BucketKey(HOME, 0);
    var es := GetReady(cfg, START, [], "a");
    var f := Put(START, "a", Ready(cfg, "a"));
    es := GetReady(cfg, f, es, "b");
    f := Put(f, "b", Ready(cfg, "b"));
    var end := cfg.Length() - 1;
    assert cfg.BucketOf(0) == 0 && cfg.BucketOf(end) == 0;
    var mid := Take(cfg, f, Syncs("a", 0, Answered));
    Extend(cfg, START, es, f, Syncs("a", 0, Answered));
    assert mid.leads == multiset{key} && mid.members["b"] == Ready(cfg, "b");
    assert key in mid.store.leaders ==> mid.store.leaders[key].expires < end;
    g := Take(cfg, mid, Syncs("b", end, Answered));
    events := es + [Syncs("a", 0, Answered)] + [Syncs("b", end, Answered)];
    Extend(cfg, START, es + [Syncs("a", 0, Answered)], mid, Syncs("b", end, Answered));
  }

  /** No bucket is granted twice in any run. */
  ghost predicate GrantsOnce(cfg: Config) {
    forall events, g, key :: Runs(cfg, START, events, g) ==> g.leads[key] <= 1
  }

  lemma GrantedTwice(cfg: Config, events: seq<Event>, g: Fleet, key: BucketKey)
    requires Runs(cfg, START, events, g) && g.leads[key] > 1
    ensures !GrantsOnce(cfg)
  {
  }

  /**
   * No bucket is granted twice in any run if and only if a claim's lifetime reaches the last instant
   * of its bucket, which every coordination epoch of at least a millisecond gives.
   */
  lemma AtMostOneLeader(cfg: Config)
    requires cfg.mode == Leader && cfg.epoch > 0
    ensures GrantsOnce(cfg) <==> ClaimsOutlive(cfg)
    ensures WholeMillis(cfg) ==> ClaimsOutlive(cfg)
  {
    if ClaimsOutlive(cfg) {
      forall events, g, key | Runs(cfg, START, events, g) ensures g.leads[key] <= 1 {
        ClaimsRun(cfg, START, events, g);
        assert Claimed(cfg, g, key);
      }
    } else {
      var events, g := TwoLeaders(cfg);
      GrantedTwice(cfg, events, g, BucketKey(HOME, 0));
    }
  }

  // ---- One decision per bucket ----

  /** What a replica's place in its round says about the bucket it deals with. */
  ghost predicate Ticket(f: Fleet, r: Round) {
    match r
    case Reading(key, known) => key in f.leads && key !in f.published && known == None
    case Deciding(key, known, choice) =>
      key in f.leads && key !in f.published && known == None && choice != UNDEFINED
    case Applying(key, Some(p)) => key in f.published && f.published[key] == p
    case _ => true
  }

  predicate Leads(r: Round) {
    r.Reading? || r.Deciding?
  }

  ghost predicate Tickets(f: Fleet) {
    && (forall n :: n in f.members ==> Ticket(f, f.members[n].round))
    && (forall n, o ::
          n in f.members && o in f.members && SameBucket(f.members[n].round, f.members[o].round) ==> n == o)
  }

  /** Both lead, and both lead the same bucket. */
  predicate SameBucket(r: Round, q: Round) {
    Leads(r) && Leads(q) && r.key == q.key
  }

  /** Every copy of a decision is the published one, and only granted buckets have one. */
  ghost predicate Copies(f: Fleet) {
    && (forall key :: key in f.published ==> key in f.leads && f.published[key] != UNDEFINED)
    && (forall key :: key in f.store.decisions ==>
          key in f.published && f.store.decisions[key].value == f.published[key])
    && (forall o :: o in f.obtained ==> o.key in f.published && f.published[o.key] == o.policy)
  }

  /** What a Sync's answer says about its bucket; a granted bucket has no decision yet. */
  lemma AnswerTells(cfg: Config, f: Fleet, at: nat, req: SyncRequest)
    requires ClaimsOutlive(cfg) && Claims(cfg, f) && Copies(f) && at >= f.now && req.epochMillis == cfg.EpochMillis()
    ensures var key, result := KeyOf(at, req), SyncAnswer(f.store, at, req);
      && (result.leader ==> key !in f.leads && key !in f.published && result.decision == None)
      && (result.decision.Some? ==> key in f.published && f.published[key] == result.decision.value)
  {
    assert Claimed(cfg, f, KeyOf(at, req));
    ClaimAges(cfg, f, at, KeyOf(at, req));
  }

  /** One replica moves on; the others keep their tickets. */
  lemma OneMoves(f: Fleet, g: Fleet, node: NodeId, r: Round)
    requires Tickets(f) && node in g.members && g.members[node].round == r && Ticket(g, r)
    requires g.published == f.published && (forall key :: key in f.leads ==> key in g.leads)
    requires forall n :: n in g.members && n != node ==> n in f.members && g.members[n].round == f.members[n].round
    requires Leads(r) ==> r.key !in f.leads || (node in f.members && SameBucket(r, f.members[node].round))
    ensures Tickets(g)
  {
    forall n | n in g.members ensures Ticket(g, g.members[n].round) {
      assert n != node ==> Ticket(f, f.members[n].round);
    }
    forall n, o | n in g.members && o in g.members && SameBucket(g.members[n].round, g.members[o].round)
      ensures n == o
    {
      assert n != node ==> Ticket(f, f.members[n].round);
      assert o != node ==> Ticket(f, f.members[o].round);
    }
  }

  lemma LocalStep(cfg: Config, f: Fleet, e: Event)
    requires Tickets(f) && Copies(f) && Enabled(cfg, f, e) && Local(e)
    ensures Tickets(Take(cfg, f, e)) && Copies(Take(cfg, f, e))
  {
    LocalRound(cfg, f, e);
    var g, r := Take(cfg, f, e), AfterLocal(cfg, f, e).round;
    hide AfterLocal, Enabled;
    assert e.node in f.members ==> Ticket(f, f.members[e.node].round);
    assert Copies(g);
    hide Tickets, Copies;
    OneMoves(f, g, e.node, r);
  }

  lemma SyncTickets(cfg: Config, f: Fleet, e: Event)
    requires ClaimsOutlive(cfg) && Proper(cfg, f) && Claims(cfg, f) && cfg.mode == Leader
    requires Tickets(f) && Copies(f) && Enabled(cfg, f, e) && e.Syncs?
    ensures Tickets(Take(cfg, f, e))
  {
    var g := Take(cfg, f, e);
    AnswerTells(cfg, f, e.at, f.members[e.node].round.req);
    hide Claims, Copies, ClaimsOutlive, SyncAnswer, Synced, KeyOf, Tickets;
    OneMoves(f, g, e.node, g.members[e.node].round);
  }

  lemma SyncCopies(cfg: Config, f: Fleet, e: Event)
    requires Copies(f) && Enabled(cfg, f, e) && e.Syncs?
    ensures Copies(Take(cfg, f, e))
  {
  }

  lemma ReadStep(cfg: Config, f: Fleet, e: Event)
    requires cfg.mode == Leader && Tickets(f) && Copies(f) && Enabled(cfg, f, e) && e.Reads?
    ensures Tickets(Take(cfg, f, e)) && Copies(Take(cfg, f, e))
  {
  }

  /** The decider's bucket has no decision yet, so its own choice comes into force. */
  lemma DecideTickets(cfg: Config, f: Fleet, e: Event)
    requires cfg.mode == Leader && Tickets(f) && Copies(f) && Enabled(cfg, f, e) && e.Decides?
    ensures Tickets(Take(cfg, f, e))
  {
    var g := Take(cfg, f, e);
    forall n | n in g.members ensures Ticket(g, g.members[n].round) {
      DecideTicket(cfg, f, e, n);
    }
    hide Ticket;
  }

  lemma DecideTicket(cfg: Config, f: Fleet, e: Event, n: NodeId)
    requires cfg.mode == Leader && Tickets(f) && Copies(f) && Enabled(cfg, f, e) && e.Decides?
    requires n in Take(cfg, f, e).members
    ensures var g := Take(cfg, f, e); Ticket(g, g.members[n].round)
  {
    assert Ticket(f, f.members[e.node].round);
    assert n in f.members && Ticket(f, f.members[n].round);
    assert SameBucket(f.members[n].round, f.members[e.node].round) ==> n == e.node;
  }

  lemma DecideCopies(cfg: Config, f: Fleet, e: Event)
    requires cfg.mode == Leader && Tickets(f) && Copies(f) && Enabled(cfg, f, e) && e.Decides?
    ensures Copies(Take(cfg, f, e))
  {
    assert Ticket(f, f.members[e.node].round);
  }

  lemma {:induction false} TicketsRun(cfg: Config, f: Fleet, events: seq<Event>, g: Fleet)
    requires cfg.mode == Leader && ClaimsOutlive(cfg) && Runs(cfg, f, events, g)
    requires Proper(cfg, f) && Claims(cfg, f) && Tickets(f) && Copies(f)
    ensures Tickets(g) && Copies(g)
    decreases |events|
  {
    if events != [] {
      hide Take, Tickets, Copies, Claims, Proper;
      var e := events[0];
      ProperStep(cfg, f, e);
      ClaimsStep(cfg, f, e);
      if e.Syncs? {
        SyncTickets(cfg, f, e);
        SyncCopies(cfg, f, e);
      } else if e.Reads? {
        ReadStep(cfg, f, e);
      } else if e.Decides? {
        DecideTickets(cfg, f, e);
        DecideCopies(cfg, f, e);
      } else {
        LocalStep(cfg, f, e);
      }
      TicketsRun(cfg, Take(cfg, f, e), events[1..], g);
    }
  }

  /**
   * Fleet agreement: over any run, replicas that obtain a decision for the same bucket, by Sync or by
   * leading it, obtain the same policy, which is what the first Decide carried out for it asked for.
   */
  lemma Agreement(cfg: Config, events: seq<Event>, g: Fleet, a: Obtained, b: Obtained)
    requires cfg.mode == Leader && ClaimsOutlive(cfg) && Runs(cfg, START, events, g)
    requires a in g.obtained && b in g.obtained && a.key == b.key
    ensures a.policy == b.policy && a.policy != UNDEFINED
    ensures a.key in g.published && g.published[a.key] == a.policy && g.leads[a.key] == 1
  {
    ClaimsRun(cfg, START, events, g);
    TicketsRun(cfg, START, events, g);
    assert Claimed(cfg, g, a.key);
  }

  /** In any run, the Sync that is granted a bucket carries no decision, and a decision carried is the published one. */
  lemma GrantTellsNothing(cfg: Config, events: seq<Event>, f: Fleet, e: Event)
    requires cfg.mode == Leader && ClaimsOutlive(cfg) && Runs(cfg, START, events, f) && e.Syncs? && Enabled(cfg, f, e)
    ensures var req := f.members[e.node].round.req;
      var key, result := KeyOf(e.at, req), SyncAnswer(f.store, e.at, req);
      && (result.leader ==> result.decision == None && key !in f.leads && key !in f.published)
      && (result.decision.Some? ==> key in f.published && f.published[key] == result.decision.value)
  {
    ClaimsRun(cfg, START, events, f);
    TicketsRun(cfg, START, events, f);
    AnswerTells(cfg, f, e.at, f.members[e.node].round.req);
  }

  /** What a replica is about to apply is its bucket's decision, and one bucket never has two replicas leading it. */
  lemma AppliesTheDecision(cfg: Config, events: seq<Event>, g: Fleet, n: NodeId, o: NodeId)
    requires cfg.mode == Leader && ClaimsOutlive(cfg) && Runs(cfg, START, events, g)
    requires n in g.members && o in g.members
    ensures g.members[n].round.Applying? && g.members[n].round.decision.Some? ==>
              var r := g.members[n].round; r.key in g.published && g.published[r.key] == r.decision.value
    ensures n != o ==> !SameBucket(g.members[n].round, g.members[o].round)
  {
    TicketsRun(cfg, START, events, g);
    assert Ticket(g, g.members[n].round);
  }

  /** A decision, once published, is never replaced, however the run goes on. */
  lemma {:induction false} DecisionStands(cfg: Config, f: Fleet, events: seq<Event>, g: Fleet, key: BucketKey)
    requires Runs(cfg, f, events, g) && key in f.published
    ensures key in g.published && g.published[key] == f.published[key]
    decreases |events|
  {
    if events != [] {
      DecisionStands(cfg, Take(cfg, f, events[0]), events[1..], g, key);
    }
  }

  // ---- Without a leader ----

  ghost predicate Leaderless(f: Fleet) {
    && f.leads == multiset{} && f.published == map[] && f.obtained == {}
    && f.store.leaders == map[] && f.store.decisions == map[]
    && forall n :: n in f.members ==> !f.members[n].round.Deciding?
  }

  lemma LeaderlessStep(cfg: Config, f: Fleet, e: Event)
    requires cfg.mode == SharedPosterior && Proper(cfg, f) && Leaderless(f) && Enabled(cfg, f, e)
    ensures Leaderless(Take(cfg, f, e))
  {
  }

  /** Under a shared posterior nobody leads and the decision key is never written. */
  lemma {:induction false} SharedNeverDecides(cfg: Config, f: Fleet, events: seq<Event>, g: Fleet)
    requires cfg.mode == SharedPosterior && Proper(cfg, f) && Leaderless(f) && Runs(cfg, f, events, g)
    ensures Leaderless(g)
    decreases |events|
  {
    if events != [] {
      ProperStep(cfg, f, events[0]);
      LeaderlessStep(cfg, f, events[0]);
      SharedNeverDecides(cfg, Take(cfg, f, events[0]), events[1..], g);
    }
  }
}
