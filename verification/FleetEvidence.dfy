/** The evidence a reader pools, and where every count goes, over every run of the fleet. */
module FleetEvidence {
  import opened Options
  import opened ArmContract
  import opened Window
  import opened MemStore
  import opened Distributed
  import opened Fleet

  // ---- What the accepted Syncs add up to ----

  /** The accepted counts of an arm in a bucket, over every replica that sent any. */
  function Accepted(log: Log, key: BucketKey, k: ArmKey): Counts {
    match log
    case Nothing => NOTHING
    case Entry(past, at, _, counts) =>
      if at == key then Plus(Accepted(past, key, k), Listed(counts, k)) else Accepted(past, key, k)
  }

  ghost predicate Wrote(log: Log, key: BucketKey, k: ArmKey) {
    match log
    case Nothing => false
    case Entry(past, at, _, counts) => (at == key && Names(counts, k)) || Wrote(past, key, k)
  }

  predicate Touched(log: Log, key: BucketKey) {
    match log
    case Nothing => false
    case Entry(past, at, _, counts) => (at == key && counts != []) || Touched(past, key)
  }

  lemma {:induction false} Untouched(log: Log, key: BucketKey, k: ArmKey)
    ensures !Touched(log, key) ==> Accepted(log, key, k) == NOTHING && !Wrote(log, key, k)
  {
    match log
    case Nothing =>
    case Entry(past, at, _, counts) => Untouched(past, key, k);
  }

  // ---- A stored bucket is the sum of its accepted Syncs ----

  ghost predicate SumsUp(counts: map<BucketKey, Stamped<Arms>>, log: Log, key: BucketKey, k: ArmKey)
    requires key in counts
  {
    At(counts[key].value, k) == Accepted(log, key, k) && (k in counts[key].value <==> Wrote(log, key, k))
  }

  /** The instant up to which a bucket's counters are certain to live. */
  function Horizon(cfg: Config, key: BucketKey): int {
    cfg.Start(key.bucket + cfg.window + 2)
  }

  ghost predicate Stored(cfg: Config, now: nat, counts: map<BucketKey, Stamped<Arms>>, log: Log, key: BucketKey) {
    && (key in counts ==> counts[key].expires >= Horizon(cfg, key))
    && (key in counts ==> forall k :: SumsUp(counts, log, key, k))
    && (Touched(log, key) ==> key.bucket <= cfg.BucketOf(now))
    && (Touched(log, key) ==> key in counts || now >= Horizon(cfg, key))
  }

  lemma TimePasses(cfg: Config, now: nat, counts: map<BucketKey, Stamped<Arms>>, log: Log, key: BucketKey, at: nat)
    requires Stored(cfg, now, counts, log, key) && at >= now
    ensures Stored(cfg, at, counts, log, key) && Stored(cfg, at, Live(counts, at), log, key)
  {
    BucketMonotone(cfg, now, at);
    hide Horizon, Accepted, Wrote;
    if key in Live(counts, at) {
      forall k ensures SumsUp(Live(counts, at), log, key, k) {
        assert SumsUp(counts, log, key, k);
      }
    }
  }

  /** The bucket a Sync lands in gains exactly the request's counts. */
  lemma WriteAdds(cfg: Config, at: nat, c: Contents, log: Log, req: SyncRequest, node: NodeId, k: ArmKey)
    requires Configured(cfg) && req.epochMillis == cfg.EpochMillis() && req.counts != []
    requires Stored(cfg, at, Live(c.counts, at), log, KeyOf(at, req))
    ensures SumsUp(Synced(c, at, req).counts, Entry(log, KeyOf(at, req), node, req.counts), KeyOf(at, req), k)
  {
    hide Plus, Listed, Names, Deposit;
    var key, live := KeyOf(at, req), Live(c.counts, at);
    DepositAt(ArmsAt(live, key), req.counts, k);
    Untouched(log, key, k);
    FreshBucket(cfg, at, key);
    assert key in live ==> SumsUp(live, log, key, k);
  }

  lemma EmptyEntry(log: Log, at: BucketKey, node: NodeId, counts: seq<ArmCounts>, key: BucketKey, k: ArmKey)
    requires at != key || counts == []
    ensures Accepted(Entry(log, at, node, counts), key, k) == Accepted(log, key, k)
    ensures Wrote(Entry(log, at, node, counts), key, k) == Wrote(log, key, k)
  {
    hide Plus;
    PlusLaws(Accepted(log, key, k), NOTHING, NOTHING);
  }

  lemma Writes(cfg: Config, at: nat, c: Contents, log: Log, req: SyncRequest, node: NodeId, key: BucketKey)
    requires Configured(cfg) && WholeMillis(cfg)
    requires req.epochMillis == cfg.EpochMillis() && req.counterTTL == cfg.CounterTTL()
    requires Stored(cfg, at, Live(c.counts, at), log, key)
    ensures Stored(cfg, at, Synced(c, at, req).counts, Entry(log, KeyOf(at, req), node, req.counts), key)
  {
    hide Accepted, Wrote, Deposit, Config.Start;
    var live, after := Live(c.counts, at), Synced(c, at, req).counts;
    CountersOutlive(cfg, at);
    if key in after {
      forall k ensures SumsUp(after, Entry(log, KeyOf(at, req), node, req.counts), key, k) {
        if key == KeyOf(at, req) && req.counts != [] {
          WriteAdds(cfg, at, c, log, req, node, k);
        } else {
          assert SumsUp(live, log, key, k);
          EmptyEntry(log, KeyOf(at, req), node, req.counts, key, k);
        }
      }
    }
  }

  /** A bucket's counters cannot have expired while it is current. */
  lemma FreshBucket(cfg: Config, at: nat, key: BucketKey)
    requires Configured(cfg) && key.bucket == cfg.BucketOf(at)
    ensures at < Horizon(cfg, key)
  {
    BucketBounds(cfg, at);
    StartMonotone(cfg, key.bucket + 1, key.bucket + cfg.window + 2);
  }

  ghost predicate StoredAll(cfg: Config, f: Fleet) {
    forall key :: Stored(cfg, f.now, f.store.counts, f.log, key)
  }

  /** A reader's bucket has begun. */
  ghost predicate ReadersBegun(cfg: Config, f: Fleet) {
    forall n :: n in f.members && f.members[n].round.Reading? ==> f.members[n].round.key.bucket <= cfg.BucketOf(f.now)
  }

  lemma StoredStep(cfg: Config, f: Fleet, e: Event)
    requires Configured(cfg) && WholeMillis(cfg) && Proper(cfg, f) && StoredAll(cfg, f) && Enabled(cfg, f, e)
    ensures StoredAll(cfg, Take(cfg, f, e))
  {
    var g := Take(cfg, f, e);
    forall key ensures Stored(cfg, g.now, g.store.counts, g.log, key) {
      assert Stored(cfg, f.now, f.store.counts, f.log, key);
      if !Local(e) {
        TimePasses(cfg, f.now, f.store.counts, f.log, key, e.at);
      }
      if e.Syncs? && e.fate != Refused {
        Writes(cfg, e.at, f.store, f.log, f.members[e.node].round.req, e.node, key);
      }
    }
  }

  lemma ReadersStep(cfg: Config, f: Fleet, e: Event)
    requires Proper(cfg, f) && ReadersBegun(cfg, f) && Enabled(cfg, f, e)
    ensures ReadersBegun(cfg, Take(cfg, f, e))
  {
    if Local(e) {
      LocalRound(cfg, f, e);
      hide AfterLocal;
    } else {
      BucketMonotone(cfg, f.now, e.at);
    }
  }

  lemma {:induction false} EvidenceRun(cfg: Config, f: Fleet, events: seq<Event>, g: Fleet)
    requires Configured(cfg) && WholeMillis(cfg) && Runs(cfg, f, events, g)
    requires Proper(cfg, f) && StoredAll(cfg, f) && ReadersBegun(cfg, f)
    ensures Proper(cfg, g) && StoredAll(cfg, g) && ReadersBegun(cfg, g)
    decreases |events|
  {
    if events != [] {
      hide Take, Proper, StoredAll, ReadersBegun;
      ProperStep(cfg, f, events[0]);
      StoredStep(cfg, f, events[0]);
      ReadersStep(cfg, f, events[0]);
      EvidenceRun(cfg, Take(cfg, f, events[0]), events[1..], g);
    }
  }

  lemma Initially(cfg: Config)
    ensures Proper(cfg, START) && StoredAll(cfg, START) && ReadersBegun(cfg, START)
  {
  }

  /** In every reachable state, a stored bucket's counts are the sums of its accepted Syncs, whoever sent them. */
  lemma BucketIsSum(cfg: Config, events: seq<Event>, g: Fleet, key: BucketKey, k: ArmKey)
    requires Configured(cfg) && WholeMillis(cfg) && Runs(cfg, START, events, g)
    ensures key in g.store.counts ==> At(g.store.counts[key].value, k) == Accepted(g.log, key, k)
    ensures Touched(g.log, key) && g.now < Horizon(cfg, key) ==> key in Live(g.store.counts, g.now)
  {
    EvidenceRun(cfg, START, events, g);
    assert Stored(cfg, g.now, g.store.counts, g.log, key);
    assert key in g.store.counts ==> SumsUp(g.store.counts, g.log, key, k);
  }

  // ---- The past is frozen ----

  /** Once a bucket is over, nothing is ever added to it. */
  lemma {:induction false} PastIsFrozen(cfg: Config, f: Fleet, events: seq<Event>, g: Fleet, key: BucketKey, k: ArmKey)
    requires Proper(cfg, f) && Runs(cfg, f, events, g) && key.bucket < cfg.BucketOf(f.now)
    ensures Accepted(g.log, key, k) == Accepted(f.log, key, k)
    ensures Touched(g.log, key) == Touched(f.log, key)
    decreases |events|
  {
    if events != [] {
      var e := events[0];
      var h := Take(cfg, f, e);
      ProperStep(cfg, f, e);
      if !Local(e) {
        BucketMonotone(cfg, f.now, e.at);
      }
      assert h.log == f.log || h.log.key.bucket == cfg.BucketOf(h.now);
      hide Take, Proper;
      PastIsFrozen(cfg, h, events[1..], g, key, k);
    }
  }
}
