/** What a reader pools equals a decayed sum over every accepted Sync, however many replicas sent them. */
module FleetWindow {
  import opened Options
  import opened ArmContract
  import opened Window
  import opened MemStore
  import opened Distributed
  import opened Fleet
  import opened FleetEvidence

  /** One arm as a reader sees it: a namespace, a range of buckets, a decay and the roles that count. */
  datatype View = View(namespace: Namespace, first: int, newest: int, decay: real, mode: EvidenceMode, arm: PolicyType)

  predicate Covers(v: View, key: BucketKey, last: int) {
    key.namespace == v.namespace && v.first <= key.bucket <= last
  }

  /** What one request says about an arm, over the roles that count. */
  function Said(counts: seq<ArmCounts>, mode: EvidenceMode, p: PolicyType): Counts {
    Plus(Listed(counts, ArmKey(p, Shadow)),
         if Admits(mode, Active) then Listed(counts, ArmKey(p, Active)) else NOTHING)
  }

  /** The reference: each accepted Sync, weighted by decay to the power of its bucket's age. */
  function Pooled(log: Log, v: View): Weighted {
    match log
    case Nothing => WEIGHTLESS
    case Entry(past, key, _, counts) => Sum(Pooled(past, v), Credit(v, key, counts, v.newest))
  }

  function Credit(v: View, key: BucketKey, counts: seq<ArmCounts>, last: int): Weighted {
    if Covers(v, key, last) then Scale(Weight(v.decay, v.newest, key.bucket), Said(counts, v.mode, v.arm))
    else WEIGHTLESS
  }

  /** The same sum taken bucket by bucket. */
  function InBucket(log: Log, v: View, b: int): Counts {
    Plus(Accepted(log, BucketKey(v.namespace, b), ArmKey(v.arm, Shadow)),
         if Admits(v.mode, Active) then Accepted(log, BucketKey(v.namespace, b), ArmKey(v.arm, Active)) else NOTHING)
  }

  function ByBucket(log: Log, v: View, last: int): Weighted
    decreases last - v.first
  {
    if last < v.first then WEIGHTLESS
    else Sum(ByBucket(log, v, last - 1), Scale(Weight(v.decay, v.newest, last), InBucket(log, v, last)))
  }

  /** An entry adds what it said to its own bucket, and nothing to the others. */
  lemma BucketEntry(log: Log, v: View, key: BucketKey, node: NodeId, counts: seq<ArmCounts>, b: int)
    ensures InBucket(Entry(log, key, node, counts), v, b) ==
            if key == BucketKey(v.namespace, b) then Plus(InBucket(log, v, b), Said(counts, v.mode, v.arm))
            else InBucket(log, v, b)
  {
    hide Plus, Listed;
    var at := BucketKey(v.namespace, b);
    Regroup(Accepted(log, at, ArmKey(v.arm, Shadow)), Listed(counts, ArmKey(v.arm, Shadow)),
            Accepted(log, at, ArmKey(v.arm, Active)), Listed(counts, ArmKey(v.arm, Active)));
    Regroup(Accepted(log, at, ArmKey(v.arm, Shadow)), Listed(counts, ArmKey(v.arm, Shadow)), NOTHING, NOTHING);
    PlusLaws(NOTHING, NOTHING, NOTHING);
  }

  lemma Regroup(a: Counts, b: Counts, c: Counts, d: Counts)
    ensures Plus(Plus(a, b), Plus(c, d)) == Plus(Plus(a, c), Plus(b, d))
  {
  }

  lemma {:induction false} ByBucketEntry(log: Log, v: View, key: BucketKey, node: NodeId, counts: seq<ArmCounts>,
                                         last: int)
    ensures ByBucket(Entry(log, key, node, counts), v, last) ==
            Sum(ByBucket(log, v, last), Credit(v, key, counts, last))
    decreases last - v.first
  {
    hide Sum, Scale, Plus, InBucket, Said, Weight;
    SumLaws(ByBucket(log, v, last), WEIGHTLESS, WEIGHTLESS);
    if v.first <= last {
      ByBucketEntry(log, v, key, node, counts, last - 1);
      BucketEntry(log, v, key, node, counts, last);
      var w, here := Weight(v.decay, v.newest, last), InBucket(log, v, last);
      ScaleSum(w, here, Said(counts, v.mode, v.arm));
      SumLaws(ByBucket(log, v, last - 1), Credit(v, key, counts, last - 1), Scale(w, here));
      SumLaws(ByBucket(log, v, last - 1), WEIGHTLESS, WEIGHTLESS);
      SumLaws(ByBucket(log, v, last - 1), Scale(w, here), Scale(w, Said(counts, v.mode, v.arm)));
    }
  }

  lemma {:induction false} EmptyByBucket(v: View, last: int)
    ensures ByBucket(Nothing, v, last) == WEIGHTLESS
    decreases last - v.first
  {
    if v.first <= last {
      EmptyByBucket(v, last - 1);
      ScaleSum(Weight(v.decay, v.newest, last), NOTHING, NOTHING);
      assert InBucket(Nothing, v, last) == NOTHING;
    }
  }

  /** Summing by request and summing by bucket agree. */
  lemma {:induction false} PooledByBucket(log: Log, v: View)
    ensures Pooled(log, v) == ByBucket(log, v, v.newest)
  {
    match log
    case Nothing => EmptyByBucket(v, v.newest);
    case Entry(past, key, node, counts) =>
      PooledByBucket(past, v);
      ByBucketEntry(past, v, key, node, counts, v.newest);
  }

  /** The buckets of a view are in the store with their sums, or were never touched. */
  ghost predicate Intact(counts: map<BucketKey, Stamped<Arms>>, log: Log, v: View) {
    forall b :: v.first <= b <= v.newest ==> IntactAt(counts, log, BucketKey(v.namespace, b))
  }

  ghost predicate IntactAt(counts: map<BucketKey, Stamped<Arms>>, log: Log, key: BucketKey) {
    && (key in counts ==> forall k :: SumsUp(counts, log, key, k))
    && (key !in counts ==> !Touched(log, key))
  }

  lemma BucketRead(counts: map<BucketKey, Stamped<Arms>>, log: Log, v: View, b: int)
    requires IntactAt(counts, log, BucketKey(v.namespace, b))
    ensures var key := BucketKey(v.namespace, b);
      InBucket(log, v, b) == if key in counts then Measured(counts[key].value, v.mode, v.arm) else NOTHING
  {
    hide Plus;
    var key := BucketKey(v.namespace, b);
    var s, a := ArmKey(v.arm, Shadow), ArmKey(v.arm, Active);
    if key in counts {
      assert SumsUp(counts, log, key, s) && SumsUp(counts, log, key, a);
    } else {
      Untouched(log, key, s);
      Untouched(log, key, a);
      PlusLaws(NOTHING, NOTHING, NOTHING);
    }
  }

  lemma {:induction false} PosteriorByBucket(counts: map<BucketKey, Stamped<Arms>>, log: Log, v: View, last: int)
    requires Intact(counts, log, v) && last <= v.newest
    ensures Posterior(WindowOf(counts, v.namespace, v.first, last), v.newest, v.decay, v.mode, v.arm) ==
            ByBucket(log, v, last)
    decreases last - v.first
  {
    hide Sum, Scale, Weight, InBucket, Measured;
    if v.first <= last {
      var key := BucketKey(v.namespace, last);
      PosteriorByBucket(counts, log, v, last - 1);
      assert IntactAt(counts, log, key);
      BucketRead(counts, log, v, last);
      var fewer, more := WindowOf(counts, v.namespace, v.first, last - 1), WindowOf(counts, v.namespace, v.first, last);
      if key in counts {
        assert more[..|more| - 1] == fewer;
      } else {
        assert more == fewer;
        ScaleSum(Weight(v.decay, v.newest, last), NOTHING, NOTHING);
        SumLaws(ByBucket(log, v, last - 1), WEIGHTLESS, WEIGHTLESS);
      }
    }
  }

  function ViewOf(cfg: Config, key: BucketKey, p: PolicyType): View {
    View(key.namespace, key.bucket - cfg.window, key.bucket - 1, cfg.decay, cfg.evidence, p)
  }

  /** No bucket of the window has expired while the next-but-one bucket has not begun. */
  lemma WindowIntact(cfg: Config, f: Fleet, key: BucketKey, at: nat, p: PolicyType)
    requires Configured(cfg) && StoredAll(cfg, f) && at >= f.now && at < cfg.Start(key.bucket + 2)
    ensures Intact(Live(f.store.counts, at), f.log, ViewOf(cfg, key, p))
  {
    var v := ViewOf(cfg, key, p);
    forall b | v.first <= b <= v.newest ensures IntactAt(Live(f.store.counts, at), f.log, BucketKey(v.namespace, b)) {
      var oldest := BucketKey(v.namespace, b);
      assert Stored(cfg, f.now, f.store.counts, f.log, oldest);
      TimePasses(cfg, f.now, f.store.counts, f.log, oldest, at);
      StartMonotone(cfg, key.bucket + 2, b + cfg.window + 2);
    }
  }

  /**
   * A replica that reads its window before the next-but-one bucket begins pools, for every arm, exactly
   * the decayed sum over every Sync the store ever accepted into the window, whoever sent it.
   */
  lemma CompleteWindow(cfg: Config, events: seq<Event>, f: Fleet, n: NodeId, at: nat, p: PolicyType)
    requires Configured(cfg) && WholeMillis(cfg) && Runs(cfg, START, events, f)
    requires n in f.members && f.members[n].round.Reading? && at >= f.now
    requires at < cfg.Start(f.members[n].round.key.bucket + 2)
    ensures var key := f.members[n].round.key;
      Posterior(ReadBy(cfg, f.store, at, key), key.bucket - 1, cfg.decay, cfg.evidence, p) ==
      Pooled(f.log, ViewOf(cfg, key, p))
  {
    hide Posterior, Pooled, ByBucket, Intact, WindowOf, Live, Configured, StoredAll, ReadersBegun;
    var key := f.members[n].round.key;
    Initially(cfg);
    EvidenceRun(cfg, START, events, f);
    WindowIntact(cfg, f, key, at, p);
    PosteriorByBucket(Live(f.store.counts, at), f.log, ViewOf(cfg, key, p), key.bucket - 1);
    PooledByBucket(f.log, ViewOf(cfg, key, p));
  }

  lemma {:induction false} SameByBucket(log: Log, other: Log, v: View, last: int)
    requires forall b, k :: v.first <= b <= last ==>
      Accepted(log, BucketKey(v.namespace, b), k) == Accepted(other, BucketKey(v.namespace, b), k)
    ensures ByBucket(log, v, last) == ByBucket(other, v, last)
    decreases last - v.first
  {
    hide Sum, Scale, Plus, Weight;
    if v.first <= last {
      SameByBucket(log, other, v, last - 1);
      assert InBucket(log, v, last) == InBucket(other, v, last);
    }
  }

  /** The window was frozen when it was read: however the run goes on, the reference sum stays what it was. */
  lemma WindowIsFinal(cfg: Config, events: seq<Event>, f: Fleet, n: NodeId, more: seq<Event>, g: Fleet, p: PolicyType)
    requires Configured(cfg) && WholeMillis(cfg) && Runs(cfg, START, events, f) && Runs(cfg, f, more, g)
    requires n in f.members && f.members[n].round.Reading?
    ensures var v := ViewOf(cfg, f.members[n].round.key, p); Pooled(g.log, v) == Pooled(f.log, v)
  {
    var key := f.members[n].round.key;
    var v := ViewOf(cfg, key, p);
    Initially(cfg);
    EvidenceRun(cfg, START, events, f);
    forall b, k | v.first <= b <= v.newest
      ensures Accepted(g.log, BucketKey(v.namespace, b), k) == Accepted(f.log, BucketKey(v.namespace, b), k)
    {
      PastIsFrozen(cfg, f, more, g, BucketKey(v.namespace, b), k);
    }
    SameByBucket(g.log, f.log, v, v.newest);
    PooledByBucket(g.log, v);
    PooledByBucket(f.log, v);
  }

  /** Some accepted Sync in the window named the arm in a role that counts. */
  ghost predicate Heard(log: Log, v: View) {
    exists b :: v.first <= b <= v.newest && HeardIn(log, v, b)
  }

  ghost predicate HeardIn(log: Log, v: View, b: int) {
    var key := BucketKey(v.namespace, b);
    Wrote(log, key, ArmKey(v.arm, Shadow)) || (Admits(v.mode, Active) && Wrote(log, key, ArmKey(v.arm, Active)))
  }

  lemma MentionedIsHeard(counts: map<BucketKey, Stamped<Arms>>, log: Log, v: View, b: int)
    requires IntactAt(counts, log, BucketKey(v.namespace, b))
    ensures HeardIn(log, v, b) <==>
            BucketKey(v.namespace, b) in counts && Mentions(counts[BucketKey(v.namespace, b)].value, v.mode, v.arm)
  {
    var key := BucketKey(v.namespace, b);
    var s, a := ArmKey(v.arm, Shadow), ArmKey(v.arm, Active);
    Untouched(log, key, s);
    Untouched(log, key, a);
    if key in counts {
      assert SumsUp(counts, log, key, s) && SumsUp(counts, log, key, a);
    }
  }

  lemma PooledIsHeard(counts: map<BucketKey, Stamped<Arms>>, log: Log, v: View)
    requires Intact(counts, log, v)
    requires Pools(WindowOf(counts, v.namespace, v.first, v.newest), v.newest, v.decay, v.mode, v.arm)
    ensures Heard(log, v)
  {
    hide HeardIn, Mentions, SumsUp;
    var w := WindowOf(counts, v.namespace, v.first, v.newest);
    WindowLists(counts, v.namespace, v.first, v.newest);
    var i :| 0 <= i < |w| && Weight(v.decay, v.newest, w[i].bucket) != 0.0 && Mentions(w[i].arms, v.mode, v.arm);
    assert IntactAt(counts, log, BucketKey(v.namespace, w[i].bucket));
    MentionedIsHeard(counts, log, v, w[i].bucket);
  }

  lemma HeardIsPooled(counts: map<BucketKey, Stamped<Arms>>, log: Log, v: View)
    requires v.decay > 0.0 && Intact(counts, log, v) && Heard(log, v)
    ensures Pools(WindowOf(counts, v.namespace, v.first, v.newest), v.newest, v.decay, v.mode, v.arm)
  {
    hide HeardIn, Mentions, SumsUp;
    var w := WindowOf(counts, v.namespace, v.first, v.newest);
    WindowLists(counts, v.namespace, v.first, v.newest);
    var b :| v.first <= b <= v.newest && HeardIn(log, v, b);
    assert IntactAt(counts, log, BucketKey(v.namespace, b));
    MentionedIsHeard(counts, log, v, b);
    var i :| 0 <= i < |w| && w[i].bucket == b;
    PowPositive(v.decay, v.newest - b);
  }

  /** In a run, an arm can be drawn exactly when the window heard of it. */
  lemma DrawsTheHeard(cfg: Config, events: seq<Event>, f: Fleet, n: NodeId, at: nat, p: PolicyType)
    requires Configured(cfg) && WholeMillis(cfg) && Runs(cfg, START, events, f)
    requires n in f.members && f.members[n].round.Reading? && at >= f.now
    requires at < cfg.Start(f.members[n].round.key.bucket + 2)
    ensures var key := f.members[n].round.key;
      Pools(ReadBy(cfg, f.store, at, key), key.bucket - 1, cfg.decay, cfg.evidence, p) <==>
        Heard(f.log, ViewOf(cfg, key, p))
  {
    hide Pools, Heard, Intact, WindowOf, Live, StoredAll, ReadersBegun;
    var key := f.members[n].round.key;
    Initially(cfg);
    EvidenceRun(cfg, START, events, f);
    WindowIntact(cfg, f, key, at, p);
    if Pools(ReadBy(cfg, f.store, at, key), key.bucket - 1, cfg.decay, cfg.evidence, p) {
      PooledIsHeard(Live(f.store.counts, at), f.log, ViewOf(cfg, key, p));
    }
    if Heard(f.log, ViewOf(cfg, key, p)) {
      HeardIsPooled(Live(f.store.counts, at), f.log, ViewOf(cfg, key, p));
    }
  }
}
