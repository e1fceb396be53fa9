/** Where a replica's evidence goes: buffered, in flight, accepted once, or given up. */
module FleetBalance {
  import opened Options
  import opened ArmContract
  import opened Window
  import opened MemStore
  import opened Distributed
  import opened Fleet

  /** What the store accepted from one replica about one arm in one role, over all buckets. */
  function AcceptedFrom(log: Log, node: NodeId, k: ArmKey): Counts {
    match log
    case Nothing => NOTHING
    case Entry(past, _, from, counts) =>
      if from == node then Plus(AcceptedFrom(past, node, k), Listed(counts, k)) else AcceptedFrom(past, node, k)
  }

  function InFlight(r: Round, k: ArmKey): Counts {
    match r
    case Sending(req) => Listed(req.counts, k)
    case _ => NOTHING
  }

  ghost predicate Adds(told: Counts, pending: Counts, flying: Counts, accepted: Counts, lost: Counts) {
    told == Plus(Plus(pending, flying), Plus(accepted, lost))
  }

  /** Everything a replica was told is pending, in flight, accepted, or was given up. */
  ghost predicate Balanced(m: Member, log: Log, node: NodeId, k: ArmKey) {
    Adds(At(m.buffered, k), At(m.replica.pending, k), InFlight(m.round, k),
         AcceptedFrom(log, node, k), At(m.discarded, k))
  }

  ghost predicate Ledger(f: Fleet, k: ArmKey) {
    forall n :: if n in f.members then Balanced(f.members[n], f.log, n, k) else AcceptedFrom(f.log, n, k) == NOTHING
  }

  lemma Grows(told: Counts, pending: Counts, flying: Counts, accepted: Counts, lost: Counts, more: Counts)
    requires Adds(told, pending, flying, accepted, lost)
    ensures Adds(Plus(told, more), Plus(pending, more), flying, accepted, lost)
    ensures Adds(Plus(told, more), Plus(NOTHING, more), flying, accepted, Plus(lost, pending))
  {
  }

  lemma Moves(told: Counts, a: Counts, b: Counts, accepted: Counts, lost: Counts)
    ensures Adds(told, a, NOTHING, accepted, lost) ==> Adds(told, NOTHING, a, accepted, lost)
    ensures Adds(told, a, b, accepted, lost) ==> Adds(told, a, NOTHING, Plus(accepted, b), lost)
    ensures Adds(told, a, b, accepted, lost) ==> Adds(told, a, NOTHING, accepted, Plus(lost, b))
    ensures Adds(NOTHING, NOTHING, NOTHING, NOTHING, NOTHING)
  {
  }

  lemma MergeAt(a: Arms, b: Arms, k: ArmKey)
    ensures At(Merge(a, b), k) == Plus(At(a, k), At(b, k))
  {
  }

  lemma ReportBalances(m: Member, report: Report, log: Log, node: NodeId, k: ArmKey)
    requires Balanced(m, log, node, k)
    ensures Balanced(AfterReport(m, report), log, node, k)
  {
    hide Plus, Adds;
    var counts := CountsOf(report);
    DepositAt(m.buffered, counts, k);
    DepositAt(m.replica.pending, counts, k);
    DepositAt(map[], counts, k);
    MergeAt(m.discarded, m.replica.pending, k);
    Grows(At(m.buffered, k), At(m.replica.pending, k), InFlight(m.round, k),
          AcceptedFrom(log, node, k), At(m.discarded, k),
          Listed(counts, k));
  }

  lemma NoteBalances(m: Member, s: ShadowStats, log: Log, node: NodeId, k: ArmKey)
    requires Balanced(m, log, node, k)
    ensures Balanced(AfterNote(m, s), log, node, k)
  {
    hide Plus, Adds, Deposit;
    var counts := [ArmCounts(ArmKey(s.policy, Shadow), s.counts)];
    DepositAt(m.buffered, counts, k);
    DepositAt(m.replica.pending, counts, k);
    Grows(At(m.buffered, k), At(m.replica.pending, k), InFlight(m.round, k),
          AcceptedFrom(log, node, k), At(m.discarded, k),
          Listed(counts, k));
  }

  lemma LocalBalances(cfg: Config, f: Fleet, e: Event, k: ArmKey)
    requires Ledger(f, k) && Enabled(cfg, f, e) && Local(e)
    ensures Balanced(AfterLocal(cfg, f, e), f.log, e.node, k)
  {
    hide Plus, Adds, Deposit, AfterReport, AfterNote, AcceptedFrom;
    if e.Joins? {
      Moves(NOTHING, NOTHING, NOTHING, NOTHING, NOTHING);
    } else {
      var m := f.members[e.node];
      assert Balanced(m, f.log, e.node, k);
      match e
      case Reports(node, report) => ReportBalances(m, report, f.log, node, k);
      case Notes(node, stats) => NoteBalances(m, stats, f.log, node, k);
      case Drains(node, name, counts) =>
        ListingKeeps(m.replica.pending, counts, k);
        Moves(At(m.buffered, k), At(m.replica.pending, k), NOTHING, AcceptedFrom(f.log, node, k), At(m.discarded, k));
      case _ =>
    }
  }

  /** A Sync that took effect moves the request into the log; a refused one gives it up. */
  lemma SyncBalances(m: Member, log: Log, node: NodeId, key: BucketKey, r: Round, k: ArmKey)
    requires Balanced(m, log, node, k) && m.round.Sending? && !r.Sending?
    ensures Balanced(m.(round := r), Entry(log, key, node, m.round.req.counts), node, k)
    ensures Balanced(m.(round := Idle, discarded := Deposit(m.discarded, m.round.req.counts)), log, node, k)
  {
    hide Plus, Adds, Listed, Deposit;
    DepositAt(m.discarded, m.round.req.counts, k);
    Moves(At(m.buffered, k), At(m.replica.pending, k), InFlight(m.round, k),
          AcceptedFrom(log, node, k), At(m.discarded, k));
  }

  lemma SyncLedger(cfg: Config, f: Fleet, node: NodeId, at: nat, fate: Fate, k: ArmKey)
    requires Ledger(f, k) && node in f.members && f.members[node].round.Sending?
    ensures Ledger(AfterSync(cfg, f, node, at, fate), k)
  {
    hide Plus, Listed, Synced, SyncAnswer, KeyOf, Deposit, RequestOf, Told;
    var m, g := f.members[node], AfterSync(cfg, f, node, at, fate);
    assert Balanced(m, f.log, node, k);
    var key := KeyOf(at, m.round.req);
    var r := if fate == Answered then RoundAfterSync(cfg, key, SyncAnswer(f.store, at, m.round.req)) else Idle;
    SyncBalances(m, f.log, node, key, r, k);
    Others(f, g, node, k);
  }

  /** A step of one replica leaves the others' accounts alone. */
  lemma Others(f: Fleet, g: Fleet, node: NodeId, k: ArmKey)
    requires Ledger(f, k) && node in g.members && Balanced(g.members[node], g.log, node, k)
    requires g.log == f.log || (g.log.Entry? && g.log.past == f.log && g.log.node == node)
    requires forall n :: n != node ==> (n in g.members <==> n in f.members)
    requires forall n :: n != node && n in f.members ==> g.members[n] == f.members[n]
    ensures Ledger(g, k)
  {
    hide Plus, Adds, Listed;
    forall n
      ensures if n in g.members then Balanced(g.members[n], g.log, n, k) else AcceptedFrom(g.log, n, k) == NOTHING
    {
      assert if n in f.members then Balanced(f.members[n], f.log, n, k) else AcceptedFrom(f.log, n, k) == NOTHING;
    }
  }

  lemma LedgerStep(cfg: Config, f: Fleet, e: Event, k: ArmKey)
    requires Ledger(f, k) && Enabled(cfg, f, e)
    ensures Ledger(Take(cfg, f, e), k)
  {
    hide Plus, Adds, Listed, Deposit, AcceptedFrom, AfterSync, AfterLocal;
    if Local(e) {
      LocalBalances(cfg, f, e, k);
      Others(f, Take(cfg, f, e), e.node, k);
    } else if e.Syncs? {
      SyncLedger(cfg, f, e.node, e.at, e.fate, k);
    } else {
      assert Balanced(f.members[e.node], f.log, e.node, k);
      Others(f, Take(cfg, f, e), e.node, k);
    }
  }

  lemma {:induction false} LedgerRun(cfg: Config, f: Fleet, events: seq<Event>, g: Fleet, k: ArmKey)
    requires Ledger(f, k) && Runs(cfg, f, events, g)
    ensures Ledger(g, k)
    decreases |events|
  {
    hide Take, Ledger;
    if events != [] {
      LedgerStep(cfg, f, events[0], k);
      LedgerRun(cfg, Take(cfg, f, events[0]), events[1..], g, k);
    }
  }

  /**
   * Evidence is conserved, replica by replica and arm by arm: all that was ever reported is pending, in
   * flight, accepted by the store exactly once, or was given up to a refused Sync or a change of regime.
   */
  lemma EvidenceConserved(cfg: Config, events: seq<Event>, g: Fleet, n: NodeId, k: ArmKey)
    requires Runs(cfg, START, events, g) && n in g.members
    ensures At(g.members[n].buffered, k) ==
            Plus(Plus(At(g.members[n].replica.pending, k), InFlight(g.members[n].round, k)),
                 Plus(AcceptedFrom(g.log, n, k), At(g.members[n].discarded, k)))
  {
    LedgerRun(cfg, START, events, g, k);
    assert Balanced(g.members[n], g.log, n, k);
  }
}
