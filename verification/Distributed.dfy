/** One replica's buffer of evidence: what the cache reports into it and what a coordination round takes out. */
module Distributed {
  import opened Options
  import opened ArmContract
  import opened Window
  import opened MemStore

  datatype ShadowStats = ShadowStats(policy: PolicyType, counts: Counts)

  datatype Report = Report(active: PolicyType, stats: seq<ShadowStats>, capacity: int, rate: int)

  /** The state a replica guards with its mutex, apart from its counters. */
  datatype Replica = Replica(pending: Arms, regime: Option<Regime>, arms: set<PolicyType>, selection: PolicyType)

  const FRESH := Replica(map[], None, {}, UNDEFINED)

  function RegimeOf(report: Report): Regime {
    Regime(seq(|report.stats|, i requires 0 <= i < |report.stats| => report.stats[i].policy),
           report.capacity, report.rate)
  }

  function PoliciesOf(report: Report): set<PolicyType> {
    set i | 0 <= i < |report.stats| :: report.stats[i].policy
  }

  function RoleOf(report: Report, policy: PolicyType): Role {
    if policy == report.active then Active else Shadow
  }

  /** What a report adds to the buffer, entry by entry. */
  function CountsOf(report: Report): (counts: seq<ArmCounts>)
    ensures |counts| == |report.stats|
  {
    seq(|report.stats|, i requires 0 <= i < |report.stats| =>
      ArmCounts(ArmKey(report.stats[i].policy, RoleOf(report, report.stats[i].policy)), report.stats[i].counts))
  }

  predicate ChangesRegime(r: Replica, report: Report) {
    r.regime != Some(RegimeOf(report))
  }

  function Recorded(r: Replica, report: Report): Replica {
    if ChangesRegime(r, report) then
      Replica(Deposit(map[], CountsOf(report)), Some(RegimeOf(report)), PoliciesOf(report), r.selection)
    else
      r.(pending := Deposit(r.pending, CountsOf(report)))
  }

  function Noted(r: Replica, s: ShadowStats): Replica {
    r.(arms := r.arms + {s.policy}, pending := Deposit(r.pending, [ArmCounts(ArmKey(s.policy, Shadow), s.counts)]))
  }

  function Applied(r: Replica, decision: Option<PolicyType>): Replica {
    if decision.Some? && decision.value in r.arms then r.(selection := decision.value) else r
  }

  /** The counts list exactly the buffer's arms, each once, in any order. */
  ghost predicate Lists(pending: Arms, counts: seq<ArmCounts>) {
    && (forall i :: 0 <= i < |counts| ==> counts[i].key in pending && counts[i].counts == pending[counts[i].key])
    && (forall i, j :: 0 <= i < j < |counts| ==> counts[i].key != counts[j].key)
    && (forall k :: k in pending ==> Names(counts, k))
  }

  /** Listing a buffer loses and invents nothing. */
  lemma {:induction false} ListingKeeps(pending: Arms, counts: seq<ArmCounts>, k: ArmKey)
    requires Lists(pending, counts)
    ensures Listed(counts, k) == At(pending, k)
    decreases |counts|
  {
    hide Plus;
    if counts != [] {
      var n := |counts| - 1;
      var key, c := counts[n].key, counts[n].counts;
      forall j | j in pending - {key} ensures Names(counts[..n], j) {
        NamesLast(counts, j);
      }
      ListingKeeps(pending - {key}, counts[..n], k);
      PlusLaws(NOTHING, c, NOTHING);
      PlusLaws(c, NOTHING, NOTHING);
      PlusLaws(At(pending, k), NOTHING, NOTHING);
    } else {
      assert k in pending ==> Names(counts, k);
    }
  }

  class Distributed {
    const name: string
    var pending: Arms
    var shape: Option<Regime>
    var arms: set<PolicyType>
    var selection: PolicyType

    ghost function State(): Replica
      reads this
    {
      Replica(pending, shape, arms, selection)
    }

    constructor (name: string)
      ensures State() == FRESH && this.name == name
    {
      this.name := name;
      pending, shape, arms, selection := map[], None, {}, UNDEFINED;
    }

    method AddLocked(key: ArmKey, counts: Counts)
      modifies this`pending
      ensures pending == old(pending)[key := Plus(At(old(pending), key), counts)]
    {
      pending := pending[key := Plus(At(pending, key), counts)];
    }

    method RecordStats(s: ShadowStats)
      modifies this`pending, this`arms
      ensures State() == Noted(old(State()), s)
    {
      arms := arms + {s.policy};
      ghost var one := [ArmCounts(ArmKey(s.policy, Shadow), s.counts)];
      assert one[..0] == [];
      assert Deposit(pending, one[..0]) == pending;
      AddLocked(ArmKey(s.policy, Shadow), s.counts);
    }

    method RecordEpoch(report: Report)
      modifies this
      ensures State() == Recorded(old(State()), report)
    {
      if shape != Some(RegimeOf(report)) {
        shape := Some(RegimeOf(report));
        pending := map[];
        arms := {};
        for i := 0 to |report.stats|
          invariant pending == map[] && shape == Some(RegimeOf(report)) && selection == old(selection)
          invariant arms == set j | 0 <= j < i :: report.stats[j].policy
        {
          arms := arms + {report.stats[i].policy};
        }
      }
      ghost var was := pending;
      ghost var counts := CountsOf(report);
      for i := 0 to |report.stats|
        invariant pending == Deposit(was, counts[..i])
        invariant unchanged(this`selection) && shape == Some(RegimeOf(report))
        invariant arms == if ChangesRegime(old(State()), report) then PoliciesOf(report) else old(arms)
      {
        var stats := report.stats[i];
        assert counts[..i + 1][..i] == counts[..i];
        AddLocked(ArmKey(stats.policy, RoleOf(report, stats.policy)), stats.counts);
      }
      assert counts[..|report.stats|] == counts;
    }

    /** None until a report has said what is being measured; the buffer is then kept as it is. */
    method Drain() returns (counts: Option<seq<ArmCounts>>)
      modifies this`pending
      ensures shape == None ==> counts == None && State() == old(State())
      ensures shape != None ==> counts.Some? && Lists(old(pending), counts.value)
      ensures shape != None ==> State() == old(State()).(pending := map[])
    {
      if shape == None {
        return None;
      }
      var listed: seq<ArmCounts> := [];
      var keys := pending.Keys;
      while keys != {}
        invariant keys <= pending.Keys
        invariant forall i :: 0 <= i < |listed| ==>
          listed[i].key in pending && listed[i].key !in keys && listed[i].counts == pending[listed[i].key]
        invariant forall i, j :: 0 <= i < j < |listed| ==> listed[i].key != listed[j].key
        invariant forall k :: k in pending && k !in keys ==> Names(listed, k)
        decreases |keys|
      {
        var key :| key in keys;
        ghost var before := listed;
        listed := listed + [ArmCounts(key, pending[key])];
        assert listed[..|before|] == before;
        keys := keys - {key};
        forall k | k in pending && k !in keys ensures Names(listed, k) {
          NamesLast(listed, k);
        }
      }
      pending := map[];
      counts := Some(listed);
    }

    method ApplyResult(decision: Option<PolicyType>)
      modifies this`selection
      ensures State() == Applied(old(State()), decision)
    {
      if decision.Some? && decision.value in arms {
        selection := decision.value;
      }
    }
  }
}
