/** The store a fleet coordinates through: counters, leadership claims and decisions per bucket, all expiring. */
module MemStore {
  import opened Options
  import opened ArmContract
  import opened Window

  /** What a cache measures: its arms, its capacity and its sample rate in ten-thousandths. */
  datatype Regime = Regime(arms: seq<PolicyType>, capacity: int, rate: int)

  /** A fleet's name scoped by a regime; the fingerprint of the regime is taken to be injective. */
  datatype Namespace = Namespace(name: string, regime: Regime)

  type NodeId = string

  datatype BucketKey = BucketKey(namespace: Namespace, bucket: int)

  datatype Stamped<T> = Stamped(value: T, expires: int)

  datatype ArmCounts = ArmCounts(key: ArmKey, counts: Counts)

  /** Times and lifetimes are in nanoseconds. */
  datatype SyncRequest = SyncRequest(
    namespace: Namespace,
    node: NodeId,
    counts: seq<ArmCounts>,
    epochMillis: int,
    counterTTL: int,
    leaderTTL: int,
    lead: bool)

  datatype SyncResult = SyncResult(bucket: int, leader: bool, decision: Option<PolicyType>)

  datatype Contents = Contents(
    counts: map<BucketKey, Stamped<Arms>>,
    leaders: map<BucketKey, Stamped<NodeId>>,
    decisions: map<BucketKey, Stamped<PolicyType>>)

  const EMPTY := Contents(map[], map[], map[])

  const MILLISECOND: int := 1_000_000

  function BucketAt(now: nat, epochMillis: int): int {
    now / MILLISECOND / (if epochMillis <= 0 then 1 else epochMillis)
  }

  /** An entry lives up to and including the instant it expires at. */
  function Live<T>(m: map<BucketKey, Stamped<T>>, now: int): map<BucketKey, Stamped<T>> {
    map key | key in m && now <= m[key].expires :: m[key]
  }

  function Expire(c: Contents, now: int): Contents {
    Contents(Live(c.counts, now), Live(c.leaders, now), Live(c.decisions, now))
  }

  function Deposit(arms: Arms, counts: seq<ArmCounts>): Arms {
    if counts == [] then arms
    else
      var last := counts[|counts| - 1];
      var before := Deposit(arms, counts[..|counts| - 1]);
      before[last.key := Plus(At(before, last.key), last.counts)]
  }

  /** What a request says about an arm in a role, over all its entries. */
  function Listed(counts: seq<ArmCounts>, k: ArmKey): Counts {
    if counts == [] then NOTHING
    else
      var last := counts[|counts| - 1];
      Plus(Listed(counts[..|counts| - 1], k), if last.key == k then last.counts else NOTHING)
  }

  ghost predicate Names(counts: seq<ArmCounts>, k: ArmKey) {
    exists i :: 0 <= i < |counts| && counts[i].key == k
  }

  lemma {:induction false} DepositAt(arms: Arms, counts: seq<ArmCounts>, k: ArmKey)
    ensures At(Deposit(arms, counts), k) == Plus(At(arms, k), Listed(counts, k))
    ensures k in Deposit(arms, counts) <==> k in arms || Names(counts, k)
  {
    hide Plus;
    PlusLaws(At(arms, k), NOTHING, NOTHING);
    if counts != [] {
      var n := |counts| - 1;
      DepositAt(arms, counts[..n], k);
      NamesLast(counts, k);
      PlusLaws(At(arms, k), Listed(counts[..n], k), counts[n].counts);
      PlusLaws(Listed(counts[..n], k), NOTHING, NOTHING);
    }
  }

  lemma NamesLast(counts: seq<ArmCounts>, k: ArmKey)
    requires counts != []
    ensures Names(counts, k) <==> Names(counts[..|counts| - 1], k) || counts[|counts| - 1].key == k
  {
    var fewer := counts[..|counts| - 1];
    if Names(fewer, k) {
      var i :| 0 <= i < |fewer| && fewer[i].key == k;
      assert counts[i].key == k;
    }
    if Names(counts, k) {
      var i :| 0 <= i < |counts| && counts[i].key == k;
      assert i < |fewer| ==> fewer[i].key == k;
    }
  }

  function ArmsAt(counts: map<BucketKey, Stamped<Arms>>, key: BucketKey): Arms {
    if key in counts then counts[key].value else map[]
  }

  function KeyOf(now: nat, req: SyncRequest): BucketKey {
    BucketKey(req.namespace, BucketAt(now, req.epochMillis))
  }

  /** The store after an answered Sync. */
  function Synced(c: Contents, now: nat, req: SyncRequest): Contents {
    var live := Expire(c, now);
    var key := KeyOf(now, req);
    Contents(
      if req.counts == [] then live.counts
      else live.counts[key := Stamped(Deposit(ArmsAt(live.counts, key), req.counts), now + req.counterTTL)],
      if req.lead && key !in live.leaders then live.leaders[key := Stamped(req.node, now + req.leaderTTL)]
      else live.leaders,
      live.decisions)
  }

  function SyncAnswer(c: Contents, now: nat, req: SyncRequest): SyncResult {
    var key := KeyOf(now, req);
    SyncResult(key.bucket, req.lead && key !in Live(c.leaders, now), DecisionAt(Live(c.decisions, now), key))
  }

  function DecisionAt(decisions: map<BucketKey, Stamped<PolicyType>>, key: BucketKey): Option<PolicyType> {
    if key in decisions then Some(decisions[key].value) else None
  }

  /** The store after an answered Decide: a published decision stays. */
  function Decided(c: Contents, now: nat, key: BucketKey, policy: PolicyType, ttl: int): Contents {
    var live := Expire(c, now);
    if key in live.decisions then live
    else live.(decisions := live.decisions[key := Stamped(policy, now + ttl)])
  }

  function InForce(c: Contents, now: nat, key: BucketKey, policy: PolicyType): PolicyType {
    DecisionAt(Live(c.decisions, now), key).UnwrapOr(policy)
  }

  /** The buckets of a range that hold counts, oldest first. */
  function WindowOf(counts: map<BucketKey, Stamped<Arms>>, ns: Namespace, first: int, last: int): seq<WindowCounts>
    decreases last - first
  {
    if last < first then []
    else
      var key := BucketKey(ns, last);
      WindowOf(counts, ns, first, last - 1) +
      if key in counts then [WindowCounts(last, counts[key].value)] else []
  }

  class MemStore {
    var counts: map<BucketKey, Stamped<Arms>>
    var leaders: map<BucketKey, Stamped<NodeId>>
    var decisions: map<BucketKey, Stamped<PolicyType>>
    var failure: bool

    ghost function Holds(): Contents
      reads this
    {
      Contents(counts, leaders, decisions)
    }

    constructor ()
      ensures Holds() == EMPTY && !failure
    {
      counts, leaders, decisions, failure := map[], map[], map[], false;
    }

    method Fail(err: bool)
      modifies this`failure
      ensures failure == err
    {
      failure := err;
    }

    static method DropExpired<T>(m: map<BucketKey, Stamped<T>>, now: int) returns (live: map<BucketKey, Stamped<T>>)
      ensures live == Live(m, now)
    {
      live := m;
      var keys := m.Keys;
      while keys != {}
        invariant keys <= m.Keys
        invariant forall k :: k in live <==> k in m && (k in keys || now <= m[k].expires)
        invariant forall k :: k in live ==> live[k] == m[k]
        decreases |keys|
      {
        var key :| key in keys;
        keys := keys - {key};
        if now > m[key].expires {
          live := live - {key};
        }
      }
    }

    method ExpireLocked(now: int)
      modifies this`counts, this`leaders, this`decisions
      ensures Holds() == Expire(old(Holds()), now)
    {
      counts := DropExpired(counts, now);
      leaders := DropExpired(leaders, now);
      decisions := DropExpired(decisions, now);
    }

    /** None is the error return: the context is done or the store is failing. */
    method Sync(cancelled: bool, now: nat, req: SyncRequest) returns (r: Option<SyncResult>)
      modifies this`counts, this`leaders, this`decisions
      ensures cancelled || failure ==> r == None && Holds() == old(Holds())
      ensures !cancelled && !failure ==> r == Some(SyncAnswer(old(Holds()), now, req))
      ensures !cancelled && !failure ==> Holds() == Synced(old(Holds()), now, req)
    {
      if cancelled || failure {
        return None;
      }
      ExpireLocked(now);
      var bucket := BucketAt(now, req.epochMillis);
      var key := BucketKey(req.namespace, bucket);
      if |req.counts| > 0 {
        var arms: Arms := if key in counts then counts[key].value else map[];
        ghost var before := arms;
        for i := 0 to |req.counts|
          invariant arms == Deposit(before, req.counts[..i])
        {
          var count := req.counts[i];
          assert req.counts[..i + 1][..i] == req.counts[..i];
          arms := arms[count.key := Plus(At(arms, count.key), count.counts)];
        }
        assert req.counts[..|req.counts|] == req.counts;
        counts := counts[key := Stamped(arms, now + req.counterTTL)];
      }
      var leader := false;
      if req.lead && key !in leaders {
        leaders := leaders[key := Stamped(req.node, now + req.leaderTTL)];
        leader := true;
      }
      var decision := None;
      if key in decisions {
        decision := Some(decisions[key].value);
      }
      r := Some(SyncResult(bucket, leader, decision));
    }

    method Window(cancelled: bool, now: nat, ns: Namespace, first: int, last: int)
      returns (r: Option<seq<WindowCounts>>)
      modifies this`counts, this`leaders, this`decisions
      ensures cancelled || failure ==> r == None && Holds() == old(Holds())
      ensures !cancelled && !failure ==> Holds() == Expire(old(Holds()), now)
      ensures !cancelled && !failure ==> r == Some(WindowOf(Live(old(counts), now), ns, first, last))
    {
      if cancelled || failure {
        return None;
      }
      ExpireLocked(now);
      var window := [];
      var bucket := first;
      while bucket <= last
        invariant window == WindowOf(counts, ns, first, bucket - 1)
        invariant first <= bucket && (bucket <= last + 1 || bucket == first)
        decreases last - bucket
      {
        var key := BucketKey(ns, bucket);
        if key in counts {
          window := window + [WindowCounts(bucket, counts[key].value)];
        }
        bucket := bucket + 1;
      }
      EmptyRange(counts, ns, first, last);
      r := Some(window);
    }

    method Decide(cancelled: bool, now: nat, key: BucketKey, policy: PolicyType, ttl: int)
      returns (r: Option<PolicyType>)
      modifies this`counts, this`leaders, this`decisions
      ensures cancelled || failure ==> r == None && Holds() == old(Holds())
      ensures !cancelled && !failure ==> r == Some(InForce(old(Holds()), now, key, policy))
      ensures !cancelled && !failure ==> Holds() == Decided(old(Holds()), now, key, policy, ttl)
    {
      if cancelled || failure {
        return None;
      }
      ExpireLocked(now);
      if key in decisions {
        return Some(decisions[key].value);
      }
      decisions := decisions[key := Stamped(policy, now + ttl)];
      r := Some(policy);
    }
  }

  lemma EmptyRange(counts: map<BucketKey, Stamped<Arms>>, ns: Namespace, first: int, last: int)
    ensures last < first ==> WindowOf(counts, ns, first, last) == WindowOf(counts, ns, first, first - 1)
  {
  }

  /** The window holds nothing but stored buckets of the range, and the ones it holds ascend. */
  ghost predicate Faithful(w: seq<WindowCounts>, counts: map<BucketKey, Stamped<Arms>>, ns: Namespace, first: int,
                           last: int) {
    forall i :: 0 <= i < |w| ==>
      && first <= w[i].bucket <= last
      && BucketKey(ns, w[i].bucket) in counts
      && w[i].arms == counts[BucketKey(ns, w[i].bucket)].value
      && (i > 0 ==> w[i - 1].bucket < w[i].bucket)
  }

  /** A window lists exactly the stored buckets of its range, each once, in order. */
  lemma {:induction false} WindowLists(counts: map<BucketKey, Stamped<Arms>>, ns: Namespace, first: int, last: int)
    ensures Faithful(WindowOf(counts, ns, first, last), counts, ns, first, last)
    ensures forall b :: first <= b <= last && BucketKey(ns, b) in counts ==>
              var w := WindowOf(counts, ns, first, last); exists i :: 0 <= i < |w| && w[i].bucket == b
    decreases last - first
  {
    if first <= last {
      WindowLists(counts, ns, first, last - 1);
      var v, w := WindowOf(counts, ns, first, last - 1), WindowOf(counts, ns, first, last);
      forall i | 0 <= i < |v| ensures w[i] == v[i] {
      }
      forall b | first <= b <= last && BucketKey(ns, b) in counts
        ensures exists i :: 0 <= i < |w| && w[i].bucket == b
      {
        if b < last {
          var i :| 0 <= i < |v| && v[i].bucket == b;
          assert w[i].bucket == b;
        } else {
          assert w[|w| - 1].bucket == b;
        }
      }
    }
  }
}
