/** What the cache's invariants mean for a caller that performs one operation after another. */
module CacheRuns {
  import opened Options
  import opened ArmContract
  import opened CacheHistory
  import opened AdaptiveCache
  import opened Contents
  import opened Stability

  datatype Operation<K, V> =
    | DoGet(key: K)
    | DoPeek(key: K)
    | DoStats
    | DoAdd(key: K, value: V)
    | DoRemove(key: K)
    | DoPurge
    | DoResize(size: int)

  function Adds<K, V>(ops: seq<Operation<K, V>>): nat {
    if ops == [] then 0 else Adds(ops[..|ops| - 1]) + if ops[|ops| - 1].DoAdd? then 1 else 0
  }

  /**
   A window in which a caller does whatever it likes: it closes at the latest with the
   Add that makes as many Adds as there were keys queued when the caller started.
   */
  method UntilClosed<K(==), V>(c: AdaptiveCache<K, V>, ops: seq<Operation<K, V>>) returns (done: nat)
    requires c.Valid() && c.migrating
    modifies c, c.objs
    ensures c.Valid() && done <= |ops| && (c.migrating ==> done == |ops|)
    ensures Adds(ops[..done]) <= old(|c.queue|)
    ensures c.migrating ==> Adds(ops) < old(|c.queue|)
  {
    hide AdaptiveCache.RolesOK, AdaptiveCache.FreshOK, AdaptiveCache.ShadowCounts, AdaptiveCache.Ledger;
    hide AdaptiveCache.ActiveCounts, AdaptiveCache.OrderOK;
    hide AdaptiveCache.Logical, AdaptiveCache.SourceSize, AdaptiveCache.AbandonsNone, AdaptiveCache.CarriedOver;
    hide AdaptiveCache.OpenedOver, AdaptiveCache.RolesAfterClosing, AdaptiveCache.Spares, AdaptiveCache.SourceSpares;
    hide AdaptiveCache.HasRoom, AdaptiveCache.ShadowsHold, AdaptiveCache.Fits, Within, AddStep, LosesOnly, Drops;
    done := 0;
    while done < |ops| && c.migrating
      invariant c.Valid() && done <= |ops|
      invariant Adds(ops[..done]) + (if c.migrating then |c.queue| else 0) <= old(|c.queue|)
      decreases |ops| - done
    {
      assert ops[..done + 1][..done] == ops[..done];
      match ops[done] {
        case DoGet(key) => var _ := c.Get(key);
        case DoPeek(key) => var _ := c.Peek(key);
        case DoStats => var _ := c.GetStats();
        case DoAdd(key, value) => var _, _, _ := c.Add(key, value);
        case DoRemove(key) => var _ := c.Remove(key);
        case DoPurge => c.Purge();
        case DoResize(size) => var _ := c.Resize(size);
      }
      done := done + 1;
    }
    assert ops[..|ops|] == ops;
  }

  /**
   A lookup of a sampled key in a window with another key to migrate, then an epoch: if it
   reports at all, the window's source, unless it is of kind 0, is judged on nothing and every
   other arm on the lookup too. An observing cache and one that may switch early always report.
   */
  method UnequalEpoch<K(==), V>(c: AdaptiveCache<K, V>, key: K, choice: PolicyType)
    requires c.Valid() && c.migrating && c.sampled(key) && c.pending - {key} != {}
    modifies c, c.objs
    ensures c.Valid()
    ensures c.settings.observeOnly || c.settings.evictPartialCapacityFilling ==> c.epochStats != map[]
    ensures c.epochStats != map[] ==>
      && c.epochStats.Keys == c.arms.Keys && old(c.migrateFrom) in c.arms
      && forall q :: q in c.arms ==>
           c.epochStats[q].Total() == if Demotes(q) && q == old(c.migrateFrom) then 0
                                      else old(SampledSince(c.history, c.sampled)) + 1
  {
    hide AdaptiveCache.RolesOK, AdaptiveCache.FreshOK, AdaptiveCache.ShadowCounts, AdaptiveCache.ActiveCounts;
    hide AdaptiveCache.OrderOK, Sound, Prefix, SampledSince;
    ghost var h, source := c.history, c.migrateFrom;
    var r := c.Get(key);
    ghost var asked, was := c.history, c.active;
    EvidenceAfter(h, Asked(key), c.sampled);
    EvidenceAfter(Then(h, Asked(key)), Served(key, r), c.sampled);
    c.RunEpoch(choice);
    if c.epochStats != map[] {
      PastSound(c.history, c.arms.Keys, c.sampled, c.settings);
      ClosingReport(asked, source, was, c.epochStats, c.arms.Keys, c.sampled, c.settings);
    }
  }

  lemma PastSound<K, V>(h: History<K, V>, arms: set<PolicyType>, sampled: K -> bool, c: Settings)
    requires Sound(h, arms, sampled, c) && h.Then?
    ensures Sound(h.past, arms, sampled, c)
  {
  }

  // ---------------------------------------------------------------- whole runs

  /** What a run consists of: calls, and epochs that end, each with what the bandit picks. */
  datatype Action<K, V> = Call(op: Operation<K, V>) | Epoch(choice: PolicyType)

  /** What a caller gets back. */
  datatype Outcome<V> = Answer(answer: Option<V>) | Told(stats: Stats) | Now(active: PolicyType) | Done

  /** The record without what the cache does on its own. */
  ghost function Calls<K, V>(h: History<K, V>): seq<Event<K, V>> {
    if h.Start? then []
    else Calls(h.past) + if h.event.WindowClosed? || h.event.Reported? then [] else [h.event]
  }

  /** The events an action must leave in the record. */
  ghost function Leaves<K, V>(a: Action<K, V>, was: PolicyType, out: Outcome<V>): seq<Event<K, V>> {
    match a
    case Call(DoGet(k)) => if out.Answer? then [Asked(k), Served(k, out.answer)] else []
    case Call(DoAdd(k, v)) => [Added(k, v)]
    case Call(DoRemove(k)) => [Removed(k)]
    case Call(DoPurge) => [Purged]
    case Call(DoResize(size)) => [Resized(size)]
    case Epoch(_) => if out.Now? then [EpochEnded(if out.active != was then Some(out.active) else None)] else []
    case _ => []
  }

  /** The record has gone on from h with these calls, and nothing in it has been rewritten. */
  ghost predicate GoesOn<K, V>(h: History<K, V>, now: History<K, V>, calls: seq<Event<K, V>>) {
    Prefix(h, now) && Calls(now) == Calls(h) + calls
  }

  lemma GoesOnOne<K, V>(h: History<K, V>, now: History<K, V>, calls: seq<Event<K, V>>, e: Event<K, V>)
    requires GoesOn(h, now, calls)
    ensures GoesOn(h, Then(now, e), calls + if e.WindowClosed? || e.Reported? then [] else [e])
  {
  }

  lemma GoesOnFrom<K, V>(h: History<K, V>)
    ensures GoesOn(h, h, [])
  {
  }

  lemma {:induction false} GoesOnTrans<K, V>(h: History<K, V>, mid: History<K, V>, now: History<K, V>,
                                             first: seq<Event<K, V>>, second: seq<Event<K, V>>)
    requires GoesOn(h, mid, first) && GoesOn(mid, now, second)
    ensures GoesOn(h, now, first + second)
  {
    PrefixTrans(h, mid, now);
  }

  lemma {:induction false} PrefixTrans<K, V>(h: History<K, V>, mid: History<K, V>, now: History<K, V>)
    requires Prefix(h, mid) && Prefix(mid, now)
    ensures Prefix(h, now)
  {
    if mid != now {
      PrefixTrans(h, mid, now.past);
    }
  }

  // ---- What a caller can work out from the actions alone ----

  /** The value of k after an action, if it was `was` before. */
  function Changed<K(==), V>(was: Option<V>, a: Action<K, V>, k: K): Option<V> {
    match a
    case Call(DoAdd(j, v)) => if j == k then Some(v) else was
    case Call(DoRemove(j)) => if j == k then None else was
    case Call(DoPurge) => None
    case _ => was
  }

  /** The value last added under k and neither removed nor purged since, after these actions. */
  function Latest<K(==), V>(was: Option<V>, run: seq<Action<K, V>>, k: K): Option<V> {
    if run == [] then was else Changed(Latest(was, run[..|run| - 1], k), run[|run| - 1], k)
  }

  function Tallied<K, V>(was: Stats, a: Action<K, V>, out: Outcome<V>): Stats {
    if a.Call? && a.op.DoGet? && out.Answer? then
      if out.answer.Some? then was.(hits := was.hits + 1) else was.(misses := was.misses + 1)
    else was
  }

  /** The hits and misses among the answers to Gets, on top of what had been served before. */
  function Answered<K, V>(was: Stats, run: seq<Action<K, V>>, outs: seq<Outcome<V>>): Stats
    requires |run| == |outs|
  {
    if run == [] then was
    else Tallied(Answered(was, run[..|run| - 1], outs[..|run| - 1]), run[|run| - 1], outs[|run| - 1])
  }

  function EpochsIn<K, V>(run: seq<Action<K, V>>): nat {
    if run == [] then 0 else EpochsIn(run[..|run| - 1]) + if run[|run| - 1].Epoch? then 1 else 0
  }

  // ---- One action ----

  /** What an action does to the record, whatever the cache did on its own meanwhile. */
  ghost predicate Follows<K, V>(h: History<K, V>, now: History<K, V>, a: Action<K, V>, was: PolicyType,
                                out: Outcome<V>) {
    && GoesOn(h, now, Leaves(a, was, out))
    && Totals(now) == Tallied(Totals(h), a, out)
    && Epochs(now) == Epochs(h) + (if a.Epoch? then 1 else 0)
    && LastSwitch(now) == if a.Epoch? && out.Now? && out.active != was then Epochs(h) else LastSwitch(h)
  }

  /** What the cache does on its own, closing a window or reporting, changes nothing a caller can work out. */
  lemma OnItsOwn<K, V>(h: History<K, V>, e: Event<K, V>)
    requires e.WindowClosed? || e.Reported?
    ensures GoesOn(h, Then(h, e), []) && Totals(Then(h, e)) == Totals(h)
    ensures Epochs(Then(h, e)) == Epochs(h) && LastSwitch(Then(h, e)) == LastSwitch(h)
  {
    GoesOnFrom(h);
    GoesOnOne(h, h, [], e);
    ClocksAfter(h, e);
  }

  /** The record after a window, if one closed. */
  ghost function Past<K, V>(h: History<K, V>, window: Option<PolicyType>): History<K, V> {
    if window.Some? then Then(h, WindowClosed(window.value)) else h
  }

  lemma PastTells<K, V>(h: History<K, V>, window: Option<PolicyType>)
    ensures var past := Past(h, window);
      && GoesOn(h, past, []) && Totals(past) == Totals(h)
      && Epochs(past) == Epochs(h) && LastSwitch(past) == LastSwitch(h)
  {
    GoesOnFrom(h);
    if window.Some? {
      OnItsOwn(h, WindowClosed(window.value));
    }
  }

  lemma FollowsGet<K, V>(h: History<K, V>, now: History<K, V>, window: Option<PolicyType>, k: K, r: Option<V>,
                         was: PolicyType)
    requires now == Then(Past(Then(h, Asked(k)), window), Served(k, r))
    ensures Follows(h, now, Call(DoGet(k)), was, Answer(r))
  {
    var asked := Then(h, Asked(k));
    PastTells(asked, window);
    var past := Past(asked, window);
    GoesOnFrom(h);
    GoesOnOne(h, h, [], Asked(k));
    GoesOnTrans(h, asked, past, [Asked(k)], []);
    GoesOnOne(h, past, [Asked(k)], Served(k, r));
    ClocksAfter(h, Asked(k));
    ClocksAfter(past, Served(k, r));
  }

  lemma FollowsWrite<K, V>(h: History<K, V>, now: History<K, V>, window: Option<PolicyType>, op: Operation<K, V>,
                           was: PolicyType)
    requires op.DoAdd? || op.DoRemove?
    requires now == Then(Past(h, window), if op.DoAdd? then Added(op.key, op.value) else Removed(op.key))
    ensures Follows(h, now, Call(op), was, Done)
  {
    var e := if op.DoAdd? then Added(op.key, op.value) else Removed(op.key);
    PastTells(h, window);
    GoesOnOne(h, Past(h, window), [], e);
    ClocksAfter(Past(h, window), e);
  }

  lemma FollowsPurge<K, V>(h: History<K, V>, now: History<K, V>, window: Option<PolicyType>, was: PolicyType)
    requires now == Past(Then(h, Purged), window)
    ensures Follows(h, now, Call(DoPurge), was, Done)
  {
    var purged := Then(h, Purged);
    GoesOnFrom(h);
    GoesOnOne(h, h, [], Purged);
    PastTells(purged, window);
    GoesOnTrans(h, purged, Past(purged, window), [Purged], []);
    ClocksAfter(h, Purged);
  }

  lemma FollowsResize<K, V>(h: History<K, V>, size: int, was: PolicyType)
    ensures Follows(h, Then(h, Resized(size)), Call(DoResize(size)), was, Done)
  {
    GoesOnFrom(h);
    GoesOnOne(h, h, [], Resized(size));
    ClocksAfter(h, Resized(size));
  }

  lemma FollowsLook<K, V>(h: History<K, V>, op: Operation<K, V>, was: PolicyType, out: Outcome<V>)
    requires op.DoPeek? || op.DoStats?
    ensures Follows(h, h, Call(op), was, out)
  {
    GoesOnFrom(h);
  }

  lemma FollowsEpoch<K, V>(h: History<K, V>, now: History<K, V>, window: Option<PolicyType>, was: PolicyType,
                           report: map<PolicyType, Stats>, choice: PolicyType, active: PolicyType)
    requires now == Then(AdaptiveCache<K, V>.EpochReported(h, was, report, window),
                         EpochEnded(if active != was then Some(active) else None))
    ensures Follows(h, now, Epoch(choice), was, Now(active))
  {
    PastTells(h, window);
    var closed := Past(h, window);
    var told := AdaptiveCache<K, V>.EpochReported(h, was, report, window);
    var e := EpochEnded(if active != was then Some(active) else None);
    if report == map[] {
      GoesOnFrom(closed);
    } else {
      OnItsOwn(closed, Reported(was, report));
    }
    GoesOnTrans(h, closed, told, [], []);
    GoesOnOne(h, told, [], e);
    ClocksAfter(told, e);
  }

  /** What came back is right, given the record before. */
  ghost predicate Truthful<K, V>(h: History<K, V>, a: Action<K, V>, out: Outcome<V>) {
    match a
    case Call(DoGet(k)) => out.Answer? && HonestAnswer(h, k, out.answer)
    case Call(DoPeek(k)) => out.Answer? && HonestAnswer(h, k, out.answer)
    case Call(DoStats) => out == Told(Totals(h))
    case Epoch(_) => out.Now?
    case _ => true
  }

  /** Whether the active arm may change, as far as the mode and the cooldown go. */
  ghost predicate MaySwitch<K, V>(h: History<K, V>, c: Settings) {
    !c.observeOnly && (c.switchCooldownEpochs > 0 ==> Epochs(h) - LastSwitch(h) >= c.switchCooldownEpochs)
  }

  /** Any one call or epoch. */
  method Perform<K(==), V>(c: AdaptiveCache<K, V>, a: Action<K, V>) returns (out: Outcome<V>)
    requires c.Valid()
    modifies c, c.objs
    ensures c.Valid() && Truthful(old(c.history), a, out)
    ensures Follows(old(c.history), c.history, a, old(c.active), out)
    ensures if a.Epoch? then out == Now(c.active) else c.active == old(c.active)
    ensures c.active != old(c.active) ==> MaySwitch(old(c.history), c.settings)
  {
    hide AdaptiveCache.RolesOK, AdaptiveCache.FreshOK, AdaptiveCache.ShadowCounts;
    hide AdaptiveCache.ActiveCounts, AdaptiveCache.OrderOK, Follows, LastAdded, Totals, EvidencePasses, Sound, Prefix;
    hide AdaptiveCache.Logical, AdaptiveCache.SourceSize, AdaptiveCache.AbandonsNone, AdaptiveCache.CarriedOver;
    hide AdaptiveCache.OpenedOver, AdaptiveCache.RolesAfterClosing, AdaptiveCache.Spares, AdaptiveCache.SourceSpares;
    hide AdaptiveCache.HasRoom, AdaptiveCache.ShadowsHold, AdaptiveCache.Fits, Within, AddStep, LosesOnly, Drops;
    ghost var h, was := c.history, c.active;
    ghost var window := if c.migrating then Some(c.migrateFrom) else None;
    match a {
      case Epoch(choice) =>
        c.RunEpoch(choice);
        out := Now(c.active);
        FollowsEpoch(h, c.history, window, was, c.epochStats, choice, c.active);
      case Call(op) =>
        out := Done;
        match op {
          case DoGet(key) =>
            var r := c.Get(key);
            out := Answer(r);
            FollowsGet(h, c.history, if c.migrating then None else window, key, r, was);
          case DoPeek(key) =>
            var r := c.Peek(key);
            out := Answer(r);
            FollowsLook(h, op, was, out);
          case DoStats =>
            var s := c.GetStats();
            out := Told(s);
            FollowsLook(h, op, was, out);
          case DoAdd(key, value) =>
            var _, _, _ := c.Add(key, value);
            FollowsWrite(h, c.history, if c.migrating then None else window, op, was);
          case DoRemove(key) =>
            var _ := c.Remove(key);
            FollowsWrite(h, c.history, if c.migrating then None else window, op, was);
          case DoPurge =>
            c.Purge();
            FollowsPurge(h, c.history, window, was);
          case DoResize(size) =>
            var _ := c.Resize(size);
            FollowsResize(h, size, was);
        }
    }
  }

  // ---- Runs ----

  /** Everything the actions leave in the record; serving tells who was active before and after each. */
  ghost function AllLeave<K, V>(run: seq<Action<K, V>>, serving: seq<PolicyType>,
                                outs: seq<Outcome<V>>): seq<Event<K, V>>
    requires |run| == |outs| < |serving|
  {
    if run == [] then []
    else
      var n := |run| - 1;
      AllLeave(run[..n], serving, outs[..n]) + Leaves(run[n], serving[n], outs[n])
  }

  /** No answer is a shadow's zero or a stale value: it is the value the actions themselves last added. */
  ghost predicate NoStale<K, V>(h: History<K, V>, run: seq<Action<K, V>>, outs: seq<Outcome<V>>)
    requires |run| == |outs|
  {
    forall i :: 0 <= i < |run| && run[i].Call? && (run[i].op.DoGet? || run[i].op.DoPeek?) ==>
      && outs[i].Answer?
      && (outs[i].answer.Some? ==> Latest(LastAdded(h, run[i].op.key), run[..i], run[i].op.key) == outs[i].answer)
  }

  /**
   The statistics told are the totals at the start and every answer since, whatever epochs and
   switches lie between.
   */
  ghost predicate StatsConserved<K, V>(h: History<K, V>, run: seq<Action<K, V>>, outs: seq<Outcome<V>>)
    requires |run| == |outs|
  {
    forall i :: 0 <= i < |run| && run[i].Call? && run[i].op.DoStats? ==>
      outs[i] == Told(Answered(Totals(h), run[..i], outs[..i]))
  }

  /** The arm that serves changes only at epochs, never in observe-only mode, and changes are a cooldown apart. */
  ghost predicate SwitchesSpaced<K, V>(run: seq<Action<K, V>>, serving: seq<PolicyType>, c: Settings)
    requires |run| < |serving|
  {
    && (forall i :: 0 <= i < |run| && serving[i] != serving[i + 1] ==> run[i].Epoch? && !c.observeOnly)
    && (c.switchCooldownEpochs > 0 ==>
          forall i, j :: 0 <= i < j < |run| && serving[i] != serving[i + 1] && serving[j] != serving[j + 1] ==>
            EpochsIn(run[..j]) - EpochsIn(run[..i]) >= c.switchCooldownEpochs)
  }

  /** Every switch so far lies no later than the last one on record. */
  ghost predicate SwitchesKnown<K, V>(h: History<K, V>, now: History<K, V>, run: seq<Action<K, V>>,
                                      serving: seq<PolicyType>)
    requires |run| < |serving|
  {
    forall i :: 0 <= i < |run| && serving[i] != serving[i + 1] ==> Epochs(h) + EpochsIn(run[..i]) <= LastSwitch(now)
  }

  /** The run explains the record that goes on from h. */
  ghost predicate Explains<K, V>(h: History<K, V>, now: History<K, V>, run: seq<Action<K, V>>, outs: seq<Outcome<V>>,
                                 serving: seq<PolicyType>)
    requires |run| == |outs| < |serving|
  {
    && GoesOn(h, now, AllLeave(run, serving, outs))
    && Totals(now) == Answered(Totals(h), run, outs)
    && Epochs(now) == Epochs(h) + EpochsIn(run)
  }

  /** The value of k after these events, if it was `was` before. */
  ghost function ValueAfter<K, V>(was: Option<V>, calls: seq<Event<K, V>>, k: K): Option<V> {
    if calls == [] then was
    else
      var before := ValueAfter(was, calls[..|calls| - 1], k);
      match calls[|calls| - 1]
      case Added(j, v) => if j == k then Some(v) else before
      case Removed(j) => if j == k then None else before
      case Purged => None
      case _ => before
  }

  lemma {:induction false} ValueTwice<K, V>(was: Option<V>, first: seq<Event<K, V>>, second: seq<Event<K, V>>, k: K)
    ensures ValueAfter(was, first + second, k) == ValueAfter(ValueAfter(was, first, k), second, k)
  {
    if second == [] {
      assert first + second == first;
    } else {
      var n := |second| - 1;
      ValueTwice(was, first, second[..n], k);
      assert (first + second)[..|first| + n] == first + second[..n];
    }
  }

  lemma {:induction false} CallsGrow<K, V>(h: History<K, V>, now: History<K, V>)
    requires Prefix(h, now)
    ensures Calls(h) <= Calls(now)
  {
    if h != now {
      CallsGrow(h, now.past);
    }
  }

  /** The value last added depends on the calls alone. */
  lemma {:induction false} ValueGoesOn<K, V>(h: History<K, V>, now: History<K, V>, calls: seq<Event<K, V>>, k: K)
    requires GoesOn(h, now, calls)
    ensures LastAdded(now, k) == ValueAfter(LastAdded(h, k), calls, k)
  {
    if h == now {
      assert calls == [];
    } else {
      CallsGrow(h, now.past);
      if now.event.WindowClosed? || now.event.Reported? {
        ValueGoesOn(h, now.past, calls, k);
      } else {
        assert Calls(now)[..|Calls(now)| - 1] == Calls(now.past);
        assert calls != [] && Calls(now)[|Calls(now)| - 1] == calls[|calls| - 1] == now.event;
        assert Calls(now.past) == Calls(h) + calls[..|calls| - 1];
        ValueGoesOn(h, now.past, calls[..|calls| - 1], k);
      }
    }
  }

  lemma LeavesValue<K, V>(was: Option<V>, a: Action<K, V>, serving: PolicyType, out: Outcome<V>, k: K)
    ensures ValueAfter(was, Leaves(a, serving, out), k) == Changed(was, a, k)
  {
    var l := Leaves(a, serving, out);
    if |l| == 1 {
      assert l[..0] == [];
    } else if |l| == 2 {
      var asked := l[..1];
      assert asked == [Asked(a.op.key)] && asked[..0] == [];
      assert ValueAfter(was, asked, k) == was;
    }
  }

  lemma {:induction false} AllLeaveValue<K, V>(was: Option<V>, run: seq<Action<K, V>>, serving: seq<PolicyType>,
                                               outs: seq<Outcome<V>>, k: K)
    requires |run| == |outs| < |serving|
    ensures ValueAfter(was, AllLeave(run, serving, outs), k) == Latest(was, run, k)
  {
    if run != [] {
      var n := |run| - 1;
      AllLeaveValue(was, run[..n], serving, outs[..n], k);
      ValueTwice(was, AllLeave(run[..n], serving, outs[..n]), Leaves(run[n], serving[n], outs[n]), k);
      LeavesValue(Latest(was, run[..n], k), run[n], serving[n], outs[n], k);
    }
  }

  lemma ExplainsValue<K, V>(h: History<K, V>, now: History<K, V>, run: seq<Action<K, V>>, outs: seq<Outcome<V>>,
                            serving: seq<PolicyType>, k: K)
    requires |run| == |outs| < |serving| && Explains(h, now, run, outs, serving)
    ensures LastAdded(now, k) == Latest(LastAdded(h, k), run, k)
  {
    ValueGoesOn(h, now, AllLeave(run, serving, outs), k);
    AllLeaveValue(LastAdded(h, k), run, serving, outs, k);
  }

  lemma ExplainsNext<K, V>(h: History<K, V>, mid: History<K, V>, now: History<K, V>, run: seq<Action<K, V>>,
                           outs: seq<Outcome<V>>, serving: seq<PolicyType>, a: Action<K, V>, out: Outcome<V>,
                           active: PolicyType)
    requires |run| == |outs| == |serving| - 1 && Explains(h, mid, run, outs, serving)
    requires Follows(mid, now, a, serving[|run|], out)
    ensures Explains(h, now, run + [a], outs + [out], serving + [active])
  {
    assert (run + [a])[..|run|] == run && (outs + [out])[..|run|] == outs;
    LeavesUpTo(run, serving, active, outs);
    GoesOnTrans(h, mid, now, AllLeave(run, serving, outs), Leaves(a, serving[|run|], out));
  }

  lemma {:induction false} LeavesUpTo<K, V>(run: seq<Action<K, V>>, serving: seq<PolicyType>, active: PolicyType,
                                            outs: seq<Outcome<V>>)
    requires |run| == |outs| < |serving|
    ensures AllLeave(run, serving + [active], outs) == AllLeave(run, serving, outs)
  {
    if run != [] {
      LeavesUpTo(run[..|run| - 1], serving, active, outs[..|run| - 1]);
    }
  }

  lemma HonestNext<K, V>(h: History<K, V>, mid: History<K, V>, run: seq<Action<K, V>>, outs: seq<Outcome<V>>,
                         a: Action<K, V>, out: Outcome<V>)
    requires |run| == |outs| && NoStale(h, run, outs) && StatsConserved(h, run, outs) && Truthful(mid, a, out)
    requires Totals(mid) == Answered(Totals(h), run, outs)
    requires a.Call? && (a.op.DoGet? || a.op.DoPeek?) ==>
      LastAdded(mid, a.op.key) == Latest(LastAdded(h, a.op.key), run, a.op.key)
    ensures NoStale(h, run + [a], outs + [out]) && StatsConserved(h, run + [a], outs + [out])
  {
    hide Latest, LastAdded, Totals, Answered;
    forall i | 0 <= i < |run| ensures (run + [a])[..i] == run[..i] && (outs + [out])[..i] == outs[..i] {
    }
    assert (run + [a])[..|run|] == run && (outs + [out])[..|run|] == outs;
  }

  lemma SpacedNext<K, V>(h: History<K, V>, mid: History<K, V>, now: History<K, V>, run: seq<Action<K, V>>,
                         serving: seq<PolicyType>, a: Action<K, V>, out: Outcome<V>, active: PolicyType, c: Settings)
    requires |run| == |serving| - 1 && SwitchesSpaced(run, serving, c) && SwitchesKnown(h, mid, run, serving)
    requires Epochs(mid) == Epochs(h) + EpochsIn(run) && Follows(mid, now, a, serving[|run|], out)
    requires LastSwitch(mid) <= Epochs(mid)
    requires if a.Epoch? then out == Now(active) else active == serving[|run|]
    requires active != serving[|run|] ==> MaySwitch(mid, c)
    ensures SwitchesSpaced(run + [a], serving + [active], c) && SwitchesKnown(h, now, run + [a], serving + [active])
  {
    hide EpochsIn, Epochs, LastSwitch, GoesOn, Totals, Leaves;
    forall i | 0 <= i < |run| ensures (run + [a])[..i] == run[..i] {
    }
    assert (run + [a])[..|run|] == run;
  }

  lemma {:induction false} LastSwitchPast<K, V>(h: History<K, V>)
    ensures LastSwitch(h) <= Epochs(h)
  {
    if h.Then? {
      LastSwitchPast(h.past);
    }
  }

  /**
   Any calls with any epochs in between, whatever the bandit picks, the arms evict and
   the strategy migrates. The record goes on by exactly what was called. Every answer is
   the value that these very actions last added, or that was there before and has not
   been touched. The statistics lose and invent no answer. Switches keep their distance.
   */
  method Run<K(==), V>(c: AdaptiveCache<K, V>, run: seq<Action<K, V>>)
    returns (outs: seq<Outcome<V>>, serving: seq<PolicyType>)
    requires c.Valid()
    modifies c, c.objs
    ensures c.Valid() && |outs| == |run| && |serving| == |run| + 1
    ensures serving[0] == old(c.active) && serving[|run|] == c.active
    ensures Explains(old(c.history), c.history, run, outs, serving)
    ensures NoStale(old(c.history), run, outs)
    ensures StatsConserved(old(c.history), run, outs)
    ensures SwitchesSpaced(run, serving, c.settings)
    ensures forall k :: LastAdded(c.history, k) == Latest(LastAdded(old(c.history), k), run, k)
  {
    hide *;
    ghost var h := c.history;
    outs, serving := [], [c.active];
    StartOfRun(h, serving, c.settings);
    for i := 0 to |run|
      invariant c.Valid() && |outs| == i && |serving| == i + 1
      invariant serving[0] == old(c.active) && serving[i] == c.active
      invariant Explains(h, c.history, run[..i], outs, serving)
      invariant NoStale(h, run[..i], outs) && StatsConserved(h, run[..i], outs)
      invariant SwitchesSpaced(run[..i], serving, c.settings) && SwitchesKnown(h, c.history, run[..i], serving)
    {
      ghost var mid := c.history;
      LastSwitchPast(mid);
      ExplainsTells(h, mid, run[..i], outs, serving);
      if run[i].Call? && (run[i].op.DoGet? || run[i].op.DoPeek?) {
        ExplainsValue(h, mid, run[..i], outs, serving, run[i].op.key);
      }
      var out := Perform(c, run[i]);
      assert run[..i + 1] == run[..i] + [run[i]];
      ExplainsNext(h, mid, c.history, run[..i], outs, serving, run[i], out, c.active);
      HonestNext(h, mid, run[..i], outs, run[i], out);
      SpacedNext(h, mid, c.history, run[..i], serving, run[i], out, c.active, c.settings);
      outs, serving := outs + [out], serving + [c.active];
    }
    assert run[..|run|] == run;
    forall k ensures LastAdded(c.history, k) == Latest(LastAdded(h, k), run, k) {
      ExplainsValue(h, c.history, run, outs, serving, k);
    }
  }

  lemma ExplainsTells<K, V>(h: History<K, V>, now: History<K, V>, run: seq<Action<K, V>>, outs: seq<Outcome<V>>,
                            serving: seq<PolicyType>)
    requires |run| == |outs| < |serving| && Explains(h, now, run, outs, serving)
    ensures Totals(now) == Answered(Totals(h), run, outs) && Epochs(now) == Epochs(h) + EpochsIn(run)
  {
  }

  lemma StartOfRun<K, V>(h: History<K, V>, serving: seq<PolicyType>, c: Settings)
    requires |serving| == 1
    ensures var run: seq<Action<K, V>> := []; var outs: seq<Outcome<V>> := [];
      && Explains(h, h, run, outs, serving) && NoStale(h, run, outs) && StatsConserved(h, run, outs)
      && SwitchesSpaced(run, serving, c) && SwitchesKnown(h, h, run, serving)
  {
    GoesOnFrom(h);
  }
}
