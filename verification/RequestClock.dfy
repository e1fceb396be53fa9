/**
 * The request-driven epoch clock: one atomic counter, any number of callers, any interleaving.
 *
 * A call adds one; the caller that sees the sum equal to the limit subtracts the limit in a second
 * atomic operation and then runs the epoch. Everything between the two operations is a gap into
 * which other calls may fall.
 */
module RequestClock {
  datatype Step =
    | Arrive(caller: int)  // the atomic Add(1), and the comparison of its result
    | Settle(caller: int)  // the atomic Add(-limit) of a caller that crossed
    | Epoch(caller: int)   // that caller's runEpoch

  /** The counter, the callers' positions, and a record of what has happened. */
  datatype Clock = Clock(
    counter: int,
    crossed: set<int>,  // callers that saw the limit and have not yet subtracted it
    settled: set<int>,  // callers that subtracted it and have not yet run their epoch
    calls: nat,
    subtractions: nat,
    epochs: nat,
    gap: nat,           // calls that arrived since the limit was last seen
    overrun: bool       // some gap took in limit calls or more
  )

  const ZERO := Clock(0, {}, {}, 0, 0, 0, 0, false)

  predicate Enabled(c: Clock, s: Step) {
    match s
    case Arrive(caller) => caller !in c.crossed && caller !in c.settled
    case Settle(caller) => caller in c.crossed
    case Epoch(caller) => caller in c.settled
  }

  /** One atomic step; a limit of zero or less switches the clock off. */
  function Take(limit: int, c: Clock, s: Step): Clock
    requires Enabled(c, s)
  {
    match s
    case Arrive(caller) =>
      if limit <= 0 then c
      else if c.counter + 1 == limit then
        c.(counter := limit, calls := c.calls + 1, crossed := c.crossed + {caller}, gap := 0)
      else
        c.(counter := c.counter + 1, calls := c.calls + 1, gap := c.gap + 1)
    case Settle(caller) =>
      c.(counter := c.counter - limit, crossed := c.crossed - {caller}, settled := c.settled + {caller},
         subtractions := c.subtractions + 1, overrun := c.overrun || c.gap >= limit)
    case Epoch(caller) =>
      c.(settled := c.settled - {caller}, epochs := c.epochs + 1)
  }

  /** The steps lead from one clock to the other. */
  ghost predicate Runs(limit: int, c: Clock, steps: seq<Step>, d: Clock)
    decreases |steps|
  {
    if steps == [] then c == d
    else Enabled(c, steps[0]) && Runs(limit, Take(limit, c, steps[0]), steps[1..], d)
  }

  /** What every interleaving keeps. */
  ghost predicate Sound(limit: int, c: Clock) {
    && limit > 0
    && c.calls == c.counter + limit * c.subtractions
    && c.epochs + |c.settled| == c.subtractions
    && c.crossed !! c.settled
    && |c.crossed| <= 1
    && (c.crossed != {} ==> !c.overrun && c.counter == limit + c.gap)
    && (c.crossed == {} ==> if c.overrun then c.counter >= limit else 0 <= c.counter < limit)
  }

  lemma OneStep(limit: int, c: Clock, s: Step)
    requires Sound(limit, c) && Enabled(c, s)
    ensures Sound(limit, Take(limit, c, s))
  {
    var d := Take(limit, c, s);
    assert limit * (c.subtractions + 1) == limit * c.subtractions + limit;
    match s
    case Arrive(caller) =>
    case Settle(caller) =>
      assert d.settled - {caller} == c.settled;
      assert d.crossed == c.crossed - {caller};
    case Epoch(caller) =>
  }

  lemma {:induction false} EveryRun(limit: int, c: Clock, steps: seq<Step>, d: Clock)
    requires Sound(limit, c) && Runs(limit, c, steps, d)
    ensures Sound(limit, d)
    decreases |steps|
  {
    if steps != [] {
      OneStep(limit, c, steps[0]);
      EveryRun(limit, Take(limit, c, steps[0]), steps[1..], d);
    }
  }

  /** However calls interleave: every call is accounted for, and at most one caller is in the gap. */
  lemma Accounting(limit: int, steps: seq<Step>, d: Clock)
    requires limit > 0 && Runs(limit, ZERO, steps, d)
    ensures d.calls == d.counter + limit * d.subtractions
    ensures |d.crossed| <= 1
    ensures d.epochs + |d.settled| == d.subtractions
  {
    EveryRun(limit, ZERO, steps, d);
  }

  ghost predicate Quiescent(c: Clock) {
    c.crossed == {} && c.settled == {}
  }

  /**
   * Exactly one epoch ran per limit calls, if and only if fewer than limit other calls arrived in
   * every gap, if and only if the counter is below the limit.
   */
  lemma ExactEpochs(limit: int, steps: seq<Step>, d: Clock)
    requires limit > 0 && Runs(limit, ZERO, steps, d) && Quiescent(d)
    ensures d.epochs == d.calls / limit <==> !d.overrun
    ensures d.counter < limit <==> !d.overrun
  {
    EveryRun(limit, ZERO, steps, d);
    Quotient(limit, d.counter, d.epochs);
  }

  lemma Quotient(limit: int, rest: int, n: int)
    requires limit > 0 && 0 <= rest
    ensures (rest + limit * n) / limit == n <==> rest < limit
  {
    var r := (rest + limit * n) % limit;
    var extra := (rest + limit * n) / limit - n;
    assert limit * (extra + n) == limit * extra + limit * n;
    assert limit * extra + r == rest;
    Scale(limit, extra);
  }

  lemma Scale(limit: int, x: int)
    requires limit > 0
    ensures x >= 1 ==> limit * x >= limit
    ensures x <= -1 ==> limit * x <= -limit
  {
    if x >= 1 {
      assert limit * (x - 1) >= 0;
    } else if x <= -1 {
      assert limit * (-1 - x) >= 0;
    }
  }

  /** After one overrun gap no call crosses again: the epochs still owed run, and then none ever does. */
  lemma {:induction false} StuckForever(limit: int, c: Clock, steps: seq<Step>, d: Clock)
    requires Sound(limit, c) && c.overrun && Runs(limit, c, steps, d)
    ensures d.overrun && d.crossed == {} && d.subtractions == c.subtractions
    ensures d.epochs <= c.subtractions
    decreases |steps|
  {
    if steps != [] {
      OneStep(limit, c, steps[0]);
      StuckForever(limit, Take(limit, c, steps[0]), steps[1..], d);
    }
  }

  /** The calls of callers from, from + 1, ..., from + n - 1, in that order. */
  function Arrivals(from: int, n: nat): (s: seq<Step>)
    ensures |s| == n
    decreases n
  {
    if n == 0 then [] else [Arrive(from)] + Arrivals(from + 1, n - 1)
  }

  lemma {:induction false} RunsOn(limit: int, c: Clock, s: seq<Step>, m: Clock, t: seq<Step>, d: Clock)
    requires Runs(limit, c, s, m) && Runs(limit, m, t, d)
    ensures Runs(limit, c, s + t, d)
    decreases |s|
  {
    if s == [] {
      assert s + t == t;
    } else {
      RunsOn(limit, Take(limit, c, s[0]), s[1..], m, t, d);
      assert (s + t)[1..] == s[1..] + t;
    }
  }

  lemma {:induction false} ArriveUncrossed(limit: int, c: Clock, from: int, n: nat)
    requires limit > 0 && (c.counter + n < limit || c.counter >= limit)
    requires forall x | x in c.crossed + c.settled :: x < from
    ensures Runs(limit, c, Arrivals(from, n), c.(counter := c.counter + n, calls := c.calls + n, gap := c.gap + n))
    decreases n
  {
    if n > 0 {
      assert from !in c.crossed + c.settled;
      ArriveUncrossed(limit, Take(limit, c, Arrive(from)), from + 1, n - 1);
    }
  }

  /**
   * The comment at the source promises exactly one epoch per limit calls for any number of callers.
   * At every limit some interleaving of 2 * limit calls runs one epoch and then never another.
   */
  lemma PromiseFails(limit: int) returns (steps: seq<Step>, d: Clock)
    requires limit > 0
    ensures Runs(limit, ZERO, steps, d) && Quiescent(d)
    ensures d.calls == 2 * limit && d.epochs == 1
    ensures forall more, e :: Runs(limit, d, more, e) ==> e.epochs == 1
  {
    var early := ZERO.(counter := limit - 1, calls := limit - 1, gap := limit - 1);
    ArriveUncrossed(limit, ZERO, 0, limit - 1);
    var seen := Take(limit, early, Arrive(limit - 1));
    ArriveUncrossed(limit, seen, limit, limit);
    var late := seen.(counter := 2 * limit, calls := 2 * limit, gap := limit);
    var end := [Settle(limit - 1), Epoch(limit - 1)];
    d := Take(limit, Take(limit, late, end[0]), end[1]);
    assert end[1..] == [end[1]] && end[1..][1..] == [];
    assert Runs(limit, Take(limit, late, end[0]), end[1..], d);
    RunsOn(limit, seen, Arrivals(limit, limit), late, end, d);
    var rest := Arrivals(limit, limit) + end;
    assert ([Arrive(limit - 1)] + rest)[1..] == rest;
    RunsOn(limit, ZERO, Arrivals(0, limit - 1), early, [Arrive(limit - 1)] + rest, d);
    steps := Arrivals(0, limit - 1) + ([Arrive(limit - 1)] + rest);
    EveryRun(limit, ZERO, steps, d);
    forall more, e | Runs(limit, d, more, e) ensures e.epochs == 1 {
      OneEpochOnly(limit, d, more, e);
    }
  }

  lemma {:induction false} OneEpochOnly(limit: int, c: Clock, steps: seq<Step>, d: Clock)
    requires Sound(limit, c) && c.overrun && Quiescent(c) && Runs(limit, c, steps, d)
    ensures d.epochs == c.epochs
    decreases |steps|
  {
    if steps != [] {
      OneStep(limit, c, steps[0]);
      OneEpochOnly(limit, Take(limit, c, steps[0]), steps[1..], d);
    }
  }
}
