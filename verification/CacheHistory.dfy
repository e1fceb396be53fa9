/**
 The record of a run of the cache, and what the run so far says each answer,
 report and switch must be. Nothing here refers to how the cache works.
 */
module CacheHistory {
  import opened Options
  import opened ArmContract
  import opened Stability

  datatype Event<K, V> =
    | Asked(key: K)
    | Served(key: K, answer: Option<V>)
    | Added(key: K, value: V)
    | Removed(key: K)
    | Purged
    | Resized(size: int)
    | WindowClosed(source: PolicyType)
    | Reported(active: PolicyType, report: map<PolicyType, Stats>)
    | EpochEnded(switchedTo: Option<PolicyType>)

  /** A run, from a cache whose active arm starts with the given contents and counters. */
  datatype History<K, V> = Start(contents: map<K, V>, base: Stats) | Then(past: History<K, V>, event: Event<K, V>)

  /** The value of the last Add of k not followed by a Remove of k or a Purge. */
  function LastAdded<K(==), V>(h: History<K, V>, k: K): Option<V> {
    match h
    case Start(contents, _) => Lookup(contents, k)
    case Then(p, Added(j, v)) => if j == k then Some(v) else LastAdded(p, k)
    case Then(p, Removed(j)) => if j == k then None else LastAdded(p, k)
    case Then(_, Purged) => None
    case Then(p, _) => LastAdded(p, k)
  }

  /** Everything Get has answered, hits and misses. */
  function Totals<K, V>(h: History<K, V>): Stats {
    match h
    case Start(_, base) => base
    case Then(p, Served(_, r)) =>
      var t := Totals(p);
      if r.Some? then t.(hits := t.hits + 1) else t.(misses := t.misses + 1)
    case Then(p, _) => Totals(p)
  }

  /** Sampled requests since the last report. */
  function SampledSince<K, V>(h: History<K, V>, sampled: K -> bool): nat {
    match h
    case Start(_, _) => 0
    case Then(_, Reported(_, _)) => 0
    case Then(p, Asked(k)) => SampledSince(p, sampled) + if sampled(k) then 1 else 0
    case Then(p, _) => SampledSince(p, sampled)
  }

  /** A closing window demotes its source, whatever its kind but 0. */
  predicate Demotes(source: PolicyType) {
    source != UNDEFINED
  }

  /** Sampled requests since the last report, or since arm q was demoted by a
      closing window if that came later. */
  function EvidenceDue<K, V>(h: History<K, V>, q: PolicyType, sampled: K -> bool): nat {
    match h
    case Start(_, _) => 0
    case Then(_, Reported(_, _)) => 0
    case Then(p, WindowClosed(source)) => if Demotes(source) && source == q then 0 else EvidenceDue(p, q, sampled)
    case Then(p, Asked(k)) => EvidenceDue(p, q, sampled) + if sampled(k) then 1 else 0
    case Then(p, _) => EvidenceDue(p, q, sampled)
  }

  /** Sampled requests between the last report and the last window that closed after it and demoted its source. */
  function BeforeClose<K, V>(h: History<K, V>, sampled: K -> bool): nat {
    match h
    case Start(_, _) => 0
    case Then(_, Reported(_, _)) => 0
    case Then(p, WindowClosed(source)) => if Demotes(source) then SampledSince(p, sampled) else BeforeClose(p, sampled)
    case Then(p, _) => BeforeClose(p, sampled)
  }

  /** A window over the arm of kind 0 has closed, and no switch has gone back to that arm since. */
  ghost predicate Strayed<K, V>(h: History<K, V>) {
    match h
    case Start(_, _) => false
    case Then(p, WindowClosed(source)) => !Demotes(source) || Strayed(p)
    case Then(p, EpochEnded(Some(to))) => to != UNDEFINED && Strayed(p)
    case Then(p, _) => Strayed(p)
  }

  /** The arm demoted by the last window that closed since the last report. */
  function Lagging<K, V>(h: History<K, V>): PolicyType {
    match h
    case Start(_, _) => UNDEFINED
    case Then(_, Reported(_, _)) => UNDEFINED
    case Then(p, WindowClosed(source)) => if Demotes(source) then source else Lagging(p)
    case Then(p, _) => Lagging(p)
  }

  /** Epochs ended so far; also the number of the epoch now running. */
  function Epochs<K, V>(h: History<K, V>): nat {
    match h
    case Start(_, _) => 0
    case Then(p, EpochEnded(_)) => Epochs(p) + 1
    case Then(p, _) => Epochs(p)
  }

  function Switches<K, V>(h: History<K, V>): nat {
    match h
    case Start(_, _) => 0
    case Then(p, EpochEnded(Some(_))) => Switches(p) + 1
    case Then(p, _) => Switches(p)
  }

  /** The number of the epoch that switched last, 0 before the first switch. */
  function LastSwitch<K, V>(h: History<K, V>): nat {
    match h
    case Start(_, _) => 0
    case Then(p, EpochEnded(Some(_))) => Epochs(p)
    case Then(p, _) => LastSwitch(p)
  }

  // -------------------------------------------------------- what a run must obey

  /** An answer is a miss or the value last added. */
  ghost predicate HonestAnswer<K, V>(past: History<K, V>, k: K, answer: Option<V>) {
    answer.Some? ==> LastAdded(past, k) == answer
  }

  /** Every arm is reported, on exactly the evidence due to it. */
  ghost predicate FairReport<K, V>(past: History<K, V>, report: map<PolicyType, Stats>,
                                   arms: set<PolicyType>, sampled: K -> bool) {
    report.Keys == arms && forall q :: q in arms ==> report[q].Total() == EvidenceDue(past, q, sampled)
  }

  /** A switch goes from the active arm to another held one, right after a report
      whose evidence passes the gates, and outside the cooldown. */
  ghost predicate JustifiedSwitch<K, V>(past: History<K, V>, to: PolicyType, arms: set<PolicyType>, c: Settings) {
    && !c.observeOnly && to in arms
    && past.Then? && past.event.Reported?
    && past.event.active != to && past.event.report.Keys == arms && past.event.active in arms
    && EvidencePasses(c, past.event.report[past.event.active], past.event.report[to])
    && (c.switchCooldownEpochs > 0 ==> Epochs(past) - LastSwitch(past) >= c.switchCooldownEpochs)
  }

  ghost predicate Obeys<K, V>(past: History<K, V>, e: Event<K, V>, arms: set<PolicyType>, sampled: K -> bool,
                              c: Settings) {
    match e
    case Served(k, answer) => HonestAnswer(past, k, answer)
    case Reported(active, report) => active in arms && FairReport(past, report, arms, sampled)
    case EpochEnded(Some(to)) => JustifiedSwitch(past, to, arms, c)
    case WindowClosed(source) => source in arms && BeforeClose(past, sampled) == 0
    case _ => true
  }

  /** Every event of the run obeys. */
  ghost predicate Sound<K, V>(h: History<K, V>, arms: set<PolicyType>, sampled: K -> bool, c: Settings) {
    h.Then? ==> Sound(h.past, arms, sampled, c) && Obeys(h.past, h.event, arms, sampled, c)
  }

  // ------------------------------------------------------ what one event changes

  /** The evidence counters move only with Asked, WindowClosed and Reported. */
  lemma EvidenceAfter<K, V>(h: History<K, V>, e: Event<K, V>, sampled: K -> bool)
    ensures var t := Then(h, e);
      && SampledSince(t, sampled) ==
         (if e.Reported? then 0 else SampledSince(h, sampled) + if e.Asked? && sampled(e.key) then 1 else 0)
      && BeforeClose(t, sampled) ==
         (if e.Reported? then 0
          else if e.WindowClosed? && Demotes(e.source) then SampledSince(h, sampled)
          else BeforeClose(h, sampled))
      && (forall q {:trigger EvidenceDue(t, q, sampled)} :: EvidenceDue(t, q, sampled) ==
            if e.Reported? || (e.WindowClosed? && Demotes(e.source) && e.source == q) then 0
            else EvidenceDue(h, q, sampled) + if e.Asked? && sampled(e.key) then 1 else 0)
  {
  }

  /** The totals move only with Served, the epoch clock only with EpochEnded. */
  lemma ClocksAfter<K, V>(h: History<K, V>, e: Event<K, V>)
    ensures var t := Then(h, e);
      && (!e.Served? ==> Totals(t) == Totals(h))
      && (e.Served? ==> Totals(t) == Stats(Totals(h).hits + (if e.answer.Some? then 1 else 0),
                                           Totals(h).misses + (if e.answer.Some? then 0 else 1)))
      && (!e.EpochEnded? ==> Epochs(t) == Epochs(h) && LastSwitch(t) == LastSwitch(h))
      && (Strayed(t) <==> if e.WindowClosed? then !Demotes(e.source) || Strayed(h)
                          else Strayed(h) && e != EpochEnded(Some(UNDEFINED)))
  {
  }

  /** The values last added move only with Added, Removed and Purged. */
  lemma ValuesAfter<K, V>(h: History<K, V>, e: Event<K, V>)
    ensures !e.Added? && !e.Removed? && !e.Purged? ==>
      forall k {:trigger LastAdded(Then(h, e), k)} :: LastAdded(Then(h, e), k) == LastAdded(h, k)
  {
  }

  /** h goes on by nothing, or by a window that closes. */
  ghost predicate MayClose<K, V>(h: History<K, V>, now: History<K, V>) {
    now == h || (now.Then? && now.past == h && now.event.WindowClosed?)
  }

  lemma ValuesAsked<K, V>(h: History<K, V>, mid: History<K, V>, key: K)
    requires MayClose(Then(h, Asked(key)), mid)
    ensures LastAdded(mid, key) == LastAdded(h, key)
  {
  }

  lemma ValuesPurged<K, V>(h: History<K, V>, now: History<K, V>)
    requires MayClose(Then(h, Purged), now)
    ensures forall k :: LastAdded(now, k) == None
  {
  }

  lemma ValuesRemoved<K, V>(h: History<K, V>, mid: History<K, V>, key: K)
    requires MayClose(h, mid)
    ensures LastAdded(Then(mid, Removed(key)), key) == None
    ensures forall k :: k != key ==> LastAdded(Then(mid, Removed(key)), k) == LastAdded(h, k)
  {
  }

  // ----------------------------------------------------- consequences of a sound run

  /** p is how far the run h had come at some point. */
  ghost predicate Prefix<K, V>(p: History<K, V>, h: History<K, V>) {
    p == h || (h.Then? && Prefix(p, h.past))
  }

  lemma {:induction false} PrefixSound<K, V>(p: History<K, V>, h: History<K, V>, arms: set<PolicyType>,
                                             sampled: K -> bool, c: Settings)
    requires Sound(h, arms, sampled, c) && Prefix(p, h)
    ensures Sound(p, arms, sampled, c)
  {
    if p != h {
      PrefixSound(p, h.past, arms, sampled, c);
    }
  }

  /** What was last added was added, or held from the start, and not touched since. */
  lemma {:induction false} LastAddedWasAdded<K, V>(h: History<K, V>, k: K) returns (p: History<K, V>)
    requires LastAdded(h, k).Some?
    ensures Prefix(p, h) && LastAdded(p, k) == LastAdded(h, k)
    ensures p.Start? || p.event == Added(k, LastAdded(h, k).value)
    ensures forall q :: Prefix(q, h) && Prefix(p, q) && q != p && q.Then? ==>
              q.event != Removed(k) && q.event != Purged && !(q.event.Added? && q.event.key == k)
  {
    p := h;
    if h.Then? && !(h.event.Added? && h.event.key == k) {
      p := LastAddedWasAdded(h.past, k);
      PrefixShorter(h, h.past);
    } else {
      forall q | Prefix(q, h) && Prefix(h, q) ensures q == h {
        PrefixBoth(q, h);
      }
    }
  }

  /**
   No answer anywhere in a sound run is a shadow's zero or stale: an Add stored that value,
   or it was there from the start, and until the answer nothing wrote, removed or purged it.
   Returns the point right after that Add.
   */
  lemma EveryAnswerWasAdded<K, V>(p: History<K, V>, k: K, v: V, h: History<K, V>, arms: set<PolicyType>,
                                  sampled: K -> bool, c: Settings) returns (stored: History<K, V>)
    requires Sound(h, arms, sampled, c) && Prefix(Then(p, Served(k, Some(v))), h)
    ensures Prefix(stored, p)
    ensures if stored.Start? then Lookup(stored.contents, k) == Some(v) else stored.event == Added(k, v)
    ensures forall q :: Prefix(q, p) && Prefix(stored, q) && q != stored && q.Then? ==>
              q.event != Removed(k) && q.event != Purged && !(q.event.Added? && q.event.key == k)
  {
    PrefixSound(Then(p, Served(k, Some(v))), h, arms, sampled, c);
    stored := LastAddedWasAdded(p, k);
  }

  function Length<K, V>(h: History<K, V>): nat {
    if h.Then? then Length(h.past) + 1 else 0
  }

  lemma {:induction false} PrefixLength<K, V>(p: History<K, V>, h: History<K, V>)
    requires Prefix(p, h)
    ensures Length(p) <= Length(h) && (Length(p) == Length(h) ==> p == h)
  {
    if p != h {
      PrefixLength(p, h.past);
    }
  }

  lemma PrefixBoth<K, V>(p: History<K, V>, h: History<K, V>)
    requires Prefix(p, h) && Prefix(h, p)
    ensures p == h
  {
    PrefixLength(p, h);
    PrefixLength(h, p);
  }

  lemma PrefixShorter<K, V>(h: History<K, V>, p: History<K, V>)
    requires h.Then? && p == h.past
    ensures !Prefix(h, p)
  {
    if Prefix(h, p) {
      PrefixLength(h, p);
    }
  }

  /**
   Every arm is due the same evidence, the sampled requests since the last report, but
   for one demoted by a closing window: it has lost what was asked before the closing.
   */
  lemma {:induction false} EqualEvidence<K, V>(h: History<K, V>, arms: set<PolicyType>, sampled: K -> bool, c: Settings)
    requires Sound(h, arms, sampled, c)
    ensures forall q :: EvidenceDue(h, q, sampled) ==
                        SampledSince(h, sampled) - if q == Lagging(h) then BeforeClose(h, sampled) else 0
    ensures BeforeClose(h, sampled) > 0 ==> Lagging(h) in arms
  {
    if h.Then? {
      hide HonestAnswer, FairReport, JustifiedSwitch;
      EqualEvidence(h.past, arms, sampled, c);
    }
  }

  /**
   A report of a sound run gives all arms equal totals if and only if no window has closed
   and demoted its source since the report before it, or none after a sampled request.
   */
  lemma ReportsAreEqual<K, V>(past: History<K, V>, active: PolicyType, report: map<PolicyType, Stats>,
                              arms: set<PolicyType>, sampled: K -> bool, c: Settings)
    requires Sound(Then(past, Reported(active, report)), arms, sampled, c)
    ensures report.Keys == arms
    ensures forall q :: q in arms ==>
      report[q].Total() == SampledSince(past, sampled) - if q == Lagging(past) then BeforeClose(past, sampled) else 0
    ensures (forall q :: q in arms ==> report[q].Total() == SampledSince(past, sampled)) <==>
            BeforeClose(past, sampled) == 0
  {
    assert FairReport(past, report, arms, sampled);
    EqualEvidence(past, arms, sampled, c);
  }

  /**
   An epoch that closes a window reports its source on nothing, and all others on every
   sampled request; a source of kind 0 is no exception among the others.
   */
  lemma ClosingReport<K, V>(past: History<K, V>, source: PolicyType, active: PolicyType, report: map<PolicyType, Stats>,
                            arms: set<PolicyType>, sampled: K -> bool, c: Settings)
    requires Sound(Then(Then(past, WindowClosed(source)), Reported(active, report)), arms, sampled, c)
    ensures report.Keys == arms && source in arms && BeforeClose(past, sampled) == 0
    ensures forall q :: q in arms ==>
      report[q].Total() == if Demotes(source) && q == source then 0 else SampledSince(past, sampled)
  {
    ReportsAreEqual(Then(past, WindowClosed(source)), active, report, arms, sampled, c);
  }

  lemma SoundThen<K, V>(h: History<K, V>, e: Event<K, V>, arms: set<PolicyType>, sampled: K -> bool, c: Settings)
    requires Sound(h, arms, sampled, c) && Obeys(h, e, arms, sampled, c)
    ensures Sound(Then(h, e), arms, sampled, c)
  {
  }

  lemma NothingYet<K, V>(contents: map<K, V>, base: Stats, arms: set<PolicyType>, sampled: K -> bool, c: Settings)
    ensures var h: History<K, V> := Start(contents, base);
      Sound(h, arms, sampled, c) && SampledSince(h, sampled) == BeforeClose(h, sampled) == 0
    ensures forall q :: EvidenceDue(Start(contents, base), q, sampled) == 0
  {
  }

  lemma TwoArmReport<K, V>(past: History<K, V>, source: PolicyType, active: PolicyType, sampled: K -> bool)
    requires source != active
    requires EvidenceDue(past, source, sampled) == 0 && EvidenceDue(past, active, sampled) == 1
    ensures FairReport(past, map[source := NO_STATS, active := Stats(0, 1)], {source, active}, sampled)
  {
    hide EvidenceDue;
  }

  /** There are such runs: one sampled request, and the arms are told apart by it. */
  lemma UnequalReport<K, V>(k: K, contents: map<K, V>, source: PolicyType, active: PolicyType, sampled: K -> bool,
                            c: Settings)
    returns (past: History<K, V>, report: map<PolicyType, Stats>)
    requires sampled(k) && source != active && Demotes(source)
    ensures Sound(Then(past, Reported(active, report)), {source, active}, sampled, c)
    ensures report[source].Total() == 0 && report[active].Total() == 1
  {
    hide Sound, SampledSince, BeforeClose, EvidenceDue, HonestAnswer, JustifiedSwitch, FairReport;
    var arms, start: History<K, V> := {source, active}, Start(contents, NO_STATS);
    var asked := Then(start, Asked(k));
    past := Then(asked, WindowClosed(source));
    report := map[source := NO_STATS, active := Stats(0, 1)];
    NothingYet(contents, NO_STATS, arms, sampled, c);
    EvidenceAfter(start, Asked(k), sampled);
    EvidenceAfter(asked, WindowClosed(source), sampled);
    SoundThen(start, Asked(k), arms, sampled, c);
    SoundThen(asked, WindowClosed(source), arms, sampled, c);
    TwoArmReport(past, source, active, sampled);
    SoundThen(past, Reported(active, report), arms, sampled, c);
  }

  /** k spaced switches take this many epochs. */
  function Spacing(k: nat, gap: nat): nat { k * gap }

  lemma NextSpacing(k: nat, gap: nat)
    ensures Spacing(k + 1, gap) == Spacing(k, gap) + gap
  {
  }

  lemma {:induction false} SpacedSwitches<K, V>(h: History<K, V>, arms: set<PolicyType>, sampled: K -> bool,
                                                c: Settings)
    requires Sound(h, arms, sampled, c) && c.switchCooldownEpochs > 0
    ensures Spacing(Switches(h), c.switchCooldownEpochs) <= LastSwitch(h)
    ensures Switches(h) > 0 ==> LastSwitch(h) < Epochs(h)
  {
    NextSpacing(Switches(if h.Then? then h.past else h), c.switchCooldownEpochs);
    hide HonestAnswer, FairReport, EvidencePasses, Spacing;
    if h.Then? {
      SpacedSwitches(h.past, arms, sampled, c);
    } else {
      NoSpacing(c.switchCooldownEpochs);
    }
  }

  lemma NoSpacing(gap: nat)
    ensures Spacing(0, gap) == 0
  {
  }

  /** With a cooldown of C, k switches need more than k * C epochs. */
  lemma SwitchSpacing<K, V>(h: History<K, V>, arms: set<PolicyType>, sampled: K -> bool, c: Settings)
    requires Sound(h, arms, sampled, c) && c.switchCooldownEpochs > 0 && Switches(h) > 0
    ensures Switches(h) * c.switchCooldownEpochs <= Epochs(h) - 1
  {
    SpacedSwitches(h, arms, sampled, c);
  }

  /** In observe-only mode nothing ever switches. */
  lemma {:induction false} ObserverNeverSwitches<K, V>(h: History<K, V>, arms: set<PolicyType>, sampled: K -> bool,
                                                       c: Settings)
    requires Sound(h, arms, sampled, c) && c.observeOnly
    ensures Switches(h) == 0
  {
    if h.Then? {
      ObserverNeverSwitches(h.past, arms, sampled, c);
    }
  }
}
