/**
 What a cache can serve, as values: the active arm's entries and, during a gradual
 window, those of the source still to be migrated.
 */
module Contents {
  import opened Options
  import opened ArmContract
  import opened CacheHistory

  /** The active arm's entries, and those of the source still to be migrated. */
  ghost function Merge<K, V>(act: map<K, V>, src: map<K, V>, pending: set<K>): map<K, V> {
    act + map k | k in src && k in pending :: src[k]
  }

  /** Every value is the last one added. */
  ghost predicate AllLast<K, V>(h: History<K, V>, m: map<K, V>) {
    forall k :: k in m ==> LastAdded(h, k) == Some(m[k])
  }

  /** Every value that could be served is the last one added; what is pending is not active yet. */
  ghost predicate Fresh<K, V>(h: History<K, V>, act: map<K, V>, src: map<K, V>, pending: set<K>) {
    && AllLast(h, act)
    && (forall k :: k in pending ==> k !in act && (k in src ==> LastAdded(h, k) == Some(src[k])))
  }

  /** The pending keys the source still holds, it holds with the values it held. */
  ghost predicate PendingKept<K, V>(after: map<K, V>, before: map<K, V>, pending: set<K>) {
    forall k :: k in pending && k in after ==> k in before && after[k] == before[k]
  }

  /** Nothing is lost but keys the active arm held. */
  ghost predicate LosesOnly<K, V>(after: map<K, V>, before: map<K, V>, act: set<K>) {
    forall k :: k in before && k !in after ==> k in act
  }

  /** Nothing new but key, and that only if it was pending. */
  ghost predicate GainsOnly<K>(after: set<K>, before: set<K>, key: K, pending: set<K>) {
    forall k :: k in after ==> k in before || (k == key && k in pending)
  }

  lemma GainsOne<K, V>(after: map<K, V>, before: map<K, V>, key: K, pending: set<K>)
    requires GainsOnly(after.Keys, before.Keys, key, pending)
    ensures |after| <= |before| + 1
  {
    SubsetCount(after.Keys, before.Keys + {key});
  }

  lemma GainsNothing<K>(s: set<K>, key: K, pending: set<K>)
    ensures GainsOnly(s, s, key, pending)
  {
  }

  lemma GainsMore<K>(after: set<K>, before: set<K>, key: K, pending: set<K>, more: set<K>)
    requires GainsOnly(after, before, key, pending) && pending <= more
    ensures GainsOnly(after, before, key, more)
  {
  }

  lemma LosesNothing<K, V>(m: map<K, V>, act: set<K>)
    ensures LosesOnly(m, m, act)
  {
  }

  lemma FewerEntries<K, V>(after: map<K, V>, before: map<K, V>)
    requires after == before || Within(after, before)
    ensures |after| <= |before|
  {
    SubsetCount(after.Keys, before.Keys);
  }

  lemma OneMoreEntry<K, V>(after: map<K, V>, before: map<K, V>, key: K, v: V)
    requires after == before || AddStep(before, after, key, v)
    ensures |after| <= |before| + 1
  {
    SubsetCount(after.Keys, before.Keys + {key});
  }

  // ---- Values alone ----

  lemma PartLast<K, V>(h: History<K, V>, part: map<K, V>, m: map<K, V>)
    requires AllLast(h, m) && Within(part, m)
    ensures AllLast(h, part)
  {
  }

  lemma NothingIsLast<K, V>(h: History<K, V>)
    ensures AllLast(h, map[])
  {
  }

  lemma NothingToMerge<K, V>(act: map<K, V>, pending: set<K>)
    ensures Merge(act, map[], pending) == act
  {
  }

  lemma FreshActive<K, V>(h: History<K, V>, act: map<K, V>, src: map<K, V>, pending: set<K>)
    requires Fresh(h, act, src, pending)
    ensures AllLast(h, act) && forall k :: k in pending ==> k !in act
  {
  }

  // ---- Steps ----

  /** Losing entries, or giving up pending keys, leaves what can be served fresh and a part of what it was. */
  lemma FreshShrinks<K, V>(h: History<K, V>, act: map<K, V>, act': map<K, V>, src: map<K, V>, src': map<K, V>,
                           pending: set<K>, pending': set<K>)
    requires Fresh(h, act, src, pending)
    requires Within(act', act) && pending' <= pending && PendingKept(src', src, pending')
    ensures Fresh(h, act', src', pending')
    ensures Within(Merge(act', src', pending'), Merge(act, src, pending))
  {
  }

  lemma PartKeepsPending<K, V>(before: map<K, V>, after: map<K, V>, pending: set<K>)
    requires after == before || Within(after, before)
    ensures PendingKept(after, before, pending)
  {
  }

  lemma WriteKeepsPending<K, V>(before: map<K, V>, after: map<K, V>, key: K, v: V, pending: set<K>)
    requires key !in pending && (after == before || AddStep(before, after, key, v))
    ensures PendingKept(after, before, pending)
  {
  }

  /** A key is no longer to be migrated; the source has lost nothing else. */
  lemma KeyWithdrawn<K, V>(h: History<K, V>, act: map<K, V>, src: map<K, V>, src': map<K, V>, pending: set<K>, key: K)
    requires Fresh(h, act, src, pending) && forall k :: k != key && k in src ==> k in src' && src'[k] == src[k]
    requires PendingKept(src', src, pending - {key})
    ensures Merge(act, src', pending - {key}) == Merge(act, src, pending) - (if key in pending then {key} else {})
  {
  }

  /** Moving a pending key over changes what can be served only by the active arm's evictions. */
  lemma Moved<K, V>(h: History<K, V>, act: map<K, V>, act': map<K, V>, src: map<K, V>, src': map<K, V>,
                    pending: set<K>, key: K, v: V)
    requires Fresh(h, act, src, pending) && key in pending
    requires Within(src', src) && key in src' && v == src'[key] && AddStep(act, act', key, v)
    ensures Fresh(h, act', src', pending - {key})
    ensures var before, after := Merge(act, src, pending), Merge(act', src', pending - {key});
      && Within(after, before)
      && (src' == src && key in act' ==> LosesOnly(after, before, act.Keys) && Lookup(act', key) == Lookup(before, key))
      && (src' == src && act' == act[key := v] ==> after == before)
  {
  }

  /** Giving up on a pending key the source has lost. */
  lemma GivenUp<K, V>(h: History<K, V>, act: map<K, V>, src: map<K, V>, src': map<K, V>, pending: set<K>, key: K)
    requires Fresh(h, act, src, pending) && key in pending && Within(src', src) && key !in src'
    ensures Fresh(h, act, src', pending - {key})
    ensures var before, after := Merge(act, src, pending), Merge(act, src', pending - {key});
      Within(after, before) && (src' == src ==> after == before && Lookup(act, key) == Lookup(before, key))
  {
  }

  /** A closed window leaves what the active arm holds. */
  lemma FreshClosed<K, V>(h: History<K, V>, p: PolicyType, act: map<K, V>, src: map<K, V>, pending: set<K>)
    requires Fresh(h, act, src, pending)
    ensures Fresh(h, act, map[], {}) && Fresh(Then(h, WindowClosed(p)), act, map[], {})
    ensures Within(Merge(act, map[], {}), Merge(act, src, pending))
    ensures pending == {} ==> Merge(act, map[], {}) == Merge(act, src, pending)
  {
    ValuesAfter(h, WindowClosed(p));
  }

  lemma OpenedFresh<K, V>(h: History<K, V>, act: map<K, V>, src: map<K, V>, pending: set<K>)
    requires AllLast(h, act) && AllLast(h, src) && (pending == {} || act == map[])
    ensures Fresh(h, act, src, pending)
  {
  }

  /** A window opened over all of an arm, or none at all, lets through what the parts are. */
  lemma MergedParts<K, V>(act: map<K, V>, src: map<K, V>, was: map<K, V>)
    requires Within(act, was) && Within(src, was)
    ensures Within(Merge(act, src, src.Keys), was) && Merge(act, map[], {}) == act && Merge(map[], src, src.Keys) == src
  {
  }

  /** Events that write nothing leave what is fresh fresh. */
  lemma FreshSilent<K, V>(h: History<K, V>, e: Event<K, V>, act: map<K, V>, src: map<K, V>, pending: set<K>)
    requires Fresh(h, act, src, pending) && !e.Added? && !e.Removed? && !e.Purged?
    ensures Fresh(Then(h, e), act, src, pending)
  {
    ValuesAfter(h, e);
  }

  /** The active arm takes a value. */
  lemma FreshAdded<K, V>(h: History<K, V>, act: map<K, V>, act': map<K, V>, src: map<K, V>, pending: set<K>, key: K,
                         v: V)
    requires Fresh(h, act, src, pending) && key !in pending && AddStep(act, act', key, v)
    ensures Fresh(Then(h, Added(key, v)), act', src, pending)
    ensures var before, after := Merge(act, src, pending), Merge(act', src, pending);
      && AddStep(before, after, key, v) && LosesOnly(after, before, act.Keys)
      && (act' == act[key := v] ==> after == before[key := v])
  {
  }

  /** The active arm lets a key go. */
  lemma FreshRemoved<K, V>(h: History<K, V>, act: map<K, V>, act': map<K, V>, src: map<K, V>, pending: set<K>, key: K)
    requires Fresh(h, act, src, pending) && key !in pending && Within(act', act) && key !in act'
    ensures Fresh(Then(h, Removed(key)), act', src, pending)
    ensures Within(Merge(act', src, pending), Merge(act, src, pending)) && key !in Merge(act', src, pending)
    ensures act' == act - {key} ==> Merge(act', src, pending) == Merge(act, src, pending) - {key}
  {
  }
}
