/**
 What frequency and age mean: over any run of the LFU, an entry's frequency is the
 number of times it was used since it became resident, and its stamp is the time
 of the last of those uses.
 */
module LfuHistory {
  import opened Options
  import opened LfuOrder

  datatype Op<K, V> = AddOp(key: K, value: V) | GetOp(key: K) | RemoveOp(key: K) | ResizeOp(size: int) | PurgeOp

  /** A run, from an empty cache of the given size. */
  datatype Trace<K, V> = Start(size: int) | Step(past: Trace<K, V>, op: Op<K, V>)

  function Apply<K(==), V>(o: Order<K, V>, op: Op<K, V>): Order<K, V> {
    match op
    case AddOp(k, v) => Add(o, k, v)
    case GetOp(k) => Get(o, k)
    case RemoveOp(k) => Remove(o, k)
    case ResizeOp(n) => Resize(o, n)
    case PurgeOp => o.(items := [])
  }

  function State<K(==), V>(t: Trace<K, V>): Order<K, V> {
    match t
    case Start(size) => Order([], size, 0)
    case Step(p, op) => Apply(State(p), op)
  }

  predicate Touches<K(==), V>(op: Op<K, V>, k: K) {
    (op.AddOp? || op.GetOp?) && op.key == k
  }

  predicate Resident<K(==), V>(t: Trace<K, V>, k: K) {
    Find(State(t).items, k).Some?
  }

  /** The uses of k since it last became resident. */
  function Uses<K(==), V>(t: Trace<K, V>, k: K): nat {
    if t.Start? || !Resident(t, k) then 0
    else Uses(t.past, k) + if Touches(t.op, k) then 1 else 0
  }

  /** When k was last used, counted in uses of any entry. */
  function LastUse<K(==), V>(t: Trace<K, V>, k: K): int {
    if t.Start? then 0 else if Touches(t.op, k) then State(t.past).clock else LastUse(t.past, k)
  }

  ghost predicate Explained<K, V>(t: Trace<K, V>) {
    var s := State(t).items;
    forall i :: 0 <= i < |s| ==> s[i].freq == Uses(t, s[i].key) && s[i].stamp == LastUse(t, s[i].key)
  }

  /** An operation leaves the frequency and stamp of every key it does not use. */
  lemma ApplyFind<K, V>(o: Order<K, V>, op: Op<K, V>, k: K)
    requires LfuOrder.Valid(o)
    ensures Find(Apply(o, op).items, k).Some? ==>
      var it := Find(Apply(o, op).items, k).value;
      if Touches(op, k)
      then it.stamp == o.clock && it.freq == 1 + (match Find(o.items, k) case None => 0 case Some(b) => b.freq)
      else Find(o.items, k) == Some(it)
  {
    hide InsertNewest, RemoveKey, Find;
    match op
    case AddOp(j, v) =>
      if o.size > 0 {
        if Find(o.items, j).Some? {
          UseFind(o, j, v, k);
        } else {
          AddNewFind(o, j, v, k);
        }
      } else {
        FindNone(o.items, k);
      }
    case GetOp(j) =>
      if Find(o.items, j).Some? {
        UseFind(o, j, Find(o.items, j).value.value, k);
      }
    case RemoveOp(j) =>
      RemoveFind(o.items, j, k);
    case ResizeOp(n) =>
      SuffixFind(o.items, Excess(o, n), k);
    case PurgeOp =>
      FindNone<K, V>([], k);
  }

  lemma ApplyValid<K, V>(o: Order<K, V>, op: Op<K, V>)
    requires LfuOrder.Valid(o)
    ensures LfuOrder.Valid(Apply(o, op))
  {
    match op
    case AddOp(j, v) => AddKeepsValid(o, j, v);
    case GetOp(j) =>
      if Find(o.items, j).Some? {
        UseKeepsValid(o, j, Find(o.items, j).value.value);
      }
    case RemoveOp(j) => RemoveKeeps(o.items, j, o.clock);
    case ResizeOp(n) =>
    case PurgeOp =>
  }

  lemma UseFind<K, V>(o: Order<K, V>, j: K, v: V, k: K)
    requires LfuOrder.Valid(o) && Find(o.items, j).Some?
    ensures Find(Use(o, j, v).items, k) ==
            if k == j then Some(Item(j, v, Find(o.items, j).value.freq + 1, o.clock)) else Find(o.items, k)
  {
    hide InsertNewest, RemoveKey, Find;
    UseKeepsValid(o, j, v);
    RemoveKeeps(o.items, j, o.clock);
    RemoveFind(o.items, j, k);
    InsertFind(RemoveKey(o.items, j), Item(j, v, Find(o.items, j).value.freq + 1, o.clock), k);
  }

  lemma AddNewFind<K, V>(o: Order<K, V>, j: K, v: V, k: K)
    requires LfuOrder.Valid(o) && o.size > 0 && Find(o.items, j).None?
    ensures var t := Add(o, j, v).items;
      if k == j then Find(t, k) == Some(Item(j, v, 1, o.clock)) else Find(t, k).Some? ==> Find(t, k) == Find(o.items, k)
  {
    hide InsertNewest, Find;
    var n := if Full(o) then 1 else 0;
    SuffixFind(o.items, n, k);
    SuffixFind(o.items, n, j);
    assert Add(o, j, v).items == InsertNewest(o.items[n..], Item(j, v, 1, o.clock));
    InsertFind(o.items[n..], Item(j, v, 1, o.clock), k);
  }

  /** Dropping the oldest items changes nothing for the others. */
  lemma SuffixFind<K, V>(s: seq<Item<K, V>>, n: nat, k: K)
    requires Unique(s) && n <= |s|
    ensures Unique(s[n..])
    ensures Find(s[n..], k).Some? ==> Find(s[n..], k) == Find(s, k)
  {
    hide Find;
    FindNone(s[n..], k);
    if Find(s[n..], k).Some? {
      var i :| 0 <= i < |s[n..]| && s[n..][i] == Find(s[n..], k).value && s[n..][i].key == k;
      FindUnique(s, n + i);
    }
  }

  lemma PastExplained<K, V>(t: Trace<K, V>, k: K)
    requires LfuOrder.Valid(State(t)) && Explained(t)
    ensures Resident(t, k) ==>
      var it := Find(State(t).items, k).value; it.freq == Uses(t, k) && it.stamp == LastUse(t, k)
    ensures !Resident(t, k) ==> Uses(t, k) == 0
  {
    FindNone(State(t).items, k);
  }

  /** Every run keeps the order valid and its frequencies and stamps truthful. */
  lemma {:induction false} RunExplained<K, V>(t: Trace<K, V>)
    ensures LfuOrder.Valid(State(t)) && Explained(t)
  {
    if t.Step? {
      RunExplained(t.past);
      ApplyValid(State(t.past), t.op);
      var s := State(t).items;
      forall i | 0 <= i < |s| ensures s[i].freq == Uses(t, s[i].key) && s[i].stamp == LastUse(t, s[i].key) {
        var k := s[i].key;
        FindUnique(s, i);
        ApplyFind(State(t.past), t.op, k);
        PastExplained(t.past, k);
      }
    }
  }

  /** After any run, the next victim is the least used resident entry and, among
      the least used, the one whose last use is oldest. */
  lemma VictimIsLeastUsed<K, V>(t: Trace<K, V>, k: K)
    requires Resident(t, k) && k != State(t).items[0].key
    ensures var victim := State(t).items[0].key;
      Uses(t, victim) < Uses(t, k) || (Uses(t, victim) == Uses(t, k) && LastUse(t, victim) < LastUse(t, k))
  {
    RunExplained(t);
    var s := State(t).items;
    FindNone(s, k);
    var i :| 0 <= i < |s| && s[i] == Find(s, k).value && s[i].key == k;
    FindUnique(s, 0);
    assert Before(s[0], s[i]);
    assert Resident(t, s[0].key);
  }
}
