/** A bucket's counters as a hash of text fields, and its agreement with the in-memory store. */
module RedisCounters {
  import opened Options
  import opened ArmContract
  import opened Window
  import opened MemStore
  import opened RedisFields

  type Hash = map<string, string>

  function Stored(hash: Hash, field: string): int {
    if field in hash then ParseInt(hash[field]).UnwrapOr(0) else 0
  }

  /** HINCRBY: an absent field counts from zero; a value or a sum outside 64 bits is an error that changes nothing. */
  function IncrBy(hash: Hash, field: string, delta: int): Hash {
    var sum := Stored(hash, field) + delta;
    if field in hash && ParseInt(hash[field]) == None then hash
    else if !(-MAX_INT64 - 1 <= sum <= MAX_INT64) then hash
    else hash[field := PrintInt(sum)]
  }

  datatype Delta = Delta(field: string, amount: int)

  function Part(c: Counts, hits: bool): int {
    if hits then c.hits else c.misses
  }

  /** Zero amounts are dropped rather than sent. */
  function DeltasOf(count: ArmCounts): seq<Delta> {
    (if count.counts.hits != 0 then [Delta(CountField(Counter(count.key, true)), count.counts.hits)] else []) +
    (if count.counts.misses != 0 then [Delta(CountField(Counter(count.key, false)), count.counts.misses)] else [])
  }

  function Deltas(counts: seq<ArmCounts>): seq<Delta> {
    if counts == [] then [] else Deltas(counts[..|counts| - 1]) + DeltasOf(counts[|counts| - 1])
  }

  /** The encoding loop of a Sync. */
  method Encode(counts: seq<ArmCounts>) returns (args: seq<Delta>)
    ensures args == Deltas(counts)
  {
    args := [];
    for i := 0 to |counts|
      invariant args == Deltas(counts[..i])
    {
      var count := counts[i];
      assert counts[..i + 1][..i] == counts[..i];
      if count.counts.hits != 0 {
        args := args + [Delta(CountField(Counter(count.key, true)), count.counts.hits)];
      }
      if count.counts.misses != 0 {
        args := args + [Delta(CountField(Counter(count.key, false)), count.counts.misses)];
      }
    }
    assert counts[..|counts|] == counts;
  }

  /** The script's loop over the pairs it was sent. */
  function Apply(hash: Hash, args: seq<Delta>): Hash
    decreases |args|
  {
    if args == [] then hash else Apply(IncrBy(hash, args[0].field, args[0].amount), args[1..])
  }

  // ---- Reading back ----

  /** What one field contributes to a counter: its value, if both the field and the value parse. */
  function Contribution(hash: Hash, field: string, c: Counter): int {
    if field in hash && ParseCountField(field) == Some(c) then ParseInt(hash[field]).UnwrapOr(0) else 0
  }

  ghost function Total(hash: Hash, fields: set<string>, c: Counter): int {
    if fields == {} then 0
    else
      var field :| field in fields;
      Contribution(hash, field, c) + Total(hash, fields - {field}, c)
  }

  /** The order in which a map yields its fields does not matter. */
  lemma {:induction false} TotalAny(hash: Hash, fields: set<string>, field: string, c: Counter)
    requires field in fields
    ensures Total(hash, fields, c) == Contribution(hash, field, c) + Total(hash, fields - {field}, c)
    decreases |fields|
  {
    var first :| first in fields &&
                 Total(hash, fields, c) == Contribution(hash, first, c) + Total(hash, fields - {first}, c);
    if first != field {
      TotalAny(hash, fields - {first}, field, c);
      TotalAny(hash, fields - {field}, first, c);
      assert fields - {first} - {field} == fields - {field} - {first};
    }
  }

  predicate Reads(hash: Hash, field: string, k: ArmKey) {
    && field in hash && ParseInt(hash[field]).Some?
    && ParseCountField(field).Some? && ParseCountField(field).value.key == k
  }

  /** The arms are what the given fields say about a key: their totals, and nothing where none is read. */
  ghost predicate Tallied(hash: Hash, fields: set<string>, arms: Arms, k: ArmKey) {
    && At(arms, k) == Counts(Total(hash, fields, Counter(k, true)), Total(hash, fields, Counter(k, false)))
    && (k in arms <==> exists field :: field in fields && Reads(hash, field, k))
  }

  function Absorb(hash: Hash, arms: Arms, field: string): Arms
    requires field in hash
  {
    var counter, count := ParseCountField(field), ParseInt(hash[field]);
    if counter == None || count == None then arms
    else
      var stats := At(arms, counter.value.key);
      arms[counter.value.key :=
        if counter.value.hits then Counts(stats.hits + count.value, stats.misses)
        else Counts(stats.hits, stats.misses + count.value)]
  }

  lemma AbsorbOne(hash: Hash, done: set<string>, arms: Arms, field: string, k: ArmKey)
    requires field in hash && field !in done && Tallied(hash, done, arms, k)
    ensures Tallied(hash, done + {field}, Absorb(hash, arms, field), k)
  {
    hide ParseInt, ParseCountField, Total;
    assert done + {field} - {field} == done;
    TotalAny(hash, done + {field}, field, Counter(k, true));
    TotalAny(hash, done + {field}, field, Counter(k, false));
    var more := Absorb(hash, arms, field);
    assert k in more <==> k in arms || Reads(hash, field, k);
    if k in arms {
      var f :| f in done && Reads(hash, f, k);
      assert f in done + {field};
    } else {
      assert forall f :: f in done + {field} && Reads(hash, f, k) ==> f == field;
    }
  }

  /** A bucket's hash becomes per-arm counts; whatever is not recognised is skipped. */
  method ParseArms(fields: Hash) returns (arms: Arms)
    ensures forall k :: Tallied(fields, fields.Keys, arms, k)
  {
    arms := map[];
    var left := fields.Keys;
    while left != {}
      invariant left <= fields.Keys
      invariant forall k :: Tallied(fields, fields.Keys - left, arms, k)
      decreases |left|
    {
      var field :| field in left;
      ghost var after := Absorb(fields, arms, field);
      assert fields.Keys - left + {field} == fields.Keys - (left - {field});
      forall k ensures Tallied(fields, fields.Keys - (left - {field}), after, k) {
        AbsorbOne(fields, fields.Keys - left, arms, field, k);
      }
      left := left - {field};
      var counter, count := ParseCountField(field), ParseInt(fields[field]);
      if counter == None || count == None {
        assert arms == after;
        continue;
      }
      var stats := At(arms, counter.value.key);
      if counter.value.hits {
        stats := Counts(stats.hits + count.value, stats.misses);
      } else {
        stats := Counts(stats.hits, stats.misses + count.value);
      }
      arms := arms[counter.value.key := stats];
      assert arms == after;
    }
    assert fields.Keys - {} == fields.Keys;
  }

  // ---- Agreement with the in-memory store ----

  /** What the in-memory store holds for a bucket after some requests, oldest first. */
  function MemBucket(reqs: seq<seq<ArmCounts>>): Arms {
    if reqs == [] then map[] else Deposit(MemBucket(reqs[..|reqs| - 1]), reqs[|reqs| - 1])
  }

  /** What the same requests leave in the bucket's hash. */
  function RedisBucket(reqs: seq<seq<ArmCounts>>): Hash {
    if reqs == [] then map[] else Apply(RedisBucket(reqs[..|reqs| - 1]), Deltas(reqs[|reqs| - 1]))
  }

  predicate Sendable(counts: seq<ArmCounts>) {
    forall i :: 0 <= i < |counts| ==> Fits(counts[i].key) && counts[i].counts.hits >= 0 && counts[i].counts.misses >= 0
  }

  predicate InRange(c: Counts) {
    0 <= c.hits <= MAX_INT64 && 0 <= c.misses <= MAX_INT64
  }

  ghost predicate Bounded(arms: Arms) {
    forall k :: InRange(At(arms, k))
  }

  /** The field is a counter's own, and its value is positive. */
  predicate Genuine(hash: Hash, field: string)
    requires field in hash
  {
    && ParseCountField(field).Some? && field == CountField(ParseCountField(field).value)
    && Fits(ParseCountField(field).value.key)
    && ParseInt(hash[field]).Some? && ParseInt(hash[field]).value > 0
  }

  /** The hash holds exactly the non-zero counters of the arms. */
  ghost predicate Represents(hash: Hash, arms: Arms) {
    && (forall field :: field in hash ==> Genuine(hash, field))
    && (forall c: Counter :: Fits(c.key) ==> Stored(hash, CountField(c)) == Part(At(arms, c.key), c.hits))
  }

  function Bump(counts: Counts, hits: bool, n: int): Counts {
    if hits then Counts(counts.hits + n, counts.misses) else Counts(counts.hits, counts.misses + n)
  }

  lemma IncrementWrites(hash: Hash, field: string, n: int)
    requires field in hash ==> Genuine(hash, field)
    requires n > 0 && Stored(hash, field) + n <= MAX_INT64
    ensures IncrBy(hash, field, n) == hash[field := PrintInt(Stored(hash, field) + n)]
    ensures ParseInt(PrintInt(Stored(hash, field) + n)) == Some(Stored(hash, field) + n) && Stored(hash, field) >= 0
  {
    IntRoundTrip(Stored(hash, field) + n);
    hide ParseInt, PrintInt, ParseCountField, CountField;
  }

  lemma Increment(hash: Hash, arms: Arms, c: Counter, n: int)
    requires Represents(hash, arms) && Fits(c.key) && n > 0
    requires Part(At(arms, c.key), c.hits) + n <= MAX_INT64
    ensures Represents(IncrBy(hash, CountField(c), n), arms[c.key := Bump(At(arms, c.key), c.hits, n)])
  {
    hide ParseInt, PrintInt, ParseCountField, CountField, IncrBy;
    var field := CountField(c);
    assert Stored(hash, field) == Part(At(arms, c.key), c.hits);
    IncrementWrites(hash, field, n);
    FieldRoundTrip(c);
    var after, more := IncrBy(hash, field, n), arms[c.key := Bump(At(arms, c.key), c.hits, n)];
    forall d: Counter | Fits(d.key) ensures Stored(after, CountField(d)) == Part(At(more, d.key), d.hits) {
      assert Stored(hash, CountField(d)) == Part(At(arms, d.key), d.hits);
      if CountField(d) == field {
        FieldInjective(c, d);
      } else if d.key == c.key {
        assert d.hits == !c.hits by {
          assert Counter(d.key, d.hits) == d && Counter(c.key, c.hits) == c;
        }
      }
    }
    forall f | f in after ensures Genuine(after, f) {
      assert f != field ==> Genuine(hash, f);
    }
  }

  lemma {:induction false} ApplyParts(hash: Hash, a: seq<Delta>, b: seq<Delta>)
    ensures Apply(hash, a + b) == Apply(Apply(hash, a), b)
    decreases |a|
  {
    hide IncrBy;
    if a == [] {
      assert a + b == b;
    } else {
      ApplyParts(IncrBy(hash, a[0].field, a[0].amount), a[1..], b);
      assert (a + b)[1..] == a[1..] + b;
    }
  }

  lemma SameArms(hash: Hash, a: Arms, b: Arms)
    requires Represents(hash, a) && forall k :: At(a, k) == At(b, k)
    ensures Represents(hash, b)
  {
  }

  /** Adding n to one counter, or nothing when n is zero. */
  function Send(hash: Hash, c: Counter, n: int): Hash {
    if n == 0 then hash else IncrBy(hash, CountField(c), n)
  }

  lemma SendOne(hash: Hash, arms: Arms, c: Counter, n: int)
    requires Represents(hash, arms) && Fits(c.key) && n >= 0
    requires Part(At(arms, c.key), c.hits) + n <= MAX_INT64
    ensures Represents(Send(hash, c, n), arms[c.key := Bump(At(arms, c.key), c.hits, n)])
  {
    hide Represents, IncrBy, CountField;
    if n == 0 {
      SameArms(hash, arms, arms[c.key := Bump(At(arms, c.key), c.hits, n)]);
    } else {
      Increment(hash, arms, c, n);
    }
  }

  lemma SendsBoth(hash: Hash, count: ArmCounts)
    ensures Apply(hash, DeltasOf(count)) ==
            Send(Send(hash, Counter(count.key, true), count.counts.hits),
                 Counter(count.key, false), count.counts.misses)
  {
    hide IncrBy, CountField;
    var hit, miss := Counter(count.key, true), Counter(count.key, false);
    var first := if count.counts.hits != 0 then [Delta(CountField(hit), count.counts.hits)] else [];
    var second := if count.counts.misses != 0 then [Delta(CountField(miss), count.counts.misses)] else [];
    ApplyParts(hash, first, second);
    ApplyOne(hash, hit, count.counts.hits);
    ApplyOne(Send(hash, hit, count.counts.hits), miss, count.counts.misses);
  }

  lemma ApplyOne(hash: Hash, c: Counter, n: int)
    ensures Apply(hash, if n != 0 then [Delta(CountField(c), n)] else []) == Send(hash, c, n)
  {
    hide IncrBy, CountField;
    var one := [Delta(CountField(c), n)];
    assert one[1..] == [];
    assert Apply(IncrBy(hash, CountField(c), n), []) == IncrBy(hash, CountField(c), n);
  }

  lemma OneCount(hash: Hash, arms: Arms, count: ArmCounts)
    requires Represents(hash, arms) && Sendable([count]) && Bounded(arms)
    requires InRange(Plus(At(arms, count.key), count.counts))
    ensures Represents(Apply(hash, DeltasOf(count)), arms[count.key := Plus(At(arms, count.key), count.counts)])
  {
    hide Represents, Send, Apply, DeltasOf;
    assert [count][0] == count && InRange(At(arms, count.key));
    var key, c := count.key, count.counts;
    var mid := arms[key := Bump(At(arms, key), true, c.hits)];
    SendOne(hash, arms, Counter(key, true), c.hits);
    SendOne(Send(hash, Counter(key, true), c.hits), mid, Counter(key, false), c.misses);
    SendsBoth(hash, count);
    assert mid[key := Bump(At(mid, key), false, c.misses)] == arms[key := Plus(At(arms, key), c)];
  }

  lemma {:induction false} DepositGrows(arms: Arms, counts: seq<ArmCounts>)
    requires Sendable(counts) && (forall k :: At(arms, k).hits >= 0 && At(arms, k).misses >= 0)
    ensures forall k :: At(arms, k).hits <= At(Deposit(arms, counts), k).hits
    ensures forall k :: At(arms, k).misses <= At(Deposit(arms, counts), k).misses
  {
    if counts != [] {
      DepositGrows(arms, counts[..|counts| - 1]);
    }
  }

  /** One request leaves the hash representing what the in-memory store holds. */
  lemma {:induction false} RequestAgrees(hash: Hash, arms: Arms, counts: seq<ArmCounts>)
    requires Represents(hash, arms) && Sendable(counts) && Bounded(arms) && Bounded(Deposit(arms, counts))
    ensures Represents(Apply(hash, Deltas(counts)), Deposit(arms, counts))
  {
    hide Represents;
    if counts != [] {
      var n := |counts| - 1;
      var fewer, last := counts[..n], counts[n];
      BoundedBefore(arms, fewer, last);
      RequestAgrees(hash, arms, fewer);
      assert InRange(At(Deposit(arms, counts), last.key));
      OneCount(Apply(hash, Deltas(fewer)), Deposit(arms, fewer), last);
      ApplyParts(hash, Deltas(fewer), DeltasOf(last));
    }
  }

  lemma BoundedBefore(arms: Arms, fewer: seq<ArmCounts>, last: ArmCounts)
    requires Sendable(fewer + [last]) && Bounded(arms) && Bounded(Deposit(arms, fewer + [last]))
    ensures Sendable(fewer) && Sendable([last]) && Bounded(Deposit(arms, fewer))
  {
    var all := fewer + [last];
    assert all[..|fewer|] == fewer && all[|fewer|] == last;
    forall i | 0 <= i < |fewer| ensures Fits(fewer[i].key) && fewer[i].counts.hits >= 0 && fewer[i].counts.misses >= 0 {
      assert fewer[i] == all[i];
    }
    assert forall k :: InRange(At(arms, k));
    DepositGrows(arms, fewer);
    var mid := Deposit(arms, fewer);
    forall k ensures InRange(At(mid, k)) {
      assert InRange(At(arms, k)) && InRange(At(Deposit(arms, all), k));
    }
  }

  ghost predicate AllSendable(reqs: seq<seq<ArmCounts>>) {
    forall i :: 0 <= i < |reqs| ==> Sendable(reqs[i])
  }

  /** Only arms that fit, with counts that are not negative. */
  ghost predicate Wholesome(arms: Arms) {
    forall k :: (k in arms ==> Fits(k)) && At(arms, k).hits >= 0 && At(arms, k).misses >= 0
  }

  lemma {:induction false} DepositWholesome(arms: Arms, counts: seq<ArmCounts>)
    requires Wholesome(arms) && Sendable(counts)
    ensures Wholesome(Deposit(arms, counts))
  {
    if counts != [] {
      var n := |counts| - 1;
      DepositWholesome(arms, counts[..n]);
      assert Fits(counts[n].key);
    }
  }

  lemma {:induction false} MemWholesome(reqs: seq<seq<ArmCounts>>)
    requires AllSendable(reqs)
    ensures Wholesome(MemBucket(reqs))
  {
    if reqs != [] {
      var n := |reqs| - 1;
      MemWholesome(reqs[..n]);
      assert Sendable(reqs[n]);
      DepositWholesome(MemBucket(reqs[..n]), reqs[n]);
    }
  }

  /** Request after request, the hash represents the in-memory bucket. */
  lemma {:induction false} RequestsAgree(reqs: seq<seq<ArmCounts>>)
    requires AllSendable(reqs) && Bounded(MemBucket(reqs))
    ensures Represents(RedisBucket(reqs), MemBucket(reqs))
  {
    if reqs != [] {
      hide Represents;
      var n := |reqs| - 1;
      var mid := MemBucket(reqs[..n]);
      assert Sendable(reqs[n]);
      MemWholesome(reqs[..n]);
      DepositGrows(mid, reqs[n]);
      forall k ensures InRange(At(mid, k)) {
        assert InRange(At(MemBucket(reqs), k));
      }
      RequestsAgree(reqs[..n]);
      RequestAgrees(RedisBucket(reqs[..n]), mid, reqs[n]);
    }
  }

  lemma {:induction false} TotalNothing(hash: Hash, fields: set<string>, c: Counter)
    requires forall f :: f in fields ==> Contribution(hash, f, c) == 0
    ensures Total(hash, fields, c) == 0
    decreases |fields|
  {
    hide Contribution;
    if fields != {} {
      var f :| f in fields && Total(hash, fields, c) == Contribution(hash, f, c) + Total(hash, fields - {f}, c);
      TotalNothing(hash, fields - {f}, c);
    }
  }

  /** Of a hash that holds only counters' own fields, a counter's total is its own field's value. */
  lemma TotalIsField(hash: Hash, c: Counter)
    requires (forall f :: f in hash ==> Genuine(hash, f)) && Fits(c.key)
    ensures Total(hash, hash.Keys, c) == Stored(hash, CountField(c))
  {
    var own := CountField(c);
    FieldRoundTrip(c);
    hide ParseInt, ParseCountField, CountField, Total;
    forall f | f in hash.Keys - {own} ensures Contribution(hash, f, c) == 0 {
      assert Genuine(hash, f);
    }
    TotalNothing(hash, hash.Keys - {own}, c);
    if own in hash {
      TotalAny(hash, hash.Keys, own, c);
    } else {
      assert hash.Keys - {own} == hash.Keys;
    }
  }

  /** What is read back: every count as it is in memory, and exactly the arms whose counts are not zero. */
  lemma ReadsBack(hash: Hash, mem: Arms, arms: Arms, k: ArmKey)
    requires Represents(hash, mem) && Wholesome(mem) && Tallied(hash, hash.Keys, arms, k)
    ensures At(arms, k) == At(mem, k)
    ensures k in arms <==> At(mem, k) != NOTHING
  {
    hide ParseInt, ParseCountField, CountField, Total;
    ReadKeys(hash, mem, k);
    if Fits(k) {
      var hit, miss := Counter(k, true), Counter(k, false);
      TotalIsField(hash, hit);
      TotalIsField(hash, miss);
      assert Stored(hash, CountField(hit)) == At(mem, k).hits && Stored(hash, CountField(miss)) == At(mem, k).misses;
    }
  }

  lemma ReadKeys(hash: Hash, mem: Arms, k: ArmKey)
    requires Represents(hash, mem) && Wholesome(mem)
    ensures (exists f :: f in hash.Keys && Reads(hash, f, k)) <==> At(mem, k) != NOTHING
  {
    var hit, miss := Counter(k, true), Counter(k, false);
    FieldRoundTrip(hit);
    FieldRoundTrip(miss);
    hide ParseInt, ParseCountField, CountField;
    if f :| f in hash.Keys && Reads(hash, f, k) {
      assert Genuine(hash, f);
      var c := ParseCountField(f).value;
      assert Stored(hash, CountField(c)) == Part(At(mem, c.key), c.hits);
    }
    if At(mem, k) != NOTHING {
      assert k in mem && Fits(k);
      var c := if At(mem, k).hits != 0 then hit else miss;
      assert Stored(hash, CountField(c)) == Part(At(mem, k), c.hits);
      assert Genuine(hash, CountField(c));
      assert Reads(hash, CountField(c), k);
    }
  }

  /** The in-memory bucket is what a run of Syncs into one bucket leaves, which is the sum of what they list. */
  lemma {:induction false} MemBucketSums(reqs: seq<seq<ArmCounts>>, k: ArmKey)
    ensures At(MemBucket(reqs), k) == SumOf(reqs, k)
  {
    hide Plus;
    if reqs != [] {
      var n := |reqs| - 1;
      MemBucketSums(reqs[..n], k);
      DepositAt(MemBucket(reqs[..n]), reqs[n], k);
    }
  }

  function SumOf(reqs: seq<seq<ArmCounts>>, k: ArmKey): Counts {
    if reqs == [] then NOTHING else Plus(SumOf(reqs[..|reqs| - 1], k), Listed(reqs[|reqs| - 1], k))
  }

  /**
   * The two stores agree: after any requests into a bucket, with counts that are not negative and totals
   * within 64 bits, reading the hash back gives every arm the counts the in-memory store holds for it, the
   * sum of what the requests list, and leaves out exactly the arms whose total is zero.
   */
  lemma StoresAgree(reqs: seq<seq<ArmCounts>>, arms: Arms, k: ArmKey)
    requires AllSendable(reqs) && Bounded(MemBucket(reqs))
    requires Tallied(RedisBucket(reqs), RedisBucket(reqs).Keys, arms, k)
    ensures At(arms, k) == At(MemBucket(reqs), k) == SumOf(reqs, k)
    ensures k in arms <==> At(MemBucket(reqs), k) != NOTHING
  {
    hide Represents, Tallied, Total;
    RequestsAgree(reqs);
    MemWholesome(reqs);
    MemBucketSums(reqs, k);
    ReadsBack(RedisBucket(reqs), MemBucket(reqs), arms, k);
  }
}
