/** Fleet evidence: counts per arm and role, and their decay-weighted pooling over a window of buckets. */
module Window {
  import opened ArmContract

  datatype Role = Shadow | Active

  datatype ArmKey = ArmKey(policy: PolicyType, role: Role)

  datatype Counts = Counts(hits: int, misses: int)

  const NOTHING := Counts(0, 0)

  function Plus(a: Counts, b: Counts): Counts {
    Counts(a.hits + b.hits, a.misses + b.misses)
  }

  lemma PlusLaws(a: Counts, b: Counts, c: Counts)
    ensures Plus(a, b) == Plus(b, a)
    ensures Plus(a, NOTHING) == a
    ensures Plus(Plus(a, b), c) == Plus(a, Plus(b, c))
  {
  }

  type Arms = map<ArmKey, Counts>

  function At(arms: Arms, k: ArmKey): Counts {
    if k in arms then arms[k] else NOTHING
  }

  datatype WindowCounts = WindowCounts(bucket: int, arms: Arms)

  datatype EvidenceMode = EvidenceAll | EvidenceShadowOnly

  predicate Admits(mode: EvidenceMode, role: Role) {
    mode == EvidenceAll || role == Shadow
  }

  datatype Weighted = Weighted(hits: real, misses: real)

  const WEIGHTLESS := Weighted(0.0, 0.0)

  function Sum(a: Weighted, b: Weighted): Weighted {
    Weighted(a.hits + b.hits, a.misses + b.misses)
  }

  lemma SumLaws(a: Weighted, b: Weighted, c: Weighted)
    ensures Sum(a, WEIGHTLESS) == a && Sum(WEIGHTLESS, a) == a
    ensures Sum(Sum(a, b), c) == Sum(a, Sum(b, c)) == Sum(Sum(a, c), b)
  {
  }

  function Scale(w: real, c: Counts): Weighted {
    Weighted(w * c.hits as real, w * c.misses as real)
  }

  lemma Distribute(w: real, x: real, y: real)
    ensures w * (x + y) == w * x + w * y
    ensures w * 0.0 == 0.0 && 0.0 * x == 0.0
  {
  }

  lemma ScaleSum(w: real, a: Counts, b: Counts)
    ensures Scale(w, Plus(a, b)) == Sum(Scale(w, a), Scale(w, b))
    ensures Scale(w, NOTHING) == WEIGHTLESS && Scale(0.0, a) == WEIGHTLESS
  {
    Distribute(w, a.hits as real, b.hits as real);
    Distribute(w, a.misses as real, b.misses as real);
    assert (a.hits + b.hits) as real == a.hits as real + b.hits as real;
    assert (a.misses + b.misses) as real == a.misses as real + b.misses as real;
  }

  function Pow(decay: real, age: nat): real {
    if age == 0 then 1.0 else decay * Pow(decay, age - 1)
  }

  /** A bucket newer than the reference weighs nothing; an older one weighs decay to the power of its age. */
  function Weight(decay: real, newest: int, bucket: int): real {
    if bucket > newest then 0.0 else Pow(decay, newest - bucket)
  }

  lemma {:induction false} PowPositive(decay: real, age: nat)
    requires decay > 0.0
    ensures Pow(decay, age) > 0.0
  {
    if age > 0 {
      PowPositive(decay, age - 1);
      assert decay * Pow(decay, age - 1) > 0.0;
    }
  }

  /** What the given keys of one bucket say about a policy, over the roles that are admitted. */
  function Measured(arms: Arms, mode: EvidenceMode, p: PolicyType): Counts {
    Plus(At(arms, ArmKey(p, Shadow)),
         if Admits(mode, Active) then At(arms, ArmKey(p, Active)) else NOTHING)
  }

  predicate Mentions(arms: Arms, mode: EvidenceMode, p: PolicyType) {
    ArmKey(p, Shadow) in arms || (Admits(mode, Active) && ArmKey(p, Active) in arms)
  }

  /** The pooled evidence of a policy: every bucket of the window, weighted by its age. */
  function Posterior(window: seq<WindowCounts>, newest: int, decay: real, mode: EvidenceMode, p: PolicyType): Weighted {
    if window == [] then WEIGHTLESS
    else
      var last := window[|window| - 1];
      Sum(Posterior(window[..|window| - 1], newest, decay, mode, p),
          Scale(Weight(decay, newest, last.bucket), Measured(last.arms, mode, p)))
  }

  /** The policies the posterior ranges over. */
  ghost predicate Pools(window: seq<WindowCounts>, newest: int, decay: real, mode: EvidenceMode, p: PolicyType) {
    exists i :: 0 <= i < |window| && Weight(decay, newest, window[i].bucket) != 0.0 && Mentions(window[i].arms, mode, p)
  }

  function Evidence(pooled: map<PolicyType, Weighted>, p: PolicyType): Weighted {
    if p in pooled then pooled[p] else WEIGHTLESS
  }

  /** The inner loop: one bucket's arms, in whatever order the map yields them. */
  method PoolBucket(before: map<PolicyType, Weighted>, arms: Arms, weight: real, mode: EvidenceMode)
    returns (pooled: map<PolicyType, Weighted>)
    ensures forall p :: Evidence(pooled, p) == Sum(Evidence(before, p), Scale(weight, Measured(arms, mode, p)))
    ensures forall p :: p in pooled <==> p in before || Mentions(arms, mode, p)
  {
    hide Scale, Sum, Measured, Mentions, Admits;
    pooled := before;
    var keys := arms.Keys;
    ghost var done: Arms := map[];
    forall p
      ensures Evidence(before, p) == Sum(Evidence(before, p), Scale(weight, Measured(done, mode, p)))
      ensures !Mentions(done, mode, p)
    {
      NoArms(weight, mode, p);
      SumLaws(Evidence(before, p), WEIGHTLESS, WEIGHTLESS);
    }
    while keys != {}
      invariant keys <= arms.Keys
      invariant forall k :: k in done <==> k in arms && k !in keys
      invariant forall k :: k in done ==> done[k] == arms[k]
      invariant forall p :: Evidence(pooled, p) == Sum(Evidence(before, p), Scale(weight, Measured(done, mode, p)))
      invariant forall p :: p in pooled <==> p in before || Mentions(done, mode, p)
      decreases |keys|
    {
      var key :| key in keys;
      keys := keys - {key};
      ghost var was := done;
      done := done[key := arms[key]];
      if Admits(mode, key.role) {
        var arm := Evidence(pooled, key.policy);
        pooled := pooled[key.policy := Sum(arm, Scale(weight, arms[key]))];
      }
      forall p
        ensures Evidence(pooled, p) == Sum(Evidence(before, p), Scale(weight, Measured(done, mode, p)))
        ensures p in pooled <==> p in before || Mentions(done, mode, p)
      {
        OneArm(was, key, arms[key], weight, mode, p);
        SumLaws(Evidence(before, p), Scale(weight, Measured(was, mode, p)), Scale(weight, arms[key]));
      }
    }
    assert done == arms;
  }

  lemma NoArms(weight: real, mode: EvidenceMode, p: PolicyType)
    ensures Scale(weight, Measured(map[], mode, p)) == WEIGHTLESS && !Mentions(map[], mode, p)
  {
    ScaleSum(weight, NOTHING, NOTHING);
  }

  lemma OneArm(done: Arms, key: ArmKey, c: Counts, weight: real, mode: EvidenceMode, p: PolicyType)
    requires key !in done
    ensures Scale(weight, Measured(done[key := c], mode, p)) ==
            if key.policy == p && Admits(mode, key.role)
            then Sum(Scale(weight, Measured(done, mode, p)), Scale(weight, c))
            else Scale(weight, Measured(done, mode, p))
    ensures Mentions(done[key := c], mode, p) <==>
            Mentions(done, mode, p) || (key.policy == p && Admits(mode, key.role))
  {
    MeasuredMore(done, key, c, mode, p);
    MentionsMore(done, key, c, mode, p);
    ScaleSum(weight, Measured(done, mode, p), c);
  }

  lemma MeasuredMore(done: Arms, key: ArmKey, c: Counts, mode: EvidenceMode, p: PolicyType)
    requires key !in done
    ensures Measured(done[key := c], mode, p) ==
            if key.policy == p && Admits(mode, key.role) then Plus(Measured(done, mode, p), c)
            else Measured(done, mode, p)
  {
    hide Plus;
    var s, a := At(done, ArmKey(p, Shadow)), At(done, ArmKey(p, Active));
    PlusLaws(s, a, c);
    PlusLaws(a, c, NOTHING);
    PlusLaws(c, s, NOTHING);
    PlusLaws(c, NOTHING, NOTHING);
    match key.role
    case Shadow => assert key == ArmKey(key.policy, Shadow);
    case Active => assert key == ArmKey(key.policy, Active);
  }

  lemma MentionsMore(done: Arms, key: ArmKey, c: Counts, mode: EvidenceMode, p: PolicyType)
    ensures Mentions(done[key := c], mode, p) <==>
            Mentions(done, mode, p) || (key.policy == p && Admits(mode, key.role))
  {
    match key.role
    case Shadow => assert key == ArmKey(key.policy, Shadow);
    case Active => assert key == ArmKey(key.policy, Active);
  }

  /** Pooling a window computes the posterior of every policy the window mentions, and of no other. */
  method Aggregate(window: seq<WindowCounts>, newest: int, decay: real, mode: EvidenceMode)
    returns (pooled: map<PolicyType, Weighted>)
    ensures forall p :: Evidence(pooled, p) == Posterior(window, newest, decay, mode, p)
    ensures forall p :: p in pooled <==> Pools(window, newest, decay, mode, p)
  {
    hide Scale, Sum;
    pooled := map[];
    for i := 0 to |window|
      invariant forall p :: Evidence(pooled, p) == Posterior(window[..i], newest, decay, mode, p)
      invariant forall p :: p in pooled <==> Pools(window[..i], newest, decay, mode, p)
    {
      var bucket := window[i];
      assert window[..i + 1][..i] == window[..i];
      forall p ensures Pools(window[..i + 1], newest, decay, mode, p) <==>
                       Pools(window[..i], newest, decay, mode, p) ||
                       (Weight(decay, newest, bucket.bucket) != 0.0 && Mentions(bucket.arms, mode, p))
      {
        PoolsMore(window, i, newest, decay, mode, p);
      }
      if newest - bucket.bucket < 0 || Pow(decay, newest - bucket.bucket) == 0.0 {
        forall p ensures Posterior(window[..i + 1], newest, decay, mode, p) ==
                         Posterior(window[..i], newest, decay, mode, p)
        {
          SkippedBucket(window[..i + 1], newest, decay, mode, p);
        }
        continue;
      }
      pooled := PoolBucket(pooled, bucket.arms, Pow(decay, newest - bucket.bucket), mode);
    }
    assert window[..|window|] == window;
  }

  lemma SkippedBucket(window: seq<WindowCounts>, newest: int, decay: real, mode: EvidenceMode, p: PolicyType)
    requires window != [] && Weight(decay, newest, window[|window| - 1].bucket) == 0.0
    ensures Posterior(window, newest, decay, mode, p) == Posterior(window[..|window| - 1], newest, decay, mode, p)
  {
    ScaleSum(0.0, Measured(window[|window| - 1].arms, mode, p), NOTHING);
  }

  lemma PoolsMore(window: seq<WindowCounts>, i: nat, newest: int, decay: real, mode: EvidenceMode, p: PolicyType)
    requires i < |window|
    ensures Pools(window[..i + 1], newest, decay, mode, p) <==>
            Pools(window[..i], newest, decay, mode, p) ||
            (Weight(decay, newest, window[i].bucket) != 0.0 && Mentions(window[i].arms, mode, p))
  {
    var more, fewer := window[..i + 1], window[..i];
    if Pools(fewer, newest, decay, mode, p) {
      var j :| 0 <= j < |fewer| && Weight(decay, newest, fewer[j].bucket) != 0.0 && Mentions(fewer[j].arms, mode, p);
      assert more[j] == fewer[j];
    }
    assert more[i] == window[i];
    if Pools(more, newest, decay, mode, p) {
      var j :| 0 <= j < |more| && Weight(decay, newest, more[j].bucket) != 0.0 && Mentions(more[j].arms, mode, p);
      if j < i {
        assert fewer[j] == more[j];
      }
    }
  }
}
