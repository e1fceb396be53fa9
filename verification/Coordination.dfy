/** One coordination round as the replica executes it, on the store and the replica in place. */
module Coordination {
  import opened Options
  import opened ArmContract
  import opened Window
  import opened MemStore
  import opened Distributed
  import opened Fleet

  /** When the round's calls reach the store, whether each is cancelled, and what the local bandit would pick. */
  datatype Luck = Luck(times: (nat, nat, nat), cancelled: (bool, bool, bool), stale: bool, local: PolicyType)

  /** The fleet's state seen by one replica in place: its own fields and the store's. */
  ghost predicate Mirrors(f: Fleet, node: NodeId, d: Distributed, store: MemStore)
    reads d, store
  {
    node in f.members && f.members[node].replica == d.State() && f.store == store.Holds()
  }

  predicate Falls(d: Distributed, luck: Luck)
    reads d`arms
  {
    luck.stale && luck.local != UNDEFINED && luck.local in d.arms
  }

  /** The failed call is noted; a stale replica takes its local bandit's choice if it has that arm. */
  method RecordFailure(d: Distributed, luck: Luck)
    modifies d`selection
    ensures d.selection == if Falls(d, luck) then luck.local else old(d.selection)
  {
    if !luck.stale {
      return;
    }
    if luck.local == UNDEFINED || luck.local !in d.arms {
      return;
    }
    d.selection := luck.local;
  }

  /** Any pooled arm may be drawn; nothing is drawn from no evidence. */
  method Draw(pooled: map<PolicyType, Weighted>) returns (choice: PolicyType)
    ensures choice == UNDEFINED || choice in pooled
    ensures pooled == map[] ==> choice == UNDEFINED
  {
    choice := UNDEFINED;
    if pooled.Keys != {} {
      var p :| p in pooled.Keys;
      choice := p;
    }
  }

  /** The evidence pooled from a window: its arms, and for each the posterior. */
  ghost predicate PooledAt(cfg: Config, w: seq<WindowCounts>, key: BucketKey, pooled: map<PolicyType, Weighted>) {
    && (forall p :: p in pooled <==> Pools(w, key.bucket - 1, cfg.decay, cfg.evidence, p))
    && (forall p :: Evidence(pooled, p) == Posterior(w, key.bucket - 1, cfg.decay, cfg.evidence, p))
  }

  /** The window stops one bucket short of the current one. */
  method ReadPooled(cfg: Config, store: MemStore, cancelled: bool, at: nat, key: BucketKey)
    returns (pooled: Option<map<PolicyType, Weighted>>)
    modifies store`counts, store`leaders, store`decisions
    ensures cancelled || store.failure ==> pooled == None && store.Holds() == old(store.Holds())
    ensures !cancelled && !store.failure ==> pooled.Some? && store.Holds() == Expire(old(store.Holds()), at)
    ensures pooled.Some? ==> PooledAt(cfg, ReadBy(cfg, old(store.Holds()), at, key), key, pooled.value)
  {
    var newest := key.bucket - 1;
    var first := newest - cfg.window + 1;
    var window := store.Window(cancelled, at, key.namespace, first, newest);
    if window == None {
      return None;
    }
    var evidence := Aggregate(window.value, newest, cfg.decay, cfg.evidence);
    pooled := Some(evidence);
  }

  /** The machine's run grows by one event. */
  lemma Follow(cfg: Config, f: Fleet, events: seq<Event>, g: Fleet, e: Event) returns (more: seq<Event>, h: Fleet)
    requires Runs(cfg, f, events, g) && Enabled(cfg, g, e)
    ensures Runs(cfg, f, more, h) && h == Take(cfg, g, e)
  {
    more, h := events + [e], Take(cfg, g, e);
    Extend(cfg, f, events, g, e);
  }

  /** A failed call: the round moves on, and the fallback may change the selection. */
  method Fail(cfg: Config, node: NodeId, d: Distributed, store: MemStore, luck: Luck,
              ghost f: Fleet, ghost events: seq<Event>, ghost g: Fleet)
    returns (ghost more: seq<Event>, ghost h: Fleet)
    requires Mirrors(g, node, d, store) && Runs(cfg, f, events, g)
    modifies d`selection
    ensures Mirrors(h, node, d, store) && Runs(cfg, f, more, h)
    ensures h.members[node].round == g.members[node].round && h.now == g.now
  {
    RecordFailure(d, luck);
    more, h := events, g;
    if Falls(d, luck) {
      more, h := Follow(cfg, f, events, g, FallsBack(node, luck.local));
    }
  }

  /** Drawing from the pooled window, for the fleet or for this replica alone. */
  method ReadAndDraw(cfg: Config, node: NodeId, d: Distributed, store: MemStore, luck: Luck, key: BucketKey,
                     known: Option<PolicyType>, ghost f: Fleet, ghost events: seq<Event>, ghost g: Fleet)
    returns (choice: PolicyType, ghost more: seq<Event>, ghost h: Fleet)
    requires Mirrors(g, node, d, store) && Runs(cfg, f, events, g)
    requires g.members[node].round == Reading(key, known) && g.now <= luck.times.1
    modifies d`selection, store`counts, store`leaders, store`decisions
    ensures Mirrors(h, node, d, store) && Runs(cfg, f, more, h) && h.now == luck.times.1
    ensures h.members[node].round == RoundAfterRead(cfg, Reading(key, known), Answered, choice)
  {
    choice := UNDEFINED;
    var pooled := ReadPooled(cfg, store, luck.cancelled.1, luck.times.1, key);
    if pooled == None {
      more, h := Follow(cfg, f, events, g, Reads(node, luck.times.1, Refused, UNDEFINED));
      more, h := Fail(cfg, node, d, store, luck, f, more, h);
    } else {
      choice := Draw(pooled.value);
      more, h := Follow(cfg, f, events, g, Reads(node, luck.times.1, Answered, choice));
    }
  }

  /** Publishing the leader's draw; the decision is what the store reports in force. */
  method Publish(cfg: Config, node: NodeId, d: Distributed, store: MemStore, luck: Luck, key: BucketKey,
                 known: Option<PolicyType>, choice: PolicyType, ghost f: Fleet, ghost events: seq<Event>,
                 ghost g: Fleet)
    returns (decision: Option<PolicyType>, ghost more: seq<Event>, ghost h: Fleet)
    requires Mirrors(g, node, d, store) && Runs(cfg, f, events, g)
    requires g.members[node].round == Deciding(key, known, choice) && g.now <= luck.times.2
    modifies d`selection, store`counts, store`leaders, store`decisions
    ensures Mirrors(h, node, d, store) && Runs(cfg, f, more, h)
    ensures h.members[node].round == Applying(key, decision)
  {
    var inForce := store.Decide(luck.cancelled.2, luck.times.2, key, choice, cfg.DecisionTTL());
    if inForce == None {
      more, h := Follow(cfg, f, events, g, Decides(node, luck.times.2, Refused));
      more, h := Fail(cfg, node, d, store, luck, f, more, h);
      decision := known;
    } else {
      more, h := Follow(cfg, f, events, g, Decides(node, luck.times.2, Answered));
      decision := if inForce.value != UNDEFINED then inForce else known;
    }
  }

  /** From the store's answer to what this replica will apply. */
  method Choose(cfg: Config, node: NodeId, d: Distributed, store: MemStore, luck: Luck, key: BucketKey,
                result: SyncResult, ghost f: Fleet, ghost before: seq<Event>, ghost b: Fleet)
    returns (decision: Option<PolicyType>, ghost events: seq<Event>, ghost g: Fleet)
    requires Mirrors(b, node, d, store) && Runs(cfg, f, before, b) && b.now <= luck.times.1 <= luck.times.2
    requires b.members[node].round == RoundAfterSync(cfg, key, result)
    modifies d`selection, store`counts, store`leaders, store`decisions
    ensures Mirrors(g, node, d, store) && Runs(cfg, f, events, g)
    ensures g.members[node].round == Applying(key, decision)
  {
    events, g := before, b;
    decision := result.decision;
    if cfg.mode == SharedPosterior {
      var choice;
      choice, events, g := ReadAndDraw(cfg, node, d, store, luck, key, None, f, events, g);
      decision := if choice != UNDEFINED then Some(choice) else None;
    } else if result.leader {
      var choice;
      choice, events, g := ReadAndDraw(cfg, node, d, store, luck, key, decision, f, events, g);
      if choice != UNDEFINED {
        decision, events, g := Publish(cfg, node, d, store, luck, key, decision, choice, f, events, g);
      }
    }
  }

  /** An uninterrupted round of the code is a run of the machine, from an idle replica to an idle replica. */
  method SyncRound(cfg: Config, node: NodeId, d: Distributed, store: MemStore, luck: Luck, ghost f: Fleet)
    returns (ghost events: seq<Event>, ghost g: Fleet)
    requires Mirrors(f, node, d, store) && f.members[node].round == Idle
    requires f.now <= luck.times.0 <= luck.times.1 <= luck.times.2
    modifies d`pending, d`selection, store`counts, store`leaders, store`decisions
    ensures Mirrors(g, node, d, store) && Runs(cfg, f, events, g) && g.members[node].round == Idle
  {
    events, g := [], f;
    var shape := d.shape;
    var counts := d.Drain();
    if counts == None {
      return;
    }
    events, g := Follow(cfg, f, events, g, Drains(node, d.name, counts.value));
    var req := RequestOf(cfg, node, Namespace(d.name, shape.value), counts.value);
    var key := KeyOf(luck.times.0, req);
    var result := store.Sync(luck.cancelled.0, luck.times.0, req);
    if result == None {
      events, g := Follow(cfg, f, events, g, Syncs(node, luck.times.0, Refused));
      events, g := Fail(cfg, node, d, store, luck, f, events, g);
      return;
    }
    events, g := Follow(cfg, f, events, g, Syncs(node, luck.times.0, Answered));
    var decision;
    decision, events, g := Choose(cfg, node, d, store, luck, key, result.value, f, events, g);
    d.ApplyResult(decision);
    events, g := Follow(cfg, f, events, g, Applies(node));
  }
}
