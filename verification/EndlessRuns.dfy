// When the whole operator goes on for ever although no call fails and nobody changes anything:
// all MimirRules and the watch handler interleaved, and a panic of one ending all.
module EndlessRuns {
  import opened Ordering
  import opened Selection
  import opened RemoteRuler
  import opened Operator
  import opened Finalizers
  import opened Agreement
  import opened Isolation
  import opened Readiness
  import opened Outcomes
  import opened Convergence
  import opened Endings
  import opened Retries

  // An event without a failing call, by the operator itself: a step of a reconciliation, or the
  // handling of a change. Either may panic.
  ghost predicate GoodEvent(strict: bool, s: System, e: Event) {
    match e
    case Reconcile(m, action) => Enabled(s, e) && Good(strict, s.nodes[m], StoreOf(s, m), action)
    case Handle(key) => key in s.pending
    case _ => false
  }

  ghost predicate Leads(strict: bool, s: System, e: Event, t: System) { GoodEvent(strict, s, e) && t == Apply(s, e) }

  ghost predicate Follows(strict: bool, s: System, t: System) { exists e :: Leads(strict, s, e, t) }

  ghost predicate FollowsBy(strict: bool, s: System, m: Key, t: System) {
    exists action :: Leads(strict, s, Reconcile(m, action), t)
  }

  ghost predicate RunsForever(strict: bool, s: System, run: nat -> System) {
    run(0) == s && forall n: nat :: Follows(strict, run(n), run(n + 1))
  }

  // The attempts of the object do not come out in one way; they panic.
  ghost predicate Troubled(cluster: Cluster, node: Node) {
    node.stored.Some? && !node.stored.value.deleting && Restless(cluster, node.stored.value.spec)
  }

  ghost predicate Explosive(cluster: Cluster, node: Node) {
    && node.stored.Some? && !node.stored.value.deleting
    && Selection.AllValid(node.stored.value.spec.selectors) && !Transforms(cluster, node.stored.value.spec)
  }

  // The object is in the queue or will be, a change being pending that concerns it.
  ghost predicate Due(s: System, m: Key)
    requires m in s.nodes
  {
    s.nodes[m].dirty || exists key :: key in s.pending && Requested(s.cluster, s.nodes[m].stored, key)
  }

  ghost predicate HandlerPanics(s: System) { exists key :: key in s.pending && Panicking(s, Handle(key)) }

  predicate Resting(s: System) { forall m :: m in s.nodes ==> s.nodes[m].process.phase.Idle? }

  ghost predicate Sensible(s: System) { AllReady(s) && PlainKeys(s.cluster.Keys) }

  // ---------------------------------------------------------------------------------------
  // The operator comes to rest
  // ---------------------------------------------------------------------------------------

  ghost predicate Dormant(s: System, m: Key)
    requires m in s.nodes
  {
    s.nodes[m].process.phase.Idle? && !Due(s, m)
  }

  // No reconciliation is out of date, and none that will be started panics.
  ghost predicate Steady(s: System) {
    && Sensible(s) && !HandlerPanics(s)
    && forall m :: m in s.nodes ==>
         !Late(s.cluster, s.nodes[m], StoreOf(s, m)) && (Explosive(s.cluster, s.nodes[m]) ==> Dormant(s, m))
  }

  ghost predicate Peaceful(s: System) {
    Steady(s) && forall m :: m in s.nodes ==> Calm(s.cluster, s.nodes[m]) || Dormant(s, m)
  }

  lemma DormantStands(s: System, m: Key, action: Action)
    requires m in s.nodes && Dormant(s, m)
    ensures !CanPerform(s.nodes[m], StoreOf(s, m), action)
  {
    hide IsFlatList, Requested;
  }

  lemma SteadyNeverPanics(strict: bool, s: System, e: Event)
    requires Steady(s) && GoodEvent(strict, s, e)
    ensures !Panicking(s, e)
  {
    hide Ready, Late, Panics, Transforms, CanPerform, Dormant;
    if e.Reconcile? && Panicking(s, e) {
      WhyPanics(s.cluster, s.nodes[e.m], StoreOf(s, e.m));
      DormantStands(s, e.m, e.action);
    }
  }

  // A reconciliation does not change the spec, nor bring an object into being.
  lemma ActionKeepsSpec(cluster: Cluster, node: Node, store: Store, action: Action)
    requires CanPerform(node, store, action)
    ensures var n := Perform(cluster, node, store, action).0;
            n.stored.Some? ==>
              && node.stored.Some? && n.stored.value.spec == node.stored.value.spec
              && n.stored.value.deleting == node.stored.value.deleting
  {
    hide Synchronise, CanSynchronise, IsFlatList, Panics;
  }

  // What an event without a failing call does to a node.
  ghost predicate NodeGoesOn(s: System, e: Event, t: System, m: Key)
    requires m in s.nodes && Enabled(s, e)
  {
    && m in t.nodes
    && if e.Reconcile? && e.m == m then
         (t.nodes[m], StoreOf(t, m)) == Perform(s.cluster, s.nodes[m], StoreOf(s, m), e.action)
       else
         && StoreOf(t, m) == StoreOf(s, m)
         && t.nodes[m] == if e.Handle? then AfterHandle(s.cluster, s.nodes[m], e.key) else s.nodes[m]
  }

  lemma GoodEventEffect(strict: bool, s: System, e: Event)
    requires OneTenantEach(s) && GoodEvent(strict, s, e) && !Panicking(s, e)
    ensures Enabled(s, e) && Apply(s, e).cluster == s.cluster && Apply(s, e).nodes.Keys == s.nodes.Keys
    ensures Apply(s, e).pending == if e.Handle? then s.pending - {e.key} else s.pending
    ensures forall m :: m in s.nodes ==> NodeGoesOn(s, e, Apply(s, e), m)
  {
    hide Perform, CanPerform, Panicking, Good;
    forall m | m in s.nodes ensures NodeGoesOn(s, e, Apply(s, e), m) {
      NodeStep(s, e, m);
    }
  }

  lemma StepKeepsSensible(strict: bool, s: System, e: Event)
    requires Sensible(s) && GoodEvent(strict, s, e)
    ensures Enabled(s, e) && Sensible(Apply(s, e)) && Apply(s, e).cluster == s.cluster
  {
    hide AllReady, CanPerform, Panicking, NodeAfter, Good;
    StepKeepsAllReady(s, e);
  }

  // Nodes keep their specs or lose their objects.
  ghost predicate SameSpec(n: Node, was: Node) {
    n.stored.Some? ==>
      && was.stored.Some? && n.stored.value.spec == was.stored.value.spec
      && n.stored.value.deleting == was.stored.value.deleting
  }

  lemma NodesKeepSpecs(s: System, e: Event, t: System, m: Key)
    requires m in s.nodes && Enabled(s, e) && NodeGoesOn(s, e, t, m)
    ensures SameSpec(t.nodes[m], s.nodes[m])
  {
    hide Perform, CanPerform, Requested;
    if e.Reconcile? && e.m == m {
      ActionKeepsSpec(s.cluster, s.nodes[m], StoreOf(s, m), e.action);
    }
  }

  lemma HandlerStaysCalm(s: System, t: System)
    requires !HandlerPanics(s) && t.cluster == s.cluster && t.pending <= s.pending && t.nodes.Keys == s.nodes.Keys
    requires forall m :: m in s.nodes ==> SameSpec(t.nodes[m], s.nodes[m])
    ensures !HandlerPanics(t)
  {
    hide Selection.AllValid;
    forall key | key in t.pending ensures !Panicking(t, Handle(key)) {
      assert key in s.pending;
      assert !Panicking(s, Handle(key));
    }
  }

  lemma DormantStays(strict: bool, s: System, e: Event, t: System, m: Key)
    requires m in s.nodes && GoodEvent(strict, s, e) && Enabled(s, e) && NodeGoesOn(s, e, t, m) && Dormant(s, m)
    requires t.cluster == s.cluster && t.pending <= s.pending
    ensures t.nodes[m] == s.nodes[m] && Dormant(t, m)
  {
    hide Perform, CanPerform, Requested;
    if e.Reconcile? && e.m == m {
      DormantStands(s, m, e.action);
    }
  }

  lemma OnTimeStays(strict: bool, s: System, e: Event, t: System, m: Key)
    requires m in s.nodes && GoodEvent(strict, s, e) && Enabled(s, e) && NodeGoesOn(s, e, t, m)
    requires Sensible(s) && t.cluster == s.cluster && !Late(s.cluster, s.nodes[m], StoreOf(s, m))
    ensures !Late(t.cluster, t.nodes[m], StoreOf(t, m))
  {
    hide Perform, CanPerform, Requested, Right, Good, Ready, PlainKeys;
    if e.Reconcile? && e.m == m {
      StaysOnTime(World(s.cluster, strict), s.nodes[m], StoreOf(s, m), e.action);
    }
  }

  lemma SpecFacts(cluster: Cluster, n: Node, was: Node)
    requires SameSpec(n, was)
    ensures Explosive(cluster, n) ==> Explosive(cluster, was)
    ensures Calm(cluster, was) ==> Calm(cluster, n)
  {
    hide Transforms, Restless;
  }

  lemma StepKeepsSteady(strict: bool, s: System, e: Event)
    requires Steady(s) && GoodEvent(strict, s, e)
    ensures Enabled(s, e) && !Panicking(s, e) && Steady(Apply(s, e))
  {
    hide Apply, Enabled, GoodEvent, Sensible, HandlerPanics, Late, Explosive, Dormant, NodeGoesOn, Panicking, SameSpec;
    StepKeepsSensible(strict, s, e);
    SteadyNeverPanics(strict, s, e);
    SensibleTenants(s);
    GoodEventEffect(strict, s, e);
    var t := Apply(s, e);
    forall m | m in s.nodes
      ensures m in t.nodes && SameSpec(t.nodes[m], s.nodes[m])
      ensures !Late(t.cluster, t.nodes[m], StoreOf(t, m)) && (Explosive(t.cluster, t.nodes[m]) ==> Dormant(t, m))
    {
      NodesKeepSpecs(s, e, t, m);
      OnTimeStays(strict, s, e, t, m);
      SpecFacts(s.cluster, t.nodes[m], s.nodes[m]);
      if Dormant(s, m) {
        DormantStays(strict, s, e, t, m);
      }
    }
    HandlerStaysCalm(s, t);
  }

  lemma SensibleTenants(s: System)
    requires Sensible(s)
    ensures OneTenantEach(s)
  {
  }

  lemma StepKeepsPeaceful(strict: bool, s: System, e: Event)
    requires Peaceful(s) && GoodEvent(strict, s, e)
    ensures Enabled(s, e) && !Panicking(s, e) && Peaceful(Apply(s, e))
  {
    hide Apply, Enabled, GoodEvent, Sensible, HandlerPanics, Late, Explosive, Dormant, NodeGoesOn, Panicking, Calm,
         SameSpec;
    StepKeepsSteady(strict, s, e);
    SensibleTenants(s);
    GoodEventEffect(strict, s, e);
    var t := Apply(s, e);
    forall m | m in s.nodes ensures m in t.nodes && (Calm(t.cluster, t.nodes[m]) || Dormant(t, m)) {
      NodesKeepSpecs(s, e, t, m);
      SpecFacts(s.cluster, t.nodes[m], s.nodes[m]);
      if Dormant(s, m) {
        DormantStays(strict, s, e, t, m);
      }
    }
  }

  // ---------------------------------------------------------------------------------------
  // The rank of a system
  // ---------------------------------------------------------------------------------------

  function Add(a: Rank, b: Rank): Rank {
    Rank(a.late + b.late, a.budget + b.budget, a.phase + b.phase, a.outer + b.outer, a.inner + b.inner)
  }

  ghost function NodeRank(s: System, m: Key): Rank
    requires m in s.nodes
  {
    RankOf(s.cluster, Moment(s.nodes[m], StoreOf(s, m)))
  }

  // Added up component by component: what lowers one lowers the sum.
  ghost function Total(s: System, list: seq<Key>): Rank
    requires forall m :: m in list ==> m in s.nodes
  {
    if list == [] then Rank(0, 0, 0, 0, 0) else Add(NodeRank(s, list[0]), Total(s, list[1..]))
  }

  lemma {:induction false} TotalStays(s: System, t: System, list: seq<Key>)
    requires forall m :: m in list ==> m in s.nodes && m in t.nodes
    requires forall m :: m in list ==> Below(NodeRank(t, m), NodeRank(s, m)) || NodeRank(t, m) == NodeRank(s, m)
    ensures Below(Total(t, list), Total(s, list)) || Total(t, list) == Total(s, list)
  {
    hide NodeRank;
    if list != [] {
      assert list[0] in list;
      TotalStays(s, t, list[1..]);
    }
  }

  lemma {:induction false} TotalDescends(s: System, t: System, list: seq<Key>, m: Key)
    requires forall k :: k in list ==> k in s.nodes && k in t.nodes
    requires forall k :: k in list && k != m ==> NodeRank(t, k) == NodeRank(s, k)
    requires m in list && Below(NodeRank(t, m), NodeRank(s, m))
    ensures Below(Total(t, list), Total(s, list))
  {
    hide NodeRank;
    assert list[0] in list;
    if list[0] == m {
      TotalStays(s, t, list[1..]);
    } else {
      TotalDescends(s, t, list[1..], m);
    }
  }

  // The pending changes first, then the sum of the ranks.
  lemma {:induction false} EventDescends(strict: bool, s: System, e: Event, list: seq<Key>)
    requires Peaceful(s) && GoodEvent(strict, s, e) && Elements(list) == s.nodes.Keys
    requires Enabled(s, e) && Apply(s, e).nodes.Keys == s.nodes.Keys
    ensures |Apply(s, e).pending| < |s.pending|
            || (Apply(s, e).pending == s.pending && Below(Total(Apply(s, e), list), Total(s, list)))
  {
    hide Perform, CanPerform, Late, Calm, Ready, Apply, Good, Total, Below, RankOf, Requested, Valid, PlainKeys;
    SteadyNeverPanics(strict, s, e);
    GoodEventEffect(strict, s, e);
    var t := Apply(s, e);
    if e.Handle? {
      assert s.pending == t.pending + {e.key};
    } else {
      NodeDescends(strict, s, e, t);
      TotalDescends(s, t, list, e.m);
    }
  }

  lemma NodeDescends(strict: bool, s: System, e: Event, t: System)
    requires Peaceful(s) && GoodEvent(strict, s, e) && e.Reconcile? && NodeGoesOn(s, e, t, e.m)
    requires t.cluster == s.cluster
    ensures Below(NodeRank(t, e.m), NodeRank(s, e.m))
  {
    hide Perform, CanPerform, Late, Ready, Good, Below, RankOf, Valid, PlainKeys, Restless;
    if Dormant(s, e.m) {
      DormantStands(s, e.m, e.action);
    }
    var w := World(s.cluster, strict);
    StepDescends(w, Moment(s.nodes[e.m], StoreOf(s, e.m)), e.action, Moment(t.nodes[e.m], StoreOf(t, e.m)));
  }

  lemma NoEndlessRun(strict: bool, s: System, run: nat -> System)
    requires Peaceful(s)
    ensures !RunsForever(strict, s, run)
  {
    hide Peaceful, Follows;
    if RunsForever(strict, s, run) {
      var list := InSomeOrder(s.nodes.Keys);
      ComesToRest(strict, run, 0, list);
    }
  }

  lemma {:induction false} ComesToRest(strict: bool, run: nat -> System, n: nat, list: seq<Key>)
    requires Peaceful(run(n)) && Elements(list) == run(n).nodes.Keys
    requires forall i: nat :: Follows(strict, run(i), run(i + 1))
    ensures false
    decreases |run(n).pending|, Total(run(n), list).late, Total(run(n), list).budget, Total(run(n), list).phase,
              Total(run(n), list).outer, Total(run(n), list).inner
  {
    hide Peaceful, GoodEvent, Total, Apply, Enabled;
    assert Follows(strict, run(n), run(n + 1));
    var e :| Leads(strict, run(n), e, run(n + 1));
    StepKeepsPeaceful(strict, run(n), e);
    SameNodes(run(n), e);
    EventDescends(strict, run(n), e, list);
    ComesToRest(strict, run, n + 1, list);
  }

  lemma SameNodes(s: System, e: Event)
    requires Enabled(s, e)
    ensures Apply(s, e).nodes.Keys == s.nodes.Keys
  {
    hide NodeAfter, Enabled;
  }

  // A system in which nothing can go on without a failing call is quiet.
  lemma StuckIsQuiet(strict: bool, s: System)
    requires Sensible(s)
    ensures Quiet(s) <==> !exists e :: GoodEvent(strict, s, e)
  {
    hide GoodEvent, Sensible;
    if Quiet(s) {
      forall e ensures !GoodEvent(strict, s, e) {
        QuietStands(strict, s, e);
      }
    } else {
      var e := GoesOn(strict, s);
    }
  }

  lemma QuietStands(strict: bool, s: System, e: Event)
    requires Quiet(s)
    ensures !GoodEvent(strict, s, e)
  {
    hide IsFlatList, Good;
  }

  lemma GoesOn(strict: bool, s: System) returns (e: Event)
    requires Sensible(s) && !Quiet(s)
    ensures GoodEvent(strict, s, e)
  {
    hide Ready, Perform, CanPerform, Good, Panicking;
    if key :| key in s.pending {
      e := Handle(key);
    } else {
      var m :| m in s.nodes && !AtRest(s.nodes[m]);
      var action := Progress(World(s.cluster, strict), Moment(s.nodes[m], StoreOf(s, m)));
      e := Reconcile(m, action);
    }
  }

  // ---------------------------------------------------------------------------------------
  // The operator goes on for ever
  // ---------------------------------------------------------------------------------------

  ghost predicate Alike(s: System, m: Key, cluster: Cluster, a: Moment) {
    OneTenantEach(s) && s.cluster == cluster && m in s.nodes && Moment(s.nodes[m], StoreOf(s, m)) == a
  }

  lemma OwnStep(s: System, m: Key, action: Action)
    requires OneTenantEach(s) && m in s.nodes && CanPerform(s.nodes[m], StoreOf(s, m), action)
    ensures var t := Apply(s, Reconcile(m, action));
            && OneTenantEach(t) && t.cluster == s.cluster && m in t.nodes
            && (t.nodes[m], StoreOf(t, m)) == Perform(s.cluster, s.nodes[m], StoreOf(s, m), action)
  {
    hide CanPerform, Panics, OneTenantEach;
    NodeStep(s, Reconcile(m, action), m);
    StepKeepsTenants(s, Reconcile(m, action));
    if action.Prepare? && Panics(s.nodes[m].process) {
      PanicLeavesStore(s.cluster, s.nodes[m], StoreOf(s, m), action);
    }
  }

  lemma PanicLeavesStore(cluster: Cluster, node: Node, store: Store, action: Action)
    requires CanPerform(node, store, action) && action.Prepare? && Panics(node.process)
    ensures Perform(cluster, node, store, action) == (AfterCrash(node), store)
  {
  }

  // A step of a node as a step of the system.
  ghost function LiftStep(w: World, s: System, m: Key, a: Moment, b: Moment): (t: System)
    requires Alike(s, m, w.cluster, a) && Step(w, a, b)
    ensures Alike(t, m, w.cluster, b) && FollowsBy(w.strict, s, m, t)
  {
    hide CanPerform, Perform, Apply, Good, OneTenantEach;
    var action :| StepsBy(w, a, action, b);
    OwnStep(s, m, action);
    assert Leads(w.strict, s, Reconcile(m, action), Apply(s, Reconcile(m, action)));
    Apply(s, Reconcile(m, action))
  }

  lemma StepAt(w: World, start: Moment, schedule: nat -> Moment, n: nat)
    requires GoesOnForever(w, start, schedule)
    ensures Step(w, schedule(n), schedule(n + 1)) && (n == 0 ==> schedule(n) == start)
  {
    hide Step;
  }

  // A schedule of one node as a run of the system in which nothing else happens.
  ghost function Lifted(w: World, s: System, m: Key, start: Moment, schedule: nat -> Moment, n: nat): (t: System)
    requires Alike(s, m, w.cluster, start) && GoesOnForever(w, start, schedule)
    ensures Alike(t, m, w.cluster, schedule(n))
    decreases n
  {
    hide Step, Alike, GoesOnForever;
    StepAt(w, start, schedule, if n == 0 then 0 else n - 1);
    if n == 0 then s
    else LiftStep(w, Lifted(w, s, m, start, schedule, n - 1), m, schedule(n - 1), schedule(n))
  }

  lemma {:induction false} LiftedFollows(w: World, s: System, m: Key, start: Moment, schedule: nat -> Moment, n: nat)
    requires Alike(s, m, w.cluster, start) && GoesOnForever(w, start, schedule)
    ensures FollowsBy(w.strict, Lifted(w, s, m, start, schedule, n), m, Lifted(w, s, m, start, schedule, n + 1))
  {
    hide Step, Alike, FollowsBy, GoesOnForever;
    StepAt(w, start, schedule, n);
    assert Lifted(w, s, m, start, schedule, n + 1)
        == LiftStep(w, Lifted(w, s, m, start, schedule, n), m, schedule(n), schedule(n + 1));
  }

  lemma LiftedForever(w: World, s: System, m: Key, start: Moment, schedule: nat -> Moment)
    returns (run: nat -> System)
    requires Alike(s, m, w.cluster, start) && GoesOnForever(w, start, schedule)
    ensures RunsForever(w.strict, s, run)
    ensures forall n: nat :: Alike(run(n), m, w.cluster, schedule(n)) && FollowsBy(w.strict, run(n), m, run(n + 1))
  {
    hide Leads, GoesOnForever, Alike;
    run := (n: nat) => Lifted(w, s, m, start, schedule, n);
    forall n: nat
      ensures Alike(run(n), m, w.cluster, schedule(n))
      ensures FollowsBy(w.strict, run(n), m, run(n + 1)) && Follows(w.strict, run(n), run(n + 1))
    {
      LiftedFollows(w, s, m, start, schedule, n);
    }
  }

  // The handler panicking over the same change again and again.
  ghost function HandledAgain(s: System, key: Key, n: nat): (t: System)
    requires OneTenantEach(s) && key in s.pending && Panicking(s, Handle(key))
    ensures key in t.pending && Panicking(t, Handle(key)) && OneTenantEach(t)
  {
    if n == 0 then s
    else
      var before := HandledAgain(s, key, n - 1);
      HandlerPanicsAgain(before, key);
      Apply(before, Handle(key))
  }

  lemma HandlerPanicsAgain(s: System, key: Key)
    requires OneTenantEach(s) && key in s.pending && Panicking(s, Handle(key))
    ensures var t := Apply(s, Handle(key)); key in t.pending && Panicking(t, Handle(key)) && OneTenantEach(t)
  {
    hide Selection.AllValid, OneTenantEach;
    StepKeepsTenants(s, Handle(key));
    var m :| m in s.nodes && !SelectorsValid(s.nodes[m]);
    PanicTakesAll(s, Handle(key), m);
    assert !SelectorsValid(Apply(s, Handle(key)).nodes[m]);
  }

  lemma HandledNext(s: System, key: Key, n: nat)
    requires OneTenantEach(s) && key in s.pending && Panicking(s, Handle(key))
    ensures HandledAgain(s, key, n + 1) == Apply(HandledAgain(s, key, n), Handle(key))
  {
    hide Apply, Panicking;
  }

  lemma HandlerForever(strict: bool, s: System, key: Key) returns (run: nat -> System)
    requires OneTenantEach(s) && key in s.pending && Panicking(s, Handle(key))
    ensures RunsForever(strict, s, run)
    ensures forall n: nat :: Leads(strict, run(n), Handle(key), run(n + 1)) && Panicking(run(n), Handle(key))
  {
    hide Apply, Panicking;
    run := (n: nat) => HandledAgain(s, key, n);
    forall n: nat ensures Leads(strict, run(n), Handle(key), run(n + 1)) && Panicking(run(n), Handle(key)) {
      HandledNext(s, key, n);
    }
    assert forall n: nat :: Leads(strict, run(n), Handle(key), run(n + 1)) ==> Follows(strict, run(n), run(n + 1));
  }

  // One step before a run.
  lemma Before(strict: bool, s: System, t: System, run: nat -> System) returns (longer: nat -> System)
    requires Follows(strict, s, t) && RunsForever(strict, t, run)
    ensures RunsForever(strict, s, longer) && forall n: nat :: longer(n + 1) == run(n)
  {
    hide Leads, Follows;
    longer := (n: nat) => if n == 0 then s else run(n - 1);
    forall n: nat ensures Follows(strict, longer(n), longer(n + 1)) {
      if n > 0 {
        assert Follows(strict, run(n - 1), run(n - 1 + 1));
      }
    }
  }

  // ---------------------------------------------------------------------------------------
  // Exactly when
  // ---------------------------------------------------------------------------------------

  // Some object whose attempts do not come out in one way is in the queue or will be.
  ghost predicate TroubleDue(s: System) {
    exists m :: m in s.nodes && Troubled(s.cluster, s.nodes[m]) && Due(s, m)
  }

  ghost predicate ExplosionDue(s: System) {
    exists m :: m in s.nodes && Explosive(s.cluster, s.nodes[m]) && Due(s, m)
  }

  lemma SteadyAtRest(s: System)
    requires Sensible(s) && Resting(s) && !HandlerPanics(s) && !ExplosionDue(s)
    ensures Steady(s)
  {
    hide Sensible, HandlerPanics, Late, Explosive, Due;
    forall m | m in s.nodes
      ensures !Late(s.cluster, s.nodes[m], StoreOf(s, m)) && (Explosive(s.cluster, s.nodes[m]) ==> Dormant(s, m))
    {
      IdleOnTime(s.cluster, s.nodes[m], StoreOf(s, m));
    }
  }

  lemma ExplosiveIsTroubled(cluster: Cluster, node: Node)
    requires Explosive(cluster, node)
    ensures Troubled(cluster, node)
  {
    hide Transforms;
  }

  lemma PeacefulAtRest(s: System)
    requires Sensible(s) && Resting(s) && !HandlerPanics(s) && !TroubleDue(s)
    ensures Peaceful(s)
  {
    hide Sensible, HandlerPanics, Explosive, Due, Restless, Steady;
    forall m | m in s.nodes && Explosive(s.cluster, s.nodes[m]) ensures Troubled(s.cluster, s.nodes[m]) {
      ExplosiveIsTroubled(s.cluster, s.nodes[m]);
    }
    SteadyAtRest(s);
  }

  // The queue is no obstacle: a change that concerns the object puts it there.
  lemma QueuedSoon(strict: bool, s: System, m: Key) returns (t: System)
    requires Sensible(s) && Resting(s) && !HandlerPanics(s) && m in s.nodes && Due(s, m)
    ensures t == s || Follows(strict, s, t)
    ensures Sensible(t) && t.cluster == s.cluster && m in t.nodes && t.nodes[m] == s.nodes[m].(dirty := true)
  {
    hide Panicking, Requested, AllReady;
    if s.nodes[m].dirty {
      return s;
    }
    var key :| key in s.pending && Requested(s.cluster, s.nodes[m].stored, key);
    t := Apply(s, Handle(key));
    SensibleTenants(s);
    assert GoodEvent(strict, s, Handle(key)) && !Panicking(s, Handle(key));
    StepKeepsSensible(strict, s, Handle(key));
    NodeStep(s, Handle(key), m);
    assert Leads(strict, s, Handle(key), t);
  }

  ghost predicate Passes(run: nat -> System, n: nat, s: System, t: System) {
    exists k: nat :: k >= n && run(k) == s && run(k + 1) == t
  }

  lemma StartFrom(strict: bool, s: System, t: System, run: nat -> System) returns (longer: nat -> System)
    requires t == s || Follows(strict, s, t)
    requires RunsForever(strict, t, run)
    ensures RunsForever(strict, s, longer)
    ensures forall n: nat :: Passes(longer, n, run(n), run(n + 1))
  {
    hide Leads, Follows;
    if t == s {
      longer := run;
    } else {
      longer := Before(strict, s, t, run);
      forall n: nat ensures Passes(longer, n, run(n), run(n + 1)) {
        assert longer(n + 1) == run(n) && longer(n + 1 + 1) == run(n + 1);
      }
    }
  }

  // An object that is due and troubled keeps the operator busy; if its attempts panic, there is
  // always another panic to come.
  lemma TroubleGoesOn(strict: bool, s: System, m: Key) returns (run: nat -> System)
    requires Sensible(s) && Resting(s) && !HandlerPanics(s) && m in s.nodes && Due(s, m)
    requires Troubled(s.cluster, s.nodes[m])
    ensures RunsForever(strict, s, run)
    ensures Explosive(s.cluster, s.nodes[m]) ==> PanicsForever(strict, run)
  {
    hide Due, HandlerPanics, Restless, Transforms, GoesOnForever, RunsForever, Follows, FollowsBy, PanicsForever,
         PanicsLater, Alike;
    var t := QueuedSoon(strict, s, m);
    var w, start := World(s.cluster, strict), Moment(t.nodes[m], StoreOf(t, m));
    var schedule := StartUp(w, t, m, start);
    var tail := LiftedForever(w, t, m, start, schedule);
    run := StartFrom(strict, s, t, tail);
    if Explosive(s.cluster, s.nodes[m]) {
      PanicsGoOn(w, m, schedule, tail, run);
    }
  }

  lemma StartUp(w: World, t: System, m: Key, start: Moment) returns (schedule: nat -> Moment)
    requires Sensible(t) && t.cluster == w.cluster && m in t.nodes && start == Moment(t.nodes[m], StoreOf(t, m))
    requires t.nodes[m].dirty && t.nodes[m].process.phase.Idle? && Troubled(t.cluster, t.nodes[m])
    ensures Alike(t, m, w.cluster, start) && GoesOnForever(w, start, schedule)
    ensures !Transforms(w.cluster, t.nodes[m].stored.value.spec) ==> forall n: nat :: PanicsLater(schedule, n)
  {
    hide Ready, Restless, Transforms, GoesOnForever, PanicsLater;
    schedule := Forever(w, start);
  }

  ghost predicate PanicStep(strict: bool, s: System, t: System) {
    exists e :: Leads(strict, s, e, t) && Panicking(s, e)
  }

  ghost predicate PanicsFrom(strict: bool, run: nat -> System, n: nat) {
    exists k: nat :: k >= n && PanicStep(strict, run(k), run(k + 1))
  }

  ghost predicate PanicsForever(strict: bool, run: nat -> System) { forall n: nat :: PanicsFrom(strict, run, n) }

  lemma PanicsGoOn(w: World, m: Key, schedule: nat -> Moment, tail: nat -> System, run: nat -> System)
    requires forall n: nat :: PanicsLater(schedule, n)
    requires forall n: nat ::
               Alike(tail(n), m, w.cluster, schedule(n)) && FollowsBy(w.strict, tail(n), m, tail(n + 1))
    requires forall n: nat :: Passes(run, n, tail(n), tail(n + 1))
    ensures PanicsForever(w.strict, run)
  {
    hide Panics, Alike, FollowsBy, PanicStep;
    forall n: nat ensures PanicsFrom(w.strict, run, n) {
      assert PanicsLater(schedule, n);
      var k: nat :| k >= n && Panics(schedule(k).node.process);
      PanicsThere(w, m, schedule(k), tail(k), tail(k + 1));
      assert Passes(run, k, tail(k), tail(k + 1));
    }
  }

  lemma PanicsThere(w: World, m: Key, a: Moment, s: System, t: System)
    requires Alike(s, m, w.cluster, a) && FollowsBy(w.strict, s, m, t) && Panics(a.node.process)
    ensures PanicStep(w.strict, s, t)
  {
    hide OneTenantEach, Apply, Good;
    var action :| Leads(w.strict, s, Reconcile(m, action), t);
    OnlyPanic(s.nodes[m], StoreOf(s, m), action);
  }

  lemma OnlyPanic(node: Node, store: Store, action: Action)
    requires CanPerform(node, store, action) && Panics(node.process)
    ensures action.Prepare?
  {
  }

  lemma HandlerGoesOn(strict: bool, s: System) returns (run: nat -> System)
    requires Sensible(s) && HandlerPanics(s)
    ensures RunsForever(strict, s, run) && PanicsForever(strict, run)
  {
    hide Panicking, Leads;
    var key :| key in s.pending && Panicking(s, Handle(key));
    SensibleTenants(s);
    run := HandlerForever(strict, s, key);
    forall n: nat ensures PanicsFrom(strict, run, n) {
      assert PanicStep(strict, run(n), run(n + 1));
    }
  }

  // From a system with no reconciliation under way, the operator can go on for ever without a
  // failing call and without a change from outside exactly if the handler is to panic over a
  // pending change, or a MimirRules is queued, or to be queued for a pending change, whose
  // attempts panic or do not all fail alike.
  lemma BusyForever(strict: bool, s: System)
    requires Sensible(s) && Resting(s)
    ensures (exists run :: RunsForever(strict, s, run)) <==> HandlerPanics(s) || TroubleDue(s)
  {
    hide Sensible, HandlerPanics, RunsForever, Troubled, Due, Explosive, PanicsForever;
    if HandlerPanics(s) {
      var run := HandlerGoesOn(strict, s);
    } else if m :| m in s.nodes && Troubled(s.cluster, s.nodes[m]) && Due(s, m) {
      var run := TroubleGoesOn(strict, s, m);
    } else {
      PeacefulAtRest(s);
      forall run ensures !RunsForever(strict, s, run) {
        NoEndlessRun(strict, s, run);
      }
    }
  }

  lemma {:induction false} StaysSteady(strict: bool, s: System, run: nat -> System, n: nat)
    requires Steady(s) && RunsForever(strict, s, run)
    ensures Steady(run(n))
  {
    hide Steady, GoodEvent, Apply;
    if n > 0 {
      StaysSteady(strict, s, run, n - 1);
      assert Follows(strict, run(n - 1), run(n - 1 + 1));
      var e :| Leads(strict, run(n - 1), e, run(n - 1 + 1));
      StepKeepsSteady(strict, run(n - 1), e);
    }
  }

  lemma SteadyRunNeverPanics(strict: bool, s: System, run: nat -> System)
    requires Steady(s) && RunsForever(strict, s, run)
    ensures !PanicsForever(strict, run)
  {
    hide Steady, GoodEvent, Apply, RunsForever, Panicking;
    if PanicsForever(strict, run) {
      assert PanicsFrom(strict, run, 0);
      var k: nat :| k >= 0 && PanicStep(strict, run(k), run(k + 1));
      var e :| Leads(strict, run(k), e, run(k + 1)) && Panicking(run(k), e);
      StaysSteady(strict, s, run, k);
      SteadyNeverPanics(strict, run(k), e);
    }
  }

  // It can panic, and so restart every reconciliation, again and again for ever exactly if the
  // handler is to panic, or a MimirRules is due whose attempts do.
  lemma RestartedForever(strict: bool, s: System)
    requires Sensible(s) && Resting(s)
    ensures (exists run :: RunsForever(strict, s, run) && PanicsForever(strict, run)) <==>
              HandlerPanics(s) || ExplosionDue(s)
  {
    hide Sensible, HandlerPanics, RunsForever, Troubled, Due, Explosive, PanicsForever, Steady;
    if HandlerPanics(s) {
      var run := HandlerGoesOn(strict, s);
    } else if m :| m in s.nodes && Explosive(s.cluster, s.nodes[m]) && Due(s, m) {
      ExplosiveIsTroubled(s.cluster, s.nodes[m]);
      var run := TroubleGoesOn(strict, s, m);
    } else {
      SteadyAtRest(s);
      forall run | RunsForever(strict, s, run) ensures !PanicsForever(strict, run) {
        SteadyRunNeverPanics(strict, s, run);
      }
    }
  }

  // Every object queued, every rule to be handled.
  predicate JustStarted(s: System) {
    s.pending == s.cluster.Keys && forall m :: m in s.nodes ==> s.nodes[m] == AfterCrash(s.nodes[m])
  }

  // After a start of the operator, in any state that a run can lead to, that is: if some stored
  // object not being deleted has attempts that panic or do not all fail alike, or if some stored
  // selector is invalid while there is a rule.
  lemma {:induction false} StartedForever(strict: bool, s: System, events: seq<Event>)
    requires Initial(s) && NoForeign(events) && Run(s, events).Some? && JustStarted(Run(s, events).value)
    ensures var t := Run(s, events).value;
            (exists run :: RunsForever(strict, t, run)) <==>
              || (exists m :: m in t.nodes && Troubled(t.cluster, t.nodes[m]))
              || (t.cluster != map[] && exists m :: m in t.nodes && !SelectorsValid(t.nodes[m]))
  {
    hide Run, Initial, AllReady, AllTracked, RunsForever, Troubled, SelectorsValid, LostKeys;
    var t := Run(s, events).value;
    InitiallyReady(s);
    RunsKeepReady(s, events);
    InitiallyTracked(s);
    RunsKeepTracked(s, events);
    TrackedPlain(t, LostKeys(s, events));
    BusyForever(strict, t);
    StartedHandlerPanics(t);
    StartedAllDue(t);
  }

  lemma TrackedPlain(s: System, lost: set<Key>)
    requires AllTracked(s, lost)
    ensures PlainKeys(s.cluster.Keys)
  {
  }

  lemma StartedHandlerPanics(s: System)
    requires s.pending == s.cluster.Keys
    ensures HandlerPanics(s) <==> s.cluster != map[] && exists m :: m in s.nodes && !SelectorsValid(s.nodes[m])
  {
    hide SelectorsValid;
    if s.cluster != map[] && exists m :: m in s.nodes && !SelectorsValid(s.nodes[m]) {
      var key :| key in s.cluster;
      assert Panicking(s, Handle(key));
    }
  }

  lemma StartedAllDue(s: System)
    requires JustStarted(s)
    ensures TroubleDue(s) <==> exists m :: m in s.nodes && Troubled(s.cluster, s.nodes[m])
  {
    hide Restless;
  }
}
