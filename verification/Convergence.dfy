// Once users stop and calls stop failing, a MimirRules whose attempts come out one way comes to
// rest under every schedule, and at rest its tenant holds what it selects.
module Convergence {
  import opened Ordering
  import opened Selection
  import opened RemoteRuler
  import opened RuleSync
  import opened Teardown
  import opened Operator
  import opened Finalizers
  import opened Agreement
  import opened Readiness
  import opened Outcomes

  // A cluster that does not change, and whether Mimir answers the deletion of an absent
  // namespace with 404.
  datatype World = World(cluster: Cluster, strict: bool)

  predicate GoodSave(node: Node, answer: Answer) { answer.Ok? || (answer.Refused? && !Unchanged(node)) }

  // A step without a failing call. An update is refused if the object has changed meanwhile, and
  // a strict remote refuses to delete what is not there: these are not failures.
  predicate Good(strict: bool, node: Node, store: Store, action: Action) {
    match action
    case Get(a) => a.Ok?
    case Connect(a) => a.Ok?
    case SaveFinalizer(a) => GoodSave(node, a)
    case ListForRemoval(a, _) => a.Ok?
    case RemoveNext(a) => node.process.phase.Removing? && GoodDeletion(strict, node.process.phase.rest, store, a)
    case SaveRemoval(a) => GoodSave(node, a)
    case SaveStatus(a) => GoodSave(node, a)
    case _ => GoodSync(strict, node.process, store, action)
  }

  // ---------------------------------------------------------------------------------------
  // Progress through the phases
  // ---------------------------------------------------------------------------------------

  function PhaseRank(p: Process): (nat, nat, nat) {
    match p.phase
    case Idle => (0, 0, 0)
    case Reporting(_) => (1, 0, 0)
    case Deleting(rest) => (2, |rest|, 0)
    case Listing => (3, 0, 0)
    case Posting(todo, current) => (4, |todo|, if current.Some? then |current.value.1| + 1 else 0)
    case Reading(next, _) =>
      (5, if p.copy.Some? && next <= |p.copy.value.spec.selectors| then |p.copy.value.spec.selectors| - next else 0, 0)
    case AddingFinalizer => (6, 0, 0)
    case DroppingFinalizer => (2, 0, 0)
    case Removing(rest) => (3, |rest|, 0)
    case ListingAll => (4, 0, 0)
    case Got => (7, 0, 0)
    case Popped => (8, 0, 0)
  }

  predicate Earlier(a: (nat, nat, nat), b: (nat, nat, nat)) {
    a.0 < b.0 || (a.0 == b.0 && a.1 < b.1) || (a.0 == b.0 && a.1 == b.1 && a.2 < b.2)
  }

  // Every action but taking up a key from the queue moves a reconciliation towards its end.
  lemma EveryActionAdvances(cluster: Cluster, node: Node, store: Store, action: Action)
    requires CanPerform(node, store, action) && !action.Pop?
    ensures Earlier(PhaseRank(Perform(cluster, node, store, action).0.process), PhaseRank(node.process))
  {
    hide CanSynchronise, Synchronise, Earlier, PhaseRank, Panics;
    if action.Prepare? && Panics(node.process) {
      PanicEnds(cluster, node, store);
    } else if action.PickNamespace? {
      PickAdvances(cluster, node.process, store, action.key);
    } else if IsSync(action) {
      SyncAdvances(cluster, node.process, store, action);
    } else if action.SaveFinalizer? || action.SaveStatus? || action.SaveRemoval? {
      SaveAdvances(cluster, node, store, action);
    } else {
      EdgeAdvances(cluster, node, store, action);
    }
  }

  lemma PanicEnds(cluster: Cluster, node: Node, store: Store)
    requires Panics(node.process)
    ensures var (n, t) := Perform(cluster, node, store, Prepare);
            n.process == IDLE && t == store && Earlier(PhaseRank(n.process), PhaseRank(node.process))
  {
  }

  lemma PickAdvances(cluster: Cluster, p: Process, store: Store, key: Key)
    requires CanSynchronise(p, store, PickNamespace(key))
    ensures Earlier(PhaseRank(Synchronise(cluster, p, store, PickNamespace(key)).0), PhaseRank(p))
  {
    hide KeyText, Decode;
    var todo := p.phase.todo;
    assert todo == (todo - {key}) + {key};
  }

  lemma SyncAdvances(cluster: Cluster, p: Process, store: Store, action: Action)
    requires CanSynchronise(p, store, action) && !action.PickNamespace?
    ensures Earlier(PhaseRank(Synchronise(cluster, p, store, action).0), PhaseRank(p))
  {
    hide TextOf, ReadMore, PostTo, Drop, Sort, KeyText, KeyTexts, Decode, Ascending, Elements, Applies;
  }

  lemma SaveAdvances(cluster: Cluster, node: Node, store: Store, action: Action)
    requires CanPerform(node, store, action) && (action.SaveFinalizer? || action.SaveStatus? || action.SaveRemoval?)
    ensures Earlier(PhaseRank(Perform(cluster, node, store, action).0.process), PhaseRank(node.process))
  {
    hide Synchronise, CanSynchronise;
  }

  lemma EdgeAdvances(cluster: Cluster, node: Node, store: Store, action: Action)
    requires CanPerform(node, store, action) && !IsSync(action) && !action.Pop?
    requires !action.SaveFinalizer? && !action.SaveStatus? && !action.SaveRemoval?
    ensures Earlier(PhaseRank(Perform(cluster, node, store, action).0.process), PhaseRank(node.process))
  {
    hide IsFlatList, Synchronise, CanSynchronise, Drop;
  }

  // ---------------------------------------------------------------------------------------
  // Removing a tenant
  // ---------------------------------------------------------------------------------------

  // The namespaces that still make an attempt at removal fail on a strict remote.
  ghost function Obstacles(p: Process, store: Store): nat {
    |Crowded(store)| + if p.phase.Removing? && p.phase.rest != [] && p.phase.rest[0] !in store then 1 else 0
  }

  lemma CountedAtFirst(elements: seq<string>, store: Store)
    requires IsFlatList(elements, store) && Valid(store)
    ensures Counted(elements, store) && (elements != [] ==> elements[0] in store)
  {
    var keys :| Ascending(keys) && Elements(keys) == store.Keys && elements == PerGroup(keys, store);
    PerGroupFacts(keys, store);
    forall ns | ns in store ensures multiset(elements)[ns] == |store[ns]| {
      PerGroupCounts(keys, store, ns);
    }
    forall i | 0 <= i < |elements| ensures elements[i] in store {
      assert elements[i] in Elements(elements);
    }
  }

  lemma TailCount(rest: seq<string>, ns: string)
    requires rest != []
    ensures multiset(rest[1..])[ns] == multiset(rest)[ns] - if ns == rest[0] then 1 else 0
  {
    assert rest == [rest[0]] + rest[1..];
  }

  // Names equal to the first come first.
  lemma EqualFirst(rest: seq<string>, i: nat)
    requires Sorted(rest) && 1 <= i < |rest| && rest[i] == rest[0]
    ensures rest[1] == rest[0]
  {
    LessIsTotal(rest[0], rest[1]);
  }

  lemma CountsAfter(rest: seq<string>, store: Store)
    requires rest != [] && forall ns :: ns in store ==> multiset(rest)[ns] == |store[ns]|
    ensures forall ns :: ns in Drop(store, rest[0]) ==> multiset(rest[1..])[ns] == |Drop(store, rest[0])[ns]|
  {
    forall ns | ns in Drop(store, rest[0]) ensures multiset(rest[1..])[ns] == |store[ns]| {
      TailCount(rest, ns);
    }
  }

  lemma AbsentAt(rest: seq<string>, store: Store, i: nat)
    requires Sorted(rest) && Counted(rest, store) && 1 <= i < |rest| && rest[i] !in Drop(store, rest[0])
    ensures rest[i] == rest[1] == rest[0]
  {
    hide Sorted;
    EqualFirst(rest, i);
  }

  lemma AbsentAfter(rest: seq<string>, store: Store)
    requires Sorted(rest) && rest != [] && Counted(rest, store)
    ensures forall i ::
              0 <= i < |rest[1..]| && rest[1..][i] !in Drop(store, rest[0]) ==> rest[1..][i] == rest[1..][0] == rest[0]
  {
    hide Sorted, Counted, Drop;
    forall i | 0 <= i < |rest[1..]| && rest[1..][i] !in Drop(store, rest[0])
      ensures rest[1..][i] == rest[1..][0] == rest[0]
    {
      AbsentAt(rest, store, i + 1);
    }
  }

  // Deleting the next namespace: more of it is left in the list exactly if it had more groups.
  lemma CountedDrop(rest: seq<string>, store: Store)
    requires Sorted(rest) && rest != [] && Counted(rest, store) && rest[0] in store
    ensures Counted(rest[1..], Drop(store, rest[0]))
    ensures rest[1..] != [] && rest[1..][0] !in Drop(store, rest[0]) <==> |store[rest[0]]| >= 2
  {
    hide Sorted;
    CountsAfter(rest, store);
    AbsentAfter(rest, store);
    TailCount(rest, rest[0]);
    if |store[rest[0]]| >= 2 {
      assert rest[0] in multiset(rest[1..]);
      var i :| 0 <= i < |rest[1..]| && rest[1..][i] == rest[0];
      assert rest[1..][i] !in Drop(store, rest[0]);
    }
  }

  // An absent namespace deleted once more on a lenient remote.
  lemma CountedSkip(rest: seq<string>, store: Store)
    requires Sorted(rest) && rest != [] && Counted(rest, store) && rest[0] !in store
    ensures Counted(rest[1..], store) && Drop(store, rest[0]) == store
  {
    hide Sorted;
    CountsAfter(rest, store);
    AbsentAfter(rest, store);
  }

  lemma FewerCrowded(store: Store, ns: string)
    requires ns in store
    ensures |Crowded(Drop(store, ns))| == |Crowded(store)| - if |store[ns]| >= 2 then 1 else 0
  {
    assert Crowded(Drop(store, ns)) == Crowded(store) - {ns};
  }

  // A deletion that goes through leaves as many obstacles to come.
  lemma DeletionKeepsObstacles(p: Process, q: Process, store: Store)
    requires p.phase.Removing? && p.phase.rest != [] && p.phase.rest[0] in store
    requires Sorted(p.phase.rest) && Counted(p.phase.rest, store) && q == p.(phase := Removing(p.phase.rest[1..]))
    ensures Obstacles(q, Drop(store, p.phase.rest[0])) == Obstacles(p, store)
  {
    hide Sorted, Counted, Crowded;
    CountedDrop(p.phase.rest, store);
    FewerCrowded(store, p.phase.rest[0]);
  }

  // ---------------------------------------------------------------------------------------
  // Attempts that are up to date stay so
  // ---------------------------------------------------------------------------------------

  // A reconciliation under way that has read what has changed since.
  ghost predicate Late(cluster: Cluster, node: Node, store: Store) {
    InFlight(node) && !(Unchanged(node) && node.process.copy.Some? && Right(cluster, node.process, store))
  }

  // The attempts of the object come out one way. Removing it does not depend on what it selects.
  ghost predicate Calm(cluster: Cluster, node: Node) {
    node.stored.Some? && !node.stored.value.deleting ==> !Restless(cluster, node.stored.value.spec)
  }

  // One that is up to date panics only if attempts always do.
  lemma WhyPanics(cluster: Cluster, node: Node, store: Store)
    requires Ready(node, store) && !Late(cluster, node, store) && Panics(node.process)
    ensures node.stored.Some? && !node.stored.value.deleting && Selection.AllValid(node.stored.value.spec.selectors)
    ensures !Transforms(cluster, node.stored.value.spec)
  {
    hide TextOf, Decode, AllMarked, FirstFault, Selected;
    var spec := node.process.copy.value.spec;
    assert spec.selectors[..|spec.selectors|] == spec.selectors;
  }

  lemma CalmNeverPanics(cluster: Cluster, node: Node, store: Store)
    requires Ready(node, store) && Calm(cluster, node) && !Late(cluster, node, store)
    ensures !Panics(node.process)
  {
    hide Ready, Late, Panics, Transforms;
    if Panics(node.process) {
      WhyPanics(cluster, node, store);
    }
  }

  lemma SyncStaysOnTime(w: World, node: Node, store: Store, action: Action)
    requires Ready(node, store) && PlainKeys(w.cluster.Keys) && !Late(w.cluster, node, store)
    requires CanPerform(node, store, action) && Good(w.strict, node, store, action) && IsSync(action)
    requires !(action.Prepare? && Panics(node.process))
    ensures var (n, t) := Perform(w.cluster, node, store, action);
            !Late(w.cluster, n, t) && InFlight(n) && n.stored == node.stored && !node.stored.value.deleting
  {
    hide Right, Positioned, CanSynchronise, Synchronise, Panics, AllMarked, GoodSync;
    Syncing(node.process, store, action);
    SyncKeepsPosition(w.cluster, node.process, store, action);
    SyncStaysRight(w.cluster, w.strict, node.process, store, action);
  }

  lemma RemovalStaysOnTime(w: World, node: Node, store: Store, action: Action)
    requires Ready(node, store) && Valid(store) && !Late(w.cluster, node, store)
    requires CanPerform(node, store, action) && Good(w.strict, node, store, action)
    requires action.ListForRemoval? || action.RemoveNext? || action.EndRemoval?
    ensures var (n, t) := Perform(w.cluster, node, store, action); !Late(w.cluster, n, t) && InFlight(n)
  {
    hide Sorted, Elements, Counted, Valid, IsFlatList, AllMarked, Above, Synchronise, CanSynchronise;
    match action {
      case ListForRemoval(_, elements) => CountedAtFirst(elements, store);
      case RemoveNext(_) =>
        var rest := node.process.phase.rest;
        if rest[0] in store {
          CountedDrop(rest, store);
        } else {
          CountedSkip(rest, store);
        }
      case EndRemoval =>
        EmptyElements();
    }
  }

  lemma StartStaysOnTime(w: World, node: Node, store: Store, action: Action)
    requires Ready(node, store) && !Late(w.cluster, node, store)
    requires CanPerform(node, store, action) && Good(w.strict, node, store, action)
    requires action.Pop? || action.Get? || action.Connect? || action.SaveFinalizer?
    ensures var (n, t) := Perform(w.cluster, node, store, action); !Late(w.cluster, n, t) && t == store
  {
    hide Positioned, AllMarked, Synchronise, CanSynchronise, SelectedMap, IsOutcome, Finished, NamesSoFar, AreTexts,
         Counted;
    if action.Connect? || action.SaveFinalizer? {
      var selectors := node.process.copy.value.spec.selectors;
      NothingSelected(w.cluster, selectors);
      if node.stored.Some? {
        NothingSelected(w.cluster, node.stored.value.spec.selectors);
      }
    }
  }

  lemma SaveStaysOnTime(w: World, node: Node, store: Store, action: Action)
    requires CanPerform(node, store, action) && (action.SaveStatus? || action.SaveRemoval?)
    requires Good(w.strict, node, store, action)
    ensures var (n, t) := Perform(w.cluster, node, store, action); !Late(w.cluster, n, t) && t == store
  {
    hide Right, Synchronise, CanSynchronise;
  }

  lemma IdleOnTime(cluster: Cluster, node: Node, store: Store)
    requires node.process.phase.Idle?
    ensures !Late(cluster, node, store)
  {
  }

  lemma StaysOnTime(w: World, node: Node, store: Store, action: Action)
    requires Ready(node, store) && Valid(store) && PlainKeys(w.cluster.Keys) && !Late(w.cluster, node, store)
    requires CanPerform(node, store, action) && Good(w.strict, node, store, action)
    ensures var (n, t) := Perform(w.cluster, node, store, action); !Late(w.cluster, n, t)
  {
    hide Ready, Valid, PlainKeys, Late, CanPerform, Perform, Good, Panics;
    if action.Prepare? && Panics(node.process) {
      PanicEnds(w.cluster, node, store);
      IdleOnTime(w.cluster, Perform(w.cluster, node, store, action).0, store);
    } else if IsSync(action) {
      SyncStaysOnTime(w, node, store, action);
    } else if action.ListForRemoval? || action.RemoveNext? || action.EndRemoval? {
      RemovalStaysOnTime(w, node, store, action);
    } else if action.SaveStatus? || action.SaveRemoval? {
      SaveStaysOnTime(w, node, store, action);
    } else {
      StartStaysOnTime(w, node, store, action);
    }
  }

  // ---------------------------------------------------------------------------------------
  // How often the key can still be queued
  // ---------------------------------------------------------------------------------------

  // The changes of the object still to come: of an object being deleted, its status once for
  // each obstacle and its disappearance; of another, the finalizer and the status.
  ghost function Owed(cluster: Cluster, node: Node, store: Store): nat {
    if node.stored.None? then 0
    else
      var mr := node.stored.value;
      if mr.deleting then 1 + Obstacles(node.process, store) + (if node.process.phase.Reporting? then 1 else 0)
      else
        (if mr.finalizer then 0 else 1)
        + if IsOutcome(cluster, mr.spec, mr.status.refRules, mr.status) then 0 else 1
  }

  ghost function Budget(cluster: Cluster, node: Node, store: Store): nat {
    (if node.dirty then 1 else 0) + Owed(cluster, node, store)
  }

  lemma SyncKeepsBudget(w: World, node: Node, store: Store, action: Action)
    requires Ready(node, store) && PlainKeys(w.cluster.Keys) && Calm(w.cluster, node) && !Late(w.cluster, node, store)
    requires CanPerform(node, store, action) && Good(w.strict, node, store, action) && IsSync(action)
    ensures var (n, t) := Perform(w.cluster, node, store, action);
            Budget(w.cluster, n, t) <= Budget(w.cluster, node, store)
  {
    hide Ready, Late, Restless, Right, Good, IsOutcome, Obstacles, CanSynchronise, Synchronise, Panics;
    CalmNeverPanics(w.cluster, node, store);
    SyncStaysOnTime(w, node, store, action);
    assert node.stored.Some? by {
      Syncing(node.process, store, action);
      OnTimeFacts(w.cluster, node, store);
    }
  }

  lemma OnTimeFacts(cluster: Cluster, node: Node, store: Store)
    requires Ready(node, store) && InFlight(node) && !Late(cluster, node, store)
    ensures node.stored.Some? && node.stored == node.process.copy && Right(cluster, node.process, store)
    ensures Positioned(node.process, store)
  {
  }

  lemma RemovalKeepsBudget(w: World, node: Node, store: Store, action: Action)
    requires Ready(node, store) && Valid(store) && !Late(w.cluster, node, store)
    requires CanPerform(node, store, action) && Good(w.strict, node, store, action)
    requires action.ListForRemoval? || action.RemoveNext? || action.EndRemoval?
    ensures var (n, t) := Perform(w.cluster, node, store, action);
            && Budget(w.cluster, n, t) <= Budget(w.cluster, node, store)
            && (w.strict ==>
                  Obstacles(n.process, t) + (if n.process.phase.Reporting? then 1 else 0)
                  == Obstacles(node.process, store))
  {
    hide Sorted, Elements, Counted, Crowded, Valid, IsFlatList, AllMarked, Above, Synchronise, CanSynchronise,
         IsOutcome;
    OnTimeFacts(w.cluster, node, store);
    match action {
      case ListForRemoval(_, elements) => CountedAtFirst(elements, store);
      case RemoveNext(_) =>
        var rest := node.process.phase.rest;
        if rest[0] in store {
          DeletionKeepsObstacles(node.process, node.process.(phase := Removing(rest[1..])), store);
        } else {
          CountedSkip(rest, store);
        }
      case EndRemoval =>
    }
  }

  lemma SaveKeepsBudget(w: World, node: Node, store: Store, action: Action)
    requires Ready(node, store) && Calm(w.cluster, node) && !Late(w.cluster, node, store)
    requires CanPerform(node, store, action) && Good(w.strict, node, store, action)
    requires action.SaveStatus? || action.SaveRemoval? || action.SaveFinalizer?
    ensures var (n, t) := Perform(w.cluster, node, store, action);
            Budget(w.cluster, n, t) <= Budget(w.cluster, node, store)
  {
    hide IsOutcome, Crowded, AllMarked, Above, Synchronise, CanSynchronise, Restless, SelectedMap;
    OnTimeFacts(w.cluster, node, store);
    if action.SaveStatus? && action.answer.Ok? && !node.stored.value.deleting {
      var spec, was, now := node.stored.value.spec, node.stored.value.status, node.process.phase.status;
      OutcomeStays(w.cluster, spec, was.refRules, now);
      if IsOutcome(w.cluster, spec, was.refRules, was) {
        OutcomeUnique(w.cluster, spec, was, now);
      }
    }
  }

  lemma StartKeepsBudget(w: World, node: Node, store: Store, action: Action)
    requires CanPerform(node, store, action) && Good(w.strict, node, store, action)
    requires action.Pop? || action.Get? || action.Connect?
    ensures var (n, t) := Perform(w.cluster, node, store, action);
            && Budget(w.cluster, n, t) <= Budget(w.cluster, node, store)
            && (action.Pop? ==> Budget(w.cluster, n, t) < Budget(w.cluster, node, store))
  {
    hide IsOutcome, Crowded, Synchronise, CanSynchronise;
  }

  lemma KeepsBudget(w: World, node: Node, store: Store, action: Action)
    requires Ready(node, store) && Valid(store) && PlainKeys(w.cluster.Keys)
    requires Calm(w.cluster, node) && !Late(w.cluster, node, store)
    requires CanPerform(node, store, action) && Good(w.strict, node, store, action)
    ensures var (n, t) := Perform(w.cluster, node, store, action);
            && Budget(w.cluster, n, t) <= Budget(w.cluster, node, store)
            && (action.Pop? ==> Budget(w.cluster, n, t) < Budget(w.cluster, node, store))
  {
    hide Ready, Valid, PlainKeys, Calm, Late, CanPerform, Perform, Good, Budget, Obstacles;
    if IsSync(action) {
      SyncKeepsBudget(w, node, store, action);
    } else if action.ListForRemoval? || action.RemoveNext? || action.EndRemoval? {
      RemovalKeepsBudget(w, node, store, action);
    } else if action.SaveStatus? || action.SaveRemoval? || action.SaveFinalizer? {
      SaveKeepsBudget(w, node, store, action);
    } else {
      StartKeepsBudget(w, node, store, action);
    }
  }

  // ---------------------------------------------------------------------------------------
  // Schedules
  // ---------------------------------------------------------------------------------------

  datatype Rank = Rank(late: nat, budget: nat, phase: nat, outer: nat, inner: nat)

  predicate Below(a: Rank, b: Rank) {
    || a.late < b.late
    || (a.late == b.late && a.budget < b.budget)
    || (a.late == b.late && a.budget == b.budget && a.phase < b.phase)
    || (a.late == b.late && a.budget == b.budget && a.phase == b.phase && a.outer < b.outer)
    || (a.late == b.late && a.budget == b.budget && a.phase == b.phase && a.outer == b.outer && a.inner < b.inner)
  }

  datatype Moment = Moment(node: Node, store: Store)

  // A late reconciliation only has its own end before it.
  ghost function RankOf(cluster: Cluster, m: Moment): Rank {
    var (phase, outer, inner) := PhaseRank(m.node.process);
    if Late(cluster, m.node, m.store) then Rank(1, 0, phase, outer, inner)
    else Rank(0, Budget(cluster, m.node, m.store), phase, outer, inner)
  }

  ghost predicate StepsBy(w: World, a: Moment, action: Action, b: Moment) {
    && CanPerform(a.node, a.store, action) && Good(w.strict, a.node, a.store, action)
    && (b.node, b.store) == Perform(w.cluster, a.node, a.store, action)
  }

  ghost predicate Step(w: World, a: Moment, b: Moment) { exists action :: StepsBy(w, a, action, b) }

  ghost predicate CanGoOn(w: World, a: Moment) {
    exists action :: CanPerform(a.node, a.store, action) && Good(w.strict, a.node, a.store, action)
  }

  ghost predicate Sane(w: World, a: Moment) {
    Ready(a.node, a.store) && Valid(a.store) && PlainKeys(w.cluster.Keys)
  }

  ghost predicate Sound(w: World, a: Moment) { Sane(w, a) && Calm(w.cluster, a.node) }

  // Each step without a failing call brings the node closer to rest.
  lemma StepDescends(w: World, a: Moment, action: Action, b: Moment)
    requires Sound(w, a) && StepsBy(w, a, action, b)
    ensures Below(RankOf(w.cluster, b), RankOf(w.cluster, a))
  {
    hide Ready, Valid, PlainKeys, Calm, Late, CanPerform, Perform, Good, Budget, PhaseRank;
    if !Late(w.cluster, a.node, a.store) {
      StaysOnTime(w, a.node, a.store, action);
      KeepsBudget(w, a.node, a.store, action);
    }
    if action.Pop? {
      OnTimeAtFirst(w.cluster, a.node, a.store, action);
    } else {
      EveryActionAdvances(w.cluster, a.node, a.store, action);
    }
  }

  lemma OnTimeAtFirst(cluster: Cluster, node: Node, store: Store, action: Action)
    requires CanPerform(node, store, action) && action.Pop?
    ensures !Late(cluster, node, store)
  {
  }

  lemma StepKeepsSane(w: World, a: Moment, action: Action, b: Moment)
    requires Sane(w, a) && StepsBy(w, a, action, b)
    ensures Sane(w, b)
  {
    hide Ready, Valid, CanPerform, Perform, Good, PlainKeys;
    ActionKeepsReady(w.cluster, a.node, a.store, action);
    ActionKeepsId(w.cluster, a.node, a.store, action);
  }

  lemma StepKeepsSound(w: World, a: Moment, action: Action, b: Moment)
    requires Sound(w, a) && StepsBy(w, a, action, b)
    ensures Sound(w, b)
  {
    hide Sane, Calm, CanPerform, Perform, Good;
    StepKeepsSane(w, a, action, b);
    CalmStays(w.cluster, a.node, a.store, action);
  }

  lemma CalmStays(cluster: Cluster, node: Node, store: Store, action: Action)
    requires Calm(cluster, node) && CanPerform(node, store, action)
    ensures Calm(cluster, Perform(cluster, node, store, action).0)
  {
    hide Restless, Synchronise, CanSynchronise, IsFlatList;
  }

  // A schedule of steps without failing calls that never ends.
  ghost predicate GoesOnForever(w: World, start: Moment, schedule: nat -> Moment) {
    schedule(0) == start && forall n: nat :: Step(w, schedule(n), schedule(n + 1))
  }

  // There is none if the attempts of the spec come out one way.
  lemma NoEndlessSchedule(w: World, start: Moment, schedule: nat -> Moment)
    requires Sound(w, start)
    ensures !GoesOnForever(w, start, schedule)
  {
    hide Sound, Step;
    if GoesOnForever(w, start, schedule) {
      Endless(w, schedule, 0);
    }
  }

  lemma {:induction false} Endless(w: World, schedule: nat -> Moment, n: nat)
    requires Sound(w, schedule(n)) && forall i: nat :: Step(w, schedule(i), schedule(i + 1))
    ensures false
    decreases RankOf(w.cluster, schedule(n)).late, RankOf(w.cluster, schedule(n)).budget,
              RankOf(w.cluster, schedule(n)).phase, RankOf(w.cluster, schedule(n)).outer,
              RankOf(w.cluster, schedule(n)).inner
  {
    hide Sound, StepsBy, RankOf;
    assert Step(w, schedule(n), schedule(n + 1));
    var action :| StepsBy(w, schedule(n), action, schedule(n + 1));
    StepDescends(w, schedule(n), action, schedule(n + 1));
    StepKeepsSound(w, schedule(n), action, schedule(n + 1));
    Endless(w, schedule, n + 1);
  }
}
