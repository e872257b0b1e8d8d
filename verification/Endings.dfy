// Where schedules without failing calls end, and how many attempts a removal takes.
module Endings {
  import opened Ordering
  import opened Selection
  import opened RemoteRuler
  import opened Teardown
  import opened Operator
  import opened Finalizers
  import opened Agreement
  import opened Readiness
  import opened Outcomes
  import opened Convergence

  // ---------------------------------------------------------------------------------------
  // Where schedules end
  // ---------------------------------------------------------------------------------------

  predicate AtRest(node: Node) { node.process.phase.Idle? && !node.dirty }

  lemma {:induction false} AscendingExists(names: set<string>) returns (list: seq<string>)
    ensures Ascending(list) && Elements(list) == names
  {
    hide Sort;
    var some := InSomeOrder(names);
    SortDistinct(some);
    list := Sort(some);
  }

  function Deletion(strict: bool, rest: seq<string>, store: Store): Answer {
    if strict && rest != [] && rest[0] !in store then NotFound else Ok
  }

  lemma PostingProgress(w: World, a: Moment) returns (action: Action)
    requires a.node.process.phase.Posting? && Ready(a.node, a.store)
    ensures CanPerform(a.node, a.store, action) && Good(w.strict, a.node, a.store, action)
  {
    hide PerGroup, Ascending, Elements, TextOf, KeyTexts, AllMarked, Above, Sorted, Decode;
    var p := a.node.process;
    if p.phase.current.Some? {
      action := if p.phase.current.value.1 == [] then FinishNamespace else PostGroup(Ok);
    } else if p.phase.todo == {} {
      action := EndPosting;
    } else {
      var k :| k in p.phase.todo;
      action := PickNamespace(k);
    }
  }

  // Whatever is at work can go on, be it to a panic.
  lemma Progress(w: World, a: Moment) returns (action: Action)
    requires Ready(a.node, a.store) && !AtRest(a.node)
    ensures CanPerform(a.node, a.store, action) && Good(w.strict, a.node, a.store, action)
  {
    hide PerGroup, Ascending, Elements, TextOf, KeyTexts, AllMarked, Above, Sorted;
    var p := a.node.process;
    var answer := if Unchanged(a.node) then Ok else Refused("");
    match p.phase {
      case Idle => action := Pop;
      case Popped => action := Get(Ok);
      case Got => action := Connect(Ok);
      case AddingFinalizer => action := SaveFinalizer(answer);
      case Reading(next, _) => action := if next < |p.copy.value.spec.selectors| then ReadSelector(Ok) else Prepare;
      case Posting(_, _) => action := PostingProgress(w, a);
      case Listing =>
        var stale := AscendingExists(a.store.Keys - KeyTexts(p.texts.Keys));
        action := ListTenant(Ok, stale);
      case Deleting(rest) =>
        action := if rest == [] then EndDeleting else DeleteNext(Deletion(w.strict, rest, a.store));
      case Reporting(_) => action := SaveStatus(answer);
      case ListingAll =>
        var keys := AscendingExists(a.store.Keys);
        action := ListForRemoval(Ok, PerGroup(keys, a.store));
      case Removing(rest) =>
        action := if rest == [] then EndRemoval else RemoveNext(Deletion(w.strict, rest, a.store));
      case DroppingFinalizer => action := SaveRemoval(answer);
    }
  }

  // A node is up to date, and has not come to rest other than with the outcome of its attempts.
  ghost predicate Undisturbed(cluster: Cluster, node: Node, store: Store) {
    && !Late(cluster, node, store)
    && (AtRest(node) && node.stored.Some? ==>
          var mr := node.stored.value; !mr.deleting && IsOutcome(cluster, mr.spec, mr.status.refRules, mr.status))
  }

  // A failed removal always changes the status, as it names a later namespace than the last one.
  lemma RestsRightly(w: World, node: Node, store: Store, action: Action)
    requires Ready(node, store) && !Late(w.cluster, node, store)
    requires CanPerform(node, store, action) && Good(w.strict, node, store, action)
    ensures var n := Perform(w.cluster, node, store, action).0;
            AtRest(n) && n.stored.Some? ==>
              var mr := n.stored.value; !mr.deleting && IsOutcome(w.cluster, mr.spec, mr.status.refRules, mr.status)
  {
    hide IsOutcome, AllMarked, Above, Positioned, Right, Synchronise, CanSynchronise, IsFlatList;
    if action.SaveStatus? {
      OnTimeFacts(w.cluster, node, store);
      SavedIsOutcome(w.cluster, node.process, store);
    } else if action.Prepare? && Panics(node.process) {
      PanicEnds(w.cluster, node, store);
    } else if IsSync(action) {
      NotIdle(w.cluster, node.process, store, action);
    }
  }

  lemma SavedIsOutcome(cluster: Cluster, p: Process, store: Store)
    requires p.phase.Reporting? && p.copy.Some? && Right(cluster, p, store) && Positioned(p, store)
    ensures var mr := p.copy.value;
            p.phase.status == mr.status ==> !mr.deleting && IsOutcome(cluster, mr.spec, mr.status.refRules, mr.status)
  {
    hide IsOutcome, Above;
    var error := p.copy.value.status.error;
    if error.Missing? {
      LessIsTotal(error.namespace, error.namespace);
    }
  }

  lemma NotIdle(cluster: Cluster, p: Process, store: Store, action: Action)
    requires CanSynchronise(p, store, action)
    ensures !Synchronise(cluster, p, store, action).0.phase.Idle?
  {
  }

  // All the invariants, in a cluster whose changes have all been handled.
  ghost predicate Healthy(w: World, a: Moment) {
    && Sane(w, a) && Undisturbed(w.cluster, a.node, a.store)
    && Tracked(w.cluster, {}, a.node, a.store) && Safe(a.node, a.store)
  }

  lemma StepKeepsHealthy(w: World, a: Moment, action: Action, b: Moment)
    requires Healthy(w, a) && StepsBy(w, a, action, b)
    ensures Healthy(w, b)
  {
    hide Ready, Late, AtRest, Tracked, Safe, Valid, CanPerform, Perform, Good, PlainKeys;
    StepKeepsSane(w, a, action, b);
    StaysOnTime(w, a.node, a.store, action);
    RestsRightly(w, a.node, a.store, action);
    ActionKeepsTracked(w.cluster, {}, a.node, a.store, action);
    ActionKeepsSafe(w.cluster, a.node, a.store, action);
  }

  ghost predicate IsSchedule(w: World, schedule: seq<Moment>) {
    schedule != [] && forall i :: 0 <= i < |schedule| - 1 ==> Step(w, schedule[i], schedule[i + 1])
  }

  lemma LastStep(w: World, schedule: seq<Moment>)
    requires IsSchedule(w, schedule) && |schedule| > 1
    ensures IsSchedule(w, schedule[..|schedule| - 1])
    ensures Step(w, schedule[|schedule| - 2], schedule[|schedule| - 1])
  {
    hide Step;
    var n := |schedule| - 1;
    assert forall i :: 0 <= i < n - 1 ==> Step(w, schedule[..n][i], schedule[..n][i + 1]);
    assert Step(w, schedule[n - 1], schedule[n - 1 + 1]);
  }

  lemma {:induction false} ScheduleStaysHealthy(w: World, schedule: seq<Moment>)
    requires IsSchedule(w, schedule) && Healthy(w, schedule[0])
    ensures Healthy(w, schedule[|schedule| - 1])
  {
    hide Healthy, StepsBy;
    if |schedule| > 1 {
      var n := |schedule| - 1;
      LastStep(w, schedule);
      ScheduleStaysHealthy(w, schedule[..n]);
      var action :| StepsBy(w, schedule[n - 1], action, schedule[n]);
      StepKeepsHealthy(w, schedule[n - 1], action, schedule[n]);
    }
  }

  // Everything selected can be transformed and decoded.
  ghost predicate Fits(cluster: Cluster, spec: Spec) {
    Selection.AllValid(spec.selectors) && Transforms(cluster, spec) && AllDecode(cluster, spec)
  }

  // Any schedule without failing calls that cannot go on has come to rest. Then the object is
  // gone and its tenant is empty, or its status is what its attempts report; and if everything
  // selected fits, that is success and the tenant is in agreement.
  lemma SchedulesEndInAgreement(w: World, schedule: seq<Moment>)
    requires IsSchedule(w, schedule) && Healthy(w, schedule[0]) && !CanGoOn(w, schedule[|schedule| - 1])
    ensures var last := schedule[|schedule| - 1];
            AtRest(last.node)
            && if last.node.stored.None? then last.store == map[]
            else
              var mr := last.node.stored.value;
              && IsOutcome(w.cluster, mr.spec, mr.status.refRules, mr.status)
              && (Fits(w.cluster, mr.spec) ==>
                    mr.status.state.IsSynced? && InAgreement(w.cluster, mr.spec, mr.status.refRules, last.store))
  {
    hide Ready, Tracked, Valid, CanPerform, Perform, Good, InAgreement, Safe, IsOutcome, AllDecode, Transforms, Late;
    var last := schedule[|schedule| - 1];
    ScheduleStaysHealthy(w, schedule);
    if !AtRest(last.node) {
      var action := Progress(w, last);
    } else {
      Rested(w, last);
    }
  }

  lemma Rested(w: World, a: Moment)
    requires Healthy(w, a) && AtRest(a.node)
    ensures if a.node.stored.None? then a.store == map[]
            else
              var mr := a.node.stored.value;
              && IsOutcome(w.cluster, mr.spec, mr.status.refRules, mr.status)
              && (Fits(w.cluster, mr.spec) ==>
                    mr.status.state.IsSynced? && InAgreement(w.cluster, mr.spec, mr.status.refRules, a.store))
  {
    hide Agreed, InAgreement, Ready, Transforms, AllDecode, IsTargetList;
    if a.node.stored.Some? && Fits(w.cluster, a.node.stored.value.spec) {
      NothingPending(w.cluster, a.node.stored.value.spec, a.node.stored.value.status.refRules, a.store);
    }
  }

  // After any run, with whatever failures and crashes it had, a MimirRules whose key is queued
  // and not being reconciled can start such a schedule, once the changes of rules have been
  // handled.
  lemma {:induction false} HealthyOnceHandled(s: System, events: seq<Event>, m: Key, strict: bool)
    requires Initial(s) && NoForeign(events) && Run(s, events).Some? && LostKeys(s, events) == {}
    requires m in Run(s, events).value.nodes
    requires var t := Run(s, events).value;
             && t.pending == {} && t.nodes[m].process.phase.Idle?
             && (t.nodes[m].stored.Some? ==> t.nodes[m].dirty)
    ensures var t := Run(s, events).value; Healthy(World(t.cluster, strict), Moment(t.nodes[m], StoreOf(t, m)))
  {
    hide Ready, Tracked, Safe, Apply, Enabled, Run, LostKeys;
    InitiallyTracked(s);
    RunsKeepTracked(s, events);
    InitiallySafe(s);
    RunsKeepSafe(s, events);
    InitiallyReady(s);
    RunsKeepReady(s, events);
    assert {} + LostKeys(s, events) == {};
  }

  // ---------------------------------------------------------------------------------------
  // How many attempts a removal takes
  // ---------------------------------------------------------------------------------------

  // A removal is refused.
  predicate FailsAt(a: Moment, b: Moment) { a.node.process.phase.Removing? && b.node.process.phase.Reporting? }

  ghost function Failures(schedule: seq<Moment>): nat {
    if |schedule| <= 1 then 0
    else
      var n := |schedule| - 1;
      Failures(schedule[..n]) + if FailsAt(schedule[n - 1], schedule[n]) then 1 else 0
  }

  // On its way out, or gone.
  predicate Leaving(node: Node) { node.stored.Some? ==> node.stored.value.deleting }

  lemma StepCountsFailures(w: World, a: Moment, action: Action, b: Moment)
    requires Sane(w, a) && !Late(w.cluster, a.node, a.store) && Leaving(a.node) && StepsBy(w, a, action, b)
    ensures Leaving(b.node)
    ensures if w.strict then Obstacles(b.node.process, b.store) + (if FailsAt(a, b) then 1 else 0)
                             == Obstacles(a.node.process, a.store)
            else !FailsAt(a, b)
  {
    hide Ready, Valid, PlainKeys, Late, CanPerform, Perform, Good, Obstacles;
    if IsSync(action) {
      CalmNeverPanics(w.cluster, a.node, a.store);
      SyncStaysOnTime(w, a.node, a.store, action);
      NotSyncing(w.cluster, a.node, a.store, action);
    } else if action.ListForRemoval? || action.RemoveNext? || action.EndRemoval? {
      RemovalKeepsBudget(w, a.node, a.store, action);
      RemovalLeaves(w, a, action, b);
    } else {
      OtherLeaves(w, a, action, b);
    }
  }

  lemma NotSyncing(cluster: Cluster, node: Node, store: Store, action: Action)
    requires Ready(node, store) && !Late(cluster, node, store) && CanPerform(node, store, action) && IsSync(action)
    requires !Panics(node.process)
    ensures node.stored.Some?
  {
    hide Right, Positioned, AllMarked;
    Syncing(node.process, store, action);
  }

  lemma RemovalLeaves(w: World, a: Moment, action: Action, b: Moment)
    requires Leaving(a.node) && StepsBy(w, a, action, b)
    requires action.ListForRemoval? || action.RemoveNext? || action.EndRemoval?
    ensures Leaving(b.node) && (FailsAt(a, b) <==> b.node.process.phase.Reporting?) && (FailsAt(a, b) ==> w.strict)
  {
    hide IsFlatList, Synchronise, CanSynchronise;
  }

  lemma OtherLeaves(w: World, a: Moment, action: Action, b: Moment)
    requires Leaving(a.node) && StepsBy(w, a, action, b) && !IsSync(action)
    requires !action.ListForRemoval? && !action.RemoveNext? && !action.EndRemoval?
    ensures Leaving(b.node) && !FailsAt(a, b)
    ensures Obstacles(b.node.process, b.store) == Obstacles(a.node.process, a.store)
  {
    hide IsFlatList, Synchronise, CanSynchronise, Crowded;
  }

  lemma {:induction false} ScheduleCountsFailures(w: World, schedule: seq<Moment>)
    requires IsSchedule(w, schedule) && Healthy(w, schedule[0]) && Leaving(schedule[0].node)
    ensures var last := schedule[|schedule| - 1];
            && Healthy(w, last) && Leaving(last.node)
            && if w.strict then Obstacles(last.node.process, last.store) + Failures(schedule)
                                == Obstacles(schedule[0].node.process, schedule[0].store)
               else Failures(schedule) == 0
  {
    hide Tracked, Safe, Sane, Late, Leaving, Obstacles, StepsBy, FailsAt, AtRest;
    if |schedule| > 1 {
      var n := |schedule| - 1;
      LastStep(w, schedule);
      ScheduleCountsFailures(w, schedule[..n]);
      var action :| StepsBy(w, schedule[n - 1], action, schedule[n]);
      StepKeepsHealthy(w, schedule[n - 1], action, schedule[n]);
      StepCountsFailures(w, schedule[n - 1], action, schedule[n]);
    }
  }

  // An object being deleted, queued and not being reconciled, is retried until it is gone and
  // its tenant is empty. On a strict remote it takes as many failures as there are namespaces
  // with two groups or more, on a lenient one none.
  lemma {:induction false} RemovalIsRetried(w: World, schedule: seq<Moment>)
    requires IsSchedule(w, schedule) && Healthy(w, schedule[0]) && !CanGoOn(w, schedule[|schedule| - 1])
    requires schedule[0].node.stored.Some? && schedule[0].node.stored.value.deleting
    requires schedule[0].node.process.phase.Idle?
    ensures var last := schedule[|schedule| - 1]; AtRest(last.node) && last.node.stored.None? && last.store == map[]
    ensures Failures(schedule) == if w.strict then |Crowded(schedule[0].store)| else 0
  {
    hide Sane, Tracked, Safe, Late, CanPerform, Good, InAgreement, IsOutcome, Crowded, Transforms, AllDecode;
    var last := schedule[|schedule| - 1];
    ScheduleCountsFailures(w, schedule);
    SchedulesEndInAgreement(w, schedule);
    assert AtRest(last.node) && last.node.stored.None?;
    assert Crowded(last.store) == {} by {
      NobodyCrowded();
    }
  }

  lemma NobodyCrowded()
    ensures Crowded(map[]) == {}
  {
  }
}
