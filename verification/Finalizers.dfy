// The finalizer keeps an object alive for as long as its tenant holds rules.
module Finalizers {
  import opened Ordering
  import opened RuleModel
  import opened Selection
  import opened RemoteRuler
  import opened RuleSync
  import opened Operator

  ghost predicate Protected(node: Node) { node.stored.Some? && node.stored.value.finalizer }

  // What holds of every node at all times, provided that no other finalizer is ever set.
  ghost predicate Safe(node: Node, store: Store) {
    && (store != map[] ==> Protected(node))
    && (node.stored.Some? ==>
          !node.stored.value.foreign && (node.stored.value.deleting ==> node.stored.value.finalizer))
    && match node.process.phase
       case Idle => true
       case Popped => true
       case Got => node.process.copy.Some?
                   && (node.process.copy.value.deleting ==> node.process.copy.value.finalizer)
                   && (node.process.copy.value.finalizer ==> Protected(node))
       case AddingFinalizer => true
       case Reading(_, _) => Protected(node)
       case Posting(_, _) => Protected(node)
       case Listing => Protected(node)
       case Deleting(_) => Protected(node)
       case Reporting(_) => true
       case ListingAll => Protected(node)
       case Removing(rest) => Protected(node) && store.Keys <= Elements(rest)
       case DroppingFinalizer => store == map[]
  }

  lemma ActionKeepsSafe(cluster: Cluster, node: Node, store: Store, action: Action)
    requires Safe(node, store) && Valid(store) && CanPerform(node, store, action)
    ensures Safe(Perform(cluster, node, store, action).0, Perform(cluster, node, store, action).1)
  {
    hide Safe, CanPerform, Perform, Valid;
    if IsRemoval(action) {
      RemovalKeepsSafe(cluster, node, store, action);
    } else if IsSync(action) {
      SyncKeepsSafe(cluster, node, store, action);
    } else {
      EdgeKeepsSafe(cluster, node, store, action);
    }
  }

  predicate IsRemoval(action: Action) {
    action.ListForRemoval? || action.RemoveNext? || action.EndRemoval? || action.SaveRemoval?
  }

  lemma SyncKeepsSafe(cluster: Cluster, node: Node, store: Store, action: Action)
    requires Safe(node, store) && CanPerform(node, store, action) && IsSync(action)
    ensures Safe(Perform(cluster, node, store, action).0, Perform(cluster, node, store, action).1)
  {
    hide Transform, ReadMore, PostTo, Sort, KeyText, Decode, Ascending, Elements;
  }

  lemma EdgeKeepsSafe(cluster: Cluster, node: Node, store: Store, action: Action)
    requires Safe(node, store) && CanPerform(node, store, action) && !IsSync(action) && !IsRemoval(action)
    ensures Safe(Perform(cluster, node, store, action).0, Perform(cluster, node, store, action).1)
  {
  }

  lemma RemovalKeepsSafe(cluster: Cluster, node: Node, store: Store, action: Action)
    requires Safe(node, store) && Valid(store) && CanPerform(node, store, action) && IsRemoval(action)
    ensures Safe(Perform(cluster, node, store, action).0, Perform(cluster, node, store, action).1)
  {
    hide PerGroup, Valid, Ascending, Elements;
    match action {
      case ListForRemoval(answer, elements) =>
        if answer.Ok? {
          var keys :| Ascending(keys) && Elements(keys) == store.Keys && elements == PerGroup(keys, store);
          PerGroupFacts(keys, store);
        }
      case RemoveNext(a) => FirstOff(node.process.phase.rest);
      case EndRemoval => EmptyElements();
      case SaveRemoval(a) =>
    }
  }

  lemma EmptyElements()
    ensures Elements<string>([]) == {}
  {
  }

  lemma OutsideKeepsSafe(cluster: Cluster, node: Node, store: Store, e: Event, mine: bool)
    requires Safe(node, store) && !SetsForeign(e)
    requires mine && e.CreateMimirRules? ==> node.stored.None?
    requires mine && (e.UpdateSpec? || e.AddForeign?) ==> node.stored.Some?
    ensures Safe(Outside(cluster, node, e, mine), store)
  {
    hide Requested, Elements;
  }

  ghost predicate AllSafe(s: System) {
    && OneTenantEach(s)
    && forall m :: m in s.nodes ==> Safe(s.nodes[m], StoreOf(s, m)) && Valid(StoreOf(s, m))
  }

  lemma StepKeepsSafe(s: System, e: Event)
    requires AllSafe(s) && Enabled(s, e) && !SetsForeign(e)
    ensures AllSafe(Apply(s, e))
  {
    hide Safe, Perform, CanPerform, Apply, Outside, Panicking;
    StepKeepsTenants(s, e);
    var d := Effect(s, e);
    forall m | m in s.nodes
      ensures Safe(Apply(s, e).nodes[m], StoreOf(Apply(s, e), m)) && Valid(StoreOf(Apply(s, e), m))
    {
      NodeStep(s, e, m);
      if d.Reconcile? && d.m == m {
        ActionKeepsSafe(s.cluster, s.nodes[m], StoreOf(s, m), d.action);
        ActionKeepsId(s.cluster, s.nodes[m], StoreOf(s, m), d.action);
      } else {
        OutsideKeepsSafe(s.cluster, s.nodes[m], StoreOf(s, m), d, IsOn(d, m));
      }
    }
  }

  predicate NoForeign(events: seq<Event>) { Ways(events) == {} }

  lemma {:induction false} RunsKeepSafe(s: System, events: seq<Event>)
    requires AllSafe(s) && NoForeign(events) && Run(s, events).Some?
    ensures AllSafe(Run(s, events).value)
  {
    hide AllSafe, Enabled, Apply;
    if events != [] {
      var n := |events| - 1;
      RunsKeepSafe(s, events[..n]);
      StepKeepsSafe(Run(s, events[..n]).value, events[n]);
    }
  }

  lemma InitiallySafe(s: System)
    requires Initial(s)
    ensures AllSafe(s)
  {
  }

  // Over every run, failures and crashes included: while a tenant has rules its object exists
  // and carries the finalizer, and nothing is posted without the finalizer in place.
  lemma {:induction false} FinalizerGuards(s: System, events: seq<Event>, m: Key)
    requires Initial(s) && NoForeign(events) && Run(s, events).Some? && m in s.nodes
    ensures var t := Run(s, events).value;
            && m in t.nodes && (StoreOf(t, m) != map[] ==> Protected(t.nodes[m]))
            && (forall a: Action :: a.PostGroup? && Enabled(t, Reconcile(m, a)) ==> Protected(t.nodes[m]))
  {
    hide Safe, CanPerform, Apply, Initial, Enabled;
    InitiallySafe(s);
    RunsKeepSafe(s, events);
    RunKeepsNodes(s, events);
    SafeGuards(Run(s, events).value, m);
  }

  lemma SafeGuards(s: System, m: Key)
    requires m in s.nodes && Safe(s.nodes[m], StoreOf(s, m))
    ensures StoreOf(s, m) != map[] ==> Protected(s.nodes[m])
    ensures forall a: Action :: a.PostGroup? && Enabled(s, Reconcile(m, a)) ==> Protected(s.nodes[m])
  {
  }

  // The finalizer only goes by the operator's own update, at a time when the tenant is empty.
  lemma {:induction false} FinalizerLeavesLast(s: System, events: seq<Event>, e: Event, m: Key)
    requires Initial(s) && NoForeign(events) && Run(s, events).Some? && m in s.nodes
    requires m in Run(s, events).value.nodes && Enabled(Run(s, events).value, e)
    requires m in Apply(Run(s, events).value, e).nodes
    requires Protected(Run(s, events).value.nodes[m]) && !Protected(Apply(Run(s, events).value, e).nodes[m])
    ensures e.Reconcile? && e.m == m && e.action.SaveRemoval?
    ensures StoreOf(Run(s, events).value, m) == map[] == StoreOf(Apply(Run(s, events).value, e), m)
  {
    hide Initial, Safe, Apply, Enabled;
    InitiallySafe(s);
    RunsKeepSafe(s, events);
    LeavesLast(Run(s, events).value, e, m);
  }

  lemma LeavesLast(s: System, e: Event, m: Key)
    requires AllSafe(s) && Enabled(s, e) && m in s.nodes && m in Apply(s, e).nodes
    requires Protected(s.nodes[m]) && !Protected(Apply(s, e).nodes[m])
    ensures e.Reconcile? && e.m == m && e.action.SaveRemoval?
    ensures StoreOf(s, m) == map[] == StoreOf(Apply(s, e), m)
  {
    hide Safe, Apply, Perform, CanPerform;
    NodeStep(s, e, m);
    if e.Reconcile? && e.m == m {
      OnlyRemovalTakesOff(s.cluster, s.nodes[m], StoreOf(s, m), e.action);
    }
  }

  lemma OnlyRemovalTakesOff(cluster: Cluster, node: Node, store: Store, action: Action)
    requires Safe(node, store) && CanPerform(node, store, action)
    requires Protected(node) && !Protected(Perform(cluster, node, store, action).0)
    ensures action.SaveRemoval? && store == map[] == Perform(cluster, node, store, action).1
  {
    hide Transform, ReadMore, PostTo, Sort, KeyText, Decode, PerGroup, Ascending, Elements;
  }
}
