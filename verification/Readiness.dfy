// What holds of every node in every run without other finalizers: how the object fetched
// relates to the one stored, and where a reconciliation under way is in its lists.
module Readiness {
  import opened Ordering
  import opened RuleModel
  import opened Selection
  import opened RemoteRuler
  import opened RuleSync
  import opened Operator
  import opened Finalizers

  predicate InFlight(node: Node) { !node.process.phase.Idle? && !node.process.phase.Popped? }

  // The object fetched is the one stored unless the version has moved on, and then the key is
  // in the queue again.
  ghost predicate Versioned(node: Node) {
    InFlight(node) ==>
      && node.process.copy.Some? && node.process.version <= node.version
      && (Unchanged(node) ==> node.stored == node.process.copy)
      && (!node.dirty ==> Unchanged(node))
  }

  // An object being deleted has the finalizer, as stored and as fetched.
  ghost predicate Shaped(node: Node) {
    && (node.stored.Some? ==>
          !node.stored.value.foreign && (node.stored.value.deleting ==> node.stored.value.finalizer))
    && (node.process.phase.Got? && node.process.copy.Some? ==>
          (node.process.copy.value.deleting ==> node.process.copy.value.finalizer))
    && (node.process.phase.AddingFinalizer? && node.process.copy.Some? ==>
          !node.process.copy.value.deleting && !node.process.copy.value.finalizer)
  }

  // All the names come after the one whose deletion was answered with 404.
  ghost predicate Above(error: Cause, names: set<string>) {
    error.Missing? ==> forall ns :: ns in names ==> Less(error.namespace, ns)
  }

  // Only the removal of a tenant can be answered with 404, at a name below all that is left and
  // above the one of the attempt before.
  ghost predicate Positioned(p: Process, store: Store)
    requires p.copy.Some?
  {
    var deleting, error := p.copy.value.deleting, p.copy.value.status.error;
    match p.phase
    case Reading(next, _) => !deleting && next <= |p.copy.value.spec.selectors|
    case Posting(todo, _) => !deleting && todo <= p.texts.Keys
    case Listing => !deleting
    case Deleting(rest) => !deleting && Ascending(rest) && Elements(rest) <= store.Keys
    case Reporting(status) =>
      status.error.Missing? ==>
        && deleting && Above(status.error, store.Keys)
        && (error.Missing? ==> Less(error.namespace, status.error.namespace))
    case ListingAll => deleting
    case Removing(rest) => deleting && Sorted(rest) && store.Keys <= Elements(rest) && Above(error, Elements(rest))
    case DroppingFinalizer => deleting
    case _ => true
  }

  // An object whose status names such a namespace is being deleted, and its tenant has been
  // emptied up to that name.
  ghost predicate Marked(mr: MimirRules, store: Store) {
    mr.status.error.Missing? ==> mr.deleting && Above(mr.status.error, store.Keys)
  }

  ghost predicate AllMarked(node: Node, store: Store) {
    && (node.stored.Some? ==> Marked(node.stored.value, store))
    && (InFlight(node) && node.process.copy.Some? ==>
          && Marked(node.process.copy.value, store)
          && (node.stored.Some? && node.stored.value.status.error.Missing? ==> node.process.copy.value.deleting))
  }

  ghost predicate Ready(node: Node, store: Store) {
    && Versioned(node) && Shaped(node) && AllMarked(node, store)
    && (InFlight(node) ==> node.process.copy.Some? && Positioned(node.process, store))
  }

  // ---------------------------------------------------------------------------------------
  // It holds in all runs
  // ---------------------------------------------------------------------------------------

  lemma ActionKeepsReady(cluster: Cluster, node: Node, store: Store, action: Action)
    requires Ready(node, store) && Valid(store) && CanPerform(node, store, action)
    ensures var (n, t) := Perform(cluster, node, store, action); Ready(n, t)
  {
    hide CanPerform, Perform, Ready, Valid;
    if action.Prepare? && Panics(node.process) {
      PanicKeepsReady(cluster, node, store);
    } else if IsSync(action) {
      SyncKeepsReady(cluster, node, store, action);
    } else if action.SaveFinalizer? || action.SaveStatus? || action.SaveRemoval? {
      SaveKeepsReady(cluster, node, store, action);
    } else if IsRemoval(action) {
      RemovalKeepsReady(cluster, node, store, action);
    } else {
      StartKeepsReady(cluster, node, store, action);
    }
  }

  lemma PanicKeepsReady(cluster: Cluster, node: Node, store: Store)
    requires Ready(node, store) && Panics(node.process)
    ensures Ready(Perform(cluster, node, store, Prepare).0, Perform(cluster, node, store, Prepare).1)
  {
    hide Panics, Above, Positioned;
  }

  lemma SyncKeepsReady(cluster: Cluster, node: Node, store: Store, action: Action)
    requires Ready(node, store) && CanPerform(node, store, action) && IsSync(action)
    requires !(action.Prepare? && Panics(node.process))
    ensures var (n, t) := Perform(cluster, node, store, action); Ready(n, t)
  {
    hide CanSynchronise, Synchronise, Positioned, Above, Panics;
    Syncing(node.process, store, action);
    SyncKeepsPosition(cluster, node.process, store, action);
  }

  lemma Syncing(p: Process, store: Store, action: Action)
    requires CanSynchronise(p, store, action)
    ensures !p.phase.Idle? && !p.phase.Popped?
  {
  }

  lemma SyncKeepsPosition(cluster: Cluster, p: Process, store: Store, action: Action)
    requires p.copy.Some? && Positioned(p, store) && CanSynchronise(p, store, action)
    ensures var (q, after) := Synchronise(cluster, p, store, action);
            && !p.copy.value.deleting && q.copy == p.copy && q.version == p.version && Positioned(q, after)
            && !q.phase.Idle? && !q.phase.Popped? && !q.phase.Got? && !q.phase.AddingFinalizer?
  {
    hide Transform, ReadMore, PostTo, Sort, KeyText, Decode, FirstFault, Ascending, Elements, KeyTexts;
    if action.DeleteNext? {
      Shorter(p.phase.rest);
    }
  }

  lemma Shorter(rest: seq<string>)
    requires Ascending(rest) && rest != []
    ensures rest[0] in Elements(rest) && Ascending(rest[1..])
    ensures Elements(rest[1..]) == Elements(rest) - {rest[0]}
  {
    TailElements(rest);
  }

  lemma RemovalKeepsReady(cluster: Cluster, node: Node, store: Store, action: Action)
    requires Ready(node, store) && Valid(store) && CanPerform(node, store, action)
    requires IsRemoval(action) && !action.SaveRemoval?
    ensures var (n, t) := Perform(cluster, node, store, action); Ready(n, t)
  {
    hide PerGroup, Valid, Ascending, Sorted, Elements, Synchronise, CanSynchronise, Less, IsFlatList, Drop;
    match action {
      case ListForRemoval(answer, elements) =>
        if answer.Ok? {
          FlatList(elements, store);
        }
      case RemoveNext(_) => RemoveNextKeepsReady(cluster, node, store, action);
      case EndRemoval =>
    }
  }

  lemma RemoveNextKeepsReady(cluster: Cluster, node: Node, store: Store, action: Action)
    requires Ready(node, store) && CanPerform(node, store, action) && action.RemoveNext?
    ensures var (n, t) := Perform(cluster, node, store, action); Ready(n, t)
  {
    hide Ascending, Sorted, Elements, Synchronise, CanSynchronise, Less, IsFlatList;
    LeastFirst(node.process.phase.rest, store.Keys);
  }

  lemma FlatList(elements: seq<string>, store: Store)
    requires IsFlatList(elements, store) && Valid(store)
    ensures Sorted(elements) && Elements(elements) == store.Keys
  {
    var keys :| Ascending(keys) && Elements(keys) == store.Keys && elements == PerGroup(keys, store);
    PerGroupFacts(keys, store);
  }

  lemma LeastFirst(rest: seq<string>, names: set<string>)
    requires Sorted(rest) && rest != [] && names <= Elements(rest)
    ensures rest[0] in Elements(rest) && Elements(rest) == {rest[0]} + Elements(rest[1..]) && Sorted(rest[1..])
    ensures rest[0] !in names ==> forall ns :: ns in names ==> Less(rest[0], ns)
  {
    FirstOff(rest);
    forall ns | ns in names && rest[0] !in names ensures Less(rest[0], ns) {
      var i :| 0 <= i < |rest| && rest[i] == ns;
      LessIsTotal(rest[0], ns);
    }
  }

  lemma SaveKeepsReady(cluster: Cluster, node: Node, store: Store, action: Action)
    requires Ready(node, store) && CanPerform(node, store, action)
    requires action.SaveFinalizer? || action.SaveStatus? || action.SaveRemoval?
    ensures var (n, t) := Perform(cluster, node, store, action); Ready(n, t)
  {
    hide Ascending, Sorted, Elements, Synchronise, CanSynchronise, Less;
    match action {
      case SaveFinalizer(_) =>
      case SaveStatus(_) =>
      case SaveRemoval(_) =>
    }
  }

  lemma StartKeepsReady(cluster: Cluster, node: Node, store: Store, action: Action)
    requires Ready(node, store) && CanPerform(node, store, action)
    requires action.Pop? || action.Get? || action.Connect?
    ensures var (n, t) := Perform(cluster, node, store, action); Ready(n, t)
  {
    hide Ascending, Sorted, Elements, Synchronise, CanSynchronise, Less;
    match action {
      case Pop =>
      case Get(_) =>
      case Connect(_) => ConnectKeepsReady(cluster, node, store, action);
    }
  }

  lemma ConnectKeepsReady(cluster: Cluster, node: Node, store: Store, action: Action)
    requires Ready(node, store) && CanPerform(node, store, action) && action.Connect?
    ensures var (n, t) := Perform(cluster, node, store, action); Ready(n, t)
  {
    hide Elements, Synchronise, CanSynchronise, Above;
  }

  lemma OutsideKeepsReady(cluster: Cluster, node: Node, store: Store, e: Event, mine: bool)
    requires Ready(node, store) && !SetsForeign(e)
    requires mine && e.CreateMimirRules? ==> node.stored.None?
    requires mine && (e.UpdateSpec? || e.AddForeign?) ==> node.stored.Some?
    ensures Ready(Outside(cluster, node, e, mine), store)
  {
    hide Requested, Above, Positioned;
  }

  ghost predicate AllReady(s: System) {
    && OneTenantEach(s)
    && forall m :: m in s.nodes ==> Ready(s.nodes[m], StoreOf(s, m)) && Valid(StoreOf(s, m))
  }

  lemma StepKeepsAllReady(s: System, e: Event)
    requires AllReady(s) && Enabled(s, e) && !SetsForeign(e)
    ensures AllReady(Apply(s, e))
  {
    hide Ready, Perform, CanPerform, Apply, Outside, Valid, Panicking;
    StepKeepsTenants(s, e);
    var d := Effect(s, e);
    forall m | m in s.nodes
      ensures Ready(Apply(s, e).nodes[m], StoreOf(Apply(s, e), m)) && Valid(StoreOf(Apply(s, e), m))
    {
      NodeStep(s, e, m);
      if d.Reconcile? && d.m == m {
        ActionKeepsReady(s.cluster, s.nodes[m], StoreOf(s, m), d.action);
        ActionKeepsId(s.cluster, s.nodes[m], StoreOf(s, m), d.action);
      } else {
        OutsideKeepsReady(s.cluster, s.nodes[m], StoreOf(s, m), d, IsOn(d, m));
      }
    }
  }

  lemma {:induction false} RunsKeepReady(s: System, events: seq<Event>)
    requires AllReady(s) && NoForeign(events) && Run(s, events).Some?
    ensures AllReady(Run(s, events).value)
  {
    hide AllReady, Enabled, Apply;
    if events != [] {
      var n := |events| - 1;
      RunsKeepReady(s, events[..n]);
      StepKeepsAllReady(Run(s, events[..n]).value, events[n]);
    }
  }

  lemma InitiallyReady(s: System)
    requires Initial(s)
    ensures AllReady(s)
  {
  }
}
