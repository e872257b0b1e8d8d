// The removal of a tenant in the transition system and deleteRulesForTenant are the same,
// whatever the answers to the calls.
module RemovalSteps {
  import opened Ordering
  import opened Selection
  import opened RemoteRuler
  import opened RuleSync
  import opened Teardown
  import opened Operator
  import SyncSteps

  // The calls so far, the names to delete that the listing gave, and the error of the last call.
  datatype Trace = Trace(calls: seq<Call>, names: seq<string>, error: Cause)

  datatype Moment = Moment(node: Node, store: Store, trace: Trace)

  // A step of a removal, up to the update of the finalizer.
  predicate IsDeletion(action: Action) { action.ListForRemoval? || action.RemoveNext? || action.EndRemoval? }

  ghost predicate Steps(cluster: Cluster, tenant: string, m: Moment, action: Action, next: Moment) {
    && IsDeletion(action) && CanPerform(m.node, m.store, action)
    && (next.node, next.store) == Perform(cluster, m.node, m.store, action)
    && match action
       case ListForRemoval(a, elements) =>
         && next.trace.calls == m.trace.calls + [List(tenant, a.Ok?)]
         && next.trace.names == (if a.Ok? then elements else []) && SyncSteps.Says(a, "", next.trace.error)
       case RemoveNext(a) =>
         && next.trace.calls == m.trace.calls + [Delete(tenant, m.node.process.phase.rest[0], a.Ok?)]
         && next.trace.names == m.trace.names && SyncSteps.Says(a, m.node.process.phase.rest[0], next.trace.error)
       case _ => next.trace == m.trace
  }

  ghost predicate Chain(cluster: Cluster, tenant: string, moments: seq<Moment>, actions: seq<Action>) {
    && |moments| == |actions| + 1
    && forall i :: 0 <= i < |actions| ==> Steps(cluster, tenant, moments[i], actions[i], moments[i + 1])
  }

  // The first n deletions are done.
  ghost predicate Removing(before: Store, store: Store, tenant: string, trace: Trace, n: nat) {
    && n <= |trace.names| && OncePerGroup(trace.names, before)
    && |trace.calls| == n + 1 && trace.calls[0] == List(tenant, true)
    && (forall i :: 1 <= i <= n ==> trace.calls[i] == Delete(tenant, trace.names[i - 1], true))
    && store == before - Elements(trace.names[..n])
  }

  // What deleteRulesForTenant promises of its calls and of the tenant.
  ghost predicate Attempted(before: Store, after: Store, tenant: string, trace: Trace, ok: bool) {
    && IsCleanup(trace.calls, tenant, trace.names) && trace.calls != []
    && (trace.calls[0].ok ==> OncePerGroup(trace.names, before))
    && (exists gone :: Deleted(trace.calls, trace.names, gone, ok) && after == before - gone)
    && (ok ==> after == map[])
  }

  ghost predicate OnTheWay(before: Store, tenant: string, copy: MimirRules, m: Moment) {
    var p := m.node.process;
    p.copy.Some? && p.copy.value == copy
    && match p.phase
       case ListingAll => m.store == before && m.trace.calls == []
       case Removing(rest) =>
         && |rest| <= |m.trace.names| && rest == m.trace.names[|m.trace.names| - |rest|..]
         && Removing(before, m.store, tenant, m.trace, |m.trace.names| - |rest|)
       case DroppingFinalizer => Attempted(before, m.store, tenant, m.trace, true)
       case Reporting(status) =>
         && Attempted(before, m.store, tenant, m.trace, false)
         && status == Status(IsFailed, m.trace.error, copy.status.refRules) && !m.trace.error.NoError?
       case _ => false
  }

  lemma FlatIsOncePerGroup(elements: seq<string>, store: Store)
    requires IsFlatList(elements, store) && Valid(store)
    ensures OncePerGroup(elements, store)
  {
    var keys :| Ascending(keys) && Elements(keys) == store.Keys && elements == PerGroup(keys, store);
    CountedNames(store, keys, elements);
  }

  lemma ListStep(cluster: Cluster, before: Store, tenant: string, copy: MimirRules, m: Moment, action: Action,
                 next: Moment)
    requires OnTheWay(before, tenant, copy, m) && Steps(cluster, tenant, m, action, next) && action.ListForRemoval?
    requires Valid(before)
    ensures OnTheWay(before, tenant, copy, next)
  {
    hide OncePerGroup, IsFlatList, IsCleanup, Deleted, CanSynchronise, Synchronise;
    assert next.trace.calls == [List(tenant, action.answer.Ok?)];
    assert before - {} == before && Elements<string>([]) == {};
    if action.answer.Ok? {
      FlatIsOncePerGroup(action.elements, before);
      assert action.elements[..0] == [];
    } else {
      NoDeletions(tenant);
    }
  }

  lemma RemoveStep(cluster: Cluster, before: Store, tenant: string, copy: MimirRules, m: Moment, action: Action,
                   next: Moment)
    requires OnTheWay(before, tenant, copy, m) && Steps(cluster, tenant, m, action, next) && action.RemoveNext?
    ensures OnTheWay(before, tenant, copy, next)
  {
    hide OncePerGroup, Removing, Attempted, CanSynchronise, Synchronise;
    var names, n := m.trace.names, |m.trace.names| - |m.node.process.phase.rest|;
    assert m.node.process.phase.rest[0] == names[n] && m.node.process.phase.rest[1..] == names[n + 1..];
    if action.answer.Ok? {
      OneMoreRemoved(before, m.store, tenant, m.trace, next.trace, n);
    } else {
      RemovalFailed(before, m.store, next.store, tenant, m.trace, next.trace, n);
    }
  }

  lemma OneMoreRemoved(before: Store, store: Store, tenant: string, trace: Trace, trace': Trace, n: nat)
    requires Removing(before, store, tenant, trace, n) && n < |trace.names| && trace'.names == trace.names
    requires trace'.calls == trace.calls + [Delete(tenant, trace.names[n], true)]
    ensures Removing(before, Drop(store, trace.names[n]), tenant, trace', n + 1)
  {
    hide OncePerGroup, Elements;
    OneMore(trace.names, n);
  }

  lemma RemovalFailed(before: Store, store: Store, after: Store, tenant: string, trace: Trace, trace': Trace, n: nat)
    requires Removing(before, store, tenant, trace, n) && n < |trace.names| && trace'.names == trace.names
    requires trace'.calls == trace.calls + [Delete(tenant, trace.names[n], false)]
    requires after == store || after == Drop(store, trace.names[n])
    ensures Attempted(before, after, tenant, trace', false)
  {
    hide OncePerGroup, Elements, IsCleanup;
    OneMore(trace.names, n);
    var gone := if after == store then Elements(trace.names[..n]) else Elements(trace.names[..n + 1]);
    SyncSteps.IsCleanupLog(trace'.calls, tenant, trace.names);
    assert Deleted(trace'.calls, trace.names, gone, false) && after == before - gone;
  }

  lemma EndStep(cluster: Cluster, before: Store, tenant: string, copy: MimirRules, m: Moment, action: Action,
                next: Moment)
    requires OnTheWay(before, tenant, copy, m) && Steps(cluster, tenant, m, action, next) && action.EndRemoval?
    requires Valid(before)
    ensures OnTheWay(before, tenant, copy, next)
  {
    hide Removing, Attempted, CanSynchronise, Synchronise;
    AllRemoved(before, m.store, tenant, m.trace);
  }

  lemma AllRemoved(before: Store, store: Store, tenant: string, trace: Trace)
    requires Valid(before) && Removing(before, store, tenant, trace, |trace.names|)
    ensures Attempted(before, store, tenant, trace, true)
  {
    hide IsCleanup;
    var names := trace.names;
    assert names[..|names|] == names;
    SyncSteps.IsCleanupLog(trace.calls, tenant, names);
    assert Deleted(trace.calls, names, Elements(names), true);
    forall ns | ns in before ensures ns in Elements(names) {
      assert ns in multiset(names);
    }
  }

  // From the listing on, every chain of steps makes the calls that deleteRulesForTenant makes and
  // leaves the tenant as it does; a failure is reported with its error and the old RefRules.
  lemma {:induction false} RemovalIsDeleteRules(cluster: Cluster, before: Store, tenant: string, copy: MimirRules,
                                                moments: seq<Moment>, actions: seq<Action>)
    requires Chain(cluster, tenant, moments, actions) && Valid(before)
    requires var m := moments[0];
             && m.node.process.phase.ListingAll? && m.node.process.copy.Some? && m.node.process.copy.value == copy
             && m.store == before && m.trace.calls == []
    ensures OnTheWay(before, tenant, copy, moments[|actions|])
  {
    hide Steps, OnTheWay;
    if actions != [] {
      var n := |actions| - 1;
      RemovalIsDeleteRules(cluster, before, tenant, copy, moments[..n + 1], actions[..n]);
      var m, action, next := moments[n], actions[n], moments[n + 1];
      Kind(cluster, tenant, m, action, next);
      if action.ListForRemoval? {
        ListStep(cluster, before, tenant, copy, m, action, next);
      } else if action.RemoveNext? {
        RemoveStep(cluster, before, tenant, copy, m, action, next);
      } else {
        EndStep(cluster, before, tenant, copy, m, action, next);
      }
    } else {
      AtFirst(before, tenant, copy, moments[0]);
    }
  }

  lemma Kind(cluster: Cluster, tenant: string, m: Moment, action: Action, next: Moment)
    requires Steps(cluster, tenant, m, action, next)
    ensures IsDeletion(action)
  {
  }

  lemma AtFirst(before: Store, tenant: string, copy: MimirRules, m: Moment)
    requires m.node.process.phase.ListingAll? && m.node.process.copy.Some? && m.node.process.copy.value == copy
    requires m.store == before && m.trace.calls == []
    ensures OnTheWay(before, tenant, copy, m)
  {
  }
}
