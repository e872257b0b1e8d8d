// The operator as a transition system. Every call to the Kubernetes API or to Mimir is one
// step, and steps of different MimirRules, user actions, watch events and crashes of the
// operator interleave freely. A call can be refused, or take effect and be reported as failed.
// A panic is a step too, with the effect of a crash on the whole operator.
module Operator {
  import opened Words
  import opened Ordering
  import opened RuleModel
  import opened Selection
  import opened RemoteRuler

  // ---------------------------------------------------------------------------------------
  // MimirRules objects
  // ---------------------------------------------------------------------------------------

  datatype Spec = Spec(selectors: seq<Selector>, overrides: map<string, Override<Labels>>, external: Labels)

  datatype State = Unset | IsSynced | IsFailed

  // The error text of a status, by what it is made from: the text of a failed call, the reason
  // a selector is invalid, the fault of a text that does not decode, or the namespace in the
  // URL of a deletion that was answered with 404.
  datatype Cause =
    | NoError
    | CallFailed(text: string)
    | BadSelector(reason: string)
    | BadText(fault: Fault)
    | Missing(namespace: string)

  // MimirRulesStatus
  datatype Status = Status(state: State, error: Cause, refRules: seq<string>)

  // `finalizer` is the operator's own, `foreign` stands for any others.
  datatype MimirRules = MimirRules(spec: Spec, status: Status, deleting: bool, finalizer: bool, foreign: bool)

  // Transformed or untransformed rules by key.
  type Contents = map<Key, seq<Group<Labels>>>

  // ---------------------------------------------------------------------------------------
  // One reconciliation
  // ---------------------------------------------------------------------------------------

  datatype Phase =
    | Idle
    | Popped
    | Got
    | AddingFinalizer
    | Reading(next: nat, read: Contents)
    | Posting(todo: set<Key>, current: Option<(Key, seq<RemoteGroup>)>)
    | Listing
    | Deleting(rest: seq<string>)
    | Reporting(status: Status)
    | ListingAll
    | Removing(rest: seq<string>)
    | DroppingFinalizer

  // `copy` is the object as fetched and `version` its resource version; `texts` are the
  // transformed rules to post and `posted` is the RefRules list being built.
  datatype Process = Process(
    phase: Phase, copy: Option<MimirRules>, version: nat, texts: Contents, posted: seq<string>)

  // All there is about one MimirRules: its tenant, the object if it exists, the version of the
  // object, whether its key is in the work queue, and the reconciliation under way.
  datatype Node = Node(id: string, stored: Option<MimirRules>, version: nat, dirty: bool, process: Process)

  // A call succeeds; or fails without effect; or takes effect and fails all the same; or is a
  // deletion of an absent namespace on a remote that answers it with 404.
  datatype Answer = Ok | Refused(text: string) | Lost(text: string) | NotFound

  datatype Action =
    | Pop
    | Get(answer: Answer)
    | Connect(answer: Answer)
    | SaveFinalizer(answer: Answer)
    | ReadSelector(answer: Answer)
    | Prepare
    | PickNamespace(key: Key)
    | PostGroup(answer: Answer)
    | FinishNamespace
    | EndPosting
    | ListTenant(answer: Answer, stale: seq<string>)
    | DeleteNext(answer: Answer)
    | EndDeleting
    | ListForRemoval(answer: Answer, elements: seq<string>)
    | RemoveNext(answer: Answer)
    | EndRemoval
    | SaveRemoval(answer: Answer)
    | SaveStatus(answer: Answer)

  function At(node: Node, phase: Phase): Node { node.(process := node.process.(phase := phase)) }

  const IDLE := Process(Idle, None, 0, map[], [])

  // Reconcile returns an error: the key goes back to the queue.
  function Retry(node: Node): Node { node.(dirty := true, process := IDLE) }

  function Finish(node: Node): Node { node.(process := IDLE) }

  // setStatus with an error, RefRules being as the reconciliation has left them.
  function Fail(p: Process, error: Cause, refRules: seq<string>): Process {
    p.(phase := Reporting(Status(IsFailed, error, refRules)))
  }

  // The error of a call that failed; `ns` is the namespace it was about, if any.
  function CauseOf(answer: Answer, ns: string): Cause {
    match answer
    case Ok => NoError
    case Refused(text) => CallFailed(text)
    case Lost(text) => CallFailed(text)
    case NotFound => Missing(ns)
  }

  // Any change of the stored object gives it a new version and, the watch having no
  // predicate, puts the key in the queue.
  function Stored(node: Node, stored: Option<MimirRules>): Node {
    node.(stored := stored, version := node.version + 1, dirty := true)
  }

  predicate Applies(answer: Answer) { answer.Ok? || answer.Lost? }

  // An update carries the version it was read at and is refused if that is not the current one.
  predicate Unchanged(node: Node) { node.stored.Some? && node.version == node.process.version }

  function KeyTexts(keys: set<Key>): set<string> { set k | k in keys :: KeyText(k) }

  // What the list call for one selector adds to what has been read: matching rules not there yet.
  function ReadMore(cluster: Cluster, selector: Selector, read: Contents): Contents {
    read + map k | k in cluster && k !in read && Matches(selector, cluster[k].labels) :: cluster[k].groups
  }

  function TextOf(spec: Spec, groups: seq<Group<Labels>>): Option<seq<Group<Labels>>> {
    Transform(spec.overrides, spec.external, groups)
  }

  // The actions of a synchronisation, from the finalizer check to the status report.
  predicate IsSync(action: Action) {
    action.ReadSelector? || action.Prepare? || action.PickNamespace? || action.PostGroup? || action.FinishNamespace?
    || action.EndPosting? || action.ListTenant? || action.DeleteNext? || action.EndDeleting?
  }

  ghost predicate CanPerform(node: Node, store: Store, action: Action) {
    var p := node.process;
    if IsSync(action) then CanSynchronise(p, store, action) || (action.Prepare? && Panics(p))
    else
      match action
      case Pop => p.phase.Idle? && node.dirty
      case Get(a) => p.phase.Popped? && !a.NotFound?
      case Connect(a) => p.phase.Got? && p.copy.Some? && !a.NotFound?
      case SaveFinalizer(a) => p.phase.AddingFinalizer? && p.copy.Some? && CanSave(node, a)
      case ListForRemoval(a, elements) =>
        p.phase.ListingAll? && p.copy.Some? && !a.NotFound? && (a.Ok? ==> IsFlatList(elements, store))
      case RemoveNext(a) => p.phase.Removing? && p.copy.Some? && CanDelete(p.phase.rest, store, a)
      case EndRemoval => p.phase.Removing? && p.phase.rest == []
      case SaveRemoval(a) => p.phase.DroppingFinalizer? && p.copy.Some? && CanSave(node, a)
      case SaveStatus(a) => p.phase.Reporting? && CanSave(node, a)
      case _ => false
  }

  predicate CanSave(node: Node, answer: Answer) { !answer.NotFound? && (Applies(answer) ==> Unchanged(node)) }

  predicate CanDelete(rest: seq<string>, store: Store, answer: Answer) {
    rest != [] && (answer.NotFound? ==> rest[0] !in store)
  }

  // What ListRulesElement makes of the rules of the tenant: each namespace once per group.
  ghost predicate IsFlatList(elements: seq<string>, store: Store) {
    exists keys :: Ascending(keys) && Elements(keys) == store.Keys && elements == PerGroup(keys, store)
  }

  // Everything is read and the overrides run out of range in some rule.
  ghost predicate Panics(p: Process) {
    && p.phase.Reading? && p.copy.Some? && p.phase.next == |p.copy.value.spec.selectors|
    && exists k :: k in p.phase.read && TextOf(p.copy.value.spec, p.phase.read[k]).None?
  }

  // A crash loses the queue and what was under way; after the restart every MimirRules is queued.
  function AfterCrash(node: Node): Node { node.(dirty := node.stored.Some?, process := IDLE) }

  ghost predicate CanSynchronise(p: Process, store: Store, action: Action) {
    match action
    case ReadSelector(a) =>
      p.phase.Reading? && p.copy.Some? && p.phase.next < |p.copy.value.spec.selectors| && !a.NotFound?
    case Prepare =>
      p.phase.Reading? && p.copy.Some? && p.phase.next == |p.copy.value.spec.selectors|
      && forall k :: k in p.phase.read ==> TextOf(p.copy.value.spec, p.phase.read[k]).Some?
    case PickNamespace(k) => p.phase.Posting? && p.phase.current.None? && k in p.phase.todo && k in p.texts
    case PostGroup(a) => p.phase.Posting? && p.phase.current.Some? && p.phase.current.value.1 != [] && !a.NotFound?
    case FinishNamespace => p.phase.Posting? && p.phase.current.Some? && p.phase.current.value.1 == []
    case EndPosting => p.phase.Posting? && p.phase.current.None? && p.phase.todo == {}
    case ListTenant(a, stale) =>
      p.phase.Listing? && !a.NotFound?
      && (a.Ok? ==> Ascending(stale) && Elements(stale) == store.Keys - KeyTexts(p.texts.Keys))
    case DeleteNext(a) => p.phase.Deleting? && CanDelete(p.phase.rest, store, a)
    case EndDeleting => p.phase.Deleting? && p.phase.rest == []
    case _ => false
  }

  // The effect of an action on the node and on the rules of its tenant.
  ghost function Perform(cluster: Cluster, node: Node, store: Store, action: Action): (Node, Store)
    requires CanPerform(node, store, action)
  {
    var p := node.process;
    if action.Prepare? && Panics(p) then (AfterCrash(node), store)
    else if IsSync(action) then
      var (q, after) := Synchronise(cluster, p, store, action);
      (node.(process := q), after)
    else
      match action
      case Pop => (node.(dirty := false, process := IDLE.(phase := Popped)), store)
      case Get(a) =>
        if !a.Ok? then (Retry(node), store)
        else if node.stored.None? then (Finish(node), store)
        else (node.(process := p.(phase := Got, copy := node.stored, version := node.version)), store)
      case Connect(a) =>
        var mr := p.copy.value;
        if !a.Ok? then (node.(process := Fail(p, CauseOf(a, ""), mr.status.refRules)), store)
        else if !mr.deleting && !mr.finalizer then (At(node, AddingFinalizer), store)
        else if mr.deleting && mr.finalizer then (At(node, ListingAll), store)
        else (At(node, Reading(0, map[])), store)
      case SaveFinalizer(a) =>
        var saved := if Applies(a) then Stored(node, Some(node.stored.value.(finalizer := true))) else node;
        if !a.Ok? then (Retry(saved), store)
        else (saved.(process := p.(phase := Reading(0, map[]), copy := saved.stored, version := saved.version)), store)
      case ListForRemoval(a, elements) =>
        if !a.Ok? then (node.(process := Fail(p, CauseOf(a, ""), p.copy.value.status.refRules)), store)
        else (At(node, Removing(elements)), store)
      case RemoveNext(a) =>
        var ns := p.phase.rest[0];
        var after := if Applies(a) then Drop(store, ns) else store;
        if !a.Ok? then (node.(process := Fail(p, CauseOf(a, ns), p.copy.value.status.refRules)), after)
        else (At(node, Removing(p.phase.rest[1..])), after)
      case EndRemoval => (At(node, DroppingFinalizer), store)
      case SaveRemoval(a) =>
        // Removing the last finalizer of an object being deleted makes it disappear.
        var left := if node.stored.Some? && node.stored.value.foreign
                    then Some(node.stored.value.(finalizer := false)) else None;
        var saved := if Applies(a) then Stored(node, left) else node;
        (if a.Ok? then Finish(saved) else Retry(saved), store)
      case SaveStatus(a) =>
        var saved := if Applies(a) && node.stored.value.status != p.phase.status
                     then Stored(node, Some(node.stored.value.(status := p.phase.status))) else node;
        (if a.Ok? then Finish(saved) else Retry(saved), store)
      case _ => (node, store)
  }

  // syncRulesToRuler, call by call.
  ghost function Synchronise(cluster: Cluster, p: Process, store: Store, action: Action): (Process, Store)
    requires CanSynchronise(p, store, action)
  {
    match action
    case ReadSelector(a) =>
      var selector := p.copy.value.spec.selectors[p.phase.next];
      if selector.Invalid? then (Fail(p, BadSelector(selector.reason), p.copy.value.status.refRules), store)
      else if !a.Ok? then (Fail(p, CauseOf(a, ""), p.copy.value.status.refRules), store)
      else (p.(phase := Reading(p.phase.next + 1, ReadMore(cluster, selector, p.phase.read))), store)
    case Prepare =>
      var texts := map k | k in p.phase.read :: TextOf(p.copy.value.spec, p.phase.read[k]).value;
      (p.(phase := Posting(texts.Keys, None), texts := texts, posted := []), store)
    case PickNamespace(k) =>
      var groups := Decode(p.texts[k]);
      if groups.None? then
        FaultMeaning(p.texts[k]);
        (Fail(p, BadText(FirstFault(p.texts[k]).value), p.posted), store)
      else (p.(phase := Posting(p.phase.todo - {k}, Some((k, groups.value)))), store)
    case PostGroup(a) =>
      var (k, groups) := p.phase.current.value;
      var after := if Applies(a) then PostTo(store, KeyText(k), groups[0]) else store;
      if !a.Ok? then (Fail(p, CauseOf(a, ""), p.posted), after)
      else (p.(phase := Posting(p.phase.todo, Some((k, groups[1..])))), after)
    case FinishNamespace =>
      (p.(phase := Posting(p.phase.todo, None), posted := p.posted + [KeyText(p.phase.current.value.0)]), store)
    case EndPosting => (p.(phase := Listing, posted := Sort(p.posted)), store)
    case ListTenant(a, stale) =>
      (if a.Ok? then p.(phase := Deleting(stale)) else Fail(p, CauseOf(a, ""), p.posted), store)
    case DeleteNext(a) =>
      var ns := p.phase.rest[0];
      var after := if Applies(a) then Drop(store, ns) else store;
      if !a.Ok? then (Fail(p, CauseOf(a, ns), p.posted), after)
      else (p.(phase := Deleting(p.phase.rest[1..])), after)
    case EndDeleting => (p.(phase := Reporting(Status(IsSynced, NoError, p.posted))), store)
    case _ => (p, store)
  }

  // ---------------------------------------------------------------------------------------
  // The whole system
  // ---------------------------------------------------------------------------------------

  // `pending` holds the PrometheusRules with a change the watch handler has not seen yet.
  datatype System = System(cluster: Cluster, pending: set<Key>, nodes: map<Key, Node>, remote: map<string, Store>)

  datatype Event =
    | Reconcile(m: Key, action: Action)
    | CreateMimirRules(m: Key, spec: Spec, foreign: bool)
    | UpdateSpec(m: Key, spec: Spec)
    | DeleteMimirRules(m: Key, foreign: bool)
    | AddForeign(m: Key)
    | DropForeign(m: Key)
    | Requeue(m: Key)
    | PutRule(key: Key, rule: PromRule)
    | DeleteRule(key: Key)
    | Handle(key: Key)
    | LoseEvent(key: Key)
    | Crash

  // How another finalizer comes to be on an object: it is created with one, gets one later, or
  // gets one as it is deleted.
  datatype Way = AtCreation | Afterwards | WithDeletion

  predicate SetsForeign(e: Event) { WayOf(e).Some? }

  function WayOf(e: Event): Option<Way> {
    match e
    case CreateMimirRules(_, _, foreign) => if foreign then Some(AtCreation) else None
    case AddForeign(_) => Some(Afterwards)
    case DeleteMimirRules(_, foreign) => if foreign then Some(WithDeletion) else None
    case _ => None
  }

  // The ways in which other finalizers are set in a run.
  function Ways(events: seq<Event>): set<Way> {
    if events == [] then {}
    else
      var n := |events| - 1;
      Ways(events[..n]) + if SetsForeign(events[n]) then {WayOf(events[n]).value} else {}
  }

  lemma {:induction false} WaysSnoc(events: seq<Event>, e: Event)
    ensures Ways(events + [e]) == Ways(events) + if SetsForeign(e) then {WayOf(e).value} else {}
  {
    assert (events + [e])[..|events|] == events;
  }

  predicate SelectedNow(cluster: Cluster, spec: Spec, key: Key) {
    key in cluster && Selected(spec.selectors, cluster[key].labels)
  }

  // reconcileOnPrometheusRuleChange: the MimirRules to reconcile after a change of a rule.
  predicate Requested(cluster: Cluster, stored: Option<MimirRules>, key: Key) {
    stored.Some? && (SelectedNow(cluster, stored.value.spec, key) || KeyText(key) in stored.value.status.refRules)
  }

  function AfterHandle(cluster: Cluster, node: Node, key: Key): Node {
    if Requested(cluster, node.stored, key) then node.(dirty := true) else node
  }

  // What a user does to an object. A foreground deletion sets a finalizer of its own.
  function AfterDelete(node: Node, foreign: bool): Node {
    if node.stored.None? then node
    else
      var held := foreign || node.stored.value.foreign;
      if !node.stored.value.finalizer && !held then Stored(node, None)
      else Stored(node, Some(node.stored.value.(deleting := true, foreign := held)))
  }

  function AfterDropForeign(node: Node): Node {
    if node.stored.None? then node
    else if node.stored.value.deleting && !node.stored.value.finalizer then Stored(node, None)
    else Stored(node, Some(node.stored.value.(foreign := false)))
  }

  ghost predicate Enabled(s: System, e: Event) {
    match e
    case Reconcile(m, a) => m in s.nodes && CanPerform(s.nodes[m], StoreOf(s, m), a)
    case CreateMimirRules(m, _, _) => m in s.nodes && s.nodes[m].stored.None?
    case UpdateSpec(m, _) => m in s.nodes && s.nodes[m].stored.Some?
    case DeleteMimirRules(m, _) => m in s.nodes
    // Kubernetes refuses a new finalizer on an object being deleted.
    case AddForeign(m) => m in s.nodes && s.nodes[m].stored.Some? && !s.nodes[m].stored.value.deleting
    case DropForeign(m) => m in s.nodes
    case Requeue(m) => m in s.nodes
    case PutRule(key, _) => Plain(key.namespace)
    case _ => true
  }

  ghost predicate SelectorsValid(node: Node) {
    node.stored.Some? ==> Selection.AllValid(node.stored.value.spec.selectors)
  }

  // The transformation runs out of range; or the handler comes upon the nil list that it gets
  // for an invalid selector. A failing list call, which gives it one too, is a Crash.
  ghost predicate Panicking(s: System, e: Event) {
    match e
    case Reconcile(m, action) => m in s.nodes && action.Prepare? && Panics(s.nodes[m].process)
    case Handle(key) => key in s.cluster && exists m :: m in s.nodes && !SelectorsValid(s.nodes[m])
    case _ => false
  }

  // What an event comes down to: a panic is not recovered from and ends the operator.
  ghost function Effect(s: System, e: Event): Event { if Panicking(s, e) then Crash else e }

  // What an event does to a node other than through a reconciliation of it. `mine` tells
  // whether an event on one MimirRules is on this one.
  function Outside(cluster: Cluster, node: Node, e: Event, mine: bool): Node
    requires mine && e.CreateMimirRules? ==> node.stored.None?
    requires mine && (e.UpdateSpec? || e.AddForeign?) ==> node.stored.Some?
  {
    match e
    case CreateMimirRules(_, spec, foreign) =>
      if mine then Stored(node, Some(MimirRules(spec, Status(Unset, NoError, []), false, false, foreign))) else node
    case UpdateSpec(_, spec) => if mine then Stored(node, Some(node.stored.value.(spec := spec))) else node
    case DeleteMimirRules(_, foreign) => if mine then AfterDelete(node, foreign) else node
    case AddForeign(_) => if mine then Stored(node, Some(node.stored.value.(foreign := true))) else node
    case DropForeign(_) => if mine then AfterDropForeign(node) else node
    case Requeue(_) => if mine then node.(dirty := true) else node
    case Handle(key) => AfterHandle(cluster, node, key)
    case Crash => AfterCrash(node)
    case _ => node
  }

  predicate IsOn(e: Event, m: Key) {
    match e
    case Reconcile(n, _) => m == n
    case CreateMimirRules(n, _, _) => m == n
    case UpdateSpec(n, _) => m == n
    case DeleteMimirRules(n, _) => m == n
    case AddForeign(n) => m == n
    case DropForeign(n) => m == n
    case Requeue(n) => m == n
    case _ => false
  }

  ghost function StoreOf(s: System, m: Key): Store
    requires m in s.nodes
  {
    TenantStore(s.remote, s.nodes[m].id)
  }

  ghost function NodeAfter(s: System, e: Event, m: Key): Node
    requires Enabled(s, e) && m in s.nodes
  {
    var d := Effect(s, e);
    if d.Reconcile? && d.m == m then Perform(s.cluster, s.nodes[m], StoreOf(s, m), d.action).0
    else Outside(s.cluster, s.nodes[m], d, IsOn(d, m))
  }

  function ClusterAfter(cluster: Cluster, e: Event): Cluster {
    match e
    case PutRule(key, rule) => cluster[key := rule]
    case DeleteRule(key) => cluster - {key}
    case _ => cluster
  }

  function PendingAfter(cluster: Cluster, pending: set<Key>, e: Event): set<Key> {
    match e
    case PutRule(key, _) => pending + {key}
    case DeleteRule(key) => pending + {key}
    case Handle(key) => pending - {key}
    case LoseEvent(key) => pending - {key}
    case Crash => cluster.Keys
    case _ => pending
  }

  ghost function Apply(s: System, e: Event): System
    requires Enabled(s, e)
  {
    var d := Effect(s, e);
    System(
      ClusterAfter(s.cluster, d),
      PendingAfter(s.cluster, s.pending, d),
      map m | m in s.nodes :: NodeAfter(s, e, m),
      if d.Reconcile? then s.remote[s.nodes[d.m].id := Perform(s.cluster, s.nodes[d.m], StoreOf(s, d.m), d.action).1]
      else s.remote)
  }

  // Where a sequence of events leads, if each is possible when its turn comes.
  ghost function Run(s: System, events: seq<Event>): Option<System> {
    if events == [] then Some(s)
    else
      var n := |events| - 1;
      var before := Run(s, events[..n]);
      if before.Some? && Enabled(before.value, events[n]) then Some(Apply(before.value, events[n])) else None
  }

  // Before anything has happened: no MimirRules, empty tenants, a tenant for each name.
  ghost predicate Initial(s: System) {
    && (forall k :: k in s.cluster ==> Plain(k.namespace))
    && (forall m :: m in s.nodes ==> s.nodes[m].stored.None? && !s.nodes[m].dirty && s.nodes[m].process == IDLE
                                     && StoreOf(s, m) == map[])
    && OneTenantEach(s)
  }

  ghost predicate OneTenantEach(s: System) {
    forall m, n :: m in s.nodes && n in s.nodes && m != n ==> s.nodes[m].id != s.nodes[n].id
  }

  lemma ActionKeepsId(cluster: Cluster, node: Node, store: Store, action: Action)
    requires CanPerform(node, store, action)
    ensures Perform(cluster, node, store, action).0.id == node.id
    ensures Valid(store) ==> Valid(Perform(cluster, node, store, action).1)
  {
    hide Transform, ReadMore, Sort, KeyText, Decode, PerGroup, Ascending, Elements, Unchanged, Matches;
    PostsAndDropsKeepValid();
  }

  lemma PostsAndDropsKeepValid()
    ensures forall store, ns, group :: Valid(store) ==> Valid(PostTo(store, ns, group))
    ensures forall store, ns :: Valid(store) ==> Valid(Drop(store, ns))
  {
    forall store: Store, ns, group: RemoteGroup | Valid(store) ensures Valid(PostTo(store, ns, group)) {
      assert group.name in PostTo(store, ns, group)[ns];
    }
  }

  // An event affects one node at most, unless it is a watch event or a crash; and the rules of
  // a tenant change only through a reconciliation of its own node.
  lemma NodeStep(s: System, e: Event, m: Key)
    requires Enabled(s, e) && OneTenantEach(s) && m in s.nodes
    ensures m in Apply(s, e).nodes && Apply(s, e).nodes[m] == NodeAfter(s, e, m)
          && NodeAfter(s, e, m).id == s.nodes[m].id
    ensures StoreOf(Apply(s, e), m) ==
            var d := Effect(s, e);
            if d.Reconcile? && d.m == m then Perform(s.cluster, s.nodes[m], StoreOf(s, m), d.action).1
            else StoreOf(s, m)
  {
    hide Perform, CanPerform, Panicking;
    if e.Reconcile? {
      ActionKeepsId(s.cluster, s.nodes[e.m], StoreOf(s, e.m), e.action);
    }
  }

  lemma StepKeepsTenants(s: System, e: Event)
    requires Enabled(s, e) && OneTenantEach(s)
    ensures OneTenantEach(Apply(s, e)) && Apply(s, e).nodes.Keys == s.nodes.Keys
  {
    hide Perform, CanPerform, Enabled;
    forall m | m in s.nodes ensures Apply(s, e).nodes[m].id == s.nodes[m].id {
      NodeStep(s, e, m);
    }
  }

  lemma {:induction false} RunKeepsNodes(s: System, events: seq<Event>)
    requires Run(s, events).Some?
    ensures Run(s, events).value.nodes.Keys == s.nodes.Keys
  {
    hide Enabled, NodeAfter;
    if events != [] {
      RunKeepsNodes(s, events[..|events| - 1]);
    }
  }

  lemma {:induction false} BeginRun(s: System)
    ensures Run(s, []) == Some(s)
  {
  }

  lemma {:induction false} Extend(s: System, events: seq<Event>, e: Event)
    requires Run(s, events).Some? && Enabled(Run(s, events).value, e)
    ensures Run(s, events + [e]) == Some(Apply(Run(s, events).value, e))
  {
    hide Enabled, Apply;
    assert (events + [e])[..|events|] == events;
  }

  // A run continued by one action on a node.
  lemma Do(s: System, events: seq<Event>, t: System, m: Key, action: Action) returns (more: seq<Event>, u: System)
    requires Run(s, events) == Some(t) && m in t.nodes && OneTenantEach(t)
    requires CanPerform(t.nodes[m], StoreOf(t, m), action) && !(action.Prepare? && Panics(t.nodes[m].process))
    ensures more == events + [Reconcile(m, action)] && Run(s, more) == Some(u) && Ways(more) == Ways(events)
    ensures OneTenantEach(u) && u.cluster == t.cluster && u.pending == t.pending && m in u.nodes
    ensures u.nodes[m] == Perform(t.cluster, t.nodes[m], StoreOf(t, m), action).0
    ensures StoreOf(u, m) == Perform(t.cluster, t.nodes[m], StoreOf(t, m), action).1
  {
    hide Perform, CanPerform, Run, Ways;
    var e := Reconcile(m, action);
    WaysSnoc(events, e);
    Extend(s, events, e);
    NodeStep(t, e, m);
    StepKeepsTenants(t, e);
    more, u := events + [e], Apply(t, e);
  }

  // A key taken up and its object fetched.
  lemma Fetch(s: System, events: seq<Event>, t: System, m: Key) returns (more: seq<Event>, u: System)
    requires Run(s, events) == Some(t) && m in t.nodes && OneTenantEach(t)
    requires t.nodes[m].dirty && t.nodes[m].process.phase.Idle? && t.nodes[m].stored.Some?
    ensures Run(s, more) == Some(u) && Ways(more) == Ways(events)
    ensures OneTenantEach(u) && u.cluster == t.cluster && m in u.nodes && StoreOf(u, m) == StoreOf(t, m)
    ensures u.nodes[m].stored == t.nodes[m].stored && u.nodes[m].version == t.nodes[m].version
    ensures u.nodes[m].process == IDLE.(phase := Got, copy := t.nodes[m].stored, version := t.nodes[m].version)
  {
    hide Run, Synchronise, CanSynchronise, OneTenantEach, Ways;
    more, u := Do(s, events, t, m, Pop);
    more, u := Do(s, more, u, m, Get(Ok));
  }

  // A run continued by anything else that happens.
  lemma Happen(s: System, events: seq<Event>, t: System, m: Key, e: Event) returns (more: seq<Event>, u: System)
    requires Run(s, events) == Some(t) && m in t.nodes && OneTenantEach(t) && Enabled(t, e)
    requires !e.Reconcile? && !Panicking(t, e)
    ensures more == events + [e] && Run(s, more) == Some(u)
    ensures Ways(more) == Ways(events) + if SetsForeign(e) then {WayOf(e).value} else {}
    ensures OneTenantEach(u) && u.cluster == ClusterAfter(t.cluster, e) && m in u.nodes
    ensures u.nodes[m] == Outside(t.cluster, t.nodes[m], e, IsOn(e, m)) && StoreOf(u, m) == StoreOf(t, m)
  {
    hide Run, Outside, Enabled, Ways, SetsForeign;
    WaysSnoc(events, e);
    Extend(s, events, e);
    NodeStep(t, e, m);
    StepKeepsTenants(t, e);
    more, u := events + [e], Apply(t, e);
  }

  // What the list calls of all the selectors read of an unchanging cluster.
  function SelectedMap(cluster: Cluster, selectors: seq<Selector>): Contents {
    map k | k in cluster && Selected(selectors, cluster[k].labels) :: cluster[k].groups
  }

  lemma ReadOneMore(cluster: Cluster, selectors: seq<Selector>, i: nat)
    requires i < |selectors|
    ensures ReadMore(cluster, selectors[i], SelectedMap(cluster, selectors[..i]))
          == SelectedMap(cluster, selectors[..i + 1])
  {
    SelectedMore(selectors, i);
  }

  // Reading an unchanging cluster without errors ends with the selected rules.
  lemma ReadAll(s: System, events: seq<Event>, t: System, m: Key) returns (more: seq<Event>, u: System)
    requires Run(s, events) == Some(t) && m in t.nodes && OneTenantEach(t)
    requires t.nodes[m].process.phase == Reading(0, map[]) && t.nodes[m].process.copy.Some?
    requires Selection.AllValid(t.nodes[m].process.copy.value.spec.selectors)
    ensures Run(s, more) == Some(u) && Ways(more) == Ways(events)
    ensures OneTenantEach(u) && u.cluster == t.cluster && u.pending == t.pending && m in u.nodes
    ensures var selectors := t.nodes[m].process.copy.value.spec.selectors;
            u.nodes[m] == At(t.nodes[m], Reading(|selectors|, SelectedMap(t.cluster, selectors)))
    ensures StoreOf(u, m) == StoreOf(t, m)
  {
    hide Run, SelectedMap, Ways;
    var selectors := t.nodes[m].process.copy.value.spec.selectors;
    more, u := events, t;
    var i := 0;
    NothingSelected(t.cluster, selectors);
    while i < |selectors|
      invariant i <= |selectors| && Run(s, more) == Some(u) && Ways(more) == Ways(events)
      invariant OneTenantEach(u) && u.cluster == t.cluster && u.pending == t.pending && m in u.nodes
      invariant u.nodes[m] == At(t.nodes[m], Reading(i, SelectedMap(t.cluster, selectors[..i])))
      invariant StoreOf(u, m) == StoreOf(t, m)
    {
      ReadOneMore(t.cluster, selectors, i);
      more, u := Do(s, more, u, m, ReadSelector(Ok));
      i := i + 1;
    }
    assert selectors[..i] == selectors;
  }

  lemma NothingSelected(cluster: Cluster, selectors: seq<Selector>)
    ensures SelectedMap(cluster, selectors[..0]) == map[]
  {
  }
}
