// A quiet cluster is in agreement: what a MimirRules that reports success selects is what its
// tenant holds, and RefRules lists it.
module Agreement {
  import opened Words
  import opened Ordering
  import opened RuleModel
  import opened Selection
  import opened RemoteRuler
  import opened RuleSync
  import opened Operator

  // ---------------------------------------------------------------------------------------
  // Delivery of one namespace
  // ---------------------------------------------------------------------------------------

  // The namespace holds, under each name given, the last of the groups of that name.
  ghost predicate Holds(store: Store, ns: string, groups: seq<RemoteGroup>) {
    forall name :: LastNamed(groups, name).Some? ==>
      name in GroupsAt(store, ns) && GroupsAt(store, ns)[name] == LastNamed(groups, name).value
  }

  ghost predicate Delivered(store: Store, ns: string, text: seq<Group<Labels>>) {
    Decode(text).Some? && Holds(store, ns, Decode(text).value)
  }

  lemma PostHolds(store: Store, ns: string, groups: seq<RemoteGroup>, group: RemoteGroup)
    requires Holds(store, ns, groups)
    ensures Holds(PostTo(store, ns, group), ns, groups + [group])
  {
    assert (groups + [group])[..|groups|] == groups;
  }

  lemma ElsewhereHolds(store: Store, other: string, group: RemoteGroup, ns: string, text: seq<Group<Labels>>)
    requires Delivered(store, ns, text) && other != ns
    ensures Delivered(PostTo(store, other, group), ns, text) && Delivered(Drop(store, other), ns, text)
  {
    hide Decode, LastNamed;
    assert GroupsAt(PostTo(store, other, group), ns) == GroupsAt(store, ns) == GroupsAt(Drop(store, other), ns);
  }

  // ---------------------------------------------------------------------------------------
  // The invariant of one node
  // ---------------------------------------------------------------------------------------

  ghost predicate PlainKeys(keys: set<Key>) { forall k: Key :: k in keys ==> Plain(k.namespace) }

  // A snapshot of the selected rules: rightly without a key, or right about it; or else
  // without trace of it in the stored RefRules, so that the status is going to change.
  ghost predicate Current(cluster: Cluster, pending: set<Key>, spec: Spec, refs: seq<string>, texts: Contents)
  {
    forall key: Key :: Plain(key.namespace) && key !in pending ==>
      if key in texts then
        KeyText(key) !in refs
        || (SelectedNow(cluster, spec, key) && TextOf(spec, cluster[key].groups) == Some(texts[key]))
      else !SelectedNow(cluster, spec, key)
  }

  // The same while the list calls are being made.
  ghost predicate CurrentSoFar(cluster: Cluster, pending: set<Key>, spec: Spec, refs: seq<string>, next: nat,
                               read: Contents)
  {
    && next <= |spec.selectors| && PlainKeys(read.Keys)
    && forall key: Key :: Plain(key.namespace) && key !in pending ==>
         if key in read then
           KeyText(key) !in refs || (SelectedNow(cluster, spec, key) && cluster[key].groups == read[key])
         else key in cluster ==> !Selected(spec.selectors[..next], cluster[key].labels)
  }

  ghost predicate DoneWith(texts: Contents, done: set<Key>, posted: seq<string>, store: Store) {
    && PlainKeys(texts.Keys) && done <= texts.Keys
    && Distinct(posted) && Elements(posted) == KeyTexts(done)
    && forall k :: k in done ==> Delivered(store, KeyText(k), texts[k])
  }

  // The namespace being posted: its last groups are still to come.
  ghost predicate Halfway(store: Store, ns: string, text: seq<Group<Labels>>, rest: seq<RemoteGroup>) {
    && Decode(text).Some? && |rest| <= |Decode(text).value|
    && var n := |Decode(text).value| - |rest|;
       rest == Decode(text).value[n..] && Holds(store, ns, Decode(text).value[..n])
  }

  ghost predicate PostedSoFar(texts: Contents, todo: set<Key>,
                              current: Option<(Key, seq<RemoteGroup>)>,
                              posted: seq<string>, store: Store)
  {
    && todo <= texts.Keys
    && match current
       case None => DoneWith(texts, texts.Keys - todo, posted, store)
       case Some((k, rest)) =>
         k in texts && k !in todo && DoneWith(texts, texts.Keys - todo - {k}, posted, store)
         && Halfway(store, KeyText(k), texts[k], rest)
  }

  ghost predicate FullyPosted(texts: Contents, posted: seq<string>, store: Store) {
    Ascending(posted) && DoneWith(texts, texts.Keys, posted, store)
  }

  ghost predicate IsKeyText(text: string) { exists key: Key :: Plain(key.namespace) && KeyText(key) == text }

  // Agreement, but for the rules whose last change has not been handled.
  ghost predicate Agreed(cluster: Cluster, pending: set<Key>, spec: Spec, refs: seq<string>, store: Store) {
    && Ascending(refs) && store.Keys <= Elements(refs)
    && (forall x :: x in refs ==> IsKeyText(x))
    && forall key: Key :: Plain(key.namespace) && key !in pending ==>
         && (SelectedNow(cluster, spec, key) <==> KeyText(key) in refs)
         && (SelectedNow(cluster, spec, key) ==>
               var text := TextOf(spec, cluster[key].groups);
               text.Some? && Delivered(store, KeyText(key), text.value))
  }

  // While the reconciliation runs the object is as it was read.
  ghost predicate InStep(node: Node) { node.process.copy.Some? && node.process.copy == node.stored }

  // Without its key in the queue, a node at rest is in agreement or failed, and one in flight is
  // on its way there.
  ghost predicate Tracked(cluster: Cluster, pending: set<Key>, node: Node, store: Store) {
    node.dirty ||
    match node.process.phase
    case Idle =>
      node.stored.Some? ==>
        var status := node.stored.value.status;
        status.state.IsFailed? || (status.state.IsSynced? && Agreed(cluster, pending, node.stored.value.spec,
              status.refRules, store))
    case Popped => true
    case Reading(next, read) =>
      InStep(node)
      && CurrentSoFar(cluster, pending, node.stored.value.spec, node.stored.value.status.refRules, next, read)
    case Posting(todo, current) =>
      InStep(node) && Snapshot(cluster, pending, node)
      && PostedSoFar(node.process.texts, todo, current, node.process.posted, store)
    case Listing => InStep(node) && Snapshot(cluster, pending, node)
          && FullyPosted(node.process.texts, node.process.posted, store)
    case Deleting(rest) =>
      InStep(node) && Snapshot(cluster, pending, node) && FullyPosted(node.process.texts, node.process.posted, store)
      && Elements(rest) !! Elements(node.process.posted)
      && store.Keys <= Elements(node.process.posted) + Elements(rest)
    case Reporting(status) =>
      InStep(node)
      && (status.state.IsFailed?
          || (status.state.IsSynced? && Snapshot(cluster, pending, node)
                && FullyPosted(node.process.texts, node.process.posted, store)
              && status.refRules == node.process.posted && store.Keys <= Elements(status.refRules)))
    case _ => InStep(node)
  }

  ghost predicate Snapshot(cluster: Cluster, pending: set<Key>, node: Node)
    requires InStep(node)
  {
    Current(cluster, pending, node.stored.value.spec, node.stored.value.status.refRules, node.process.texts)
  }

  // ---------------------------------------------------------------------------------------
  // Steps of the reconciliation
  // ---------------------------------------------------------------------------------------

  lemma ReadKeeps(cluster: Cluster, pending: set<Key>, node: Node, store: Store, answer: Answer)
    requires Tracked(cluster, pending, node, store) && CanPerform(node, store, ReadSelector(answer)) && !node.dirty
    requires PlainKeys(cluster.Keys)
    ensures Tracked(cluster, pending, Perform(cluster, node, store, ReadSelector(answer)).0, store)
  {
    hide CurrentSoFar, ReadMore;
    var p := node.process;
    var spec := p.copy.value.spec;
    if !spec.selectors[p.phase.next].Invalid? && answer.Ok? {
      OneMoreRead(cluster, pending, spec, p.copy.value.status.refRules, p.phase.next, p.phase.read);
    }
  }

  lemma OneMoreRead(cluster: Cluster, pending: set<Key>, spec: Spec, refs: seq<string>, next: nat,
                    read: Contents)
    requires CurrentSoFar(cluster, pending, spec, refs, next, read) && next < |spec.selectors|
          && PlainKeys(cluster.Keys)
    ensures CurrentSoFar(cluster, pending, spec, refs, next + 1, ReadMore(cluster, spec.selectors[next], read))
  {
    hide Meets, KeyText, Matches;
    SelectedMore(spec.selectors, next);
    var more := ReadMore(cluster, spec.selectors[next], read);
    forall key | key in more && key !in read ensures SelectedNow(cluster, spec, key) {
      assert Matches(spec.selectors[next], cluster[key].labels);
    }
  }

  lemma PrepareKeeps(cluster: Cluster, pending: set<Key>, node: Node, store: Store)
    requires Tracked(cluster, pending, node, store) && CanPerform(node, store, Prepare) && !node.dirty
    requires !Panics(node.process)
    ensures Tracked(cluster, pending, Perform(cluster, node, store, Prepare).0, store)
  {
    hide Matches, KeyText, Decode, Transform;
    var spec := node.process.copy.value.spec;
    assert spec.selectors[..|spec.selectors|] == spec.selectors;
    assert KeyTexts({}) == {};
    var q := Perform(cluster, node, store, Prepare).0.process;
    assert q.texts.Keys - q.phase.todo == {};
  }

  lemma PickKeeps(cluster: Cluster, pending: set<Key>, node: Node, store: Store, k: Key)
    requires Tracked(cluster, pending, node, store) && CanPerform(node, store, PickNamespace(k)) && !node.dirty
    ensures Tracked(cluster, pending, Perform(cluster, node, store, PickNamespace(k)).0, store)
  {
    hide KeyText, Decode, Current, DoneWith;
    var p := node.process;
    var groups := Decode(p.texts[k]);
    if groups.Some? {
      assert p.texts.Keys - (p.phase.todo - {k}) - {k} == p.texts.Keys - p.phase.todo;
      assert groups.value[..0] == [];
    }
  }

  lemma PostKeeps(cluster: Cluster, pending: set<Key>, node: Node, store: Store, answer: Answer)
    requires Tracked(cluster, pending, node, store) && CanPerform(node, store, PostGroup(answer)) && !node.dirty
    ensures var (n, t) := Perform(cluster, node, store, PostGroup(answer)); Tracked(cluster, pending, n, t)
  {
    hide KeyText, Decode, Current, DoneWith, PostTo, Halfway;
    var p := node.process;
    var (k, rest) := p.phase.current.value;
    if answer.Ok? {
      PostedFurther(p.texts, p.texts.Keys - p.phase.todo - {k}, p.posted, store, k, rest);
    }
  }

  lemma PostedFurther(texts: Contents, done: set<Key>, posted: seq<string>, store: Store, k: Key,
                      rest: seq<RemoteGroup>)
    requires DoneWith(texts, done, posted, store) && k in texts && k !in done
    requires rest != [] && Halfway(store, KeyText(k), texts[k], rest)
    ensures DoneWith(texts, done, posted, PostTo(store, KeyText(k), rest[0]))
    ensures Halfway(PostTo(store, KeyText(k), rest[0]), KeyText(k), texts[k], rest[1..])
  {
    hide KeyText, Decode, Holds, PostTo;
    var all := Decode(texts[k]).value;
    var n := |all| - |rest|;
    PostHolds(store, KeyText(k), all[..n], rest[0]);
    assert all[..n] + [rest[0]] == all[..n + 1];
    forall j | j in done ensures Delivered(PostTo(store, KeyText(k), rest[0]), KeyText(j), texts[j]) {
      if KeyText(j) == KeyText(k) {
        KeyTextInjective(j, k);
      }
      ElsewhereHolds(store, KeyText(k), rest[0], KeyText(j), texts[j]);
    }
  }

  lemma FinishKeeps(cluster: Cluster, pending: set<Key>, node: Node, store: Store)
    requires Tracked(cluster, pending, node, store) && CanPerform(node, store, FinishNamespace) && !node.dirty
    ensures Tracked(cluster, pending, Perform(cluster, node, store, FinishNamespace).0, store)
  {
    hide KeyText, Decode, Current, DoneWith, Halfway;
    var p := node.process;
    var k := p.phase.current.value.0;
    var done := p.texts.Keys - p.phase.todo - {k};
    OneMoreDone(p.texts, done, p.posted, store, k);
    assert p.texts.Keys - p.phase.todo == done + {k};
  }

  lemma OneMoreDone(texts: Contents, done: set<Key>, posted: seq<string>, store: Store, k: Key)
    requires DoneWith(texts, done, posted, store) && k in texts && k !in done
    requires Halfway(store, KeyText(k), texts[k], [])
    ensures DoneWith(texts, done + {k}, posted + [KeyText(k)], store)
  {
    hide KeyText, Decode, Holds;
    var all := Decode(texts[k]).value;
    assert all[..|all|] == all;
    if KeyText(k) in KeyTexts(done) {
      var j :| j in done && KeyText(j) == KeyText(k);
      KeyTextInjective(j, k);
    }
    ElementsSnoc(posted, KeyText(k));
    assert KeyTexts(done + {k}) == KeyTexts(done) + {KeyText(k)};
  }

  lemma EndPostingKeeps(cluster: Cluster, pending: set<Key>, node: Node, store: Store)
    requires Tracked(cluster, pending, node, store) && CanPerform(node, store, EndPosting) && !node.dirty
    ensures Tracked(cluster, pending, Perform(cluster, node, store, EndPosting).0, store)
  {
    hide KeyText, Decode, Current, Sort, Distinct, Elements, Ascending, Delivered;
    var p := node.process;
    SortDistinct(p.posted);
    AscendingDistinct(Sort(p.posted));
    assert p.texts.Keys - p.phase.todo == p.texts.Keys;
  }

  lemma ListKeeps(cluster: Cluster, pending: set<Key>, node: Node, store: Store, answer: Answer, stale: seq<string>)
    requires Tracked(cluster, pending, node, store) && CanPerform(node, store, ListTenant(answer, stale)) && !node.dirty
    ensures Tracked(cluster, pending, Perform(cluster, node, store, ListTenant(answer, stale)).0, store)
  {
    hide KeyTexts, Decode, Current, Distinct, Elements, Ascending, Delivered;
  }

  lemma DeleteKeeps(cluster: Cluster, pending: set<Key>, node: Node, store: Store, answer: Answer)
    requires Tracked(cluster, pending, node, store) && CanPerform(node, store, DeleteNext(answer)) && !node.dirty
    ensures var (n, t) := Perform(cluster, node, store, DeleteNext(answer)); Tracked(cluster, pending, n, t)
  {
    hide KeyText, Decode, Current, Distinct, Elements, Ascending, Delivered;
    var p := node.process;
    var rest := p.phase.rest;
    FirstOff(rest);
    if answer.Ok? {
      forall k | k in p.texts ensures Delivered(Drop(store, rest[0]), KeyText(k), p.texts[k]) {
        ElsewhereDropped(store, rest[0], KeyText(k), p.texts[k]);
      }
    }
  }

  lemma ElsewhereDropped(store: Store, other: string, ns: string, text: seq<Group<Labels>>)
    requires Delivered(store, ns, text) && other != ns
    ensures Delivered(Drop(store, other), ns, text)
  {
    hide Decode, LastNamed;
    assert GroupsAt(store, ns) == GroupsAt(Drop(store, other), ns);
  }

  lemma EndDeletingKeeps(cluster: Cluster, pending: set<Key>, node: Node, store: Store)
    requires Tracked(cluster, pending, node, store) && CanPerform(node, store, EndDeleting) && !node.dirty
    ensures Tracked(cluster, pending, Perform(cluster, node, store, EndDeleting).0, store)
  {
    hide DoneWith, Decode, Current, Ascending;
  }

  // Saving a status that changes nothing: RefRules had every name already, so that nothing in
  // the snapshot can be out of date.
  lemma SaveStatusKeeps(cluster: Cluster, pending: set<Key>, node: Node, store: Store, answer: Answer)
    requires Tracked(cluster, pending, node, store) && CanPerform(node, store, SaveStatus(answer)) && !node.dirty
    ensures Tracked(cluster, pending, Perform(cluster, node, store, SaveStatus(answer)).0, store)
  {
    hide Agreed, FullyPosted, Snapshot, Elements;
    var status := node.process.phase.status;
    if status == node.stored.value.status && status.state.IsSynced? {
      Settled(cluster, pending, node, store);
    }
  }

  lemma Settled(cluster: Cluster, pending: set<Key>, node: Node, store: Store)
    requires InStep(node) && Snapshot(cluster, pending, node)
    requires FullyPosted(node.process.texts, node.process.posted, store)
    requires node.stored.value.status.refRules == node.process.posted && store.Keys <= Elements(node.process.posted)
    ensures Agreed(cluster, pending, node.stored.value.spec, node.process.posted, store)
  {
    hide KeyText, Decode, Holds, Ascending, Transform, Selected;
    var texts, posted, spec := node.process.texts, node.process.posted, node.stored.value.spec;
    forall x | x in posted ensures IsKeyText(x) {
      assert x in Elements(posted);
      var k :| k in texts && KeyText(k) == x;
    }
    forall key: Key | Plain(key.namespace) && key !in pending
      ensures SelectedNow(cluster, spec, key) <==> KeyText(key) in posted
      ensures SelectedNow(cluster, spec, key) ==>
                var text := TextOf(spec, cluster[key].groups); text.Some? && Delivered(store, KeyText(key), text.value)
    {
      if key in texts {
        assert KeyText(key) in Elements(posted);
      } else if KeyText(key) in posted {
        assert KeyText(key) in Elements(posted);
        var k :| k in texts && KeyText(k) == KeyText(key);
        KeyTextInjective(k, key);
      }
    }
  }

  lemma EdgeKeeps(cluster: Cluster, pending: set<Key>, node: Node, store: Store, action: Action)
    requires Tracked(cluster, pending, node, store) && CanPerform(node, store, action) && !node.dirty
    requires !IsSync(action) && !action.SaveStatus?
    ensures var (n, t) := Perform(cluster, node, store, action); Tracked(cluster, pending, n, t)
  {
    hide Agreed, PerGroup, Elements;
    if action.Connect? {
      NothingReadYet(cluster, pending, node.process.copy.value.spec, node.process.copy.value.status.refRules);
    }
  }

  lemma NothingReadYet(cluster: Cluster, pending: set<Key>, spec: Spec, refs: seq<string>)
    ensures CurrentSoFar(cluster, pending, spec, refs, 0, map[])
  {
  }

  lemma DirtyStays(cluster: Cluster, node: Node, store: Store, action: Action)
    requires CanPerform(node, store, action) && node.dirty && !action.Pop?
    requires !(action.Prepare? && Panics(node.process))
    ensures Perform(cluster, node, store, action).0.dirty
  {
    hide Transform, ReadMore, PostTo, Sort, KeyText, Decode, PerGroup, Ascending, Elements;
  }

  lemma ActionKeepsTracked(cluster: Cluster, pending: set<Key>, node: Node, store: Store, action: Action)
    requires Tracked(cluster, pending, node, store) && CanPerform(node, store, action) && PlainKeys(cluster.Keys)
    ensures var (n, t) := Perform(cluster, node, store, action); Tracked(cluster, pending, n, t)
  {
    hide CanPerform, Perform, PlainKeys;
    if action.Pop? {
      Popping(cluster, pending, node, store);
    } else if action.Prepare? && Panics(node.process) {
      Restarted(cluster, pending, node, store);
    } else if node.dirty {
      DirtyStays(cluster, node, store, action);
    } else {
      CleanKeepsTracked(cluster, pending, node, store, action);
    }
  }

  lemma Popping(cluster: Cluster, pending: set<Key>, node: Node, store: Store)
    requires CanPerform(node, store, Pop)
    ensures var (n, t) := Perform(cluster, node, store, Pop); Tracked(cluster, pending, n, t)
  {
  }

  lemma Restarted(cluster: Cluster, pending: set<Key>, node: Node, store: Store)
    requires Panics(node.process)
    ensures var (n, t) := Perform(cluster, node, store, Prepare); Tracked(cluster, pending, n, t)
  {
  }

  lemma CleanKeepsTracked(cluster: Cluster, pending: set<Key>, node: Node, store: Store, action: Action)
    requires Tracked(cluster, pending, node, store) && CanPerform(node, store, action) && PlainKeys(cluster.Keys)
    requires !node.dirty && !(action.Prepare? && Panics(node.process))
    ensures var (n, t) := Perform(cluster, node, store, action); Tracked(cluster, pending, n, t)
  {
    hide Tracked, CanPerform, PlainKeys, Transform, ReadMore, Sort, KeyText, Decode, Panics;
    match action {
      case ReadSelector(answer) => ReadKeeps(cluster, pending, node, store, answer);
      case Prepare => PrepareKeeps(cluster, pending, node, store);
      case PickNamespace(k) => PickKeeps(cluster, pending, node, store, k);
      case PostGroup(answer) => PostKeeps(cluster, pending, node, store, answer);
      case FinishNamespace => FinishKeeps(cluster, pending, node, store);
      case EndPosting => EndPostingKeeps(cluster, pending, node, store);
      case ListTenant(answer, stale) => ListKeeps(cluster, pending, node, store, answer, stale);
      case DeleteNext(answer) => DeleteKeeps(cluster, pending, node, store, answer);
      case EndDeleting => EndDeletingKeeps(cluster, pending, node, store);
      case SaveStatus(answer) => SaveStatusKeeps(cluster, pending, node, store, answer);
      case _ => EdgeKeeps(cluster, pending, node, store, action);
    }
  }

  // ---------------------------------------------------------------------------------------
  // Everything else that happens
  // ---------------------------------------------------------------------------------------

  // Each rule without a change to be handled is as it was and had none before, or its change
  // has just been handled and concerns no one who selects these rules.
  ghost predicate NothingMissed(cluster: Cluster, pending: set<Key>, cluster': Cluster, pending': set<Key>,
                                spec: Spec, refs: seq<string>)
  {
    forall key: Key :: Plain(key.namespace) && key !in pending' ==>
      || (key !in pending && (key in cluster <==> key in cluster')
            && (key in cluster ==> cluster[key] == cluster'[key]))
      || (!SelectedNow(cluster', spec, key) && KeyText(key) !in refs)
  }

  lemma SnapshotStays(cluster: Cluster, pending: set<Key>, cluster': Cluster, pending': set<Key>, spec: Spec,
                      refs: seq<string>,
                      texts: Contents)
    requires Current(cluster, pending, spec, refs, texts)
    requires NothingMissed(cluster, pending, cluster', pending', spec, refs)
    ensures Current(cluster', pending', spec, refs, texts)
  {
    hide KeyText, TextOf, Selected;
  }

  lemma ReadingStays(cluster: Cluster, pending: set<Key>, cluster': Cluster, pending': set<Key>, spec: Spec,
                     refs: seq<string>,
                     next: nat, read: Contents)
    requires CurrentSoFar(cluster, pending, spec, refs, next, read)
          && NothingMissed(cluster, pending, cluster', pending', spec, refs)
    ensures CurrentSoFar(cluster', pending', spec, refs, next, read)
  {
    hide KeyText, TextOf, Matches;
    forall key | key in cluster' && Selected(spec.selectors[..next], cluster'[key].labels)
      ensures SelectedNow(cluster', spec, key)
    {
      var i :| 0 <= i < next && Matches(spec.selectors[..next][i], cluster'[key].labels);
      assert Matches(spec.selectors[i], cluster'[key].labels);
    }
  }

  lemma AgreementStays(cluster: Cluster, pending: set<Key>, cluster': Cluster, pending': set<Key>, spec: Spec,
                       refs: seq<string>, store: Store)
    requires Agreed(cluster, pending, spec, refs, store)
    requires NothingMissed(cluster, pending, cluster', pending', spec, refs)
    ensures Agreed(cluster', pending', spec, refs, store)
  {
    hide KeyText, TextOf, Selected, Delivered, Ascending, Elements;
  }

  lemma NodeStays(cluster: Cluster, pending: set<Key>, cluster': Cluster, pending': set<Key>, node: Node, store: Store)
    requires Tracked(cluster, pending, node, store) && !node.dirty
    requires node.stored.Some? ==>
               NothingMissed(cluster, pending, cluster', pending', node.stored.value.spec,
                     node.stored.value.status.refRules)
    ensures Tracked(cluster', pending', node, store)
  {
    hide Agreed, Current, CurrentSoFar, NothingMissed, PostedSoFar, FullyPosted, Elements;
    if node.stored.Some? {
      var spec, refs := node.stored.value.spec, node.stored.value.status.refRules;
      match node.process.phase {
        case Idle =>
          if Agreed(cluster, pending, spec, refs, store) {
            AgreementStays(cluster, pending, cluster', pending', spec, refs, store);
          }
        case Reading(next, read) => ReadingStays(cluster, pending, cluster', pending', spec, refs, next, read);
        case _ =>
          if Current(cluster, pending, spec, refs, node.process.texts) {
            SnapshotStays(cluster, pending, cluster', pending', spec, refs, node.process.texts);
          }
      }
    }
  }

  // The rules whose last change the handler has dropped. A later change is seen, and so are all
  // rules after a restart.
  function LostAfter(lost: set<Key>, e: Event): set<Key> {
    match e
    case LoseEvent(key) => lost + {key}
    case Handle(key) => lost - {key}
    case Crash => {}
    case _ => lost
  }

  ghost function LostKeys(s: System, events: seq<Event>): set<Key>
    requires Run(s, events).Some?
  {
    if events == [] then {}
    else
      var n := |events| - 1;
      LostAfter(LostKeys(s, events[..n]), Effect(Run(s, events[..n]).value, events[n]))
  }

  // An event that leaves a node out of the queue is none it could have missed.
  lemma OutsideKeepsTracked(s: System, lost: set<Key>, e: Event, m: Key)
    requires m in s.nodes && Enabled(s, e) && !(e.Reconcile? && e.m == m)
    requires Tracked(s.cluster, s.pending + lost, s.nodes[m], StoreOf(s, m))
    ensures var n := Outside(s.cluster, s.nodes[m], e, IsOn(e, m));
            Tracked(ClusterAfter(s.cluster, e), PendingAfter(s.cluster, s.pending, e) + LostAfter(lost, e), n,
                    StoreOf(s, m))
  {
    hide Agreed, Current, CurrentSoFar, PostedSoFar, FullyPosted, Elements, CanPerform, Selected, KeyText;
    var node := s.nodes[m];
    var n := Outside(s.cluster, node, e, IsOn(e, m));
    if !n.dirty && !e.Crash? {
      assert n == node;
      var cluster', pending' := ClusterAfter(s.cluster, e), PendingAfter(s.cluster, s.pending, e);
      NodeStays(s.cluster, s.pending + lost, cluster', pending' + LostAfter(lost, e), node, StoreOf(s, m));
    }
  }

  // ---------------------------------------------------------------------------------------
  // All runs
  // ---------------------------------------------------------------------------------------

  ghost predicate AllTracked(s: System, lost: set<Key>) {
    && OneTenantEach(s) && PlainKeys(s.cluster.Keys)
    && forall m :: m in s.nodes ==> Tracked(s.cluster, s.pending + lost, s.nodes[m], StoreOf(s, m))
  }

  lemma StepKeepsTracked(s: System, lost: set<Key>, e: Event)
    requires AllTracked(s, lost) && Enabled(s, e)
    ensures AllTracked(Apply(s, e), LostAfter(lost, Effect(s, e)))
  {
    hide Tracked, Perform, CanPerform, Outside, Panicking, LostAfter;
    StepKeepsTenants(s, e);
    var d := Effect(s, e);
    forall m | m in s.nodes
      ensures Tracked(Apply(s, e).cluster, Apply(s, e).pending + LostAfter(lost, d), Apply(s, e).nodes[m],
                      StoreOf(Apply(s, e), m))
    {
      NodeStep(s, e, m);
      if d.Reconcile? && d.m == m {
        ActionKeepsTracked(s.cluster, s.pending + lost, s.nodes[m], StoreOf(s, m), d.action);
        NoneLostBy(lost, d);
      } else {
        OutsideKeepsTracked(s, lost, d, m);
      }
    }
  }

  lemma NoneLostBy(lost: set<Key>, e: Event)
    requires e.Reconcile?
    ensures LostAfter(lost, e) == lost
  {
  }

  lemma {:induction false} RunsKeepTracked(s: System, events: seq<Event>)
    requires AllTracked(s, {}) && Run(s, events).Some?
    ensures AllTracked(Run(s, events).value, LostKeys(s, events))
  {
    hide AllTracked, Enabled, Apply, LostAfter, Panicking;
    if events != [] {
      var n := |events| - 1;
      RunsKeepTracked(s, events[..n]);
      StepKeepsTracked(Run(s, events[..n]).value, LostKeys(s, events[..n]), events[n]);
    }
  }

  lemma InitiallyTracked(s: System)
    requires Initial(s)
    ensures AllTracked(s, {})
  {
  }

  // Nothing is queued, in flight or waiting for the watch handler.
  ghost predicate Quiet(s: System) {
    s.pending == {} && forall m :: m in s.nodes ==> s.nodes[m].process.phase.Idle? && !s.nodes[m].dirty
  }

  ghost function Wanted(cluster: Cluster, spec: Spec): set<string> {
    set key | key in cluster && SelectedNow(cluster, spec, key) :: KeyText(key)
  }

  // The tenant holds no namespace that is not wanted and every wanted group, as transformed and
  // decoded; RefRules lists the wanted namespaces in order.
  ghost predicate InAgreement(cluster: Cluster, spec: Spec, refs: seq<string>, store: Store) {
    && Ascending(refs) && Elements(refs) == Wanted(cluster, spec) && store.Keys <= Wanted(cluster, spec)
    && forall key :: key in cluster && SelectedNow(cluster, spec, key) ==>
         var text := TextOf(spec, cluster[key].groups);
         text.Some? && Delivered(store, KeyText(key), text.value)
  }

  // At any time of any run, with whatever failures and crashes: a MimirRules is queued, or being
  // reconciled, or failed, or its tenant holds exactly what it selects, up to rules whose last
  // change is still to be handled or has been lost.
  lemma {:induction false} NeverForgotten(s: System, events: seq<Event>, m: Key)
    requires Initial(s) && Run(s, events).Some? && m in s.nodes
    ensures var t := Run(s, events).value;
            && m in t.nodes
            && var node := t.nodes[m];
               node.dirty || !node.process.phase.Idle? || node.stored.None? ||
               var mr := node.stored.value;
               mr.status.state.IsFailed?
               || (mr.status.state.IsSynced?
                   && Agreed(t.cluster, t.pending + LostKeys(s, events), mr.spec, mr.status.refRules, StoreOf(t, m)))
  {
    hide Initial, Agreed, Apply, Enabled, LostKeys, Current, CurrentSoFar, FullyPosted, PostedSoFar;
    InitiallyTracked(s);
    RunsKeepTracked(s, events);
    RunKeepsNodes(s, events);
  }

  // A quiet cluster with no change lost is in agreement.
  lemma {:induction false} QuietMeansAgreement(s: System, events: seq<Event>, m: Key)
    requires Initial(s) && Run(s, events).Some? && m in s.nodes
    requires Quiet(Run(s, events).value) && LostKeys(s, events) == {}
    ensures var t := Run(s, events).value;
            && m in t.nodes
            && var node := t.nodes[m];
               node.stored.None? || node.stored.value.status.state.IsFailed?
               || (node.stored.value.status.state.IsSynced?
                   && InAgreement(t.cluster, node.stored.value.spec, node.stored.value.status.refRules, StoreOf(t, m)))
  {
    hide Initial, Agreed, InAgreement, Apply, Enabled, Tracked, Run, LostKeys;
    NeverForgotten(s, events, m);
    InitiallyTracked(s);
    RunsKeepTracked(s, events);
    assert {} + LostKeys(s, events) == {};
    var t := Run(s, events).value;
    var node := t.nodes[m];
    if node.stored.Some? && node.stored.value.status.state.IsSynced? && !node.stored.value.status.state.IsFailed? {
      NothingPending(t.cluster, node.stored.value.spec, node.stored.value.status.refRules, StoreOf(t, m));
    }
  }

  lemma NothingPending(cluster: Cluster, spec: Spec, refs: seq<string>, store: Store)
    requires Agreed(cluster, {}, spec, refs, store) && PlainKeys(cluster.Keys)
    ensures InAgreement(cluster, spec, refs, store)
  {
    hide KeyText, Selected, TextOf, Delivered, Ascending;
    forall x | x in Elements(refs) ensures x in Wanted(cluster, spec) {
      assert x in refs;
      var key: Key :| Plain(key.namespace) && KeyText(key) == x;
      assert SelectedNow(cluster, spec, key);
    }
    forall x | x in Wanted(cluster, spec) ensures x in Elements(refs) {
      var key :| key in cluster && SelectedNow(cluster, spec, key) && KeyText(key) == x;
      assert x in refs;
    }
  }

  // ---------------------------------------------------------------------------------------
  // RefRules as an index
  // ---------------------------------------------------------------------------------------

  // What should be sent for the rules a spec selects.
  function Desired(cluster: Cluster, spec: Spec): map<Key, Option<seq<Group<Labels>>>> {
    map key | key in cluster && SelectedNow(cluster, spec, key) :: TextOf(spec, cluster[key].groups)
  }

  // After a successful synchronisation, a change of one rule requests exactly the MimirRules
  // that selected it before or select it now; so any whose desired output changes is among them.
  lemma TriggerComplete(cluster: Cluster, cluster': Cluster, rules: MimirRules, store: Store, key: Key)
    requires Agreed(cluster, {}, rules.spec, rules.status.refRules, store) && Plain(key.namespace)
    requires cluster - {key} == cluster' - {key}
    ensures Requested(cluster', Some(rules), key) <==>
              SelectedNow(cluster, rules.spec, key) || SelectedNow(cluster', rules.spec, key)
    ensures Desired(cluster, rules.spec) != Desired(cluster', rules.spec) ==> Requested(cluster', Some(rules), key)
  {
    hide KeyText, Selected, TextOf, Delivered, Ascending, Elements;
    SameElsewhere(cluster, cluster', key);
  }

  // One rule changed and the other rules as they were: the tenant is still in agreement exactly
  // if the rule is selected as before and, if it is, its namespace delivers the new text.
  lemma StillInAgreement(cluster: Cluster, cluster': Cluster, spec: Spec, refs: seq<string>, store: Store, key: Key)
    requires Agreed(cluster, {}, spec, refs, store) && PlainKeys(cluster.Keys) && PlainKeys(cluster'.Keys)
    requires cluster - {key} == cluster' - {key}
    ensures InAgreement(cluster', spec, refs, store) <==>
              && (SelectedNow(cluster, spec, key) <==> SelectedNow(cluster', spec, key))
              && (SelectedNow(cluster', spec, key) ==>
                    var text := TextOf(spec, cluster'[key].groups);
                    text.Some? && Delivered(store, KeyText(key), text.value))
  {
    hide KeyText, Selected, TextOf, Delivered, Ascending, Elements;
    SameElsewhere(cluster, cluster', key);
    if InAgreement(cluster', spec, refs, store) && Plain(key.namespace) {
      ListedIsSelected(cluster', spec, refs, store, key);
    }
    if && (SelectedNow(cluster, spec, key) <==> SelectedNow(cluster', spec, key))
       && (SelectedNow(cluster', spec, key) ==>
             var text := TextOf(spec, cluster'[key].groups);
             text.Some? && Delivered(store, KeyText(key), text.value))
    {
      assert Agreed(cluster', {}, spec, refs, store);
      NothingPending(cluster', spec, refs, store);
    }
  }

  lemma SameElsewhere(cluster: Cluster, cluster': Cluster, key: Key)
    requires cluster - {key} == cluster' - {key}
    ensures forall k :: k != key ==> (k in cluster <==> k in cluster') && (k in cluster ==> cluster[k] == cluster'[k])
  {
    forall k | k != key ensures (k in cluster <==> k in cluster') && (k in cluster ==> cluster[k] == cluster'[k]) {
      assert k in cluster <==> k in cluster - {key};
      assert k in cluster' <==> k in cluster' - {key};
      assert k in cluster ==> cluster[k] == (cluster - {key})[k];
      assert k in cluster' ==> cluster'[k] == (cluster' - {key})[k];
    }
  }

  // In agreement, RefRules lists a rule exactly if it is selected.
  lemma ListedIsSelected(cluster: Cluster, spec: Spec, refs: seq<string>, store: Store, key: Key)
    requires InAgreement(cluster, spec, refs, store) && PlainKeys(cluster.Keys) && Plain(key.namespace)
    ensures KeyText(key) in refs <==> SelectedNow(cluster, spec, key)
  {
    hide KeyText, Selected, TextOf, Delivered, Ascending;
    assert KeyText(key) in refs <==> KeyText(key) in Elements(refs);
    if KeyText(key) in Wanted(cluster, spec) {
      var k :| k in cluster && SelectedNow(cluster, spec, k) && KeyText(k) == KeyText(key);
      KeyTextInjective(k, key);
    }
  }

  // A change of one rule.
  predicate IsChangeOf(e: Event, key: Key) { e == DeleteRule(key) || (e.PutRule? && e.key == key) }

  // The handler returns nothing when it cannot list the MimirRules, and the event is gone. The
  // cluster is quiet again with a status that reports success, and this is right exactly if the
  // rule is selected as before and, if it is, its namespace delivers the new text.
  lemma {:induction false} LostEventExactly(s: System, m: Key, e: Event, key: Key)
    requires AllTracked(s, {}) && Quiet(s) && m in s.nodes && s.nodes[m].stored.Some?
    requires s.nodes[m].stored.value.status.state.IsSynced? && IsChangeOf(e, key) && Enabled(s, e)
    ensures Run(s, [e, LoseEvent(key)]).Some?
    ensures var t, mr := Run(s, [e, LoseEvent(key)]).value, s.nodes[m].stored.value;
            && Quiet(t) && m in t.nodes && t.nodes[m] == s.nodes[m] && StoreOf(t, m) == StoreOf(s, m)
            && (InAgreement(t.cluster, mr.spec, mr.status.refRules, StoreOf(t, m)) <==>
                  && (SelectedNow(s.cluster, mr.spec, key) <==> SelectedNow(t.cluster, mr.spec, key))
                  && (SelectedNow(t.cluster, mr.spec, key) ==>
                        var text := TextOf(mr.spec, t.cluster[key].groups);
                        text.Some? && Delivered(StoreOf(t, m), KeyText(key), text.value)))
  {
    hide Run, Tracked, Agreed, InAgreement, KeyText, Selected, TextOf, Delivered;
    ChangeAndLose(s, e, key);
    var mr := s.nodes[m].stored.value;
    assert s.pending + {} == {} && Tracked(s.cluster, s.pending + {}, s.nodes[m], StoreOf(s, m));
    SyncedAgrees(s.cluster, s.nodes[m], StoreOf(s, m));
    StillInAgreement(s.cluster, ClusterAfter(s.cluster, e), mr.spec, mr.status.refRules, StoreOf(s, m), key);
  }

  lemma {:induction false} ChangeAndLose(s: System, e: Event, key: Key)
    requires s.pending == {} && IsChangeOf(e, key) && Enabled(s, e) && PlainKeys(s.cluster.Keys)
    ensures Run(s, [e, LoseEvent(key)]) == Some(s.(cluster := ClusterAfter(s.cluster, e)))
    ensures PlainKeys(ClusterAfter(s.cluster, e).Keys) && s.cluster - {key} == ClusterAfter(s.cluster, e) - {key}
  {
    hide Run, CanPerform;
    BeginRun(s);
    Extend(s, [], e);
    assert [] + [e] == [e];
    var t := System(ClusterAfter(s.cluster, e), {key}, s.nodes, s.remote);
    assert Apply(s, e).nodes == s.nodes;
    assert Apply(s, e) == t;
    Extend(s, [e], LoseEvent(key));
    assert [e] + [LoseEvent(key)] == [e, LoseEvent(key)];
    assert Apply(t, LoseEvent(key)).nodes == t.nodes;
    assert t.pending - {key} == {};
  }

  // In particular a deleted rule stays on the remote.
  lemma {:induction false} LostEventLeavesStale(s: System, m: Key, key: Key)
    requires AllTracked(s, {}) && Quiet(s) && m in s.nodes && s.nodes[m].stored.Some?
    requires s.nodes[m].stored.value.status.state.IsSynced? && SelectedNow(s.cluster, s.nodes[m].stored.value.spec, key)
    requires var text := TextOf(s.nodes[m].stored.value.spec, s.cluster[key].groups);
             text.Some? && (Decode(text.value).Some? ==> Decode(text.value).value != [])
    ensures var events := [DeleteRule(key), LoseEvent(key)];
            && Run(s, events).Some?
            && var t := Run(s, events).value;
               Quiet(t) && m in t.nodes && t.nodes[m] == s.nodes[m]
               && KeyText(key) in StoreOf(t, m) && KeyText(key) !in Wanted(t.cluster, t.nodes[m].stored.value.spec)
  {
    hide Run, Tracked, KeyText, Selected, TextOf, Delivered;
    ChangeAndLose(s, DeleteRule(key), key);
    var node := s.nodes[m];
    var spec, text := node.stored.value.spec, TextOf(node.stored.value.spec, s.cluster[key].groups).value;
    assert s.pending + {} == {} && Tracked(s.cluster, s.pending + {}, node, StoreOf(s, m));
    SyncedAgrees(s.cluster, node, StoreOf(s, m));
    assert Delivered(StoreOf(s, m), KeyText(key), text);
    DeliveredSomething(StoreOf(s, m), KeyText(key), text);
    forall k | k in s.cluster - {key} && SelectedNow(s.cluster - {key}, spec, k) ensures KeyText(k) != KeyText(key) {
      if KeyText(k) == KeyText(key) {
        KeyTextInjective(k, key);
      }
    }
  }

  lemma SyncedAgrees(cluster: Cluster, node: Node, store: Store)
    requires Tracked(cluster, {}, node, store) && !node.dirty && node.process.phase.Idle? && node.stored.Some?
    requires node.stored.value.status.state.IsSynced?
    ensures Agreed(cluster, {}, node.stored.value.spec, node.stored.value.status.refRules, store)
  {
  }

  lemma {:induction false} DeliveredSomething(store: Store, ns: string, text: seq<Group<Labels>>)
    requires Delivered(store, ns, text) && (Decode(text).Some? ==> Decode(text).value != [])
    ensures ns in store
  {
    var groups := Decode(text).value;
    assert LastNamed(groups, groups[|groups| - 1].name).Some?;
  }
}
