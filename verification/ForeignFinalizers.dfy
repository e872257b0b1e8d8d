// What goes wrong with a second finalizer on an object, and that nothing else does.
module ForeignFinalizers {
  import opened Words
  import opened Ordering
  import opened RuleModel
  import opened Selection
  import opened RemoteRuler
  import opened Operator
  import opened Finalizers

  // An object being deleted that only another finalizer keeps alive, its key in the queue.
  ghost predicate HeldByAnother(node: Node) {
    node.dirty && node.process.phase.Idle? && node.stored.Some? && node.stored.value.deleting
    && !node.stored.value.finalizer && node.stored.value.foreign
  }

  // Such an object is synchronised like any other: whatever it selects is posted, though the
  // finalizer is not there, and it stays behind when the object goes.
  lemma ForeignLeaks(s: System, events: seq<Event>, t: System, m: Key, key: Key) returns (more: seq<Event>)
    requires Run(s, events) == Some(t) && OneTenantEach(t) && m in t.nodes && HeldByAnother(t.nodes[m])
    requires Selection.AllValid(t.nodes[m].stored.value.spec.selectors)
    requires CanPost(t.cluster, t.nodes[m].stored.value.spec, key)
    ensures Run(s, more).Some? && Ways(more) == Ways(events) && m in Run(s, more).value.nodes
    ensures Run(s, more).value.nodes[m].stored.None? && StoreOf(Run(s, more).value, m) != map[]
  {
    hide Run, Ways, CanPost, Decode, Apply, Enabled, Perform, CanPerform;
    var u;
    more, u := StartReading(s, events, t, m);
    more, u := ReadAll(s, more, u, m);
    more, u := PostOne(s, more, u, m, key);
    LastOneOut(s, more, u, m);
    WaysSnoc(more, DropForeign(m));
    more := more + [DropForeign(m)];
  }

  // Everything selected can be transformed, and a selected text holds a group to post.
  ghost predicate CanPost(cluster: Cluster, spec: Spec, key: Key) {
    && (forall k :: k in SelectedMap(cluster, spec.selectors) ==> TextOf(spec, cluster[k].groups).Some?)
    && SelectedNow(cluster, spec, key)
    && var text := TextOf(spec, cluster[key].groups).value; Decode(text).Some? && Decode(text).value != []
  }

  lemma StartReading(s: System, events: seq<Event>, t: System, m: Key) returns (more: seq<Event>, u: System)
    requires Run(s, events) == Some(t) && OneTenantEach(t) && m in t.nodes && HeldByAnother(t.nodes[m])
    ensures Run(s, more) == Some(u) && Ways(more) == Ways(events)
    ensures OneTenantEach(u) && u.cluster == t.cluster && m in u.nodes && u.nodes[m].stored == t.nodes[m].stored
    ensures u.nodes[m].process.phase == Reading(0, map[]) && u.nodes[m].process.copy == u.nodes[m].stored
  {
    hide Run, Ways, Synchronise, CanSynchronise, OneTenantEach;
    more, u := Fetch(s, events, t, m);
    more, u := Do(s, more, u, m, Connect(Ok));
  }

  lemma PostOne(s: System, events: seq<Event>, t: System, m: Key, key: Key) returns (more: seq<Event>, u: System)
    requires Run(s, events) == Some(t) && OneTenantEach(t) && m in t.nodes
    requires t.nodes[m].process.copy.Some?
    requires var selectors := t.nodes[m].process.copy.value.spec.selectors;
             t.nodes[m].process.phase == Reading(|selectors|, SelectedMap(t.cluster, selectors))
    requires CanPost(t.cluster, t.nodes[m].process.copy.value.spec, key)
    ensures Run(s, more) == Some(u) && Ways(more) == Ways(events) && OneTenantEach(u) && m in u.nodes
    ensures u.nodes[m].stored == t.nodes[m].stored && KeyText(key) in StoreOf(u, m)
  {
    hide Run, Ways, TextOf, Decode, KeyText, Selected, ReadMore, Sort, PerGroup;
    more, u := Do(s, events, t, m, Prepare);
    more, u := PostFirst(s, more, u, m, key);
  }

  lemma PostFirst(s: System, events: seq<Event>, t: System, m: Key, key: Key) returns (more: seq<Event>, u: System)
    requires Run(s, events) == Some(t) && OneTenantEach(t) && m in t.nodes
    requires var p := t.nodes[m].process;
             p.phase == Posting(p.texts.Keys, None) && key in p.texts && Decode(p.texts[key]).Some?
                   && Decode(p.texts[key]).value != []
    ensures Run(s, more) == Some(u) && Ways(more) == Ways(events) && OneTenantEach(u) && m in u.nodes
    ensures u.nodes[m].stored == t.nodes[m].stored && KeyText(key) in StoreOf(u, m)
  {
    hide Run, Ways, TextOf, Decode, KeyText, ReadMore, Sort, PerGroup;
    more, u := Do(s, events, t, m, PickNamespace(key));
    more, u := Do(s, more, u, m, PostGroup(Ok));
  }

  lemma {:induction false} LastOneOut(s: System, events: seq<Event>, t: System, m: Key)
    requires Run(s, events) == Some(t) && OneTenantEach(t) && m in t.nodes
    requires t.nodes[m].stored.Some? && t.nodes[m].stored.value.deleting && !t.nodes[m].stored.value.finalizer
    ensures Run(s, events + [DropForeign(m)]).Some?
    ensures var u := Run(s, events + [DropForeign(m)]).value;
            m in u.nodes && u.nodes[m].stored.None? && StoreOf(u, m) == StoreOf(t, m)
  {
    hide Run, Ways, Apply;
    Extend(s, events, DropForeign(m));
    NodeStep(t, DropForeign(m), m);
  }

  // ---------------------------------------------------------------------------------------
  // The guard holds exactly without other finalizers
  // ---------------------------------------------------------------------------------------

  // After the run, rules on the tenant mean an object with the finalizer.
  ghost predicate GuardAfter(s: System, events: seq<Event>, m: Key) {
    Run(s, events).Some? ==>
      var t := Run(s, events).value; m in t.nodes && (StoreOf(t, m) != map[] ==> Protected(t.nodes[m]))
  }

  // A spec that selects every rule, and a rule with a group.
  const ALL := Spec([Requirements([])], map[], map[])
  const RULE := PromRule(map[], [Group("g", None, [])])
  const RULE_KEY := Key("n", "r")

  lemma AllCanPost(cluster: Cluster)
    requires RULE_KEY in cluster && cluster[RULE_KEY] == RULE
    ensures CanPost(cluster, ALL, RULE_KEY) && Selection.AllValid(ALL.selectors)
  {
    forall k | k in cluster ensures TextOf(ALL, cluster[k].groups) == Some(cluster[k].groups) {
      NothingTransformed(cluster[k].groups);
    }
    assert Matches(ALL.selectors[0], RULE.labels);
    assert DecodeGroup(RULE.groups[0]) == Some(RemoteGroup("g", "", []));
    assert RULE.groups[1..] == [];
  }

  // The object with the operator's finalizer, to be reconciled.
  ghost predicate WithOwn(node: Node, deleting: bool, foreign: bool) {
    && node.stored.Some? && node.stored.value.spec == ALL && node.stored.value.deleting == deleting
    && node.stored.value.finalizer && node.stored.value.foreign == foreign && node.dirty
  }

  // Create the rule and the object, perhaps with another finalizer from the beginning.
  lemma CreateIt(s: System, m: Key, way: Way) returns (events: seq<Event>, t: System)
    requires Initial(s) && m in s.nodes
    ensures Run(s, events) == Some(t) && Ways(events) <= {way} && OneTenantEach(t) && m in t.nodes
    ensures RULE_KEY in t.cluster && t.cluster[RULE_KEY] == RULE && StoreOf(t, m) == map[]
    ensures t.nodes[m].stored == Some(MimirRules(ALL, Status(Unset, NoError, []), false, false, way.AtCreation?))
    ensures t.nodes[m].dirty && t.nodes[m].process.phase.Idle?
  {
    hide Run, Requested;
    BeginRun(s);
    events, t := Happen(s, [], s, m, PutRule(RULE_KEY, RULE));
    events, t := Happen(s, events, t, m, CreateMimirRules(m, ALL, way.AtCreation?));
  }

  // Let the operator add its finalizer.
  lemma AddFinalizer(s: System, m: Key, way: Way) returns (events: seq<Event>, t: System)
    requires Initial(s) && m in s.nodes
    ensures Run(s, events) == Some(t) && Ways(events) <= {way} && OneTenantEach(t) && m in t.nodes
    ensures RULE_KEY in t.cluster && t.cluster[RULE_KEY] == RULE && StoreOf(t, m) == map[]
    ensures WithOwn(t.nodes[m], false, way.AtCreation?) && t.nodes[m].process.phase == Reading(0, map[])
    ensures t.nodes[m].process.copy == t.nodes[m].stored
  {
    hide Run, Ways, Initial, Synchronise, CanSynchronise, OneTenantEach, Panics;
    events, t := CreateIt(s, m, way);
    events, t := Fetch(s, events, t, m);
    events, t := Do(s, events, t, m, Connect(Ok));
    events, t := Do(s, events, t, m, SaveFinalizer(Ok));
  }

  // Ask for its deletion. By now the other finalizer is there.
  lemma AskDeletion(s: System, events: seq<Event>, t: System, m: Key, way: Way) returns (more: seq<Event>, u: System)
    requires Run(s, events) == Some(t) && Ways(events) <= {way} && OneTenantEach(t) && m in t.nodes
    requires WithOwn(t.nodes[m], false, way.AtCreation?) && StoreOf(t, m) == map[]
    ensures Run(s, more) == Some(u) && Ways(more) <= {way} && OneTenantEach(u) && m in u.nodes
    ensures u.cluster == t.cluster && StoreOf(u, m) == map[]
    ensures WithOwn(u.nodes[m], true, true) && u.nodes[m].process == t.nodes[m].process
  {
    hide Run, Ways, Requested, OneTenantEach;
    more, u := events, t;
    if way.Afterwards? {
      more, u := Happen(s, events, t, m, AddForeign(m));
    }
    more, u := Happen(s, more, u, m, DeleteMimirRules(m, way.WithDeletion?));
  }

  // The attempt under way comes to nothing.
  lemma GiveUp(s: System, events: seq<Event>, t: System, m: Key) returns (more: seq<Event>, u: System)
    requires Run(s, events) == Some(t) && OneTenantEach(t) && m in t.nodes && StoreOf(t, m) == map[]
    requires WithOwn(t.nodes[m], true, true) && t.nodes[m].process.phase == Reading(0, map[])
    requires t.nodes[m].process.copy.Some? && t.nodes[m].process.copy.value.spec == ALL
    ensures Run(s, more) == Some(u) && Ways(more) == Ways(events) && OneTenantEach(u) && m in u.nodes
    ensures u.cluster == t.cluster && StoreOf(u, m) == map[]
    ensures WithOwn(u.nodes[m], true, true) && u.nodes[m].process.phase.Idle?
  {
    hide Run, Ways, ReadMore, Sort, PostTo, Decode, TextOf, OneTenantEach;
    more, u := Do(s, events, t, m, ReadSelector(Refused("")));
    more, u := Do(s, more, u, m, SaveStatus(Refused("")));
  }

  // Let the operator remove the rules, of which there are none, and take its finalizer off.
  lemma TakeOff(s: System, events: seq<Event>, t: System, m: Key) returns (more: seq<Event>, u: System)
    requires Run(s, events) == Some(t) && OneTenantEach(t) && m in t.nodes && StoreOf(t, m) == map[]
    requires WithOwn(t.nodes[m], true, true) && t.nodes[m].process.phase.Idle?
    ensures Run(s, more) == Some(u) && Ways(more) == Ways(events)
    ensures OneTenantEach(u) && m in u.nodes && u.cluster == t.cluster
    ensures HeldByAnother(u.nodes[m]) && u.nodes[m].stored.value.spec == ALL
  {
    hide Run, Ways, Synchronise, CanSynchronise, IsFlatList, OneTenantEach;
    more, u := Fetch(s, events, t, m);
    more, u := Do(s, more, u, m, Connect(Ok));
    more, u := FinishRemoval(s, more, u, m);
  }

  lemma FinishRemoval(s: System, events: seq<Event>, t: System, m: Key) returns (more: seq<Event>, u: System)
    requires Run(s, events) == Some(t) && OneTenantEach(t) && m in t.nodes && StoreOf(t, m) == map[]
    requires t.nodes[m].stored.Some? && t.nodes[m].stored.value.deleting && t.nodes[m].stored.value.foreign
    requires var p := t.nodes[m].process; p.phase.ListingAll? && p.copy.Some? && p.version == t.nodes[m].version
    ensures Run(s, more) == Some(u) && Ways(more) == Ways(events)
    ensures OneTenantEach(u) && m in u.nodes && u.cluster == t.cluster
    ensures HeldByAnother(u.nodes[m]) && u.nodes[m].stored.value.spec == t.nodes[m].stored.value.spec
  {
    hide Run, Ways, Synchronise, CanSynchronise, IsFlatList, OneTenantEach;
    NothingListed();
    more, u := Do(s, events, t, m, ListForRemoval(Ok, []));
    more, u := Do(s, more, u, m, EndRemoval);
    more, u := Do(s, more, u, m, SaveRemoval(Ok));
  }

  lemma NothingListed()
    ensures IsFlatList([], map[])
  {
    var keys: seq<string> := [];
    assert Ascending(keys) && Elements(keys) == {};
  }

  // A run that breaks the guard, with the other finalizer set in this way.
  lemma GuardBroken(s: System, m: Key, way: Way) returns (events: seq<Event>)
    requires Initial(s) && m in s.nodes
    ensures Ways(events) <= {way} && !GuardAfter(s, events, m)
  {
    hide Initial, Run, Ways, CanPost;
    var t;
    events, t := AddFinalizer(s, m, way);
    AllCanPost(t.cluster);
    events, t := AskDeletion(s, events, t, m, way);
    events, t := GiveUp(s, events, t, m);
    events, t := TakeOff(s, events, t, m);
    events := ForeignLeaks(s, events, t, m, RULE_KEY);
  }

  // From any beginning the guard holds in all runs exactly if no other finalizer is ever set;
  // each of the ways of setting one is enough to break it.
  lemma GuardExactly(s: System, ways: set<Way>)
    requires Initial(s) && s.nodes != map[]
    ensures (forall events, m :: Ways(events) <= ways && m in s.nodes ==> GuardAfter(s, events, m)) <==> ways == {}
  {
    hide Initial, Run, Ways, GuardAfter;
    if ways != {} {
      var m :| m in s.nodes;
      var way :| way in ways;
      var events := GuardBroken(s, m, way);
    } else {
      forall events, m | Ways(events) <= ways && m in s.nodes ensures GuardAfter(s, events, m) {
        NoWay(s, events, m);
      }
    }
  }

  lemma {:induction false} NoWay(s: System, events: seq<Event>, m: Key)
    requires Initial(s) && Ways(events) == {} && m in s.nodes
    ensures GuardAfter(s, events, m)
  {
    if Run(s, events).Some? {
      FinalizerGuards(s, events, m);
    }
  }
}
