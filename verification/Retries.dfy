// When a MimirRules, taken alone, is retried for ever although no call fails: because each
// attempt panics, or because RefRules and the error of a failed attempt depend on the order in
// which the texts were met, and a status that changes is a reason to try again at once.
module Retries {
  import opened Words
  import opened Decimal
  import DurationText
  import SwapScan
  import opened RuleModel
  import opened Selection
  import opened RemoteRuler
  import opened Operator
  import opened Agreement
  import opened Readiness
  import opened Outcomes
  import opened Convergence
  import opened Endings

  // Queued, and not being reconciled or deleted.
  ghost predicate Waiting(node: Node, spec: Spec, status: Status) {
    && node.dirty && node.process.phase.Idle?
    && (node.stored == Some(MimirRules(spec, status, false, true, false))
        || node.stored == Some(MimirRules(spec, status, false, false, false)))
  }

  // The texts of both are met in some order; `bad` does not decode, `other` does or fails in
  // another way.
  ghost predicate Mixed(cluster: Cluster, spec: Spec, bad: Key, other: Key) {
    && Selection.AllValid(spec.selectors) && Transforms(cluster, spec) && Differ(cluster, spec, bad, other)
    && FaultAt(cluster, spec, bad).Some?
  }

  ghost function Text(cluster: Cluster, spec: Spec, k: Key): seq<Group<Labels>>
    requires Transforms(cluster, spec) && k in SelectedMap(cluster, spec.selectors)
  {
    TextOf(spec, cluster[k].groups).value
  }

  // What an attempt reports that meets `bad` first, or `other` first.
  ghost function Report(cluster: Cluster, spec: Spec, bad: Key, other: Key, badFirst: bool): Status
    requires Mixed(cluster, spec, bad, other)
  {
    if badFirst then Status(IsFailed, BadText(FaultAt(cluster, spec, bad).value), [])
    else if FaultAt(cluster, spec, other).Some? then Status(IsFailed, BadText(FaultAt(cluster, spec, other).value), [])
    else Status(IsFailed, BadText(FaultAt(cluster, spec, bad).value), [KeyText(other)])
  }

  function Last(schedule: seq<Moment>): Moment
    requires schedule != []
  {
    schedule[|schedule| - 1]
  }

  lemma Continue(w: World, schedule: seq<Moment>, action: Action) returns (more: seq<Moment>)
    requires IsSchedule(w, schedule) && CanPerform(Last(schedule).node, Last(schedule).store, action)
    requires Good(w.strict, Last(schedule).node, Last(schedule).store, action)
    ensures IsSchedule(w, more) && |more| == |schedule| + 1 && more[0] == schedule[0]
    ensures more[|more| - 2] == Last(schedule)
    ensures (Last(more).node, Last(more).store) == Perform(w.cluster, Last(schedule).node, Last(schedule).store, action)
  {
    hide CanPerform, Perform, Good;
    var (node, store) := Perform(w.cluster, Last(schedule).node, Last(schedule).store, action);
    more := schedule + [Moment(node, store)];
    assert StepsBy(w, Last(schedule), action, Moment(node, store));
    forall i | 0 <= i < |more| - 1 ensures Step(w, more[i], more[i + 1]) {
      if i < |schedule| - 1 {
        assert Step(w, schedule[i], schedule[i + 1]);
      }
    }
  }

  // ---------------------------------------------------------------------------------------
  // One attempt
  // ---------------------------------------------------------------------------------------

  // The object as an attempt finds it after the finalizer check.
  ghost predicate Attempting(node: Node, spec: Spec, status: Status) {
    && node.stored == Some(MimirRules(spec, status, false, true, false))
    && node.process.version == node.version && node.process.copy == node.stored
  }

  ghost predicate HasRead(cluster: Cluster, node: Node, spec: Spec, status: Status, next: nat) {
    && Attempting(node, spec, status) && next <= |spec.selectors|
    && node.process.phase == Reading(next, SelectedMap(cluster, spec.selectors[..next]))
  }

  lemma StartAttempt(w: World, schedule: seq<Moment>, spec: Spec, status: Status) returns (more: seq<Moment>)
    requires IsSchedule(w, schedule) && Waiting(Last(schedule).node, spec, status)
    ensures IsSchedule(w, more) && |more| > |schedule| && more[0] == schedule[0]
    ensures HasRead(w.cluster, Last(more).node, spec, status, 0)
  {
    hide Step, SelectedMap, Synchronise, CanSynchronise;
    NothingSelected(w.cluster, spec.selectors);
    more := Continue(w, schedule, Pop);
    more := Continue(w, more, Get(Ok));
    more := CheckFinalizer(w, more, spec, status);
  }

  lemma CheckFinalizer(w: World, schedule: seq<Moment>, spec: Spec, status: Status) returns (more: seq<Moment>)
    requires IsSchedule(w, schedule)
    requires var node := Last(schedule).node;
             && node.process.phase.Got? && node.process.copy == node.stored && node.process.version == node.version
             && (node.stored == Some(MimirRules(spec, status, false, true, false))
                 || node.stored == Some(MimirRules(spec, status, false, false, false)))
    ensures IsSchedule(w, more) && |more| > |schedule| && more[0] == schedule[0]
    ensures HasRead(w.cluster, Last(more).node, spec, status, 0)
  {
    hide Step, SelectedMap, Synchronise, CanSynchronise;
    NothingSelected(w.cluster, spec.selectors);
    more := Continue(w, schedule, Connect(Ok));
    if !Last(schedule).node.stored.value.finalizer {
      more := Continue(w, more, SaveFinalizer(Ok));
    }
  }

  lemma ReadOn(w: World, schedule: seq<Moment>, spec: Spec, status: Status) returns (more: seq<Moment>)
    requires IsSchedule(w, schedule) && HasRead(w.cluster, Last(schedule).node, spec, status, 0)
    requires Selection.AllValid(spec.selectors)
    ensures IsSchedule(w, more) && |more| >= |schedule| && more[0] == schedule[0]
    ensures HasRead(w.cluster, Last(more).node, spec, status, |spec.selectors|)
  {
    hide Step, SelectedMap;
    more := schedule;
    var i := 0;
    while i < |spec.selectors|
      invariant i <= |spec.selectors| && IsSchedule(w, more) && |more| >= |schedule| && more[0] == schedule[0]
      invariant HasRead(w.cluster, Last(more).node, spec, status, i)
    {
      ReadOneMore(w.cluster, spec.selectors, i);
      more := Continue(w, more, ReadSelector(Ok));
      i := i + 1;
    }
  }

  // Between two namespaces.
  ghost predicate Amid(cluster: Cluster, node: Node, spec: Spec, status: Status, todo: set<Key>, posted: seq<string>) {
    && Attempting(node, spec, status) && AreTexts(cluster, spec, node.process.texts)
    && node.process.phase == Posting(todo, None) && node.process.posted == posted
  }

  lemma PrepareNow(w: World, schedule: seq<Moment>, spec: Spec, status: Status) returns (more: seq<Moment>)
    requires IsSchedule(w, schedule) && HasRead(w.cluster, Last(schedule).node, spec, status, |spec.selectors|)
    requires Transforms(w.cluster, spec)
    ensures IsSchedule(w, more) && |more| > |schedule| && more[0] == schedule[0]
    ensures Amid(w.cluster, Last(more).node, spec, status, SelectedMap(w.cluster, spec.selectors).Keys, [])
  {
    hide Step, TextOf, Selected;
    assert spec.selectors[..|spec.selectors|] == spec.selectors;
    more := Continue(w, schedule, Prepare);
  }

  lemma FaultDecodes(cluster: Cluster, spec: Spec, k: Key)
    requires Transforms(cluster, spec) && k in SelectedMap(cluster, spec.selectors)
    ensures k in cluster && TextOf(spec, cluster[k].groups).Some?
    ensures var text := TextOf(spec, cluster[k].groups).value;
            FaultAt(cluster, spec, k) == FirstFault(text) && (FirstFault(text).Some? <==> Decode(text).None?)
  {
    hide TextOf, Decode, FirstFault;
    FaultMeaning(TextOf(spec, cluster[k].groups).value);
  }

  // Coming to a text that does not decode ends the attempt. If the status it reports is not the
  // one there, the key is queued again.
  lemma FailAt(w: World, schedule: seq<Moment>, spec: Spec, status: Status, todo: set<Key>, posted: seq<string>, k: Key)
    returns (more: seq<Moment>)
    requires IsSchedule(w, schedule) && Amid(w.cluster, Last(schedule).node, spec, status, todo, posted)
    requires Transforms(w.cluster, spec) && k in SelectedMap(w.cluster, spec.selectors) && k in todo
    requires FaultAt(w.cluster, spec, k).Some?
    requires status != Status(IsFailed, BadText(FaultAt(w.cluster, spec, k).value), posted)
    ensures IsSchedule(w, more) && |more| > |schedule| && more[0] == schedule[0]
    ensures Waiting(Last(more).node, spec, Status(IsFailed, BadText(FaultAt(w.cluster, spec, k).value), posted))
  {
    hide Step, TextOf, SelectedMap, Decode, FirstFault, FaultAt;
    FaultDecodes(w.cluster, spec, k);
    more := Continue(w, schedule, PickNamespace(k));
    more := Continue(w, more, SaveStatus(Ok));
  }

  ghost predicate AmidOther(cluster: Cluster, node: Node, spec: Spec, status: Status, todo: set<Key>, k: Key) {
    && Attempting(node, spec, status) && AreTexts(cluster, spec, node.process.texts) && node.process.posted == []
    && node.process.phase.Posting? && node.process.phase.todo == todo && node.process.phase.current.Some?
    && node.process.phase.current.value.0 == k
  }

  lemma PostRest(w: World, schedule: seq<Moment>, spec: Spec, status: Status, todo: set<Key>, k: Key)
    returns (more: seq<Moment>)
    requires IsSchedule(w, schedule) && AmidOther(w.cluster, Last(schedule).node, spec, status, todo, k)
    ensures IsSchedule(w, more) && |more| >= |schedule| && more[0] == schedule[0]
    ensures AmidOther(w.cluster, Last(more).node, spec, status, todo, k)
    ensures Last(more).node.process.phase.current.value.1 == []
  {
    hide Step, AreTexts;
    more := schedule;
    while Last(more).node.process.phase.current.value.1 != []
      invariant IsSchedule(w, more) && |more| >= |schedule| && more[0] == schedule[0]
      invariant AmidOther(w.cluster, Last(more).node, spec, status, todo, k)
      decreases |Last(more).node.process.phase.current.value.1|
    {
      more := Continue(w, more, PostGroup(Ok));
    }
  }

  lemma PickFirst(w: World, schedule: seq<Moment>, spec: Spec, status: Status, k: Key) returns (more: seq<Moment>)
    requires Transforms(w.cluster, spec) && k in SelectedMap(w.cluster, spec.selectors)
    requires FaultAt(w.cluster, spec, k).None? && IsSchedule(w, schedule)
    requires Amid(w.cluster, Last(schedule).node, spec, status, SelectedMap(w.cluster, spec.selectors).Keys, [])
    ensures IsSchedule(w, more) && |more| > |schedule| && more[0] == schedule[0]
    ensures AmidOther(w.cluster, Last(more).node, spec, status, SelectedMap(w.cluster, spec.selectors).Keys - {k}, k)
  {
    hide Step, TextOf, SelectedMap, Decode, KeyText, FirstFault, FaultAt;
    FaultDecodes(w.cluster, spec, k);
    more := Continue(w, schedule, PickNamespace(k));
  }

  lemma FinishFirst(w: World, schedule: seq<Moment>, spec: Spec, status: Status, todo: set<Key>, k: Key)
    returns (more: seq<Moment>)
    requires IsSchedule(w, schedule) && AmidOther(w.cluster, Last(schedule).node, spec, status, todo, k)
    requires Last(schedule).node.process.phase.current.value.1 == []
    ensures IsSchedule(w, more) && |more| > |schedule| && more[0] == schedule[0]
    ensures Amid(w.cluster, Last(more).node, spec, status, todo, [KeyText(k)])
  {
    hide Step, AreTexts, KeyText, Decode;
    more := Continue(w, schedule, FinishNamespace);
  }

  lemma PostFirst(w: World, schedule: seq<Moment>, spec: Spec, status: Status, k: Key) returns (more: seq<Moment>)
    requires Transforms(w.cluster, spec) && k in SelectedMap(w.cluster, spec.selectors)
    requires FaultAt(w.cluster, spec, k).None? && IsSchedule(w, schedule)
    requires Amid(w.cluster, Last(schedule).node, spec, status, SelectedMap(w.cluster, spec.selectors).Keys, [])
    ensures IsSchedule(w, more) && |more| > |schedule| && more[0] == schedule[0]
    ensures Amid(w.cluster, Last(more).node, spec, status, SelectedMap(w.cluster, spec.selectors).Keys - {k},
                 [KeyText(k)])
  {
    hide Step, Amid, SelectedMap, KeyText, FaultAt, Transforms;
    more := PickFirst(w, schedule, spec, status, k);
    more := PostRest(w, more, spec, status, SelectedMap(w.cluster, spec.selectors).Keys - {k}, k);
    more := FinishFirst(w, more, spec, status, SelectedMap(w.cluster, spec.selectors).Keys - {k}, k);
  }

  // One attempt, with the order of posting chosen.
  lemma Attempt(w: World, start: Moment, spec: Spec, status: Status, bad: Key, other: Key, badFirst: bool)
    returns (schedule: seq<Moment>)
    requires Waiting(start.node, spec, status) && Mixed(w.cluster, spec, bad, other)
    requires status != Report(w.cluster, spec, bad, other, badFirst)
    ensures IsSchedule(w, schedule) && |schedule| > 1 && schedule[0] == start
    ensures Waiting(Last(schedule).node, spec, Report(w.cluster, spec, bad, other, badFirst))
  {
    hide Step, TextOf, SelectedMap, Waiting, HasRead, Amid, Transforms, FaultAt;
    var all := SelectedMap(w.cluster, spec.selectors).Keys;
    schedule := StartAttempt(w, [start], spec, status);
    schedule := ReadOn(w, schedule, spec, status);
    schedule := PrepareNow(w, schedule, spec, status);
    if badFirst {
      schedule := FailAt(w, schedule, spec, status, all, [], bad);
    } else if FaultAt(w.cluster, spec, other).Some? {
      schedule := FailAt(w, schedule, spec, status, all, [], other);
    } else {
      schedule := PostFirst(w, schedule, spec, status, other);
      schedule := FailAt(w, schedule, spec, status, all - {other}, [KeyText(other)], bad);
    }
  }

  // An attempt that panics.
  lemma AttemptPanics(w: World, start: Moment, spec: Spec, status: Status) returns (schedule: seq<Moment>)
    requires Waiting(start.node, spec, status)
    requires Selection.AllValid(spec.selectors) && !Transforms(w.cluster, spec)
    ensures IsSchedule(w, schedule) && |schedule| > 1 && schedule[0] == start
    ensures Waiting(Last(schedule).node, spec, status) && Panics(schedule[|schedule| - 2].node.process)
  {
    hide Step, TextOf, Selected, Waiting, HasRead, Panics;
    schedule := StartAttempt(w, [start], spec, status);
    schedule := ReadOn(w, schedule, spec, status);
    schedule := PanicNow(w, schedule, spec, status);
  }

  lemma PanicNow(w: World, schedule: seq<Moment>, spec: Spec, status: Status) returns (more: seq<Moment>)
    requires IsSchedule(w, schedule) && HasRead(w.cluster, Last(schedule).node, spec, status, |spec.selectors|)
    requires !Transforms(w.cluster, spec)
    ensures IsSchedule(w, more) && |more| > |schedule| && more[0] == schedule[0]
    ensures Waiting(Last(more).node, spec, status) && Panics(more[|more| - 2].node.process)
  {
    hide Step, TextOf, Selected;
    assert spec.selectors[..|spec.selectors|] == spec.selectors;
    more := Continue(w, schedule, Prepare);
  }

  // ---------------------------------------------------------------------------------------
  // Attempt after attempt
  // ---------------------------------------------------------------------------------------

  // Retried with the same object as before.
  ghost predicate Again(w: World, m: Moment, spec: Spec) {
    Restless(w.cluster, spec) && m.node.stored.Some? && Waiting(m.node, spec, m.node.stored.value.status)
  }

  ghost predicate IsAttempt(w: World, m: Moment, spec: Spec, schedule: seq<Moment>) {
    && IsSchedule(w, schedule) && |schedule| > 1 && schedule[0] == m && Again(w, Last(schedule), spec)
    && (Transforms(w.cluster, spec) || Panics(schedule[|schedule| - 2].node.process))
  }

  // Whatever the status, one of the two orders changes it.
  lemma NextAttempt(w: World, m: Moment, spec: Spec)
    requires Again(w, m, spec)
    ensures exists schedule :: IsAttempt(w, m, spec, schedule)
  {
    hide IsSchedule, FaultAt, SelectedMap, Transforms, Panics;
    var status := m.node.stored.value.status;
    if Transforms(w.cluster, spec) {
      var j, k :| Differ(w.cluster, spec, j, k);
      var jFails := FaultAt(w.cluster, spec, j).Some?;
      var bad, other := if jFails then j else k, if jFails then k else j;
      var badFirst := status != Report(w.cluster, spec, bad, other, true);
      var schedule := Attempt(w, m, spec, status, bad, other, badFirst);
      assert IsAttempt(w, m, spec, schedule);
    } else {
      var schedule := AttemptPanics(w, m, spec, status);
      assert IsAttempt(w, m, spec, schedule);
    }
  }

  ghost function AttemptFrom(w: World, m: Moment, spec: Spec): (schedule: seq<Moment>)
    requires Again(w, m, spec)
    ensures IsAttempt(w, m, spec, schedule)
  {
    NextAttempt(w, m, spec);
    var schedule :| IsAttempt(w, m, spec, schedule);
    schedule
  }

  // The moments of attempt after attempt.
  ghost function Nth(w: World, m: Moment, spec: Spec, n: nat): Moment
    requires Again(w, m, spec)
    decreases n
  {
    var schedule := AttemptFrom(w, m, spec);
    if n < |schedule| - 1 then schedule[n] else Nth(w, Last(schedule), spec, n - (|schedule| - 1))
  }

  lemma {:induction false} NthSteps(w: World, m: Moment, spec: Spec, n: nat)
    requires Again(w, m, spec)
    ensures Step(w, Nth(w, m, spec, n), Nth(w, m, spec, n + 1))
    ensures n == 0 ==> Nth(w, m, spec, n) == m
    decreases n
  {
    hide Again, Step;
    var schedule := AttemptFrom(w, m, spec);
    if n < |schedule| - 1 {
      assert Step(w, schedule[n], schedule[n + 1]);
      if n + 1 == |schedule| - 1 {
        var after := AttemptFrom(w, Last(schedule), spec);
        assert Nth(w, m, spec, n + 1) == Nth(w, Last(schedule), spec, 0) == after[0];
      }
    } else {
      NthSteps(w, Last(schedule), spec, n - (|schedule| - 1));
    }
  }

  lemma {:induction false} NthForever(w: World, m: Moment, spec: Spec, schedule: nat -> Moment)
    requires Again(w, m, spec) && forall n :: schedule(n) == Nth(w, m, spec, n)
    ensures GoesOnForever(w, m, schedule)
  {
    hide Again, Step, Nth;
    NthSteps(w, m, spec, 0);
    forall n: nat ensures Step(w, schedule(n), schedule(n + 1)) {
      NthSteps(w, m, spec, n);
    }
  }

  // If attempts panic, there is always another panic to come.
  lemma {:induction false} NthPanics(w: World, m: Moment, spec: Spec, n: nat) returns (k: nat)
    requires Again(w, m, spec) && !Transforms(w.cluster, spec)
    ensures k >= n && Panics(Nth(w, m, spec, k).node.process)
    decreases n
  {
    hide Again, Step, Panics, IsSchedule, Transforms;
    var schedule := AttemptFrom(w, m, spec);
    if n < |schedule| - 1 {
      k := |schedule| - 2;
    } else {
      k := NthPanics(w, Last(schedule), spec, n - (|schedule| - 1));
      k := k + |schedule| - 1;
    }
  }

  ghost predicate PanicsLater(schedule: nat -> Moment, n: nat) {
    exists k: nat :: k >= n && Panics(schedule(k).node.process)
  }

  lemma Forever(w: World, start: Moment) returns (schedule: nat -> Moment)
    requires Ready(start.node, start.store) && start.node.dirty && start.node.process.phase.Idle?
    requires start.node.stored.Some? && !start.node.stored.value.deleting
    requires Restless(w.cluster, start.node.stored.value.spec)
    ensures GoesOnForever(w, start, schedule)
    ensures !Transforms(w.cluster, start.node.stored.value.spec) ==>
              forall n: nat :: PanicsLater(schedule, n)
  {
    hide Step, Restless, Transforms, Panics, Nth;
    var spec := start.node.stored.value.spec;
    schedule := (n: nat) => Nth(w, start, spec, n);
    NthForever(w, start, spec, schedule);
    if !Transforms(w.cluster, spec) {
      forall n: nat ensures PanicsLater(schedule, n) {
        var k := NthPanics(w, start, spec, n);
        assert schedule(k) == Nth(w, start, spec, k);
      }
    }
  }

  // A MimirRules that is queued, and not being reconciled or deleted, can be retried for ever
  // without a failing call exactly if its selectors are valid and what it selects makes the
  // transformation panic, or can be transformed but some selected text does not decode and
  // another does or fails differently.
  lemma RetriedForever(w: World, start: Moment)
    requires Ready(start.node, start.store) && Valid(start.store) && PlainKeys(w.cluster.Keys)
    requires start.node.dirty && start.node.process.phase.Idle?
    requires start.node.stored.Some? && !start.node.stored.value.deleting
    ensures (exists schedule :: GoesOnForever(w, start, schedule)) <==>
              Restless(w.cluster, start.node.stored.value.spec)
  {
    hide Step, Restless;
    if Restless(w.cluster, start.node.stored.value.spec) {
      var schedule := Forever(w, start);
    } else {
      forall schedule ensures !GoesOnForever(w, start, schedule) {
        NoEndlessSchedule(w, start, schedule);
      }
    }
  }

  // ---------------------------------------------------------------------------------------
  // An example
  // ---------------------------------------------------------------------------------------

  function Alert(name: string): Rule<Labels> { Rule(name, "", "up == 0", None, None, None, None) }

  function OneAlert(name: string): seq<Group<Labels>> { [Group("g", None, [Alert(name)])] }

  function For(text: string): Override<Labels> { Override(false, None, None, "", text) }

  lemma AlertOverridden(overrides: map<string, Override<Labels>>, name: string, text: string)
    requires name != "" && text != "" && name in overrides && overrides[name] == For(text)
    ensures Transform(overrides, map[], OneAlert(name))
         == Some([Group("g", None, [Alert(name).(forText := Some(text))])])
  {
    var rule, group := Alert(name), Group("g", None, [Alert(name)]);
    var rule' := rule.(forText := Some(text));
    var group' := group.(rules := [rule']);
    ScanOne((r: Rule<Labels>) => RuleAction(overrides, r), rule, rule');
    assert HasEntry(overrides, group.rules[0]);
    ScanOne((g: Group<Labels>) => GroupAction(overrides, g), group, group');
    assert OverrideGroups(overrides, OneAlert(name)) == Some([group']);
    assert LabelGroup(map[], group').rules == group'.rules;
    assert SwapScan.Map(g => LabelGroup(map[], g), [group']) == [group'];
  }

  lemma ScanOne<T>(act: T -> SwapScan.Action<T>, x: T, y: T)
    requires act(x) == SwapScan.Replace(y)
    ensures SwapScan.Scan(act, [x], [x], 0) == Some([y])
  {
    assert [x][0 := y] == [y];
    assert SwapScan.Scan(act, [x], [y], 1) == Some([y]);
  }

  lemma UnknownUnit(digit: char)
    requires IsDigit(digit)
    ensures DurationText.Parse([digit, 'x']) == Failure(DurationText.UnknownUnit("x"))
  {
    var s := [digit, 'x'];
    DigitRunUnique(s, 1);
    assert s[..1] == [digit] && s[1..] == "x";
    assert [digit][..0] == "" && Value([digit]) <= 9;
    NonDigitRunUnique("x", 1);
    assert "x"[..1] == "x";
  }

  lemma AlertFault(overrides: map<string, Override<Labels>>, name: string, digit: char)
    requires name != "" && IsDigit(digit) && name in overrides && overrides[name] == For([digit, 'x'])
    ensures Transform(overrides, map[], OneAlert(name)).Some?
    ensures FirstFault(Transform(overrides, map[], OneAlert(name)).value)
         == Some(Fault(DurationText.UnknownUnit("x"), [digit, 'x']))
  {
    hide Transform;
    AlertOverridden(overrides, name, [digit, 'x']);
    UnknownUnit(digit);
  }

  // Two alerts whose overrides give durations that are none, and different ones: durations of
  // overrides are not checked before.
  lemma RestlessExample()
    ensures var spec := Spec([Requirements([])], map["A" := For("5x"), "B" := For("7x")], map[]);
            var cluster := map[Key("n", "a") := PromRule(map[], OneAlert("A")),
                               Key("n", "b") := PromRule(map[], OneAlert("B"))];
            Restless(cluster, spec)
  {
    hide Transform, FirstFault, OneAlert, For;
    var spec := Spec([Requirements([])], map["A" := For("5x"), "B" := For("7x")], map[]);
    var a, b := Key("n", "a"), Key("n", "b");
    var cluster := map[a := PromRule(map[], OneAlert("A")), b := PromRule(map[], OneAlert("B"))];
    AlertFault(spec.overrides, "A", '5');
    AlertFault(spec.overrides, "B", '7');
    assert Matches(spec.selectors[0], map[]);
    assert ['5', 'x'][0] != ['7', 'x'][0];
    assert Differ(cluster, spec, a, b);
  }
}
