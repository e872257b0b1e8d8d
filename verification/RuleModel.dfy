// Prometheus rules and groups, overrides and external labels, as values; and what
// applyOverrides followed by applyExternalLabels makes of the groups of one PrometheusRule.
// The label sets are a parameter: plain maps here, heap-allocated maps in RuleHeap.
module RuleModel {
  import opened Words
  import opened SwapScan

  type Labels = map<string, string>

  datatype Rule<+L> = Rule(
    alert: string, record: string, expr: string,
    forText: Option<string>, keepFiringFor: Option<string>,
    labels: Option<L>, annotations: Option<Labels>)

  datatype Override<+L> = Override(
    disable: bool, annotations: Option<Labels>, labels: Option<L>, expr: string, forText: string)

  datatype Group<+L> = Group(name: string, interval: Option<string>, rules: seq<Rule<L>>)

  function NameOf<L>(rule: Rule<L>): string {
    if rule.alert != "" then rule.alert else rule.record
  }

  predicate HasEntry<L>(overrides: map<string, Override<L>>, rule: Rule<L>) {
    NameOf(rule) in overrides
  }

  predicate IsDisabled<L>(overrides: map<string, Override<L>>, rule: Rule<L>) {
    HasEntry(overrides, rule) && overrides[NameOf(rule)].disable
  }

  // The fields an override specifies replace those of the rule.
  function Applied<L>(o: Override<L>, rule: Rule<L>): Rule<L> {
    rule.(annotations := if o.annotations.Some? then o.annotations else rule.annotations,
          labels := if o.labels.Some? then o.labels else rule.labels,
          expr := if o.expr != "" then o.expr else rule.expr,
          forText := if o.forText != "" then Some(o.forText) else rule.forText)
  }

  function RuleAction<L>(overrides: map<string, Override<L>>, rule: Rule<L>): Action<Rule<L>> {
    if !HasEntry(overrides, rule) then Keep
    else if overrides[NameOf(rule)].disable then Remove
    else Replace(Applied(overrides[NameOf(rule)], rule))
  }

  // What the inner loop leaves of the rules of a group.
  function OverrideRules<L>(overrides: map<string, Override<L>>, rules: seq<Rule<L>>): Option<seq<Rule<L>>> {
    Scan(rule => RuleAction(overrides, rule), rules, rules, 0)
  }

  predicate Untouched<L>(overrides: map<string, Override<L>>, rules: seq<Rule<L>>) {
    forall r :: 0 <= r < |rules| ==> !HasEntry(overrides, rules[r])
  }

  // A group without overridden rules is never written; one left without rules is removed.
  function GroupAction<L>(overrides: map<string, Override<L>>, group: Group<L>): Action<Group<L>> {
    if Untouched(overrides, group.rules) then Keep
    else
      match OverrideRules(overrides, group.rules)
      case None => Abort
      case Some(rules) => if rules == [] then Remove else Replace(group.(rules := rules))
  }

  // applyOverrides on the groups of one item; None is an index-out-of-range panic.
  function OverrideGroups<L>(overrides: map<string, Override<L>>, groups: seq<Group<L>>): Option<seq<Group<L>>> {
    Scan(group => GroupAction(overrides, group), groups, groups, 0)
  }

  // ---------------------------------------------------------------------------------------
  // External labels, and both steps together
  // ---------------------------------------------------------------------------------------

  function Own(labels: Option<Labels>): Labels {
    if labels.None? then map[] else labels.value
  }

  // A rule keeps the labels it has; the external ones only fill in.
  function WithExternal(external: Labels, rule: Rule<Labels>): Rule<Labels> {
    if external == map[] then rule else rule.(labels := Some(external + Own(rule.labels)))
  }

  function LabelGroup(external: Labels, group: Group<Labels>): Group<Labels> {
    group.(rules := Map(rule => WithExternal(external, rule), group.rules))
  }

  function Transform(overrides: map<string, Override<Labels>>, external: Labels, groups: seq<Group<Labels>>)
    : Option<seq<Group<Labels>>>
  {
    match OverrideGroups(overrides, groups)
    case None => None
    case Some(gs) => Some(Map(g => LabelGroup(external, g), gs))
  }

  // Labelling twice is labelling once.
  lemma LabelTwice(external: Labels, rule: Rule<Labels>)
    ensures WithExternal(external, WithExternal(external, rule)) == WithExternal(external, rule)
    ensures external != map[] ==>
              forall k :: k in Own(rule.labels) ==> WithExternal(external, rule).labels.value[k] == rule.labels.value[k]
  {
    var once := external + Own(rule.labels);
    assert external + once == once;
  }

  // The labels after labelling, label by label; nothing else of the rule changes.
  lemma LabelledRule(external: Labels, rule: Rule<Labels>)
    ensures var out := WithExternal(external, rule);
            && (external == map[] ==> out == rule)
            && (external != map[] ==>
                  && out.labels.Some? && out == rule.(labels := out.labels)
                  && forall k ::
                       k in out.labels.value <==> k in external || (rule.labels.Some? && k in rule.labels.value))
            && (external != map[] ==>
                  forall k :: k in out.labels.value ==>
                    out.labels.value[k]
                    == if rule.labels.Some? && k in rule.labels.value then rule.labels.value[k] else external[k])
  {
  }

  lemma NothingOverridden<L>(overrides: map<string, Override<L>>, groups: seq<Group<L>>)
    requires overrides == map[]
    ensures OverrideGroups(overrides, groups) == Some(groups)
  {
    NothingToDo(group => GroupAction(overrides, group), groups, groups, 0);
  }

  // Without overrides and external labels the groups are as they were.
  lemma NothingTransformed(groups: seq<Group<Labels>>)
    ensures Transform(map[], map[], groups) == Some(groups)
  {
    NothingOverridden<Labels>(map[], groups);
    forall g | 0 <= g < |groups| ensures LabelGroup(map[], groups[g]) == groups[g] {
      assert LabelGroup(map[], groups[g]).rules == groups[g].rules;
    }
    assert Map(g => LabelGroup(map[], g), groups) == groups;
  }

  // ---------------------------------------------------------------------------------------
  // The exact bound and the exact contents
  // ---------------------------------------------------------------------------------------

  function DisabledIn<L>(overrides: map<string, Override<L>>, rules: seq<Rule<L>>): (n: nat) {
    if rules == [] then 0
    else DisabledIn(overrides, rules[..|rules| - 1]) + if IsDisabled(overrides, rules[|rules| - 1]) then 1 else 0
  }

  predicate IsEmptied<L>(overrides: map<string, Override<L>>, group: Group<L>) {
    |group.rules| == 1 && IsDisabled(overrides, group.rules[0])
  }

  function EmptiedIn<L>(overrides: map<string, Override<L>>, groups: seq<Group<L>>): (n: nat) {
    if groups == [] then 0
    else EmptiedIn(overrides, groups[..|groups| - 1]) + if IsEmptied(overrides, groups[|groups| - 1]) then 1 else 0
  }

  // Each rule with an override, at index r of n, has r + (disabled rules before it) < n.
  ghost predicate RulesFit<L>(overrides: map<string, Override<L>>, rules: seq<Rule<L>>) {
    forall r :: 0 <= r < |rules| && HasEntry(overrides, rules[r]) ==> r + DisabledIn(overrides, rules[..r]) < |rules|
  }

  // Each group with such a rule, at index g of G, has g + (groups emptied before it) < G.
  ghost predicate GroupsFit<L>(overrides: map<string, Override<L>>, groups: seq<Group<L>>) {
    forall g :: 0 <= g < |groups| && !Untouched(overrides, groups[g].rules) ==>
      RulesFit(overrides, groups[g].rules) && g + EmptiedIn(overrides, groups[..g]) < |groups|
  }

  // The rules an override run is meant to leave: the disabled dropped, the others rewritten.
  function Remaining<L>(overrides: map<string, Override<L>>, rules: seq<Rule<L>>): seq<Rule<L>> {
    if rules == [] then []
    else
      var last := rules[|rules| - 1];
      Remaining(overrides, rules[..|rules| - 1])
      + if IsDisabled(overrides, last) then []
        else if HasEntry(overrides, last) then [Applied(overrides[NameOf(last)], last)]
        else [last]
  }

  // What an override makes of a rule: its expression, `for`, labels and annotations where it gives
  // them, and all else as it was.
  ghost predicate IsOverridden<L>(o: Override<L>, rule: Rule<L>, out: Rule<L>) {
    && out.alert == rule.alert && out.record == rule.record && out.keepFiringFor == rule.keepFiringFor
    && (if o.expr == "" then out.expr == rule.expr else out.expr == o.expr)
    && (if o.forText == "" then out.forText == rule.forText else out.forText == Some(o.forText))
    && (if o.labels.None? then out.labels == rule.labels else out.labels == o.labels)
    && (if o.annotations.None? then out.annotations == rule.annotations else out.annotations == o.annotations)
  }

  // What is left of a rule that goes by this name.
  ghost predicate IsGoverned<L>(overrides: map<string, Override<L>>, name: string, rule: Rule<L>, out: seq<Rule<L>>) {
    if name !in overrides then out == [rule]
    else if overrides[name].disable then out == []
    else |out| == 1 && IsOverridden(overrides[name], rule, out[0])
  }

  // An alert goes by the name of the alert, a recording rule by the name of the record.
  lemma {:induction false} RuleGoverned<L>(overrides: map<string, Override<L>>, rule: Rule<L>)
    ensures var out := OverrideRules(overrides, [rule]);
            && out.Some? && out.value == Remaining(overrides, [rule])
            && (rule.alert != "" ==> IsGoverned(overrides, rule.alert, rule, out.value))
            && (rule.alert == "" ==> IsGoverned(overrides, rule.record, rule, out.value))
  {
    var act := (r: Rule<L>) => RuleAction(overrides, r);
    assert [rule][..0] == [];
    assert Remaining(overrides, [rule]) == Kept(act, [rule]) by {
      CountsAgree(overrides, [rule]);
    }
    match RuleAction(overrides, rule) {
      case Keep =>
        assert Scan(act, [rule], [rule], 1) == Some([rule]);
      case Remove =>
        assert Scan(act, [rule], [], 1) == Some([]);
      case Replace(y) =>
        assert [rule][0 := y] == [y];
        assert Scan(act, [rule], [y], 1) == Some([y]);
    }
  }

  lemma {:induction false} RemainingLast<L>(overrides: map<string, Override<L>>, rules: seq<Rule<L>>)
    requires rules != []
    ensures Remaining(overrides, rules)
         == Remaining(overrides, rules[..|rules| - 1]) + Remaining(overrides, [rules[|rules| - 1]])
  {
    hide Applied, NameOf;
    var last := [rules[|rules| - 1]];
    assert last[..0] == [];
  }

  // In a group every rule is left as it would be in a group of its own.
  lemma {:induction false} RemainingOneByOne<L>(overrides: map<string, Override<L>>, rules: seq<Rule<L>>, r: nat)
    requires r < |rules|
    ensures Remaining(overrides, rules)
         == Remaining(overrides, rules[..r]) + Remaining(overrides, [rules[r]]) + Remaining(overrides, rules[r + 1..])
  {
    hide Remaining;
    var n := |rules| - 1;
    RemainingLast(overrides, rules);
    if r < n {
      var rest := rules[r + 1..];
      RemainingOneByOne(overrides, rules[..n], r);
      RemainingLast(overrides, rest);
      assert rules[..n][..r] == rules[..r] && rest[..|rest| - 1] == rules[..n][r + 1..];
    } else {
      NothingRemains(overrides);
      assert rules[r + 1..] == [];
    }
  }

  lemma {:induction false} NothingRemains<L>(overrides: map<string, Override<L>>)
    ensures Remaining<L>(overrides, []) == []
  {
  }

  lemma {:induction false} CountsAgree<L>(overrides: map<string, Override<L>>, rules: seq<Rule<L>>)
    ensures Removed(rule => RuleAction(overrides, rule), rules) == DisabledIn(overrides, rules)
    ensures Kept(rule => RuleAction(overrides, rule), rules) == Remaining(overrides, rules)
  {
    if rules != [] {
      CountsAgree(overrides, rules[..|rules| - 1]);
    }
  }

  // One group: the inner loop panics exactly when the bound fails; otherwise its rules are the
  // remaining ones up to order, and it ends up empty exactly when its only rule is disabled.
  lemma {:induction false} RulesCharacterised<L>(overrides: map<string, Override<L>>, rules: seq<Rule<L>>)
    ensures OverrideRules(overrides, rules).Some? <==> RulesFit(overrides, rules)
    ensures RulesFit(overrides, rules) ==>
              var out := OverrideRules(overrides, rules).value;
              && multiset(out) == multiset(Remaining(overrides, rules))
              && (rules != [] ==> (out == [] <==> |rules| == 1 && IsDisabled(overrides, rules[0])))
  {
    var act := (rule: Rule<L>) => RuleAction(overrides, rule);
    ScanCharacterised(act, rules);
    assert rules[..|rules|] == rules;
    forall r | 0 <= r < |rules|
      ensures InBoundsAt(act, rules, r) <==>
                (HasEntry(overrides, rules[r]) ==> r + DisabledIn(overrides, rules[..r]) < |rules|)
    {
      CountsAgree(overrides, rules[..r]);
    }
    CountsAgree(overrides, rules);
    if RulesFit(overrides, rules) && rules != [] && Removed(act, rules) == |rules| {
      EmptiedOnlyIfSingle(act, rules);
    }
  }

  lemma {:induction false} GroupActionMeaning<L>(overrides: map<string, Override<L>>, group: Group<L>)
    ensures var a := GroupAction(overrides, group);
            && (a.Keep? <==> Untouched(overrides, group.rules))
            && (a.Abort? <==> !Untouched(overrides, group.rules) && !RulesFit(overrides, group.rules))
            && (a.Remove? <==> IsEmptied(overrides, group))
            && (a.Replace? ==> a.value == group.(rules := a.value.rules) && a.value.rules != []
                               && multiset(a.value.rules) == multiset(Remaining(overrides, group.rules)))
  {
    RulesCharacterised(overrides, group.rules);
  }

  // A group up to the order of its rules.
  datatype Summary<!L(==)> = Summary(name: string, interval: Option<string>, rules: multiset<Rule<L>>)

  ghost function SummaryOf<L>(group: Group<L>): Summary<L> {
    Summary(group.name, group.interval, multiset(group.rules))
  }

  // The groups of an item up to order.
  ghost function Summaries<L>(groups: seq<Group<L>>): multiset<Summary<L>> {
    if groups == [] then multiset{}
    else Summaries(groups[..|groups| - 1]) + multiset{SummaryOf(groups[|groups| - 1])}
  }

  // What an override run is meant to leave of a group: nothing if its only rule is disabled.
  ghost function RemainingOf<L>(overrides: map<string, Override<L>>, group: Group<L>): multiset<Summary<L>> {
    if IsEmptied(overrides, group) then multiset{}
    else multiset{Summary(group.name, group.interval, multiset(Remaining(overrides, group.rules)))}
  }

  ghost function RemainingGroups<L>(overrides: map<string, Override<L>>, groups: seq<Group<L>>): multiset<Summary<L>> {
    if groups == [] then multiset{}
    else RemainingGroups(overrides, groups[..|groups| - 1]) + RemainingOf(overrides, groups[|groups| - 1])
  }

  lemma {:induction false} RemainingUntouched<L>(overrides: map<string, Override<L>>, rules: seq<Rule<L>>)
    requires Untouched(overrides, rules)
    ensures Remaining(overrides, rules) == rules
  {
    if rules != [] {
      assert rules == rules[..|rules| - 1] + [rules[|rules| - 1]];
      RemainingUntouched(overrides, rules[..|rules| - 1]);
    }
  }

  lemma {:induction false} EmptiedAgree<L>(overrides: map<string, Override<L>>, groups: seq<Group<L>>)
    ensures Removed(group => GroupAction(overrides, group), groups) == EmptiedIn(overrides, groups)
  {
    if groups != [] {
      EmptiedAgree(overrides, groups[..|groups| - 1]);
      GroupActionMeaning(overrides, groups[|groups| - 1]);
    }
  }

  lemma {:induction false} SummariesSnoc<L>(groups: seq<Group<L>>, group: Group<L>)
    ensures Summaries(groups + [group]) == Summaries(groups) + multiset{SummaryOf(group)}
  {
    assert (groups + [group])[..|groups|] == groups;
  }

  // A group that is not removed is left with its name, its interval and its remaining rules.
  lemma GroupLeft<L>(overrides: map<string, Override<L>>, group: Group<L>)
    requires !GroupAction(overrides, group).Abort?
    ensures var a := GroupAction(overrides, group);
            RemainingOf(overrides, group) ==
            if a.Remove? then multiset{} else multiset{SummaryOf(if a.Replace? then a.value else group)}
  {
    hide GroupAction, Remaining, Untouched, IsEmptied;
    GroupActionMeaning(overrides, group);
    if GroupAction(overrides, group).Keep? {
      RemainingUntouched(overrides, group.rules);
    }
  }

  lemma {:induction false} KeptGroups<L>(overrides: map<string, Override<L>>, groups: seq<Group<L>>)
    requires forall g :: 0 <= g < |groups| ==> !GroupAction(overrides, groups[g]).Abort?
    ensures Summaries(Kept(group => GroupAction(overrides, group), groups)) == RemainingGroups(overrides, groups)
  {
    hide GroupAction, RemainingOf, SummaryOf;
    if groups != [] {
      var front, last := groups[..|groups| - 1], groups[|groups| - 1];
      KeptGroups(overrides, front);
      GroupLeft(overrides, last);
      var kept := Kept(group => GroupAction(overrides, group), front);
      match GroupAction(overrides, last) {
        case Keep => SummariesSnoc(kept, last);
        case Replace(g) => SummariesSnoc(kept, g);
        case Remove => assert kept + [] == kept;
      }
    }
  }

  lemma WithoutLast<T>(s: seq<T>, i: nat)
    requires i < |s| - 1
    ensures var front := s[..|s| - 1]; s[..i] + s[i + 1..] == front[..i] + front[i + 1..] + [s[|s| - 1]]
  {
  }

  lemma {:induction false} SummariesWithout<L>(groups: seq<Group<L>>, i: nat)
    requires i < |groups|
    ensures Summaries(groups) == Summaries(groups[..i] + groups[i + 1..]) + multiset{SummaryOf(groups[i])}
  {
    hide SummaryOf;
    var front, last := groups[..|groups| - 1], groups[|groups| - 1];
    if i == |groups| - 1 {
      assert groups[..i] + groups[i + 1..] == front;
    } else {
      SummariesWithout(front, i);
      WithoutLast(groups, i);
      SummariesSnoc(front[..i] + front[i + 1..], last);
    }
  }

  // The order of the groups does not matter.
  lemma {:induction false} SummariesPermuted<L>(xs: seq<Group<L>>, ys: seq<Group<L>>)
    requires multiset(xs) == multiset(ys)
    ensures Summaries(xs) == Summaries(ys)
    decreases |xs|
  {
    if xs == [] {
      assert |multiset(ys)| == 0;
    } else {
      var n := |xs|;
      var i := TakeOut(xs, ys);
      SummariesPermuted(xs[..n - 1], ys[..i] + ys[i + 1..]);
      SummariesWithout(ys, i);
    }
  }

  lemma TakeOut<T>(xs: seq<T>, ys: seq<T>) returns (i: nat)
    requires multiset(xs) == multiset(ys) && xs != []
    ensures i < |ys| && ys[i] == xs[|xs| - 1]
    ensures multiset(xs[..|xs| - 1]) == multiset(ys[..i] + ys[i + 1..])
  {
    var front, x := xs[..|xs| - 1], xs[|xs| - 1];
    assert x in multiset(ys);
    i :| 0 <= i < |ys| && ys[i] == x;
    assert xs == front + [x];
    SnocContents(front, x);
    Cancel(multiset(front), multiset(xs), x);
    WithoutContents(ys, i);
  }

  lemma WithoutContents<T>(s: seq<T>, i: nat)
    requires i < |s|
    ensures multiset(s[..i] + s[i + 1..]) == multiset(s) - multiset{s[i]}
  {
    assert s == s[..i] + [s[i]] + s[i + 1..];
    MiddleContents(s[..i], s[i], s[i + 1..]);
    Cancel(multiset(s[..i] + s[i + 1..]), multiset(s), s[i]);
  }

  // One item: applyOverrides stays in range exactly when the groups fit. Then the groups left
  // are those whose only rule is not disabled, each with its name, its interval and its
  // remaining rules.
  lemma {:induction false} OverridesCharacterised<L>(overrides: map<string, Override<L>>, groups: seq<Group<L>>)
    ensures OverrideGroups(overrides, groups).Some? <==> GroupsFit(overrides, groups)
    ensures GroupsFit(overrides, groups) ==>
              var out := OverrideGroups(overrides, groups).value;
              |out| == |groups| - EmptiedIn(overrides, groups) && Summaries(out) == RemainingGroups(overrides, groups)
  {
    var act := (group: Group<L>) => GroupAction(overrides, group);
    ScanCharacterised(act, groups);
    forall g | 0 <= g < |groups|
      ensures InBoundsAt(act, groups, g) <==>
                (!Untouched(overrides, groups[g].rules) ==>
                   RulesFit(overrides, groups[g].rules) && g + EmptiedIn(overrides, groups[..g]) < |groups|)
    {
      GroupActionMeaning(overrides, groups[g]);
      EmptiedAgree(overrides, groups[..g]);
    }
    EmptiedAgree(overrides, groups);
    if GroupsFit(overrides, groups) {
      KeptGroups(overrides, groups);
      SummariesPermuted(OverrideGroups(overrides, groups).value, Kept(act, groups));
    }
  }

  // The bound is not always met: whenever a disabled rule comes first and the last rule of
  // the group has an override of any kind, the write or removal at the last index panics.
  lemma FirstDisabledLastOverridden<L>(overrides: map<string, Override<L>>, rules: seq<Rule<L>>)
    requires |rules| >= 2 && IsDisabled(overrides, rules[0]) && HasEntry(overrides, rules[|rules| - 1])
    ensures OverrideRules(overrides, rules).None?
  {
    RulesCharacterised(overrides, rules);
    DisabledPrefix(overrides, rules, |rules| - 1);
  }

  lemma {:induction false} DisabledPrefix<L>(overrides: map<string, Override<L>>, rules: seq<Rule<L>>, n: nat)
    requires 1 <= n <= |rules| && IsDisabled(overrides, rules[0])
    ensures DisabledIn(overrides, rules[..n]) >= 1
  {
    assert rules[..n][..n - 1] == rules[..n - 1];
    if n > 1 {
      DisabledPrefix(overrides, rules, n - 1);
    }
  }
}
