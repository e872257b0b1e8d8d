// applyExternalLabels on shared label maps, and both transformation steps together: on the
// heap, where an override and every rule it hits share one map that is then written in place,
// the outcome is that of the steps on plain values.
module LabelHeap {
  import opened Words
  import opened SwapScan
  import opened RuleModel
  import opened RuleHeap

  // Contents of label maps at some moment.
  type Snapshot = map<LabelMap, Labels>

  ghost predicate Agrees(now: Snapshot)
    reads now.Keys
  {
    forall l :: l in now ==> l.entries == now[l]
  }

  // From one moment to a later one a map is either as it was or has had the external labels
  // filled in; maps may have been added.
  ghost predicate Grows(external: Labels, past: Snapshot, now: Snapshot) {
    past.Keys <= now.Keys && forall l :: l in past ==> now[l] == past[l] || now[l] == external + past[l]
  }

  ghost function Deref(h: Snapshot, labels: Option<LabelMap>): Option<Labels> {
    if labels.None? then None else Some(if labels.value in h then h[labels.value] else map[])
  }

  // A heap rule as a value.
  ghost function ViewRule(h: Snapshot, rule: HeapRule): Rule<Labels> {
    Rule(rule.alert, rule.record, rule.expr, rule.forText, rule.keepFiringFor, Deref(h, rule.labels), rule.annotations)
  }

  ghost function ViewGroup(h: Snapshot, group: Group<LabelMap>): Group<Labels> {
    Group(group.name, group.interval, Map(rule => ViewRule(h, rule), group.rules))
  }

  ghost function ViewGroups(h: Snapshot, groups: seq<Group<LabelMap>>): seq<Group<Labels>> {
    Map(group => ViewGroup(h, group), groups)
  }

  ghost function ViewOverride(h: Snapshot, o: Override<LabelMap>): Override<Labels> {
    Override(o.disable, o.annotations, Deref(h, o.labels), o.expr, o.forText)
  }

  ghost function ViewOverrides(h: Snapshot, overrides: map<string, Override<LabelMap>>): map<string, Override<Labels>> {
    map name | name in overrides :: ViewOverride(h, overrides[name])
  }

  ghost predicate Known(h: Snapshot, labels: Option<LabelMap>) { labels.Some? ==> labels.value in h }

  ghost predicate RulesKnown(h: Snapshot, rules: seq<HeapRule>) {
    forall r :: 0 <= r < |rules| ==> Known(h, rules[r].labels)
  }

  ghost predicate GroupsKnown(h: Snapshot, groups: seq<Group<LabelMap>>) {
    forall g :: 0 <= g < |groups| ==> RulesKnown(h, groups[g].rules)
  }

  // ---------------------------------------------------------------------------------------
  // Filling in the external labels
  // ---------------------------------------------------------------------------------------

  // What the loop has done to one rule, seen from the moments before and after.
  ghost predicate Labelled(external: Labels, h: Snapshot, now: Snapshot, before: HeapRule, after: HeapRule) {
    && after.labels.Some? && after.labels.value in now
    && ViewRule(now, after) == WithExternal(external, ViewRule(h, before))
  }

  ghost predicate RulesLabelled(external: Labels, h: Snapshot, now: Snapshot, before: seq<HeapRule>,
                                after: seq<HeapRule>)
  {
    |before| == |after| && forall r :: 0 <= r < |before| ==> Labelled(external, h, now, before[r], after[r])
  }

  ghost predicate GroupsLabelled(external: Labels, h: Snapshot, now: Snapshot,
                                 before: seq<Group<LabelMap>>, after: seq<Group<LabelMap>>)
  {
    && |before| == |after|
    && forall g :: 0 <= g < |before| ==>
         && after[g] == before[g].(rules := after[g].rules)
         && RulesLabelled(external, h, now, before[g].rules, after[g].rules)
  }

  lemma GrowsTrans(external: Labels, a: Snapshot, b: Snapshot, c: Snapshot)
    requires Grows(external, a, b) && Grows(external, b, c)
    ensures Grows(external, a, c)
  {
    forall l | l in a ensures c[l] == a[l] || c[l] == external + a[l] {
      assert external + (external + a[l]) == external + a[l];
    }
  }

  // A labelled rule stays labelled whatever is done to the maps afterwards.
  lemma LabelledStays(external: Labels, h: Snapshot, now: Snapshot, later: Snapshot, before: HeapRule, after: HeapRule)
    requires external != map[] && Labelled(external, h, now, before, after) && Grows(external, now, later)
    ensures Labelled(external, h, later, before, after)
  {
    var own := Own(Deref(h, before.labels));
    assert external + (external + own) == external + own;
  }

  lemma RulesLabelledStay(external: Labels, h: Snapshot, now: Snapshot, later: Snapshot, before: seq<HeapRule>,
                          after: seq<HeapRule>)
    requires external != map[] && RulesLabelled(external, h, now, before, after) && Grows(external, now, later)
    ensures RulesLabelled(external, h, later, before, after)
  {
    forall r | 0 <= r < |before| ensures Labelled(external, h, later, before[r], after[r]) {
      LabelledStays(external, h, now, later, before[r], after[r]);
    }
  }

  // The innermost loop: set the labels whose keys are absent. The keys are visited in any
  // order, and the outcome does not depend on it.
  method FillIn(external: Labels, target: LabelMap)
    modifies target
    ensures target.entries == external + old(target.entries)
  {
    ghost var own := target.entries;
    var keys := external.Keys;
    while keys != {}
      invariant keys <= external.Keys
      invariant target.entries.Keys == own.Keys + (external.Keys - keys)
      invariant forall k :: k in target.entries ==> target.entries[k] == (external + own)[k]
      decreases |keys|
    {
      var key :| key in keys;
      if key !in target.entries {
        target.entries := target.entries[key := external[key]];
      }
      keys := keys - {key};
    }
  }

  // The body of the loop for one rule.
  method LabelRule(external: Labels, rule: HeapRule, ghost h: Snapshot, ghost now: Snapshot)
    returns (rule': HeapRule, ghost next: Snapshot)
    requires external != map[] && Agrees(now) && Grows(external, h, now) && Known(h, rule.labels)
    modifies now.Keys
    ensures Agrees(next) && Grows(external, now, next) && fresh(next.Keys - now.Keys)
    ensures Labelled(external, h, next, rule, rule')
  {
    rule' := rule;
    next := now;
    if rule'.labels.None? {
      var created := new LabelMap(map[]);
      rule' := rule'.(labels := Some(created));
      next := next[created := map[]];
    }
    var target := rule'.labels.value;
    ghost var own := next[target];
    FillIn(external, target);
    next := next[target := external + own];
    FilledIn(external, h, now, rule, rule', next, own);
  }

  lemma FilledIn(external: Labels, h: Snapshot, now: Snapshot, rule: HeapRule, rule': HeapRule, next: Snapshot,
                 own: Labels)
    requires external != map[] && Grows(external, h, now) && Known(h, rule.labels)
    requires rule'.labels.Some? && rule'.labels.value in next && rule' == rule.(labels := rule'.labels)
    requires next[rule'.labels.value] == external + own
    requires if rule.labels.None? then own == map[] else rule'.labels == rule.labels && own == now[rule.labels.value]
    ensures Labelled(external, h, next, rule, rule')
  {
    if rule.labels.Some? {
      var base := h[rule.labels.value];
      assert external + (external + base) == external + base;
    }
  }

  // One more rule is labelled, and the ones before it still are.
  lemma RulesLabelledMore(external: Labels, h: Snapshot, start: Snapshot, now: Snapshot, later: Snapshot,
                          before: seq<HeapRule>, after: seq<HeapRule>, rule: HeapRule, rule': HeapRule)
    requires external != map[] && RulesLabelled(external, h, now, before, after)
    requires Grows(external, start, now) && Grows(external, h, now) && Grows(external, now, later)
    requires Labelled(external, h, later, rule, rule')
    ensures RulesLabelled(external, h, later, before + [rule], after + [rule'])
    ensures Grows(external, start, later) && Grows(external, h, later)
  {
    hide Labelled, Grows;
    GrowsTrans(external, start, now, later);
    GrowsTrans(external, h, now, later);
    RulesLabelledStay(external, h, now, later, before, after);
  }

  // The inner loop: all the rules of a group.
  method LabelRules(external: Labels, slice: Slice<HeapRule>, ghost rules: seq<HeapRule>, ghost h: Snapshot,
                    ghost now: Snapshot)
    returns (ghost after: seq<HeapRule>, ghost next: Snapshot)
    requires external != map[] && Agrees(now) && Grows(external, h, now) && RulesKnown(h, rules)
    requires slice.len <= slice.data.Length && slice.data[..slice.len] == rules
    modifies slice.data, now.Keys
    ensures Agrees(next) && Grows(external, now, next) && fresh(next.Keys - now.Keys)
    ensures slice.data[..slice.len] == after && RulesLabelled(external, h, next, rules, after)
  {
    after, next := [], now;
    assert Grows(external, now, next) && RulesLabelled(external, h, next, rules[..0], after);
    hide Labelled, RulesLabelled, Grows, Agrees;
    var r := 0;
    while r < slice.len
      invariant r <= slice.len && |after| == r
      invariant Agrees(next) && Grows(external, now, next) && Grows(external, h, next) && fresh(next.Keys - now.Keys)
      invariant slice.data[..r] == after && forall k :: r <= k < slice.len ==> slice.data[k] == rules[k]
      invariant RulesLabelled(external, h, next, rules[..r], after)
    {
      var rule := slice.data[r];
      ghost var earlier := next;
      rule, next := LabelRule(external, rule, h, next);
      RulesLabelledMore(external, h, now, earlier, next, rules[..r], after, rules[r], rule);
      slice.data[r] := rule;
      after := after + [rule];
      assert rules[..r + 1] == rules[..r] + [rules[r]];
      r := r + 1;
    }
    assert rules[..r] == rules;
  }

  lemma GroupsLabelledMore(external: Labels, h: Snapshot, start: Snapshot, now: Snapshot, later: Snapshot,
                           before: seq<Group<LabelMap>>, after: seq<Group<LabelMap>>, group: Group<LabelMap>,
                                 rules: seq<HeapRule>)
    requires external != map[] && GroupsLabelled(external, h, now, before, after)
    requires Grows(external, start, now) && Grows(external, h, now) && Grows(external, now, later)
    requires RulesLabelled(external, h, later, group.rules, rules)
    ensures GroupsLabelled(external, h, later, before + [group], after + [group.(rules := rules)])
    ensures Grows(external, start, later) && Grows(external, h, later)
  {
    hide RulesLabelled, Grows;
    GrowsTrans(external, start, now, later);
    GrowsTrans(external, h, now, later);
    forall g | 0 <= g < |before| ensures RulesLabelled(external, h, later, before[g].rules, after[g].rules) {
      RulesLabelledStay(external, h, now, later, before[g].rules, after[g].rules);
    }
  }

  // The middle loop: all the groups of an item. The headers stay as they are.
  method LabelItem(external: Labels, item: Item, ghost groups: seq<Group<LabelMap>>, ghost h: Snapshot,
                   ghost now: Snapshot)
    returns (ghost after: seq<Group<LabelMap>>, ghost next: Snapshot)
    requires external != map[] && Agrees(now) && Grows(external, h, now) && GroupsKnown(h, groups)
    requires ItemShows(item, groups)
    modifies Arrays(Heads(item)), now.Keys
    ensures Agrees(next) && Grows(external, now, next) && fresh(next.Keys - now.Keys)
    ensures ItemShows(item, after) && GroupsLabelled(external, h, next, groups, after)
  {
    ghost var heads := Heads(item);
    after, next := [], now;
    assert AtHead(external, item, heads, groups, after, h, now, next);
    hide AtHead, ItemShows, Heads, Arrays, RulesKnown;
    var g := 0;
    while g < item.groups.len
      invariant g <= item.groups.len == |heads| == |groups| && |after| == g
      invariant AtHead(external, item, heads, groups, after, h, now, next) && fresh(next.Keys - now.Keys)
    {
      after, next := LabelHeader(external, item, heads, g, groups, after, h, now, next);
      g := g + 1;
    }
    Finished(external, item, heads, groups, after, h, now, next);
  }

  // The state of the middle loop after the groups in `after`.
  ghost predicate AtHead(external: Labels, item: Item, heads: seq<Header>, groups: seq<Group<LabelMap>>,
                         after: seq<Group<LabelMap>>, h: Snapshot, now: Snapshot, next: Snapshot)
    reads item, item.groups.data, Arrays(heads), next.Keys
  {
    && Agrees(next) && Grows(external, now, next) && Grows(external, h, next)
    && Laid(item, heads) && |after| <= |heads| == |groups|
    && (forall k :: 0 <= k < |heads| ==> Read(heads[k]) == if k < |after| then after[k] else groups[k])
    && GroupsLabelled(external, h, next, groups[..|after|], after)
  }

  method LabelHeader(external: Labels, item: Item, ghost heads: seq<Header>, g: nat, ghost groups: seq<Group<LabelMap>>,
                     ghost after: seq<Group<LabelMap>>, ghost h: Snapshot, ghost now: Snapshot, ghost next: Snapshot)
    returns (ghost after': seq<Group<LabelMap>>, ghost next': Snapshot)
    requires external != map[] && GroupsKnown(h, groups) && g == |after| < item.groups.len
    requires AtHead(external, item, heads, groups, after, h, now, next)
    modifies Arrays(heads), next.Keys
    ensures AtHead(external, item, heads, groups, after', h, now, next') && |after'| == g + 1
    ensures fresh(next'.Keys - next.Keys)
  {
    hide Labelled, RulesLabelled, GroupsLabelled, RulesKnown, Grows, Agrees, Arrays;
    var group := item.groups.data[g];
    assert group == heads[g];
    ghost var rules;
    rules, next' := LabelRules(external, group.rules, groups[g].rules, h, next);
    GroupsLabelledMore(external, h, now, next, next', groups[..g], after, groups[g], rules);
    after' := after + [groups[g].(rules := rules)];
    assert groups[..g + 1] == groups[..g] + [groups[g]];
  }

  lemma Finished(external: Labels, item: Item, heads: seq<Header>, groups: seq<Group<LabelMap>>,
                 after: seq<Group<LabelMap>>, h: Snapshot, now: Snapshot, next: Snapshot)
    requires AtHead(external, item, heads, groups, after, h, now, next) && |after| == |heads|
    ensures Agrees(next) && Grows(external, now, next)
    ensures ItemShows(item, after) && GroupsLabelled(external, h, next, groups, after)
  {
    assert groups[..|after|] == groups;
  }

  // The headers of an item as a value, with the facts about them the loop relies on.
  ghost predicate Laid(item: Item, heads: seq<Header>)
    reads item, item.groups.data
  {
    && item.groups.len <= item.groups.data.Length && heads == item.groups.data[..item.groups.len]
    && (forall k :: 0 <= k < |heads| ==> Fits(heads[k]) && heads[k].rules.data in Arrays(heads))
    && (forall j, k :: 0 <= j < |heads| && 0 <= k < |heads| && j != k ==> heads[j].rules.data != heads[k].rules.data)
  }

  // applyExternalLabels
  method ApplyExternalLabels(external: Labels, items: seq<Item>, ghost reprs: seq<set<object>>,
                             ghost shown: seq<seq<Group<LabelMap>>>, ghost h: Snapshot)
    returns (ghost after: seq<seq<Group<LabelMap>>>, ghost next: Snapshot)
    requires ListShows(items, reprs, shown) && Agrees(h)
    requires forall i :: 0 <= i < |shown| ==> GroupsKnown(h, shown[i])
    modifies Union(reprs), h.Keys
    ensures ListShows(items, reprs, after) && Agrees(next)
    ensures if external == map[] then after == shown && next == h
            else forall i :: 0 <= i < |items| ==> GroupsLabelled(external, h, next, shown[i], after[i])
  {
    after, next := shown, h;
    if |external| == 0 {
      return;
    }
    assert Grows(external, h, next);
    hide GroupsKnown, AtLabelledItem;
    assert AtLabelledItem(external, items, reprs, shown, after, h, next, 0) by {
      AtFirstLabelled(external, items, reprs, shown, h);
    }
    var i := 0;
    while i < |items|
      invariant i <= |items| && AtLabelledItem(external, items, reprs, shown, after, h, next, i)
      invariant fresh(next.Keys - h.Keys)
    {
      after, next := LabelItemOf(external, items, i, reprs, shown, after, h, next);
      i := i + 1;
    }
    AtLastLabelled(external, items, reprs, shown, after, h, next);
  }

  // The state of the outer loop before item i.
  ghost predicate AtLabelledItem(external: Labels, items: seq<Item>, reprs: seq<set<object>>,
                                 shown: seq<seq<Group<LabelMap>>>, after: seq<seq<Group<LabelMap>>>, h: Snapshot,
                                 next: Snapshot, i: nat)
    reads items, (set k | 0 <= k < |items| :: items[k].groups.data), Union(reprs), next.Keys
  {
    && ListShows(items, reprs, after) && Agrees(next) && Grows(external, h, next)
    && i <= |items| == |shown|
    && (forall k :: 0 <= k < i ==> GroupsLabelled(external, h, next, shown[k], after[k]))
    && (forall k :: i <= k < |items| ==> after[k] == shown[k])
  }

  lemma AtFirstLabelled(external: Labels, items: seq<Item>, reprs: seq<set<object>>, shown: seq<seq<Group<LabelMap>>>,
                    h: Snapshot)
    requires ListShows(items, reprs, shown) && Agrees(h)
    ensures AtLabelledItem(external, items, reprs, shown, shown, h, h, 0)
  {
  }

  lemma AtLastLabelled(external: Labels, items: seq<Item>, reprs: seq<set<object>>, shown: seq<seq<Group<LabelMap>>>,
                   after: seq<seq<Group<LabelMap>>>, h: Snapshot, next: Snapshot)
    requires AtLabelledItem(external, items, reprs, shown, after, h, next, |items|)
    ensures ListShows(items, reprs, after) && Agrees(next)
    ensures forall i :: 0 <= i < |items| ==> GroupsLabelled(external, h, next, shown[i], after[i])
  {
  }

  method LabelItemOf(external: Labels, items: seq<Item>, i: nat, ghost reprs: seq<set<object>>,
                     ghost shown: seq<seq<Group<LabelMap>>>, ghost after: seq<seq<Group<LabelMap>>>,
                           ghost h: Snapshot, ghost next: Snapshot)
    returns (ghost after': seq<seq<Group<LabelMap>>>, ghost next': Snapshot)
    requires i < |items| && AtLabelledItem(external, items, reprs, shown, after, h, next, i)
    requires external != map[] && GroupsKnown(h, shown[i])
    modifies Union(reprs), next.Keys
    ensures AtLabelledItem(external, items, reprs, shown, after', h, next', i + 1) && fresh(next'.Keys - next.Keys)
  {
    hide GroupsLabelled, GroupsKnown, ItemShows, Grows, Agrees, Heads;
    assert Repr(items[i]) <= reprs[i];
    ghost var groups;
    groups, next' := LabelItem(external, items[i], shown[i], h, next);
    GrowsTrans(external, h, next, next');
    forall k | 0 <= k < i ensures GroupsLabelled(external, h, next', shown[k], after[k]) {
      GroupsLabelledStay(external, h, next, next', shown[k], after[k]);
    }
    after' := after[i := groups];
  }

  lemma GroupsLabelledStay(external: Labels, h: Snapshot, now: Snapshot, later: Snapshot,
                           before: seq<Group<LabelMap>>, after: seq<Group<LabelMap>>)
    requires external != map[] && GroupsLabelled(external, h, now, before, after) && Grows(external, now, later)
    ensures GroupsLabelled(external, h, later, before, after)
  {
    forall g | 0 <= g < |before| ensures RulesLabelled(external, h, later, before[g].rules, after[g].rules) {
      RulesLabelledStay(external, h, now, later, before[g].rules, after[g].rules);
    }
  }

  // ---------------------------------------------------------------------------------------
  // The heap and the values agree
  // ---------------------------------------------------------------------------------------

  ghost function MapOption<T, U>(f: T -> U, o: Option<seq<T>>): Option<seq<U>> {
    if o.None? then None else Some(Map(f, o.value))
  }

  lemma RulesNatural(h: Snapshot, overrides: map<string, Override<LabelMap>>, rules: seq<HeapRule>)
    ensures OverrideRules(ViewOverrides(h, overrides), Map(rule => ViewRule(h, rule), rules))
         == MapOption(rule => ViewRule(h, rule), OverrideRules(overrides, rules))
  {
    var views := ViewOverrides(h, overrides);
    ScanNatural((rule: HeapRule) => ViewRule(h, rule), (rule: HeapRule) => RuleAction(overrides, rule),
                (rule: Rule<Labels>) => RuleAction(views, rule), rules, rules, 0);
  }

  lemma GroupActionNatural(h: Snapshot, overrides: map<string, Override<LabelMap>>, group: Group<LabelMap>)
    ensures GroupAction(ViewOverrides(h, overrides), ViewGroup(h, group))
         == MapAction((g: Group<LabelMap>) => ViewGroup(h, g), GroupAction(overrides, group))
  {
    RulesNatural(h, overrides, group.rules);
    var view := ViewGroup(h, group);
    assert forall r :: 0 <= r < |group.rules| ==>
        HasEntry(ViewOverrides(h, overrides), view.rules[r]) == HasEntry(overrides, group.rules[r]);
    assert Untouched(ViewOverrides(h, overrides), view.rules) == Untouched(overrides, group.rules);
  }

  lemma GroupsNatural(h: Snapshot, overrides: map<string, Override<LabelMap>>, groups: seq<Group<LabelMap>>)
    ensures OverrideGroups(ViewOverrides(h, overrides), ViewGroups(h, groups))
         == MapOption(group => ViewGroup(h, group), OverrideGroups(overrides, groups))
  {
    var views := ViewOverrides(h, overrides);
    forall g | 0 <= g < |groups|
      ensures GroupAction(views, ViewGroup(h, groups[g]))
           == MapAction((g: Group<LabelMap>) => ViewGroup(h, g), GroupAction(overrides, groups[g]))
    {
      GroupActionNatural(h, overrides, groups[g]);
    }
    ScanNatural((group: Group<LabelMap>) => ViewGroup(h, group),
          (group: Group<LabelMap>) => GroupAction(overrides, group),
                (group: Group<Labels>) => GroupAction(views, group), groups, groups, 0);
  }

  // The override step only hands out maps it was given.
  lemma OverriddenKnown(h: Snapshot, overrides: map<string, Override<LabelMap>>, groups: seq<Group<LabelMap>>)
    requires GroupsKnown(h, groups) && forall name :: name in overrides ==> Known(h, overrides[name].labels)
    requires OverrideGroups(overrides, groups).Some?
    ensures GroupsKnown(h, OverrideGroups(overrides, groups).value)
  {
    forall g | 0 <= g < |groups| && GroupAction(overrides, groups[g]).Replace?
      ensures RulesKnown(h, GroupAction(overrides, groups[g]).value.rules)
    {
      ScanKeeps((rule: HeapRule) => Known(h, rule.labels), (rule: HeapRule) => RuleAction(overrides, rule),
                groups[g].rules, groups[g].rules, 0);
    }
    ScanKeeps((group: Group<LabelMap>) => RulesKnown(h, group.rules),
          (group: Group<LabelMap>) => GroupAction(overrides, group),
              groups, groups, 0);
  }

  lemma LabelledView(external: Labels, h: Snapshot, next: Snapshot, before: seq<Group<LabelMap>>,
                     after: seq<Group<LabelMap>>)
    requires if external == map[] then after == before && next == h
             else GroupsLabelled(external, h, next, before, after)
    ensures ViewGroups(next, after) == Map(group => LabelGroup(external, group), ViewGroups(h, before))
  {
    forall g | 0 <= g < |before| ensures ViewGroup(next, after[g]) == LabelGroup(external, ViewGroup(h, before[g])) {
      assert ViewGroup(next, after[g]).rules == LabelGroup(external, ViewGroup(h, before[g])).rules;
    }
  }

  lemma LabelledKnown(external: Labels, h: Snapshot, next: Snapshot, before: seq<Group<LabelMap>>,
                      after: seq<Group<LabelMap>>)
    requires if external == map[] then after == before && next == h && GroupsKnown(h, before)
             else GroupsLabelled(external, h, next, before, after)
    ensures GroupsKnown(next, after)
  {
  }

  // Both steps, as syncRulesToRuler runs them. Whatever maps the rules and the overrides
  // share, the list panics exactly when the value transformation of some item does, and
  // otherwise every item shows the value transformation of what it showed.
  method TransformItems(overrides: map<string, Override<LabelMap>>, external: Labels, items: seq<Item>,
                        ghost reprs: seq<set<object>>, ghost shown: seq<seq<Group<LabelMap>>>, ghost h: Snapshot)
    returns (ok: bool, ghost after: seq<seq<Group<LabelMap>>>, ghost next: Snapshot)
    requires ListShows(items, reprs, shown) && Agrees(h) && (forall l :: l in h ==> l !in Union(reprs))
    requires forall i :: 0 <= i < |shown| ==> GroupsKnown(h, shown[i])
    requires forall name :: name in overrides ==> Known(h, overrides[name].labels)
    modifies Union(reprs), h.Keys
    ensures ok <==> forall i :: 0 <= i < |items| ==>
                      Transform(ViewOverrides(h, overrides), external, ViewGroups(h, shown[i])).Some?
    ensures ok ==> ListShows(items, reprs, after) && Agrees(next)
    ensures ok ==> forall i :: 0 <= i < |items| ==> GroupsKnown(next, after[i])
    ensures ok ==> forall i :: 0 <= i < |items| ==>
                     Transform(ViewOverrides(h, overrides), external, ViewGroups(h, shown[i]))
                           == Some(ViewGroups(next, after[i]))
  {
    hide OverrideGroups, ViewGroups, ViewOverrides, GroupsKnown, GroupsLabelled, Transform, ItemShows;
    forall i | 0 <= i < |items|
      ensures Transform(ViewOverrides(h, overrides), external, ViewGroups(h, shown[i])).Some?
          <==> OverrideGroups(overrides, shown[i]).Some?
    {
      TransformDefined(external, h, overrides, shown[i]);
    }
    next := h;
    ok, after := ApplyOverrides(overrides, items, reprs, shown);
    if ok {
      ghost var overridden := after;
      forall i | 0 <= i < |items| ensures GroupsKnown(h, after[i]) {
        OverriddenKnown(h, overrides, shown[i]);
      }
      after, next := ApplyExternalLabels(external, items, reprs, after, h);
      forall i | 0 <= i < |items|
        ensures Transform(ViewOverrides(h, overrides), external, ViewGroups(h, shown[i]))
              == Some(ViewGroups(next, after[i]))
      {
        TransformNatural(external, h, next, overrides, shown[i], overridden[i], after[i]);
      }
      forall i | 0 <= i < |items| ensures GroupsKnown(next, after[i]) {
        LabelledKnown(external, h, next, overridden[i], after[i]);
      }
    }
  }

  lemma TransformDefined(external: Labels, h: Snapshot, overrides: map<string, Override<LabelMap>>,
                         groups: seq<Group<LabelMap>>)
    ensures Transform(ViewOverrides(h, overrides), external, ViewGroups(h, groups)).Some?
       <==> OverrideGroups(overrides, groups).Some?
  {
    GroupsNatural(h, overrides, groups);
  }

  lemma TransformNatural(external: Labels, h: Snapshot, next: Snapshot, overrides: map<string, Override<LabelMap>>,
                         before: seq<Group<LabelMap>>, mid: seq<Group<LabelMap>>, after: seq<Group<LabelMap>>)
    requires OverrideGroups(overrides, before) == Some(mid)
    requires if external == map[] then after == mid && next == h else GroupsLabelled(external, h, next, mid, after)
    ensures Transform(ViewOverrides(h, overrides), external, ViewGroups(h, before)) == Some(ViewGroups(next, after))
  {
    GroupsNatural(h, overrides, before);
    LabelledView(external, h, next, mid, after);
  }
}
