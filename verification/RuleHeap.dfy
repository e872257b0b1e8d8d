// applyOverrides as it runs: slices are an array and a length, two slice headers can share an
// array, and label sets are heap objects that overrides and any number of rules share.
module RuleHeap {
  import opened Words
  import opened SwapScan
  import opened RuleModel

  // A Go map[string]string, a reference.
  class LabelMap {
    var entries: Labels

    constructor (entries: Labels)
      ensures this.entries == entries
    {
      this.entries := entries;
    }
  }

  type HeapRule = Rule<LabelMap>

  // A slice header.
  datatype Slice<T> = Slice(data: array<T>, len: nat)

  // A RuleGroup as it lies in the array of an item: a struct that holds the header of its rules.
  datatype Header = Header(name: string, interval: Option<string>, rules: Slice<HeapRule>)

  // A PrometheusRule.
  class Item {
    const namespace: string
    const name: string
    var groups: Slice<Header>

    constructor (namespace: string, name: string, groups: Slice<Header>)
      ensures this.namespace == namespace && this.name == name && this.groups == groups
    {
      this.namespace := namespace;
      this.name := name;
      this.groups := groups;
    }
  }

  ghost predicate Fits(h: Header) { h.rules.len <= h.rules.data.Length }

  ghost function Read(h: Header): Group<LabelMap>
    requires Fits(h)
    reads h.rules.data
  {
    Group(h.name, h.interval, h.rules.data[..h.rules.len])
  }

  // removeRule and removeGroup, which are the same code at two element types. A position
  // outside the slice is a panic.
  method RemoveAt<T>(s: Slice<T>, index: nat) returns (ok: bool, t: Slice<T>)
    requires s.len <= s.data.Length
    modifies s.data
    ensures ok <==> index < s.len
    ensures !ok ==> s.data[..] == old(s.data[..]) && t == s
    ensures ok ==> t == Slice(s.data, s.len - 1)
    ensures ok ==> s.data[..] == old(s.data[..])[index := old(s.data[s.len - 1])]
    ensures ok ==> s.data[..t.len] == SwapRemove(old(s.data[..s.len]), index)
  {
    if index >= s.len {
      return false, s;
    }
    s.data[index] := s.data[s.len - 1];
    return true, Slice(s.data, s.len - 1);
  }

  // The heap while group g is being worked on: `live` is what is left of its rules; once
  // that is empty, the group is gone and the last group has taken its slot.
  ghost predicate Working(item: Item, g: nat, group: Header, slots: array<Header>, heads: seq<Header>,
                          count: nat, live: seq<HeapRule>, gone: bool)
    reads item, slots, group.rules.data
  {
    && item.groups.data == slots && |heads| == slots.Length && count <= |heads|
    && |live| <= group.rules.data.Length && group.rules.data[..|live|] == live
    && item.groups.len == (if gone then count - 1 else count)
    && (gone ==> g < count && live == [] && slots[..count - 1] == SwapRemove(heads[..count], g)
                 && forall k :: g < k < |heads| ==> slots[k] == heads[k])
    && (!gone && g < count ==> slots[..] == heads[g := group.(rules := Slice(group.rules.data, |live|))])
    && (!gone && g >= count ==> slots[..] == heads)
  }

  // The body of the inner loop for a rule that has an override.
  method OverrideRule(override: Override<LabelMap>, item: Item, g: nat, group: Header, r: nat,
                      ghost slots: array<Header>, ghost heads: seq<Header>, ghost count: nat, ghost live: seq<HeapRule>)
    returns (ok: bool)
    requires Working(item, g, group, slots, heads, count, live, false)
    requires r < group.rules.data.Length
    modifies item, slots, group.rules.data
    ensures ok <==> g < count && r < |live|
    ensures forall k :: r < k < group.rules.data.Length ==> group.rules.data[k] == old(group.rules.data[k])
    ensures ok && !override.disable ==>
              var after := live[r := Applied(override, old(group.rules.data[r]))];
              Working(item, g, group, slots, heads, count, after, false)
    ensures ok && override.disable ==>
              Working(item, g, group, slots, heads, count, SwapRemove(live, r), |live| == 1)
  {
    var rule := group.rules.data[r];
    if g >= item.groups.len {
      return false;
    }
    if override.disable {
      var header := item.groups.data[g];
      var fits, rest := RemoveAt(header.rules, r);
      if !fits {
        return false;
      }
      item.groups.data[g] := header.(rules := rest);
      if rest.len == 0 {
        var _, groups := RemoveAt(item.groups, g);
        item.groups := groups;
      }
      return true;
    }
    if override.annotations.Some? {
      rule := rule.(annotations := override.annotations);
    }
    if override.labels.Some? {
      rule := rule.(labels := override.labels);
    }
    if override.expr != "" {
      rule := rule.(expr := override.expr);
    }
    if override.forText != "" {
      rule := rule.(forText := Some(override.forText));
    }
    if r >= item.groups.data[g].rules.len {
      return false;
    }
    item.groups.data[g].rules.data[r] := rule;
    return true;
  }

  // The inner loop of applyOverrides, over the saved header `group` of what was group g.
  method OverrideGroup(overrides: map<string, Override<LabelMap>>, item: Item, g: nat, group: Header,
                       ghost slots: array<Header>, ghost heads: seq<Header>, ghost count: nat,
                       ghost rules: seq<HeapRule>)
    returns (ok: bool)
    requires Working(item, g, group, slots, heads, count, rules, false)
    requires Fits(group) && rules == group.rules.data[..group.rules.len]
    modifies item, slots, group.rules.data
    ensures var act := GroupAction(overrides, Group(group.name, group.interval, rules));
            && (ok <==> act.Keep? || (!act.Abort? && g < count))
            && (ok ==> Working(item, g, group, slots, heads, count, RulesAfter(act, rules), act.Remove?))
            && (act.Keep? ==> group.rules.data[..] == old(group.rules.data[..]))
  {
    hide Working, GroupAction, Applied, Scan, SwapRemove, Untouched, OverrideRules, RuleAction;
    ghost var act := (rule: HeapRule) => RuleAction(overrides, rule);
    Start(overrides, rules);
    ghost var live, gone := rules, false;
    var r := 0;
    while r < group.rules.len
      invariant r <= |rules| && |live| >= |rules| - r
      invariant Working(item, g, group, slots, heads, count, live, gone)
      invariant Scan(act, rules, live, r) == OverrideRules(overrides, rules)
      invariant forall k :: r <= k < |rules| ==> group.rules.data[k] == rules[k]
      invariant gone <==> live == [] && rules != []
      invariant gone ==> r == |rules|
      invariant if Untouched(overrides, rules[..r])
        then live == rules && group.rules.data[..] == old(group.rules.data[..]) else g < count
    {
      var rule := group.rules.data[r];
      LoopTurn(overrides, rules, live, r);
      if NameOf(rule) in overrides {
        ok := OverrideRule(overrides[NameOf(rule)], item, g, group, r, slots, heads, count, live);
        if !ok {
          Outcome(overrides, group, rules, live, r);
          return;
        }
        live := AfterTurn(overrides, rules, live, r);
        gone := live == [];
      }
      r := r + 1;
    }
    assert rules[..r] == rules;
    Outcome(overrides, group, rules, live, r);
    return true;
  }

  function RulesAfter(act: Action<Group<LabelMap>>, rules: seq<HeapRule>): seq<HeapRule> {
    match act
    case Replace(group) => group.rules
    case Remove => []
    case _ => rules
  }

  ghost function AfterTurn(overrides: map<string, Override<LabelMap>>, rules: seq<HeapRule>, live: seq<HeapRule>,
                           r: nat)
    : seq<HeapRule>
    requires r < |rules|
  {
    if HasEntry(overrides, rules[r]) && r < |live| then
      var override := overrides[NameOf(rules[r])];
      if override.disable then SwapRemove(live, r) else live[r := Applied(override, rules[r])]
    else live
  }

  lemma {:induction false} LoopTurn(overrides: map<string, Override<LabelMap>>, rules: seq<HeapRule>,
                                    live: seq<HeapRule>, r: nat)
    requires r < |rules|
    ensures var next := AfterTurn(overrides, rules, live, r);
            && (!HasEntry(overrides, rules[r]) || r < |live| ==>
                  Scan(rule => RuleAction(overrides, rule), rules, live, r) ==
                  Scan(rule => RuleAction(overrides, rule), rules, next, r + 1))
            && |live| - 1 <= |next| <= |live|
    ensures Untouched(overrides, rules[..r + 1]) <==> Untouched(overrides, rules[..r]) && !HasEntry(overrides, rules[r])
  {
    assert rules[..r + 1] == rules[..r] + [rules[r]];
    assert forall k :: 0 <= k < r ==> rules[..r + 1][k] == rules[..r][k];
  }

  lemma {:induction false} Start(overrides: map<string, Override<LabelMap>>, rules: seq<HeapRule>)
    ensures Untouched(overrides, rules[..0])
    ensures Scan(rule => RuleAction(overrides, rule), rules, rules, 0) == OverrideRules(overrides, rules)
  {
  }

  // What the state of the inner loop says about the outcome for the group.
  lemma {:induction false} Outcome(overrides: map<string, Override<LabelMap>>, group: Header, rules: seq<HeapRule>,
                                   live: seq<HeapRule>, r: nat)
    requires r <= |rules|
    requires Scan(rule => RuleAction(overrides, rule), rules, live, r) == OverrideRules(overrides, rules)
    ensures var act := GroupAction(overrides, Group(group.name, group.interval, rules));
            && (act.Keep? <==> Untouched(overrides, rules))
            && (r < |rules| && HasEntry(overrides, rules[r]) ==> !act.Keep? && (r >= |live| ==> act.Abort?))
            && (r == |rules| && !Untouched(overrides, rules) ==>
                  if live == [] then act.Remove? else act.Replace? && act.value.rules == live)
  {
  }

  // No two groups share the array of their rules.
  ghost predicate Disjoint(heads: seq<Header>) {
    forall j, k :: 0 <= j < k < |heads| ==> heads[j].rules.data != heads[k].rules.data
  }

  ghost function Arrays(heads: seq<Header>): set<array<HeapRule>> {
    set k | 0 <= k < |heads| :: heads[k].rules.data
  }

  ghost predicate Shows(heads: seq<Header>, groups: seq<Group<LabelMap>>)
    reads Arrays(heads)
  {
    |heads| == |groups| && forall k :: 0 <= k < |heads| ==> Fits(heads[k]) && Read(heads[k]) == groups[k]
  }

  ghost function Heads(item: Item): seq<Header>
    reads item, item.groups.data
  {
    if item.groups.len <= item.groups.data.Length then item.groups.data[..item.groups.len] else []
  }

  // The objects of an item: itself, the array of its groups, the arrays of their rules.
  ghost function Repr(item: Item): set<object>
    reads item, item.groups.data
  {
    {item, item.groups.data} + Arrays(Heads(item))
  }

  ghost predicate ItemShows(item: Item, groups: seq<Group<LabelMap>>)
    reads Repr(item)
  {
    && item.groups.len <= item.groups.data.Length
    && Disjoint(item.groups.data[..item.groups.len])
    && Shows(item.groups.data[..item.groups.len], groups)
  }

  // The state of the middle loop at position g: the item shows `live`; the headers not
  // reached yet are still the saved ones and still show the original groups.
  ghost predicate AtGroup(item: Item, slots: array<Header>, first: seq<Header>, groups: seq<Group<LabelMap>>,
                          live: seq<Group<LabelMap>>, g: nat)
    reads item, item.groups.data, slots, Arrays(first), Arrays(Heads(item))
  {
    && item.groups == Slice(slots, |live|) && g <= |first| == |groups| <= slots.Length && |live| <= |first|
    && ItemShows(item, live)
    && Disjoint(first) && Arrays(slots[..|live|]) <= Arrays(first)
    && (forall k :: g <= k < |first| ==> slots[k] == first[k] && Fits(first[k]) && Read(first[k]) == groups[k])
  }

  method AdvanceItem(overrides: map<string, Override<LabelMap>>, item: Item, g: nat, group: Header,
                     ghost slots: array<Header>,
                     ghost first: seq<Header>, ghost groups: seq<Group<LabelMap>>, ghost live: seq<Group<LabelMap>>)
    returns (ok: bool)
    requires AtGroup(item, slots, first, groups, live, g) && g < |first| && group == first[g]
    modifies item, slots, group.rules.data
    ensures var act := GroupAction(overrides, groups[g]);
            && (ok <==> act.Keep? || (!act.Abort? && g < |live|))
            && (ok ==> AtGroup(item, slots, first, groups, Turn(act, live, g), g + 1))
  {
    hide Working, GroupAction;
    ghost var act := GroupAction(overrides, groups[g]);
    ghost var heads := slots[..];
    AtGroupFacts(item, slots, first, groups, live, g);
    ok := OverrideGroup(overrides, item, g, group, slots, heads, |live|, groups[g].rules);
    if ok {
      GroupActionMeaning(overrides, groups[g]);
      assert Settling(item, g, act, slots, heads, first, groups, live);
      if act.Keep? {
        SettleKeep(item, g, act, slots, heads, first, groups, live);
      } else if act.Replace? {
        SettleReplace(item, g, act, slots, heads, first, groups, live);
      } else {
        SettleRemove(item, g, act, slots, heads, first, groups, live);
      }
    }
  }

  lemma AtGroupFacts(item: Item, slots: array<Header>, first: seq<Header>, groups: seq<Group<LabelMap>>,
                     live: seq<Group<LabelMap>>, g: nat)
    requires AtGroup(item, slots, first, groups, live, g) && g < |first|
    ensures Fits(first[g]) && Read(first[g]) == groups[g] && item.groups.len <= slots.Length
    ensures Working(item, g, first[g], slots, slots[..], |live|, groups[g].rules, false)
    ensures HeadsLaid(slots[..], first, live, g)
    ensures forall k :: 0 <= k < |live| ==> Fits(slots[k]) && Read(slots[k]) == live[k]
    ensures g < |live| ==> forall k :: 0 <= k < |live| && k != g ==> slots[k].rules.data != first[g].rules.data
    ensures forall k :: g < k < |first| ==> first[k].rules.data != first[g].rules.data
  {
    assert forall k :: 0 <= k < |live| ==> slots[k] == slots[..|live|][k];
  }

  // The part of AtGroup that is about headers only.
  ghost predicate HeadsLaid(heads: seq<Header>, first: seq<Header>, live: seq<Group<LabelMap>>, g: nat) {
    && g <= |first| <= |heads| && |live| <= |first|
    && Disjoint(first) && Disjoint(heads[..|live|]) && Arrays(heads[..|live|]) <= Arrays(first)
    && forall k :: g <= k < |first| ==> heads[k] == first[k]
  }

  // What is known after a turn of the middle loop that did not panic.
  ghost predicate Settling(item: Item, g: nat, act: Action<Group<LabelMap>>, slots: array<Header>, heads: seq<Header>,
                           first: seq<Header>, groups: seq<Group<LabelMap>>, live: seq<Group<LabelMap>>)
    reads item, slots, Arrays(first), Arrays(heads)
  {
    && HeadsLaid(heads, first, live, g) && g < |first| == |groups|
    && !act.Abort? && (!act.Keep? ==> g < |live|)
    && (act.Replace? ==> act.value == groups[g].(rules := act.value.rules))
    && Working(item, g, first[g], slots, heads, |live|, RulesAfter(act, groups[g].rules), act.Remove?)
    && (forall k :: 0 <= k < |live| && (k != g || act.Keep?) ==> Fits(heads[k]) && Read(heads[k]) == live[k])
    && (forall k :: g <= k < |first| && (k != g || act.Keep?) ==> Fits(first[k]) && Read(first[k]) == groups[k])
    && first[g].name == groups[g].name && first[g].interval == groups[g].interval
  }

  lemma SettleKeep(item: Item, g: nat, act: Action<Group<LabelMap>>, slots: array<Header>, heads: seq<Header>,
                   first: seq<Header>, groups: seq<Group<LabelMap>>, live: seq<Group<LabelMap>>)
    requires Settling(item, g, act, slots, heads, first, groups, live) && act.Keep?
    ensures AtGroup(item, slots, first, groups, live, g + 1)
  {
    hide AtGroup;
    var now := heads[..|live|];
    assert slots[..] == heads;
    assert forall k :: 0 <= k < |now| ==> now[k].rules.data in Arrays(now);
    Assemble(item, slots, now, first, groups, live, g);
  }

  lemma SettleReplace(item: Item, g: nat, act: Action<Group<LabelMap>>, slots: array<Header>, heads: seq<Header>,
                      first: seq<Header>, groups: seq<Group<LabelMap>>, live: seq<Group<LabelMap>>)
    requires Settling(item, g, act, slots, heads, first, groups, live) && act.Replace?
    ensures AtGroup(item, slots, first, groups, live[g := act.value], g + 1)
  {
    hide AtGroup;
    var before := heads[..|live|];
    var now := before[g := first[g].(rules := Slice(first[g].rules.data, |act.value.rules|))];
    assert slots[..|live|] == now;
    assert forall k :: 0 <= k < |before| ==> before[k].rules.data in Arrays(before);
    Assemble(item, slots, now, first, groups, live[g := act.value], g);
  }

  lemma SettleRemove(item: Item, g: nat, act: Action<Group<LabelMap>>, slots: array<Header>, heads: seq<Header>,
                     first: seq<Header>, groups: seq<Group<LabelMap>>, live: seq<Group<LabelMap>>)
    requires Settling(item, g, act, slots, heads, first, groups, live) && act.Remove?
    ensures AtGroup(item, slots, first, groups, SwapRemove(live, g), g + 1)
  {
    hide AtGroup;
    var before := heads[..|live|];
    var now := SwapRemove(before, g);
    assert slots[..|live| - 1] == now;
    assert forall k :: 0 <= k < |before| ==> before[k].rules.data in Arrays(before);
    Assemble(item, slots, now, first, groups, SwapRemove(live, g), g);
  }

  lemma Assemble(item: Item, slots: array<Header>, now: seq<Header>, first: seq<Header>,
                 groups: seq<Group<LabelMap>>, live: seq<Group<LabelMap>>, g: nat)
    requires item.groups == Slice(slots, |live|) && |now| == |live| <= slots.Length && slots[..|live|] == now
    requires Disjoint(now) && forall k :: 0 <= k < |now| ==> Fits(now[k]) && Read(now[k]) == live[k]
    requires g < |first| == |groups| <= slots.Length && |live| <= |first| && Disjoint(first)
    requires forall k :: 0 <= k < |now| ==> now[k].rules.data in Arrays(first)
    requires forall k :: g < k < |first| ==> slots[k] == first[k] && Fits(first[k]) && Read(first[k]) == groups[k]
    ensures AtGroup(item, slots, first, groups, live, g + 1)
  {
  }

  // The middle loop of applyOverrides, over the saved header of the groups of an item.
  method OverrideItem(overrides: map<string, Override<LabelMap>>, item: Item, ghost groups: seq<Group<LabelMap>>)
    returns (ok: bool)
    requires ItemShows(item, groups)
    modifies item, item.groups.data, Arrays(Heads(item))
    ensures ok <==> OverrideGroups(overrides, groups).Some?
    ensures ok ==> ItemShows(item, OverrideGroups(overrides, groups).value)
    ensures ok ==> item.groups.data == old(item.groups.data) && Arrays(Heads(item)) <= old(Arrays(Heads(item)))
  {
    hide GroupAction;
    var saved := item.groups;
    ghost var first, live := saved.data[..saved.len], groups;
    ghost var act := (group: Group<LabelMap>) => GroupAction(overrides, group);
    var g := 0;
    while g < saved.len
      invariant g <= saved.len == |first|
      invariant AtGroup(item, saved.data, first, groups, live, g)
      invariant Scan(act, groups, live, g) == OverrideGroups(overrides, groups)
    {
      var group := saved.data[g];
      ok := AdvanceItem(overrides, item, g, group, saved.data, first, groups, live);
      if !ok {
        return;
      }
      live := Turn(act(groups[g]), live, g);
      g := g + 1;
    }
    return true;
  }

  ghost function Union(reprs: seq<set<object>>): set<object> {
    set i, o | 0 <= i < |reprs| && o in reprs[i] :: o
  }

  // The items of a list with the groups they show. Each lives in a set of objects of its own,
  // having come out of its own decoded object.
  ghost predicate ListShows(items: seq<Item>, reprs: seq<set<object>>, shown: seq<seq<Group<LabelMap>>>)
    reads items, set i | 0 <= i < |items| :: items[i].groups.data
    reads Union(reprs)
  {
    && |items| == |reprs| == |shown|
    && (forall i :: 0 <= i < |items| ==> Repr(items[i]) <= reprs[i] && ItemShows(items[i], shown[i]))
    && (forall i, j :: 0 <= i < j < |reprs| ==> reprs[i] !! reprs[j])
  }

  // The state of the outer loop before item i.
  ghost predicate AtItem(overrides: map<string, Override<LabelMap>>, items: seq<Item>, reprs: seq<set<object>>,
                         shown: seq<seq<Group<LabelMap>>>, after: seq<seq<Group<LabelMap>>>, i: nat)
    reads items, set k | 0 <= k < |items| :: items[k].groups.data
    reads Union(reprs)
  {
    && i <= |items| == |shown| && ListShows(items, reprs, after)
    && (forall k :: 0 <= k < i ==> OverrideGroups(overrides, shown[k]) == Some(after[k]))
    && (forall k :: i <= k < |items| ==> after[k] == shown[k])
  }

  // One turn of it.
  method OverrideNext(overrides: map<string, Override<LabelMap>>, items: seq<Item>, i: nat,
                      ghost reprs: seq<set<object>>, ghost shown: seq<seq<Group<LabelMap>>>,
                      ghost after: seq<seq<Group<LabelMap>>>)
    returns (ok: bool, ghost after': seq<seq<Group<LabelMap>>>)
    requires i < |items| && AtItem(overrides, items, reprs, shown, after, i)
    modifies Union(reprs)
    ensures ok <==> OverrideGroups(overrides, shown[i]).Some?
    ensures ok ==> AtItem(overrides, items, reprs, shown, after', i + 1)
  {
    hide OverrideGroups, ItemShows;
    assert Repr(items[i]) <= reprs[i];
    after' := after;
    ok := OverrideItem(overrides, items[i], shown[i]);
    if ok {
      after' := after[i := OverrideGroups(overrides, shown[i]).value];
    }
  }

  lemma AtLastItem(overrides: map<string, Override<LabelMap>>, items: seq<Item>, reprs: seq<set<object>>,
                   shown: seq<seq<Group<LabelMap>>>, after: seq<seq<Group<LabelMap>>>)
    requires AtItem(overrides, items, reprs, shown, after, |items|)
    ensures ListShows(items, reprs, after)
    ensures forall i :: 0 <= i < |items| ==> OverrideGroups(overrides, shown[i]) == Some(after[i])
  {
  }

  // applyOverrides
  method ApplyOverrides(overrides: map<string, Override<LabelMap>>, items: seq<Item>,
                        ghost reprs: seq<set<object>>, ghost shown: seq<seq<Group<LabelMap>>>)
    returns (ok: bool, ghost after: seq<seq<Group<LabelMap>>>)
    requires ListShows(items, reprs, shown)
    modifies Union(reprs)
    ensures ok <==> forall i :: 0 <= i < |items| ==> OverrideGroups(overrides, shown[i]).Some?
    ensures ok ==> ListShows(items, reprs, after)
    ensures ok ==> forall i :: 0 <= i < |items| ==> OverrideGroups(overrides, shown[i]) == Some(after[i])
  {
    after := shown;
    if |overrides| == 0 {
      NoOverrides(overrides, shown);
      return true, after;
    }
    assert AtItem(overrides, items, reprs, shown, after, 0);
    hide OverrideGroups, AtItem, ListShows;
    var i := 0;
    while i < |items|
      invariant i <= |items| && AtItem(overrides, items, reprs, shown, after, i)
    {
      ok, after := OverrideNext(overrides, items, i, reprs, shown, after);
      if !ok {
        return;
      }
      i := i + 1;
    }
    AtLastItem(overrides, items, reprs, shown, after);
    return true, after;
  }

  lemma NoOverrides(overrides: map<string, Override<LabelMap>>, shown: seq<seq<Group<LabelMap>>>)
    requires |overrides| == 0
    ensures forall i :: 0 <= i < |shown| ==> OverrideGroups(overrides, shown[i]) == Some(shown[i])
  {
    forall i | 0 <= i < |shown| ensures OverrideGroups(overrides, shown[i]) == Some(shown[i]) {
      NothingOverridden(overrides, shown[i]);
    }
  }
}
