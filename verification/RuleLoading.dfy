// From plain values to the heap and back: what decoding PrometheusRules and a MimirRules sets
// up for the transformation, and what encoding reads off afterwards.
module RuleLoading {
  import opened Words
  import opened SwapScan
  import opened RuleModel
  import opened RuleHeap
  import opened LabelHeap
  import opened Selection

  // A later snapshot knows more maps and has the same of those known before.
  ghost predicate Extends(past: Snapshot, now: Snapshot) {
    past.Keys <= now.Keys && forall l :: l in past ==> now[l] == past[l]
  }

  method LoadLabels(labels: Option<Labels>, ghost h: Snapshot) returns (loaded: Option<LabelMap>, ghost next: Snapshot)
    requires Agrees(h)
    ensures Agrees(next) && Extends(h, next) && fresh(next.Keys - h.Keys)
    ensures Known(next, loaded) && Deref(next, loaded) == labels
  {
    next := h;
    if labels.None? {
      return None, next;
    }
    var target := new LabelMap(labels.value);
    next := next[target := labels.value];
    return Some(target), next;
  }

  // ---------------------------------------------------------------------------------------
  // Rules and groups
  // ---------------------------------------------------------------------------------------

  ghost predicate RulesLoaded(h: Snapshot, loaded: seq<HeapRule>, rules: seq<Rule<Labels>>) {
    && |loaded| == |rules|
    && forall r :: 0 <= r < |rules| ==> Known(h, loaded[r].labels) && ViewRule(h, loaded[r]) == rules[r]
  }

  lemma RulesStayLoaded(h: Snapshot, next: Snapshot, loaded: seq<HeapRule>, rules: seq<Rule<Labels>>)
    requires RulesLoaded(h, loaded, rules) && Extends(h, next)
    ensures RulesLoaded(next, loaded, rules)
  {
  }

  method LoadRules(rules: seq<Rule<Labels>>, ghost h: Snapshot) returns (loaded: seq<HeapRule>, ghost next: Snapshot)
    requires Agrees(h)
    ensures Agrees(next) && Extends(h, next) && fresh(next.Keys - h.Keys)
    ensures RulesLoaded(next, loaded, rules)
  {
    loaded, next := [], h;
    for r := 0 to |rules|
      invariant Agrees(next) && Extends(h, next) && fresh(next.Keys - h.Keys)
      invariant RulesLoaded(next, loaded, rules[..r])
    {
      var rule := rules[r];
      ghost var past := next;
      var labels;
      labels, next := LoadLabels(rule.labels, next);
      RulesStayLoaded(past, next, loaded, rules[..r]);
      loaded := loaded + [
        Rule(rule.alert, rule.record, rule.expr, rule.forText, rule.keepFiringFor, labels, rule.annotations)];
    }
    assert rules[..|rules|] == rules;
  }

  ghost predicate GroupLoaded(h: Snapshot, shown: Group<LabelMap>, group: Group<Labels>) {
    shown.name == group.name && shown.interval == group.interval && RulesLoaded(h, shown.rules, group.rules)
  }

  // The headers show these groups, each in an array of its own.
  ghost predicate GroupsLoaded(h: Snapshot, heads: seq<Header>, shown: seq<Group<LabelMap>>, groups: seq<Group<Labels>>)
    reads Arrays(heads)
  {
    && Disjoint(heads) && Shows(heads, shown) && |shown| == |groups|
    && forall g :: 0 <= g < |groups| ==> GroupLoaded(h, shown[g], groups[g])
  }

  method LoadGroup(group: Group<Labels>, ghost h: Snapshot)
    returns (head: Header, ghost shown: Group<LabelMap>, ghost next: Snapshot)
    requires Agrees(h)
    ensures Agrees(next) && Extends(h, next) && fresh(next.Keys - h.Keys) && fresh(head.rules.data)
    ensures Fits(head) && Read(head) == shown && GroupLoaded(next, shown, group)
  {
    var rules;
    rules, next := LoadRules(group.rules, h);
    var data := new HeapRule[|rules|](i requires 0 <= i < |rules| => rules[i]);
    assert data[..|rules|] == rules;
    return Header(group.name, group.interval, Slice(data, |rules|)), Group(group.name, group.interval, rules), next;
  }

  method LoadGroups(groups: seq<Group<Labels>>, ghost h: Snapshot)
    returns (heads: seq<Header>, ghost shown: seq<Group<LabelMap>>, ghost next: Snapshot)
    requires Agrees(h)
    ensures Agrees(next) && Extends(h, next) && fresh(next.Keys - h.Keys) && fresh(Arrays(heads))
    ensures GroupsLoaded(next, heads, shown, groups)
  {
    hide GroupsLoaded, GroupLoaded, Arrays, Agrees, Extends;
    heads, shown, next := [], [], h;
    NothingLoaded(h);
    if |groups| == 0 {
      assert groups == [];
      return;
    }
    var rest, last := groups[..|groups| - 1], groups[|groups| - 1];
    assert groups == rest + [last];
    heads, shown, next := LoadGroups(rest, h);
    ghost var past := next;
    HeadsAllocated(heads);
    var head;
    ghost var group;
    head, group, next := LoadGroup(last, next);
    ExtendsTwice(h, past, next);
    ArraysSnoc(heads, head);
    GroupsLoadedSnoc(past, next, heads, shown, rest, head, group, last);
    heads, shown := heads + [head], shown + [group];
  }

  lemma HeadsAllocated(heads: seq<Header>)
    ensures forall a :: a in Arrays(heads) ==> allocated(a)
  {
    assert forall g :: 0 <= g < |heads| ==> allocated(heads[g].rules.data);
  }

  lemma ExtendsTwice(a: Snapshot, b: Snapshot, c: Snapshot)
    requires Extends(a, b) && Extends(b, c)
    ensures Extends(a, c)
  {
  }

  lemma NothingLoaded(h: Snapshot)
    ensures Extends(h, h) && GroupsLoaded(h, [], [], []) && Arrays([]) == {}
  {
  }

  lemma GroupsLoadedSnoc(h: Snapshot, next: Snapshot, heads: seq<Header>, shown: seq<Group<LabelMap>>,
                         groups: seq<Group<Labels>>, head: Header, group: Group<LabelMap>, value: Group<Labels>)
    requires GroupsLoaded(h, heads, shown, groups) && Extends(h, next) && head.rules.data !in Arrays(heads)
    requires Fits(head) && Read(head) == group && GroupLoaded(next, group, value)
    ensures GroupsLoaded(next, heads + [head], shown + [group], groups + [value])
  {
    forall g | 0 <= g < |groups| ensures GroupLoaded(next, shown[g], groups[g]) {
      RulesStayLoaded(h, next, shown[g].rules, groups[g].rules);
    }
    assert forall g :: 0 <= g < |heads| ==> heads[g].rules.data in Arrays(heads);
  }

  lemma ArraysSnoc(heads: seq<Header>, head: Header)
    ensures Arrays(heads + [head]) == Arrays(heads) + {head.rules.data}
  {
    assert forall k :: 0 <= k < |heads| ==> (heads + [head])[k] == heads[k];
    assert (heads + [head])[|heads|] == head;
  }

  // ---------------------------------------------------------------------------------------
  // Items
  // ---------------------------------------------------------------------------------------

  ghost predicate ItemLoaded(h: Snapshot, shown: seq<Group<LabelMap>>, groups: seq<Group<Labels>>) {
    |shown| == |groups| && forall g :: 0 <= g < |groups| ==> GroupLoaded(h, shown[g], groups[g])
  }

  lemma ItemStaysLoaded(h: Snapshot, next: Snapshot, shown: seq<Group<LabelMap>>, groups: seq<Group<Labels>>)
    requires ItemLoaded(h, shown, groups) && Extends(h, next)
    ensures ItemLoaded(next, shown, groups)
  {
    forall g | 0 <= g < |groups| ensures GroupLoaded(next, shown[g], groups[g]) {
      RulesStayLoaded(h, next, shown[g].rules, groups[g].rules);
    }
  }

  lemma LoadedView(h: Snapshot, shown: seq<Group<LabelMap>>, groups: seq<Group<Labels>>)
    requires ItemLoaded(h, shown, groups)
    ensures ViewGroups(h, shown) == groups && GroupsKnown(h, shown)
  {
    forall g | 0 <= g < |groups| ensures ViewGroup(h, shown[g]) == groups[g] {
      assert GroupLoaded(h, shown[g], groups[g]);
      assert ViewGroup(h, shown[g]).rules == groups[g].rules;
    }
  }

  method LoadItem(namespace: string, name: string, groups: seq<Group<Labels>>, ghost h: Snapshot)
    returns (item: Item, ghost shown: seq<Group<LabelMap>>, ghost next: Snapshot)
    requires Agrees(h)
    ensures Agrees(next) && Extends(h, next) && fresh(next.Keys - h.Keys) && fresh(Repr(item))
    ensures ItemShows(item, shown) && ItemLoaded(next, shown, groups)
    ensures item.namespace == namespace && item.name == name
  {
    hide Agrees, Extends, GroupLoaded;
    var heads;
    heads, shown, next := LoadGroups(groups, h);
    var slots := new Header[|heads|](i requires 0 <= i < |heads| => heads[i]);
    assert slots[..|heads|] == heads;
    item := new Item(namespace, name, Slice(slots, |heads|));
    assert Heads(item) == heads;
  }

  lemma LabelsApart(l: LabelMap, item: Item)
    ensures l !in Repr(item)
  {
  }

  // The items show what was loaded; they have the keys of the objects.
  ghost predicate ItemsLoaded(h: Snapshot, items: seq<Item>, shown: seq<seq<Group<LabelMap>>>, found: seq<Object>) {
    && |items| == |shown| == |found|
    && forall i :: 0 <= i < |found| ==>
         && ItemLoaded(h, shown[i], found[i].rule.groups)
         && items[i].namespace == found[i].key.namespace && items[i].name == found[i].key.name
  }

  lemma ItemsLoadedSnoc(h: Snapshot, next: Snapshot, items: seq<Item>, shown: seq<seq<Group<LabelMap>>>,
                        found: seq<Object>, item: Item, s: seq<Group<LabelMap>>, object': Object)
    requires ItemsLoaded(h, items, shown, found) && Extends(h, next) && ItemLoaded(next, s, object'.rule.groups)
    requires item.namespace == object'.key.namespace && item.name == object'.key.name
    ensures ItemsLoaded(next, items + [item], shown + [s], found + [object'])
  {
    hide ItemLoaded, Extends;
    forall i | 0 <= i < |found| ensures ItemLoaded(next, shown[i], found[i].rule.groups) {
      ItemStaysLoaded(h, next, shown[i], found[i].rule.groups);
    }
  }

  lemma UnionSnoc(reprs: seq<set<object>>, repr: set<object>)
    ensures Union(reprs + [repr]) == Union(reprs) + repr
  {
    forall o ensures o in Union(reprs + [repr]) <==> o in Union(reprs) || o in repr {
      if o in Union(reprs) {
        var i :| 0 <= i < |reprs| && o in reprs[i];
        assert (reprs + [repr])[i] == reprs[i];
      }
      if o in repr {
        assert (reprs + [repr])[|reprs|] == repr;
      }
    }
  }

  lemma ListShowsSnoc(items: seq<Item>, reprs: seq<set<object>>, shown: seq<seq<Group<LabelMap>>>, item: Item,
                      s: seq<Group<LabelMap>>)
    requires ListShows(items, reprs, shown) && ItemShows(item, s) && Repr(item) !! Union(reprs)
    ensures ListShows(items + [item], reprs + [Repr(item)], shown + [s])
  {
    hide ItemShows, Repr;
    forall i | 0 <= i < |reprs| ensures reprs[i] !! Repr(item) {
      assert forall o :: o in reprs[i] ==> o in Union(reprs);
    }
  }

  ghost predicate LabelsOutside(reprs: seq<set<object>>) { forall l: LabelMap :: l !in Union(reprs) }

  // The state of the loop over the objects.
  ghost predicate Loading(h: Snapshot, next: Snapshot, items: seq<Item>, reprs: seq<set<object>>,
                          shown: seq<seq<Group<LabelMap>>>, found: seq<Object>)
    reads items, set k | 0 <= k < |items| :: items[k].groups.data
    reads Union(reprs), next.Keys
  {
    && Agrees(next) && Extends(h, next) && ListShows(items, reprs, shown) && ItemsLoaded(next, items, shown, found)
    && LabelsOutside(reprs)
  }

  lemma OutsideSnoc(reprs: seq<set<object>>, item: Item)
    requires LabelsOutside(reprs)
    ensures LabelsOutside(reprs + [Repr(item)])
  {
    UnionSnoc(reprs, Repr(item));
    forall l: LabelMap ensures l !in Union(reprs + [Repr(item)]) {
      LabelsApart(l, item);
    }
  }

  lemma NoneLoading(h: Snapshot)
    requires Agrees(h)
    ensures Loading(h, h, [], [], [], []) && Union([]) == {}
  {
  }

  lemma LoadingSnoc(h: Snapshot, past: Snapshot, next: Snapshot, items: seq<Item>, reprs: seq<set<object>>,
                    shown: seq<seq<Group<LabelMap>>>, found: seq<Object>, item: Item, s: seq<Group<LabelMap>>,
                    object': Object)
    requires Loading(h, past, items, reprs, shown, found) && Agrees(next) && Extends(past, next)
    requires ItemShows(item, s) && Repr(item) !! Union(reprs) && ItemLoaded(next, s, object'.rule.groups)
    requires item.namespace == object'.key.namespace && item.name == object'.key.name
    ensures Loading(h, next, items + [item], reprs + [Repr(item)], shown + [s], found + [object'])
    ensures Union(reprs + [Repr(item)]) == Union(reprs) + Repr(item)
  {
    hide ListShows, ItemsLoaded, ItemLoaded, ItemShows, Union, Agrees, Extends, Repr, LabelsOutside;
    ExtendsTwice(h, past, next);
    ListShowsSnoc(items, reprs, shown, item, s);
    ItemsLoadedSnoc(past, next, items, shown, found, item, s, object');
    UnionSnoc(reprs, Repr(item));
    OutsideSnoc(reprs, item);
  }

  method LoadNext(object': Object, items: seq<Item>, found: seq<Object>, ghost reprs: seq<set<object>>,
                  ghost shown: seq<seq<Group<LabelMap>>>, ghost h: Snapshot, ghost past: Snapshot)
    returns (item: Item, ghost s: seq<Group<LabelMap>>, ghost next: Snapshot)
    requires Loading(h, past, items, reprs, shown, found)
    ensures Loading(h, next, items + [item], reprs + [Repr(item)], shown + [s], found + [object'])
    ensures fresh(next.Keys - past.Keys) && fresh(Repr(item))
    ensures Union(reprs + [Repr(item)]) == Union(reprs) + Repr(item)
  {
    hide ListShows, ItemsLoaded, ItemLoaded, ItemShows, Extends, Repr, LabelsOutside;
    assert forall o :: o in Union(reprs) ==> allocated(o);
    assert forall k :: 0 <= k < |items| ==> allocated(items[k].groups.data);
    item, s, next := LoadItem(object'.key.namespace, object'.key.name, object'.rule.groups, past);
    LoadingSnoc(h, past, next, items, reprs, shown, found, item, s, object');
  }

  method LoadItems(found: seq<Object>, ghost h: Snapshot)
    returns (items: seq<Item>, ghost reprs: seq<set<object>>, ghost shown: seq<seq<Group<LabelMap>>>,
             ghost next: Snapshot)
    requires Agrees(h)
    ensures fresh(next.Keys - h.Keys) && fresh(Union(reprs))
    ensures Loading(h, next, items, reprs, shown, found)
  {
    hide *;
    items, reprs, shown, next := [], [], [], h;
    if |found| == 0 {
      NoneLoading(h);
      assert found == [];
      return;
    }
    var rest, last := found[..|found| - 1], found[|found| - 1];
    assert found == rest + [last];
    items, reprs, shown, next := LoadItems(rest, h);
    var item;
    ghost var s;
    item, s, next := LoadNext(last, items, rest, reprs, shown, h, next);
    items, reprs, shown := items + [item], reprs + [Repr(item)], shown + [s];
  }

  // ---------------------------------------------------------------------------------------
  // Overrides
  // ---------------------------------------------------------------------------------------

  ghost predicate OverridesLoaded(h: Snapshot, loaded: map<string, Override<LabelMap>>,
                                  overrides: map<string, Override<Labels>>, names: set<string>)
  {
    && loaded.Keys == names && names <= overrides.Keys
    && forall name :: name in names ==>
         Known(h, loaded[name].labels) && ViewOverride(h, loaded[name]) == overrides[name]
  }

  lemma NoOverridesLoaded(h: Snapshot, overrides: map<string, Override<Labels>>)
    ensures OverridesLoaded(h, map[], overrides, {})
  {
  }

  lemma OverridesLoadedMore(h: Snapshot, next: Snapshot, loaded: map<string, Override<LabelMap>>,
                            overrides: map<string, Override<Labels>>, names: set<string>, name: string,
                            o: Override<LabelMap>)
    requires OverridesLoaded(h, loaded, overrides, names) && Extends(h, next) && name in overrides
    requires Known(next, o.labels) && ViewOverride(next, o) == overrides[name]
    ensures OverridesLoaded(next, loaded[name := o], overrides, names + {name})
  {
  }

  lemma OverridesView(h: Snapshot, loaded: map<string, Override<LabelMap>>, overrides: map<string, Override<Labels>>)
    requires OverridesLoaded(h, loaded, overrides, overrides.Keys)
    ensures ViewOverrides(h, loaded) == overrides
    ensures forall name :: name in loaded ==> Known(h, loaded[name].labels)
  {
  }

  method LoadOverride(o: Override<Labels>, ghost h: Snapshot) returns (loaded: Override<LabelMap>, ghost next: Snapshot)
    requires Agrees(h)
    ensures Agrees(next) && Extends(h, next) && fresh(next.Keys - h.Keys)
    ensures Known(next, loaded.labels) && ViewOverride(next, loaded) == o
  {
    var labels;
    labels, next := LoadLabels(o.labels, h);
    return Override(o.disable, o.annotations, labels, o.expr, o.forText), next;
  }

  method LoadOverrides(overrides: map<string, Override<Labels>>, ghost h: Snapshot)
    returns (loaded: map<string, Override<LabelMap>>, ghost next: Snapshot)
    requires Agrees(h)
    ensures Agrees(next) && Extends(h, next) && fresh(next.Keys - h.Keys)
    ensures ViewOverrides(next, loaded) == overrides
    ensures forall name :: name in loaded ==> Known(next, loaded[name].labels)
  {
    hide OverridesLoaded, ViewOverrides, ViewOverride, Known;
    loaded, next := map[], h;
    var names := overrides.Keys;
    NoOverridesLoaded(h, overrides);
    assert overrides.Keys - names == {};
    while names != {}
      invariant names <= overrides.Keys
      invariant Agrees(next) && Extends(h, next) && fresh(next.Keys - h.Keys)
      invariant OverridesLoaded(next, loaded, overrides, overrides.Keys - names)
      decreases |names|
    {
      var name :| name in names;
      ghost var past := next;
      var o;
      o, next := LoadOverride(overrides[name], next);
      OverridesLoadedMore(past, next, loaded, overrides, overrides.Keys - names, name, o);
      assert overrides.Keys - names + {name} == overrides.Keys - (names - {name});
      loaded, names := loaded[name := o], names - {name};
    }
    assert overrides.Keys - names == overrides.Keys;
    OverridesView(next, loaded, overrides);
  }

  // ---------------------------------------------------------------------------------------
  // Reading off
  // ---------------------------------------------------------------------------------------

  method UnloadRules(slice: Slice<HeapRule>, ghost shown: seq<HeapRule>, ghost h: Snapshot)
    returns (rules: seq<Rule<Labels>>)
    requires slice.len <= slice.data.Length && slice.data[..slice.len] == shown
    requires Agrees(h) && RulesKnown(h, shown)
    ensures rules == Map(rule => ViewRule(h, rule), shown)
  {
    rules := [];
    for r := 0 to slice.len
      invariant |rules| == r && forall k :: 0 <= k < r ==> rules[k] == ViewRule(h, shown[k])
    {
      var rule := slice.data[r];
      assert rule == shown[r];
      var labels := None;
      if rule.labels.Some? {
        labels := Some(rule.labels.value.entries);
      }
      rules := rules + [
        Rule(rule.alert, rule.record, rule.expr, rule.forText, rule.keepFiringFor, labels, rule.annotations)];
    }
  }

  method UnloadGroups(item: Item, ghost shown: seq<Group<LabelMap>>, ghost h: Snapshot)
    returns (groups: seq<Group<Labels>>)
    requires ItemShows(item, shown) && Agrees(h) && GroupsKnown(h, shown)
    ensures groups == ViewGroups(h, shown)
  {
    groups := [];
    for g := 0 to item.groups.len
      invariant |groups| == g && forall k :: 0 <= k < g ==> groups[k] == ViewGroup(h, shown[k])
    {
      var head := item.groups.data[g];
      assert head == item.groups.data[..item.groups.len][g];
      assert Fits(head) && Read(head) == shown[g];
      var rules := UnloadRules(head.rules, shown[g].rules, h);
      groups := groups + [Group(head.name, head.interval, rules)];
    }
  }

  method UnloadItems(found: seq<Object>, items: seq<Item>, ghost reprs: seq<set<object>>,
                     ghost shown: seq<seq<Group<LabelMap>>>, ghost h: Snapshot)
    returns (list: seq<Transformed>)
    requires ListShows(items, reprs, shown) && Agrees(h) && |items| == |found|
    requires forall i :: 0 <= i < |found| ==> i < |shown| && GroupsKnown(h, shown[i])
    ensures |list| == |found|
    ensures forall i :: 0 <= i < |found| ==> list[i] == Transformed(found[i].key, ViewGroups(h, shown[i]))
  {
    hide ItemShows, Agrees, GroupsKnown, ViewGroups;
    list := [];
    for i := 0 to |found|
      invariant |list| == i
      invariant forall k :: 0 <= k < i ==> list[k] == Transformed(found[k].key, ViewGroups(h, shown[k]))
    {
      var groups := UnloadGroups(items[i], shown[i], h);
      list := list + [Transformed(found[i].key, groups)];
    }
  }

  // ---------------------------------------------------------------------------------------
  // The transformation between decoding and encoding
  // ---------------------------------------------------------------------------------------

  lemma OverridesStay(h: Snapshot, next: Snapshot, overrides: map<string, Override<LabelMap>>)
    requires Extends(h, next) && forall name :: name in overrides ==> Known(h, overrides[name].labels)
    ensures ViewOverrides(next, overrides) == ViewOverrides(h, overrides)
    ensures forall name :: name in overrides ==> Known(next, overrides[name].labels)
  {
  }

  lemma LoadingView(h: Snapshot, next: Snapshot, items: seq<Item>, reprs: seq<set<object>>,
                    shown: seq<seq<Group<LabelMap>>>, found: seq<Object>)
    requires Loading(h, next, items, reprs, shown, found)
    ensures Agrees(next) && Extends(h, next) && ListShows(items, reprs, shown) && |items| == |shown| == |found|
    ensures forall l :: l in next ==> l !in Union(reprs)
    ensures forall i :: 0 <= i < |found| ==>
              GroupsKnown(next, shown[i]) && ViewGroups(next, shown[i]) == found[i].rule.groups
  {
    hide Agrees, Extends, ListShows, ItemLoaded, ViewGroups, GroupsKnown, Union;
    forall i | 0 <= i < |found|
      ensures GroupsKnown(next, shown[i]) && ViewGroups(next, shown[i]) == found[i].rule.groups
    {
      LoadedView(next, shown[i], found[i].rule.groups);
    }
  }

  // What applyOverrides and applyExternalLabels make of the rules found; None if they panic.
  method TransformFound(overrides: map<string, Override<Labels>>, external: Labels, found: seq<Object>)
    returns (items: Option<seq<Transformed>>)
    ensures items.None? <==>
              exists i :: 0 <= i < |found| && Transform(overrides, external, found[i].rule.groups).None?
    ensures items.Some? ==>
              && |items.value| == |found|
              && forall i :: 0 <= i < |found| ==>
                   && items.value[i].key == found[i].key
                   && Transform(overrides, external, found[i].rule.groups) == Some(items.value[i].groups)
  {
    var loaded, h := LoadOverrides(overrides, map[]);
    hide Loading, ListShows, Agrees, Extends, ViewGroups, ViewOverrides, GroupsKnown, Known, Transform, Union;
    var list, reprs, shown, next := LoadItems(found, h);
    LoadingView(h, next, list, reprs, shown, found);
    OverridesStay(h, next, loaded);
    var ok, after, final := TransformItems(loaded, external, list, reprs, shown, next);
    if !ok {
      return None;
    }
    var texts := UnloadItems(found, list, reprs, after, final);
    return Some(texts);
  }
}
