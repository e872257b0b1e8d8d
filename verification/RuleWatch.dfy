// The handler of PrometheusRule changes, and that handling a change in the transition system is
// what it does.
module RuleWatch {
  import opened Words
  import opened Selection
  import opened Operator

  // A listed MimirRules.
  datatype Item = Item(key: Key, rules: MimirRules)

  // contains, which panics on a nil list.
  method Contains(list: Option<seq<Object>>, key: Key) returns (found: Option<bool>)
    ensures found.None? <==> list.None?
    ensures found.Some? ==> (found.value <==> HasKey(list.value, key))
  {
    if list.None? {
      return None;
    }
    for i := 0 to |list.value|
      invariant forall k :: 0 <= k < i ==> list.value[k].key != key
    {
      if list.value[i].key.name == key.name && list.value[i].key.namespace == key.namespace {
        return Some(true);
      }
    }
    return Some(false);
  }

  // The keys of the MimirRules that a change of a rule concerns, in the order listed.
  function Concerned(cluster: Cluster, items: seq<Item>, key: Key): seq<Key> {
    if items == [] then []
    else
      var n := |items| - 1;
      Concerned(cluster, items[..n], key)
      + if Requested(cluster, Some(items[n].rules), key) then [items[n].key] else []
  }

  lemma {:induction false} ConcernedSnoc(cluster: Cluster, items: seq<Item>, i: nat, key: Key)
    requires i < |items|
    ensures Concerned(cluster, items[..i + 1], key)
         == Concerned(cluster, items[..i], key)
            + if Requested(cluster, Some(items[i].rules), key) then [items[i].key] else []
  {
    assert items[..i + 1][..i] == items[..i];
  }

  // reconcileOnPrometheusRuleChange; None is a panic. `items` is what listing the MimirRules
  // gave, `found` whether the rule could be looked up. If it is known to be gone, RefRules
  // decide; otherwise every list of rules must come about. `lists` holds these lists.
  method ReconcileOnPrometheusRuleChange(cluster: Cluster, items: Option<seq<Item>>, key: Key, found: bool,
                                         reliable: bool)
    returns (requests: Option<seq<Key>>, ghost lists: seq<Option<seq<Object>>>)
    ensures items.None? ==> requests == Some([])
    ensures items.Some? && requests.Some? ==> requests.value == Concerned(cluster, items.value, key)
    ensures requests.None? <==> exists i :: 0 <= i < |lists| && lists[i].None?
    ensures found && key !in cluster ==> lists == []
    ensures reliable ==>
              (requests.None? <==>
                 && items.Some? && !(found && key !in cluster)
                 && exists i :: 0 <= i < |items.value| && !AllValid(items.value[i].rules.spec.selectors))
  {
    hide AllValid, Selected;
    lists := [];
    if items.None? {
      return Some([]), lists;
    }
    var list: seq<Key> := [];
    for i := 0 to |items.value|
      invariant list == Concerned(cluster, items.value[..i], key)
      invariant found && key !in cluster ==> lists == []
      invariant forall k :: 0 <= k < |lists| ==> lists[k].Some?
      invariant reliable && !(found && key !in cluster) ==>
          forall k :: 0 <= k < i ==> AllValid(items.value[k].rules.spec.selectors)
    {
      ConcernedSnoc(cluster, items.value, i, key);
      var item := items.value[i];
      var concerned := KeyText(key) in item.rules.status.refRules;
      if !found || key in cluster {
        var objects, _ := FindPrometheusRules(cluster, item.rules.spec.selectors, reliable);
        lists := lists + [objects];
        var contained := Contains(objects, key);
        if contained.None? {
          assert lists[|lists| - 1].None?;
          return None, lists;
        }
        concerned := contained.value || concerned;
      }
      if concerned {
        list := list + [item.key];
      }
    }
    assert items.value[..|items.value|] == items.value;
    return Some(list), lists;
  }

  // The MimirRules stored, in some order.
  ghost predicate IsListed(s: System, items: seq<Item>) {
    && (forall i :: 0 <= i < |items| ==>
          items[i].key in s.nodes && s.nodes[items[i].key].stored == Some(items[i].rules))
    && (forall m :: m in s.nodes && s.nodes[m].stored.Some? ==> exists i :: 0 <= i < |items| && items[i].key == m)
  }

  lemma {:induction false} ConcernedIsRequested(s: System, items: seq<Item>, key: Key, m: Key)
    requires forall i :: 0 <= i < |items| ==>
               items[i].key in s.nodes && s.nodes[items[i].key].stored == Some(items[i].rules)
    requires m in s.nodes
    ensures m in Concerned(s.cluster, items, key) <==>
              Requested(s.cluster, s.nodes[m].stored, key) && exists i :: 0 <= i < |items| && items[i].key == m
  {
    hide Requested;
    if items != [] {
      var n := |items| - 1;
      ConcernedIsRequested(s, items[..n], key, m);
      assert (exists i :: 0 <= i < |items| && items[i].key == m) <==>
          items[n].key == m || exists i :: 0 <= i < n && items[..n][i].key == m;
    }
  }

  // Handling a change in the system: a panic exactly if the handler panics, every call succeeding;
  // and otherwise the requests it returns are put in the queue.
  lemma {:induction false} HandleIsHandler(s: System, items: seq<Item>, key: Key, m: Key)
    requires OneTenantEach(s) && IsListed(s, items) && m in s.nodes
    ensures Panicking(s, Handle(key)) <==>
              key in s.cluster && exists i :: 0 <= i < |items| && !AllValid(items[i].rules.spec.selectors)
    ensures !Panicking(s, Handle(key)) ==>
              && m in Apply(s, Handle(key)).nodes
              && Apply(s, Handle(key)).nodes[m]
                 == if m in Concerned(s.cluster, items, key) then s.nodes[m].(dirty := true) else s.nodes[m]
  {
    hide AllValid, Requested;
    NodeStep(s, Handle(key), m);
    ConcernedIsRequested(s, items, key, m);
    NobodyToRequest(s.cluster, key);
    PanicsWith(s, items, key);
  }

  lemma NobodyToRequest(cluster: Cluster, key: Key)
    ensures !Requested(cluster, None, key)
  {
  }

  lemma PanicsWith(s: System, items: seq<Item>, key: Key)
    requires IsListed(s, items)
    ensures Panicking(s, Handle(key)) <==>
              key in s.cluster && exists i :: 0 <= i < |items| && !AllValid(items[i].rules.spec.selectors)
  {
    hide AllValid;
    if i :| 0 <= i < |items| && !AllValid(items[i].rules.spec.selectors) {
      assert !SelectorsValid(s.nodes[items[i].key]);
    }
    if m :| m in s.nodes && !SelectorsValid(s.nodes[m]) {
      var i :| 0 <= i < |items| && items[i].key == m;
    }
  }
}
