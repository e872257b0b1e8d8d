// Which PrometheusRules a MimirRules selects, and the Mimir namespace each is stored under.
module Selection {
  import opened Words
  import opened RuleModel

  // types.NamespacedName
  datatype Key = Key(namespace: string, name: string)

  datatype PromRule = PromRule(labels: Labels, groups: seq<Group<Labels>>)

  datatype Object = Object(key: Key, rule: PromRule)

  type Cluster = map<Key, PromRule>

  datatype Requirement =
    | In(key: string, values: set<string>)
    | NotIn(key: string, values: set<string>)
    | Exists(key: string)
    | DoesNotExist(key: string)

  // A LabelSelector after LabelSelectorAsSelector: a conversion error, the selector of nothing
  // (from a nil pointer), or a conjunction of requirements.
  datatype Selector = Invalid(reason: string) | Nothing | Requirements(all: seq<Requirement>)

  predicate Meets(labels: Labels, q: Requirement) {
    match q
    case In(k, vs) => k in labels && labels[k] in vs
    case NotIn(k, vs) => k !in labels || labels[k] !in vs
    case Exists(k) => k in labels
    case DoesNotExist(k) => k !in labels
  }

  predicate Matches(selector: Selector, labels: Labels) {
    selector.Requirements? && forall i :: 0 <= i < |selector.all| ==> Meets(labels, selector.all[i])
  }

  predicate Selected(selectors: seq<Selector>, labels: Labels) {
    exists i :: 0 <= i < |selectors| && Matches(selectors[i], labels)
  }

  predicate AllValid(selectors: seq<Selector>) {
    forall i :: 0 <= i < |selectors| ==> !selectors[i].Invalid?
  }

  // The requirements one by one; all must be met; no requirement selects everything, and neither
  // the selector of nothing nor an invalid one selects anything.
  lemma MatchesMeaning(labels: Labels, key: string, values: set<string>, more: seq<Requirement>, reason: string)
    ensures Matches(Requirements([In(key, values)]), labels) <==>
              exists v :: v in values && key in labels && labels[key] == v
    ensures Matches(Requirements([NotIn(key, values)]), labels) <==> !Matches(Requirements([In(key, values)]), labels)
    ensures Matches(Requirements([Exists(key)]), labels) <==> key in labels.Keys
    ensures Matches(Requirements([DoesNotExist(key)]), labels) <==> !Matches(Requirements([Exists(key)]), labels)
    ensures Matches(Requirements([]), labels) && !Matches(Nothing, labels) && !Matches(Invalid(reason), labels)
    ensures Matches(Requirements(more), labels) <==>
              forall q :: q in more ==> Matches(Requirements([q]), labels)
  {
    forall q ensures Matches(Requirements([q]), labels) <==> Meets(labels, q) {
      assert Requirements([q]).all[0] == q;
    }
  }

  // A rule is selected if one of the selectors matches it.
  lemma SelectedMeaning(selectors: seq<Selector>, labels: Labels)
    ensures Selected(selectors, labels) <==> exists selector :: selector in selectors && Matches(selector, labels)
    ensures !Selected([], labels)
  {
    hide Matches;
    if selector :| selector in selectors && Matches(selector, labels) {
      var i :| 0 <= i < |selectors| && selectors[i] == selector;
      assert Matches(selectors[i], labels);
    }
  }

  // ---------------------------------------------------------------------------------------
  // The selected list
  // ---------------------------------------------------------------------------------------

  predicate HasKey(objects: seq<Object>, key: Key) {
    exists i :: 0 <= i < |objects| && objects[i].key == key
  }

  // isRuleInSlice
  method IsRuleInSlice(objects: seq<Object>, key: Key) returns (found: bool)
    ensures found <==> HasKey(objects, key)
  {
    for i := 0 to |objects|
      invariant forall k :: 0 <= k < i ==> objects[k].key != key
    {
      if objects[i].key.namespace == key.namespace && objects[i].key.name == key.name {
        return true;
      }
    }
    return false;
  }

  ghost predicate DistinctKeys(objects: seq<Object>) {
    forall i, j :: 0 <= i < j < |objects| ==> objects[i].key != objects[j].key
  }

  // The objects whose key does not occur earlier, in order.
  ghost function FirstOccurrences(objects: seq<Object>): seq<Object> {
    if objects == [] then []
    else
      var n := |objects| - 1;
      FirstOccurrences(objects[..n]) + if HasKey(objects[..n], objects[n].key) then [] else [objects[n]]
  }

  // No object before position n has its key.
  ghost predicate IsFirst(objects: seq<Object>, n: nat) {
    n < |objects| && forall i :: 0 <= i < n ==> objects[i].key != objects[n].key
  }

  // The list is the objects at ascending positions, those before which their key does not occur.
  ghost predicate IsAt(objects: seq<Object>, list: seq<Object>, at: seq<nat>) {
    && |list| == |at| && (forall i :: 0 <= i < |at| ==> at[i] < |objects| && list[i] == objects[at[i]])
    && (forall i, j :: 0 <= i < j < |at| ==> at[i] < at[j])
    && (forall n: nat :: n in at <==> IsFirst(objects, n))
  }

  lemma {:induction false} FirstOccurrencesOrder(objects: seq<Object>) returns (at: seq<nat>)
    ensures IsAt(objects, FirstOccurrences(objects), at)
  {
    hide IsAt, IsFirst, HasKey;
    if objects == [] {
      at := [];
      NothingAt();
    } else {
      var n := |objects| - 1;
      at := FirstOccurrencesOrder(objects[..n]);
      OneMoreAt(objects, FirstOccurrences(objects[..n]), at);
      if HasKey(objects[..n], objects[n].key) {
        assert FirstOccurrences(objects) == FirstOccurrences(objects[..n]);
      } else {
        at := at + [n];
      }
    }
  }

  lemma NothingAt()
    ensures IsAt([], [], [])
  {
  }

  lemma OneMoreAt(objects: seq<Object>, list: seq<Object>, at: seq<nat>)
    requires objects != [] && IsAt(objects[..|objects| - 1], list, at)
    ensures var n := |objects| - 1;
            if HasKey(objects[..n], objects[n].key) then IsAt(objects, list, at)
            else IsAt(objects, list + [objects[n]], at + [n])
  {
    hide IsFirst;
    var front, n := objects[..|objects| - 1], |objects| - 1;
    forall k: nat ensures k in at <==> k < n && IsFirst(objects, k) {
      FirstInFront(objects, k);
    }
    FirstAtEnd(objects);
    NoneBehind(objects);
    if !HasKey(front, objects[n].key) {
      var at', list' := at + [n], list + [objects[n]];
      forall i, j | 0 <= i < j < |at'| ensures at'[i] < at'[j] {
        assert at[i] in at;
      }
    }
  }

  lemma FirstInFront(objects: seq<Object>, k: nat)
    requires objects != []
    ensures IsFirst(objects[..|objects| - 1], k) <==> k < |objects| - 1 && IsFirst(objects, k)
  {
  }

  lemma FirstAtEnd(objects: seq<Object>)
    requires objects != []
    ensures var n := |objects| - 1; IsFirst(objects, n) <==> !HasKey(objects[..n], objects[n].key)
  {
    var n := |objects| - 1;
    assert forall i :: 0 <= i < n ==> objects[..n][i] == objects[i];
  }

  lemma NoneBehind(objects: seq<Object>)
    ensures forall k: nat :: IsFirst(objects, k) ==> k < |objects|
  {
  }

  lemma {:induction false} FirstOccurrencesKeys(objects: seq<Object>)
    ensures DistinctKeys(FirstOccurrences(objects))
    ensures forall key :: HasKey(FirstOccurrences(objects), key) <==> HasKey(objects, key)
  {
    if objects != [] {
      var n := |objects| - 1;
      var front, last := objects[..n], objects[n];
      FirstOccurrencesKeys(front);
      HasKeySnoc(front, last);
      assert front + [last] == objects;
      HasKeySnoc(FirstOccurrences(front), last);
      assert FirstOccurrences(front) + [] == FirstOccurrences(front);
    }
  }

  lemma HasKeySnoc(xs: seq<Object>, x: Object)
    ensures forall key :: HasKey(xs + [x], key) <==> HasKey(xs, key) || key == x.key
  {
    HasKeyConcat(xs, [x]);
    assert [x][0].key == x.key;
    assert forall key :: HasKey([x], key) <==> key == x.key;
  }

  lemma HasKeyConcat(xs: seq<Object>, ys: seq<Object>)
    ensures forall key :: HasKey(xs + ys, key) <==> HasKey(xs, key) || HasKey(ys, key)
  {
    forall key | HasKey(xs, key) || HasKey(ys, key) ensures HasKey(xs + ys, key) {
      if HasKey(xs, key) {
        var i :| 0 <= i < |xs| && xs[i].key == key;
        assert (xs + ys)[i].key == key;
      } else {
        var i :| 0 <= i < |ys| && ys[i].key == key;
        assert (xs + ys)[|xs| + i].key == key;
      }
    }
  }

  // concatenatePrometheusRuleList. The destination holds what first occurred before.
  method Concatenate(dest: seq<Object>, src: seq<Object>, ghost before: seq<Object>) returns (result: seq<Object>)
    requires dest == FirstOccurrences(before)
    ensures result == FirstOccurrences(before + src)
  {
    result := dest;
    assert before + src[..0] == before;
    for i := 0 to |src|
      invariant result == FirstOccurrences(before + src[..i])
    {
      FirstOccurrencesKeys(before + src[..i]);
      assert (before + src[..i + 1])[..|before| + i] == before + src[..i];
      var present := IsRuleInSlice(result, src[i].key);
      if !present {
        result := result + [src[i]];
      }
    }
    assert src[..|src|] == src;
  }

  // A list call returns the matching objects, in an order the API does not fix.
  ghost predicate IsListing(objects: seq<Object>, cluster: Cluster, selector: Selector) {
    && (forall i :: 0 <= i < |objects| ==>
          objects[i].key in cluster && objects[i].rule == cluster[objects[i].key]
          && Matches(selector, objects[i].rule.labels))
    && (forall key :: key in cluster && Matches(selector, cluster[key].labels) ==> HasKey(objects, key))
  }

  // The call can fail unless the API is reliable.
  method List(cluster: Cluster, selector: Selector, reliable: bool) returns (objects: Option<seq<Object>>)
    ensures objects.Some? ==> IsListing(objects.value, cluster, selector)
    ensures reliable ==> objects.Some?
  {
    var fails: bool := *;
    if fails && !reliable {
      return None;
    }
    var keys, found: seq<Object> := cluster.Keys, [];
    while keys != {}
      invariant keys <= cluster.Keys
      invariant forall i :: 0 <= i < |found| ==>
          found[i].key in cluster && found[i].rule == cluster[found[i].key] && Matches(selector, found[i].rule.labels)
      invariant forall key :: key in cluster && key !in keys && Matches(selector, cluster[key].labels) ==>
          HasKey(found, key)
      decreases |keys|
    {
      var key :| key in keys;
      if Matches(selector, cluster[key].labels) {
        HasKeySnoc(found, Object(key, cluster[key]));
        found := found + [Object(key, cluster[key])];
      }
      keys := keys - {key};
    }
    return Some(found);
  }

  // What the list calls for some selectors return.
  ghost predicate AllListed(cluster: Cluster, selectors: seq<Selector>, listed: seq<Object>) {
    && (forall i :: 0 <= i < |listed| ==>
          listed[i].key in cluster && listed[i].rule == cluster[listed[i].key]
          && Selected(selectors, listed[i].rule.labels))
    && (forall key :: key in cluster && Selected(selectors, cluster[key].labels) ==> HasKey(listed, key))
  }

  lemma NoOccurrences()
    ensures FirstOccurrences([]) == []
  {
  }

  lemma NothingListed(cluster: Cluster, selectors: seq<Selector>)
    ensures AllListed(cluster, selectors[..0], [])
  {
  }

  // findPrometheusRulesFromLabels. `listed` is everything the list calls returned, in order.
  method FindPrometheusRules(cluster: Cluster, selectors: seq<Selector>, reliable: bool)
    returns (found: Option<seq<Object>>, ghost listed: seq<Object>)
    ensures found.Some? ==> AllValid(selectors) && found.value == FirstOccurrences(listed)
    ensures reliable ==> (found.Some? <==> AllValid(selectors))
    ensures found.Some? ==> DistinctKeys(found.value)
    ensures found.Some? ==> forall i :: 0 <= i < |found.value| ==>
              found.value[i].key in cluster && found.value[i].rule == cluster[found.value[i].key]
    ensures found.Some? ==> forall key ::
              HasKey(found.value, key) <==> key in cluster && Selected(selectors, cluster[key].labels)
  {
    hide AllListed, DistinctKeys, HasKey, Selected, FirstOccurrences, Matches, IsListing;
    var dest := [];
    listed := [];
    var n := 0;
    NothingListed(cluster, selectors);
    NoOccurrences();
    while n < |selectors|
      invariant n <= |selectors| && AllValid(selectors[..n])
      invariant dest == FirstOccurrences(listed)
      invariant AllListed(cluster, selectors[..n], listed)
    {
      if selectors[n].Invalid? {
        return None, listed;
      }
      var objects := List(cluster, selectors[n], reliable);
      if objects.None? {
        return None, listed;
      }
      dest := Concatenate(dest, objects.value, listed);
      AllListedMore(cluster, selectors, n, listed, objects.value);
      listed := listed + objects.value;
      n := n + 1;
    }
    assert selectors[..n] == selectors;
    FoundAll(cluster, selectors, listed);
    return Some(dest), listed;
  }

  lemma AllListedMore(cluster: Cluster, selectors: seq<Selector>, n: nat, listed: seq<Object>, objects: seq<Object>)
    requires n < |selectors| && AllListed(cluster, selectors[..n], listed) && IsListing(objects, cluster, selectors[n])
    ensures AllListed(cluster, selectors[..n + 1], listed + objects)
    ensures AllValid(selectors[..n]) && !selectors[n].Invalid? ==> AllValid(selectors[..n + 1])
  {
    hide Selected, Matches, HasKey;
    HasKeyConcat(listed, objects);
    SelectedMore(selectors, n);
  }

  lemma {:induction false} FoundAll(cluster: Cluster, selectors: seq<Selector>, listed: seq<Object>)
    requires AllListed(cluster, selectors, listed)
    ensures var found := FirstOccurrences(listed);
            && DistinctKeys(found)
            && (forall i :: 0 <= i < |found| ==> found[i].key in cluster && found[i].rule == cluster[found[i].key])
            && (forall key :: HasKey(found, key) <==> key in cluster && Selected(selectors, cluster[key].labels))
  {
    hide Selected;
    FirstOccurrencesKeys(listed);
    FirstOccurrencesFrom(listed);
  }

  lemma SelectedMore(selectors: seq<Selector>, n: nat)
    requires n < |selectors|
    ensures forall labels :: Selected(selectors[..n + 1], labels) <==>
                               Selected(selectors[..n], labels) || Matches(selectors[n], labels)
    ensures AllValid(selectors[..n]) && !selectors[n].Invalid? ==> AllValid(selectors[..n + 1])
  {
    forall labels | Selected(selectors[..n], labels) || Matches(selectors[n], labels)
      ensures Selected(selectors[..n + 1], labels)
    {
      if Selected(selectors[..n], labels) {
        var i :| 0 <= i < n && Matches(selectors[..n][i], labels);
        assert Matches(selectors[..n + 1][i], labels);
      } else {
        assert Matches(selectors[..n + 1][n], labels);
      }
    }
    forall labels | Selected(selectors[..n + 1], labels)
      ensures Selected(selectors[..n], labels) || Matches(selectors[n], labels)
    {
      var i :| 0 <= i < n + 1 && Matches(selectors[..n + 1][i], labels);
      assert i < n ==> Matches(selectors[..n][i], labels);
    }
  }

  lemma {:induction false} FirstOccurrencesFrom(objects: seq<Object>)
    ensures forall i :: 0 <= i < |FirstOccurrences(objects)| ==> FirstOccurrences(objects)[i] in objects
  {
    if objects != [] {
      FirstOccurrencesFrom(objects[..|objects| - 1]);
    }
  }

  // ---------------------------------------------------------------------------------------
  // Mimir namespaces
  // ---------------------------------------------------------------------------------------

  // The Mimir namespace of a PrometheusRule.
  function KeyText(key: Key): string { key.namespace + "_" + key.name }

  // The Kubernetes namespace, an underscore, and the name: in a proper namespace the first
  // underscore is where they meet.
  lemma KeyTextIs(key: Key)
    ensures var text := KeyText(key);
            && |text| == |key.namespace| + 1 + |key.name|
            && key.namespace <= text && text[|key.namespace|] == '_' && text[|key.namespace| + 1..] == key.name
    ensures KeyText(Key("team", "r")) == "team_r"
  {
    assert KeyText(Key("team", "r")) == "team" + "_" + "r" == "team_r";
  }

  predicate Plain(namespace: string) { '_' !in namespace }

  // Kubernetes namespaces are free of underscores (section 2.1 of RFC 1123), and that alone
  // makes the text determine the key, whatever the names.
  lemma KeyTextInjective(a: Key, b: Key)
    requires Plain(a.namespace) && Plain(b.namespace) && KeyText(a) == KeyText(b)
    ensures a == b
  {
    var s, m, n := KeyText(a), |a.namespace|, |b.namespace|;
    assert s[m] == '_' && s[n] == '_';
    assert forall i :: 0 <= i < m ==> s[i] == a.namespace[i];
    assert forall i :: 0 <= i < n ==> s[i] == b.namespace[i];
    assert s[..m] == a.namespace && s[..n] == b.namespace;
    assert s[m + 1..] == a.name && s[n + 1..] == b.name;
  }

  // With an underscore in a namespace two keys can share a text.
  lemma KeyTextCollides()
    ensures KeyText(Key("a_b", "c")) == KeyText(Key("a", "b_c"))
  {
    assert KeyText(Key("a_b", "c")) == "a_b_c" == KeyText(Key("a", "b_c"));
  }

  // An item after the transformation.
  datatype Transformed = Transformed(key: Key, groups: seq<Group<Labels>>)

  ghost predicate DistinctItems(items: seq<Transformed>) {
    forall i, j :: 0 <= i < j < |items| ==> items[i].key != items[j].key
  }

  ghost function Unpacked(items: seq<Transformed>): map<string, seq<Group<Labels>>> {
    if items == [] then map[]
    else
      var last := items[|items| - 1];
      Unpacked(items[..|items| - 1])[KeyText(last.key) := last.groups]
  }

  // The map built by unpackRules. Items of one text overwrite each other.
  method UnpackRules(items: seq<Transformed>) returns (results: map<string, seq<Group<Labels>>>)
    ensures results == Unpacked(items)
  {
    results := map[];
    for n := 0 to |items|
      invariant results == Unpacked(items[..n])
    {
      assert items[..n + 1][..n] == items[..n];
      results := results[KeyText(items[n].key) := items[n].groups];
    }
    assert items[..|items|] == items;
  }

  // Of the items of one text the last wins.
  lemma {:induction false} UnpackedLast(items: seq<Transformed>, text: string)
    ensures text in Unpacked(items) <==> exists i :: 0 <= i < |items| && KeyText(items[i].key) == text
    ensures text in Unpacked(items) ==>
              exists i ::
                && 0 <= i < |items| && KeyText(items[i].key) == text && Unpacked(items)[text] == items[i].groups
                && forall j :: i < j < |items| ==> KeyText(items[j].key) != text
  {
    hide KeyText;
    if items != [] {
      var n := |items| - 1;
      UnpackedLast(items[..n], text);
      assert forall i :: 0 <= i < n ==> items[..n][i] == items[i];
      if KeyText(items[n].key) != text && text in Unpacked(items) {
        var i :| 0 <= i < n && KeyText(items[..n][i].key) == text && Unpacked(items[..n])[text] == items[..n][i].groups
                 && forall j :: i < j < n ==> KeyText(items[..n][j].key) != text;
        assert KeyText(items[i].key) == text && Unpacked(items)[text] == items[i].groups;
        assert forall j :: i < j < n ==> KeyText(items[..n][j].key) != text && items[..n][j] == items[j];
      }
    }
  }

  ghost function Texts(items: seq<Transformed>): set<string> {
    set i | 0 <= i < |items| :: KeyText(items[i].key)
  }

  // For distinct items in Kubernetes namespaces unpacking loses none and adds none.
  lemma {:induction false} UnpackKeepsAll(items: seq<Transformed>)
    requires DistinctItems(items) && forall i :: 0 <= i < |items| ==> Plain(items[i].key.namespace)
    ensures |Unpacked(items)| == |items| && Unpacked(items).Keys == Texts(items)
    ensures forall i :: 0 <= i < |items| ==> Unpacked(items)[KeyText(items[i].key)] == items[i].groups
  {
    forall i, j | 0 <= i < j < |items| ensures KeyText(items[i].key) != KeyText(items[j].key) {
      if KeyText(items[i].key) == KeyText(items[j].key) {
        KeyTextInjective(items[i].key, items[j].key);
      }
    }
    UnpackedSize(items);
    forall i | 0 <= i < |items| ensures Unpacked(items)[KeyText(items[i].key)] == items[i].groups {
      UnpackedAt(items, i);
    }
  }

  ghost predicate DistinctTexts(items: seq<Transformed>) {
    forall i, j :: 0 <= i < j < |items| ==> KeyText(items[i].key) != KeyText(items[j].key)
  }

  lemma {:induction false} UnpackedKeys(items: seq<Transformed>)
    ensures Unpacked(items).Keys == Texts(items)
  {
    hide KeyText;
    if items != [] {
      var n := |items| - 1;
      UnpackedKeys(items[..n]);
      assert Texts(items) == Texts(items[..n]) + {KeyText(items[n].key)};
    }
  }

  lemma {:induction false} UnpackedSize(items: seq<Transformed>)
    requires DistinctTexts(items)
    ensures |Unpacked(items)| == |items| && Unpacked(items).Keys == Texts(items)
  {
    hide KeyText;
    UnpackedKeys(items);
    if items != [] {
      var n := |items| - 1;
      UnpackedSize(items[..n]);
      assert KeyText(items[n].key) !in Texts(items[..n]);
    }
  }

  lemma {:induction false} UnpackedAt(items: seq<Transformed>, i: nat)
    requires DistinctTexts(items) && i < |items|
    ensures KeyText(items[i].key) in Unpacked(items) && Unpacked(items)[KeyText(items[i].key)] == items[i].groups
  {
    hide KeyText;
    var n := |items| - 1;
    if i < n {
      UnpackedAt(items[..n], i);
    }
  }
}
