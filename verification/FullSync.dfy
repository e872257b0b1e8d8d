// syncRulesToRuler as one method, and what its success means for the cluster and the tenant.
module FullSync {
  import opened Words
  import opened Ordering
  import opened RuleModel
  import opened Selection
  import opened RemoteRuler
  import opened RuleSync
  import opened Operator
  import opened Agreement
  import opened RuleLoading

  datatype SyncResult = Synchronised | Failed | Panicked

  // The two transformation steps on the heap, for a MimirRules.
  method TransformAll(spec: Spec, found: seq<Object>) returns (items: Option<seq<Transformed>>)
    ensures items.None? <==> exists i :: 0 <= i < |found| && TextOf(spec, found[i].rule.groups).None?
    ensures items.Some? ==>
              && |items.value| == |found|
              && forall i :: 0 <= i < |found| ==>
                   && items.value[i].key == found[i].key
                   && TextOf(spec, found[i].rule.groups) == Some(items.value[i].groups)
  {
    items := TransformFound(spec.overrides, spec.external, found);
    assert forall i :: 0 <= i < |found| ==>
        TextOf(spec, found[i].rule.groups) == Transform(spec.overrides, spec.external, found[i].rule.groups);
  }

  // The texts to post are those of the selected rules, under their names.
  ghost predicate TextsOfSelected(cluster: Cluster, spec: Spec, texts: RuleSync.Texts) {
    && texts.Keys == Wanted(cluster, spec)
    && forall key :: key in cluster && SelectedNow(cluster, spec, key) ==>
         KeyText(key) in texts && TextOf(spec, cluster[key].groups) == Some(texts[KeyText(key)])
  }

  // The items are those found, transformed; and those found are the selected ones.
  ghost predicate ItemsOf(cluster: Cluster, spec: Spec, found: seq<Object>, items: seq<Transformed>) {
    && |items| == |found| && DistinctKeys(found)
    && (forall i :: 0 <= i < |found| ==> found[i].key in cluster && found[i].rule == cluster[found[i].key])
    && (forall key :: HasKey(found, key) <==> key in cluster && Selected(spec.selectors, cluster[key].labels))
    && (forall i :: 0 <= i < |found| ==>
          items[i].key == found[i].key && TextOf(spec, found[i].rule.groups) == Some(items[i].groups))
  }

  lemma ItemOf(cluster: Cluster, spec: Spec, found: seq<Object>, items: seq<Transformed>, key: Key) returns (i: nat)
    requires ItemsOf(cluster, spec, found, items) && key in cluster && SelectedNow(cluster, spec, key)
    ensures i < |items| && items[i].key == key && TextOf(spec, cluster[key].groups) == Some(items[i].groups)
  {
    hide Selected, TextOf;
    assert HasKey(found, key);
    i :| 0 <= i < |found| && found[i].key == key;
  }

  lemma ItemSelected(cluster: Cluster, spec: Spec, found: seq<Object>, items: seq<Transformed>, i: nat)
    requires ItemsOf(cluster, spec, found, items) && i < |items|
    ensures items[i].key in cluster && SelectedNow(cluster, spec, items[i].key)
  {
    hide Selected, TextOf;
    assert HasKey(found, found[i].key);
  }

  lemma ItemsDistinct(cluster: Cluster, spec: Spec, found: seq<Object>, items: seq<Transformed>)
    requires ItemsOf(cluster, spec, found, items) && PlainKeys(cluster.Keys)
    ensures DistinctItems(items) && forall i :: 0 <= i < |items| ==> Plain(items[i].key.namespace)
  {
    hide Selected, TextOf, HasKey;
  }

  lemma {:induction false} UnpackedSelected(cluster: Cluster, spec: Spec, found: seq<Object>, items: seq<Transformed>)
    requires ItemsOf(cluster, spec, found, items) && PlainKeys(cluster.Keys)
    ensures TextsOfSelected(cluster, spec, Unpacked(items))
  {
    hide ItemsOf, TextOf, SelectedNow, KeyText, Unpacked;
    ItemsDistinct(cluster, spec, found, items);
    UnpackKeepsAll(items);
    forall key | key in cluster && SelectedNow(cluster, spec, key)
      ensures KeyText(key) in Unpacked(items) && TextOf(spec, cluster[key].groups)
            == Some(Unpacked(items)[KeyText(key)])
    {
      var i := ItemOf(cluster, spec, found, items, key);
    }
    forall x | x in Unpacked(items) ensures x in Wanted(cluster, spec) {
      assert x in Selection.Texts(items);
      var i :| 0 <= i < |items| && KeyText(items[i].key) == x;
      ItemSelected(cluster, spec, found, items, i);
    }
  }

  // The calls of a sync that got as far as posting, with the texts and the order of visiting.
  datatype Log = Log(texts: RuleSync.Texts, order: seq<string>, posts: seq<Call>, cleanup: seq<Call>)

  // What RefRules is then: all the wanted names in order once all has been posted; and the names
  // visited before the one in which it failed, in the order of visiting, if it was cut off there.
  ghost predicate IsLog(log: Log, cluster: Cluster, tenant: string, spec: Spec, before: Store, after: Store,
                        refs: seq<string>)
  {
    && TextsOfSelected(cluster, spec, log.texts) && PostsInOrder(log.posts, tenant, log.texts)
    && PostedNames(before, after, log.texts, Elements(refs))
    && if log.cleanup == [] then StoppedAfter(before, after, log.posts, log.texts, refs, log.order)
       else
         && Ascending(refs) && Elements(refs) == Wanted(cluster, spec)
         && LoggedSet(log.posts, tenant, log.texts, log.texts.Keys)
  }

  // The transformation of some selected rule panics; or of none, and all texts decode.
  ghost predicate SomePanics(cluster: Cluster, spec: Spec) {
    exists key :: key in cluster && SelectedNow(cluster, spec, key) && TextOf(spec, cluster[key].groups).None?
  }

  ghost predicate AllDecode(cluster: Cluster, spec: Spec) {
    forall key :: key in cluster && SelectedNow(cluster, spec, key) ==>
      var text := TextOf(spec, cluster[key].groups); text.Some? && Decode(text.value).Some?
  }

  lemma OnePanics(cluster: Cluster, spec: Spec, key: Key)
    requires key in cluster && SelectedNow(cluster, spec, key) && TextOf(spec, cluster[key].groups).None?
    ensures SomePanics(cluster, spec) && !AllDecode(cluster, spec)
  {
    hide TextOf, Selected;
  }

  lemma TextsFit(cluster: Cluster, spec: Spec, texts: RuleSync.Texts)
    requires TextsOfSelected(cluster, spec, texts)
    ensures !SomePanics(cluster, spec)
    ensures AllDecode(cluster, spec) <==> forall ns :: ns in texts ==> Decode(texts[ns]).Some?
  {
    hide TextOf, Selected, KeyText, Decode;
    forall ns | ns in texts && AllDecode(cluster, spec) ensures Decode(texts[ns]).Some? {
      var key :| key in cluster && SelectedNow(cluster, spec, key) && KeyText(key) == ns;
    }
  }

  // A successful sync brings the tenant into agreement with what is selected; one that fails or
  // panics earlier leaves every namespace that is wanted in place. Without a log it ended before
  // RefRules was reset.
  method SyncRulesToRuler(mimir: Mimir, cluster: Cluster, tenant: string, spec: Spec, refRules: seq<string>,
                          reliable: bool)
    returns (result: SyncResult, refRules': seq<string>, ghost log: Option<Log>)
    requires Valid(TenantStore(mimir.tenants, tenant)) && PlainKeys(cluster.Keys)
    modifies mimir
    ensures OthersAlone(old(mimir.tenants), mimir.tenants, tenant)
    ensures result.Synchronised? ==> InAgreement(cluster, spec, refRules', TenantStore(mimir.tenants, tenant))
    ensures result.Synchronised? ==>
              exists texts: RuleSync.Texts :: TextsOfSelected(cluster, spec, texts)
                && TenantStore(mimir.tenants, tenant) == Synced(old(TenantStore(mimir.tenants, tenant)), texts)
    ensures log.None? ==> !result.Synchronised? && refRules' == refRules
    ensures log.None? ==> mimir.calls == old(mimir.calls) && mimir.tenants == old(mimir.tenants)
    ensures log.Some? ==>
              && mimir.calls == old(mimir.calls) + (log.value.posts + log.value.cleanup)
              && IsLog(log.value, cluster, tenant, spec, old(TenantStore(mimir.tenants, tenant)),
                       TenantStore(mimir.tenants, tenant), refRules')
    ensures log.Some? ==> !result.Panicked? && (log.value.cleanup == [] ==> result.Failed?)
    ensures reliable ==> (log.Some? <==> Selection.AllValid(spec.selectors) && !SomePanics(cluster, spec))
    ensures forall ns :: ns in Wanted(cluster, spec) && ns in old(TenantStore(mimir.tenants, tenant)) ==>
              ns in TenantStore(mimir.tenants, tenant)
    ensures result.Panicked? ==>
              mimir.calls == old(mimir.calls) && refRules' == refRules && SomePanics(cluster, spec)
    ensures reliable ==> (result.Panicked? <==> Selection.AllValid(spec.selectors) && SomePanics(cluster, spec))
    ensures reliable && mimir.reliable ==>
              (result.Synchronised? <==> Selection.AllValid(spec.selectors) && AllDecode(cluster, spec))
  {
    hide AllDecode, SomePanics, Synced, PartlySynced, TextsOfSelected, InAgreement, Wanted, Unpacked, DistinctKeys,
         TextOf, Selected, KeyText, PostedNames, Distinct, Elements, StoppedAfter, LoggedSet, PostsInOrder, Ascending;
    var found, listed := FindPrometheusRules(cluster, spec.selectors, reliable);
    log := None;
    if found.None? {
      return Failed, refRules, None;
    }
    var items := TransformAll(spec, found.value);
    if items.None? {
      ghost var i :| 0 <= i < |found.value| && TextOf(spec, found.value[i].rule.groups).None?;
      assert HasKey(found.value, found.value[i].key);
      OnePanics(cluster, spec, found.value[i].key);
      return Panicked, refRules, None;
    }
    UnpackedSelected(cluster, spec, found.value, items.value);
    var texts := UnpackRules(items.value);
    TextsFit(cluster, spec, texts);
    var ok, names, posts, cleanup, stale, order := PushRules(mimir, tenant, texts);
    log := Some(Log(texts, order, posts, cleanup));
    TextNames(cluster, spec, texts);
    WantedStays(cluster, spec, old(TenantStore(mimir.tenants, tenant)), TenantStore(mimir.tenants, tenant), texts);
    if ok {
      SyncedAgrees(cluster, spec, old(TenantStore(mimir.tenants, tenant)), texts, names);
      return Synchronised, names, log;
    }
    return Failed, names, log;
  }

  lemma TextNames(cluster: Cluster, spec: Spec, texts: RuleSync.Texts)
    requires TextsOfSelected(cluster, spec, texts)
    ensures texts.Keys == Wanted(cluster, spec)
  {
  }

  lemma WantedStays(cluster: Cluster, spec: Spec, before: Store, after: Store, texts: RuleSync.Texts)
    requires Valid(before) && TextsOfSelected(cluster, spec, texts) && PartlySynced(before, after, texts)
    ensures forall ns :: ns in Wanted(cluster, spec) && ns in before ==> ns in after
  {
    hide Decode, Wanted;
    forall ns | ns in texts && ns in before ensures ns in after {
      assert HasPrefix(before, after, texts, ns);
      if GroupsAt(after, ns) != GroupsAt(before, ns) {
        var k: nat :| k <= |Decode(texts[ns]).value| && GroupsAt(after, ns)
              == Overlay(before[ns], Decode(texts[ns]).value[..k]);
        OverlayIsUpdate(before[ns], Decode(texts[ns]).value[..k]);
      }
    }
  }

  lemma SyncedAgrees(cluster: Cluster, spec: Spec, before: Store, texts: RuleSync.Texts, refs: seq<string>)
    requires TextsOfSelected(cluster, spec, texts) && forall ns :: ns in texts ==> Decode(texts[ns]).Some?
    requires Ascending(refs) && Elements(refs) == texts.Keys
    ensures InAgreement(cluster, spec, refs, Synced(before, texts))
  {
    hide Decode, Wanted, TextOf, KeyText;
    forall key | key in cluster && SelectedNow(cluster, spec, key)
      ensures Delivered(Synced(before, texts), KeyText(key), TextOf(spec, cluster[key].groups).value)
    {
      var ns := KeyText(key);
      var groups := Decode(texts[ns]).value;
      forall name | LastNamed(groups, name).Some?
        ensures name in GroupsAt(Synced(before, texts), ns) && GroupsAt(Synced(before, texts), ns)[name]
              == LastNamed(groups, name).value
      {
        OverlayMeaning(GroupsAt(before, ns), groups, name);
      }
    }
  }
}
