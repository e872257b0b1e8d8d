// The second half of syncRulesToRuler: post every wanted namespace, then delete the namespaces
// the tenant holds that are not wanted.
module RuleSync {
  import opened Words
  import opened Ordering
  import opened RuleModel
  import opened RemoteRuler

  // ---------------------------------------------------------------------------------------
  // The deletion list
  // ---------------------------------------------------------------------------------------

  ghost function FirstSeen<T>(list: seq<T>): seq<T> {
    if list == [] then []
    else
      var n := |list| - 1;
      FirstSeen(list[..n]) + if list[n] in list[..n] then [] else [list[n]]
  }

  // RemoveDuplicate
  method RemoveDuplicate<T(==)>(list: seq<T>) returns (result: seq<T>)
    ensures result == FirstSeen(list)
  {
    var allKeys: map<T, bool> := map[];
    result := [];
    for i := 0 to |list|
      invariant result == FirstSeen(list[..i])
      invariant forall x :: x in allKeys <==> x in list[..i]
    {
      assert list[..i + 1][..i] == list[..i];
      if list[i] !in allKeys {
        allKeys := allKeys[list[i] := true];
        result := result + [list[i]];
      }
    }
    assert list[..|list|] == list;
  }

  lemma {:induction false} FirstSeenElements<T>(list: seq<T>)
    ensures Distinct(FirstSeen(list)) && Elements(FirstSeen(list)) == Elements(list)
  {
    if list != [] {
      var n := |list| - 1;
      FirstSeenElements(list[..n]);
      assert list == list[..n] + [list[n]];
      ElementsSnoc(list[..n], list[n]);
      ElementsSnoc(FirstSeen(list[..n]), list[n]);
      assert list[n] in list[..n] <==> list[n] in Elements(list[..n]);
      assert FirstSeen(list[..n]) + [] == FirstSeen(list[..n]);
    }
  }

  ghost function Without(list: seq<string>, wanted: set<string>): seq<string> {
    if list == [] then []
    else
      var n := |list| - 1;
      Without(list[..n], wanted) + if list[n] in wanted then [] else [list[n]]
  }

  lemma {:induction false} WithoutElements(list: seq<string>, wanted: set<string>)
    ensures Elements(Without(list, wanted)) == Elements(list) - wanted
  {
    if list != [] {
      var n := |list| - 1;
      var front := Without(list[..n], wanted);
      WithoutElements(list[..n], wanted);
      assert list == list[..n] + [list[n]];
      ElementsSnoc(list[..n], list[n]);
      ElementsSnoc(front, list[n]);
      assert front + [] == front;
    }
  }

  lemma SortedSnoc(list: seq<string>, front: seq<string>)
    requires Sorted(list) && list != [] && Sorted(front) && Elements(front) <= Elements(list[..|list| - 1])
    ensures Sorted(front + [list[|list| - 1]])
  {
    var n := |list| - 1;
    forall i | 0 <= i < |front| ensures !Less(list[n], front[i]) {
      assert front[i] in Elements(front);
      assert front[i] in Elements(list[..n]);
      var j :| 0 <= j < n && list[..n][j] == front[i];
      assert list[j] == front[i];
    }
  }

  lemma {:induction false} WithoutSorted(list: seq<string>, wanted: set<string>)
    requires Sorted(list)
    ensures Sorted(Without(list, wanted))
  {
    hide Elements, Less;
    if list != [] {
      var n := |list| - 1;
      WithoutSorted(list[..n], wanted);
      WithoutElements(list[..n], wanted);
      SortedSnoc(list, Without(list[..n], wanted));
      assert Without(list[..n], wanted) + [] == Without(list[..n], wanted);
    }
  }

  lemma {:induction false} FirstSeenSorted(list: seq<string>)
    requires Sorted(list)
    ensures Sorted(FirstSeen(list))
  {
    hide Elements, Less;
    if list != [] {
      var n := |list| - 1;
      FirstSeenSorted(list[..n]);
      FirstSeenElements(list[..n]);
      SortedSnoc(list, FirstSeen(list[..n]));
      assert FirstSeen(list[..n]) + [] == FirstSeen(list[..n]);
    }
  }

  lemma {:induction false} PerGroupFacts(keys: seq<string>, store: Store)
    requires Ascending(keys) && Elements(keys) <= store.Keys && Valid(store)
    ensures Sorted(PerGroup(keys, store)) && Elements(PerGroup(keys, store)) == Elements(keys)
  {
    if keys != [] {
      var n := |keys| - 1;
      var ns := keys[n];
      assert ns in Elements(keys) && Elements(keys[..n]) <= Elements(keys);
      PerGroupFacts(keys[..n], store);
      assert keys == keys[..n] + [ns];
      ElementsSnoc(keys[..n], ns);
      PerGroupTail(keys[..n], ns, PerGroup(keys[..n], store), |store[ns]|);
    }
  }

  lemma {:induction false} PerGroupTail(front: seq<string>, ns: string, list: seq<string>, n: nat)
    requires Sorted(list) && Elements(list) == Elements(front) && n > 0
    requires forall i :: 0 <= i < |front| ==> Less(front[i], ns)
    ensures Sorted(list + Repeat(ns, n)) && Elements(list + Repeat(ns, n)) == Elements(front) + {ns}
  {
    LessIsTotal(ns, ns);
    forall i | 0 <= i < |list| ensures !Less(ns, list[i]) {
      assert list[i] in Elements(front);
      LessIsTotal(ns, list[i]);
    }
    var all := list + Repeat(ns, n);
    assert all[|list|] == ns;
    assert forall i :: 0 <= i < |list| ==> all[i] == list[i];
    assert forall x :: x in Elements(list) ==> x in Elements(all);
  }

  // diffRuleNamespaces: the namespaces the tenant holds that are not wanted, sorted, each once.
  method DiffRuleNamespaces(mimir: Mimir, wanted: set<string>, tenant: string) returns (result: Option<seq<string>>)
    requires Valid(TenantStore(mimir.tenants, tenant))
    modifies mimir
    ensures mimir.tenants == old(mimir.tenants) && mimir.calls == old(mimir.calls) + [List(tenant, result.Some?)]
    ensures mimir.reliable ==> result.Some?
    ensures result.Some? ==>
              Ascending(result.value) && Elements(result.value) == TenantStore(mimir.tenants, tenant).Keys - wanted
  {
    hide Sorted, Distinct, Elements, Less, FirstSeen, PerGroup, ElementsOf, Valid;
    var elements, keys := ListRulesElement(mimir, tenant);
    if elements.None? {
      return None;
    }
    ghost var names := Namespaces(elements.value);
    var namespaces := [];
    for i := 0 to |elements.value|
      invariant namespaces == Without(names[..i], wanted)
    {
      assert names[..i + 1][..i] == names[..i];
      if elements.value[i].namespace !in wanted {
        namespaces := namespaces + [elements.value[i].namespace];
      }
    }
    assert names[..|names|] == names;
    PerGroupFacts(keys, TenantStore(mimir.tenants, tenant));
    WithoutElements(names, wanted);
    WithoutSorted(names, wanted);
    FirstSeenElements(namespaces);
    FirstSeenSorted(namespaces);
    var unique := RemoveDuplicate(namespaces);
    SortedDistinct(unique);
    return Some(unique);
  }

  lemma SortedDistinct(list: seq<string>)
    requires Sorted(list) && Distinct(list)
    ensures Ascending(list)
  {
    forall i, j | 0 <= i < j < |list| ensures Less(list[i], list[j]) {
      LessIsTotal(list[i], list[j]);
    }
  }

  // ---------------------------------------------------------------------------------------
  // Posting
  // ---------------------------------------------------------------------------------------

  type Texts = map<string, seq<Group<Labels>>>

  ghost function PostAll(store: Store, ns: string, groups: seq<RemoteGroup>): Store {
    if groups == [] then store
    else PostTo(PostAll(store, ns, groups[..|groups| - 1]), ns, groups[|groups| - 1])
  }

  // Posting groups overlays the namespace and touches no other.
  lemma {:induction false} PostAllAt(store: Store, ns: string, groups: seq<RemoteGroup>)
    ensures GroupsAt(PostAll(store, ns, groups), ns) == Overlay(GroupsAt(store, ns), groups)
    ensures forall other :: other != ns ==> GroupsAt(PostAll(store, ns, groups), other) == GroupsAt(store, other)
    ensures Valid(store) ==> Valid(PostAll(store, ns, groups))
  {
    if groups != [] {
      var n := |groups| - 1;
      PostAllAt(store, ns, groups[..n]);
      assert groups[n].name in GroupsAt(PostAll(store, ns, groups), ns);
    }
  }

  // The groups a log of calls posts to a namespace.
  ghost function PostedTo(calls: seq<Call>, ns: string): seq<RemoteGroup> {
    if calls == [] then []
    else
      var last := calls[|calls| - 1];
      PostedTo(calls[..|calls| - 1], ns) + if last.Post? && last.namespace == ns then [last.group] else []
  }

  lemma {:induction false} PostedToConcat(a: seq<Call>, b: seq<Call>, ns: string)
    ensures PostedTo(a + b, ns) == PostedTo(a, ns) + PostedTo(b, ns)
  {
    if b == [] {
      assert a + b == a;
    } else {
      PostedToConcat(a, b[..|b| - 1], ns);
      assert (a + b)[..|a + b| - 1] == a + b[..|b| - 1];
    }
  }

  // The calls that post groups to ns in order, all answered well except perhaps the last.
  ghost predicate IsPosting(calls: seq<Call>, tenant: string, ns: string, groups: seq<RemoteGroup>) {
    && |calls| <= |groups|
    && forall i :: 0 <= i < |calls| ==>
         calls[i] == Post(tenant, ns, groups[i], calls[i].ok) && (i < |calls| - 1 ==> calls[i].ok)
  }

  lemma {:induction false} PostingPosts(calls: seq<Call>, tenant: string, ns: string, groups: seq<RemoteGroup>)
    requires IsPosting(calls, tenant, ns, groups)
    ensures PostedTo(calls, ns) == groups[..|calls|]
    ensures forall other :: other != ns ==> PostedTo(calls, other) == []
  {
    if calls != [] {
      PostingPosts(calls[..|calls| - 1], tenant, ns, groups);
    }
  }

  // How posting groups to a namespace leaves the store: all of them if it succeeds, else the
  // first k for some k that the calls made allow.
  ghost predicate Outcome(before: Store, after: Store, ns: string, groups: seq<RemoteGroup>, calls: seq<Call>,
                          ok: bool)
  {
    if ok then
      |calls| == |groups| && (forall i :: 0 <= i < |calls| ==> calls[i].ok) && after == PostAll(before, ns, groups)
    else
      && calls != [] && !calls[|calls| - 1].ok
      && exists k: nat :: k <= |groups| && |calls| - 1 <= k <= |calls| && after == PostAll(before, ns, groups[..k])
  }

  // The loop of CreateRuleGroupStr.
  method PostGroups(mimir: Mimir, tenant: string, ns: string, groups: seq<RemoteGroup>)
    returns (ok: bool, ghost posts: seq<Call>)
    modifies mimir
    ensures mimir.calls == old(mimir.calls) + posts && IsPosting(posts, tenant, ns, groups)
    ensures forall t :: t != tenant ==> TenantStore(mimir.tenants, t) == old(TenantStore(mimir.tenants, t))
    ensures Outcome(old(TenantStore(mimir.tenants, tenant)), TenantStore(mimir.tenants, tenant), ns, groups, posts, ok)
    ensures mimir.reliable ==> ok
  {
    hide PostTo;
    posts := [];
    ghost var before := TenantStore(mimir.tenants, tenant);
    var i := 0;
    assert groups[..0] == [];
    while i < |groups|
      invariant i <= |groups| && |posts| == i
      invariant mimir.calls == old(mimir.calls) + posts
      invariant forall t :: t != tenant ==> TenantStore(mimir.tenants, t) == old(TenantStore(mimir.tenants, t))
      invariant forall k :: 0 <= k < i ==> posts[k] == Post(tenant, ns, groups[k], true)
      invariant TenantStore(mimir.tenants, tenant) == PostAll(before, ns, groups[..i])
    {
      ok := mimir.CreateRuleGroup(tenant, ns, groups[i]);
      posts := posts + [Post(tenant, ns, groups[i], ok)];
      assert groups[..i + 1][..i] == groups[..i];
      if !ok {
        assert TenantStore(mimir.tenants, tenant) == PostAll(before, ns, groups[..i])
            || TenantStore(mimir.tenants, tenant) == PostAll(before, ns, groups[..i + 1]);
        return;
      }
      i := i + 1;
    }
    assert groups[..i] == groups;
    return true, posts;
  }

  // CreateRuleGroupStr: a text that does not decode has none of its groups posted.
  method CreateRuleGroupStr(mimir: Mimir, tenant: string, ns: string, text: seq<Group<Labels>>)
    returns (ok: bool, ghost posts: seq<Call>)
    modifies mimir
    ensures mimir.calls == old(mimir.calls) + posts
    ensures forall t :: t != tenant ==> TenantStore(mimir.tenants, t) == old(TenantStore(mimir.tenants, t))
    ensures Decode(text).None? ==> !ok && posts == [] && mimir.tenants == old(mimir.tenants)
    ensures Decode(text).Some? ==>
              && IsPosting(posts, tenant, ns, Decode(text).value)
              && var before, after := old(TenantStore(mimir.tenants, tenant)), TenantStore(mimir.tenants, tenant);
                 Outcome(before, after, ns, Decode(text).value, posts, ok)
    ensures mimir.reliable ==> (ok <==> Decode(text).Some?)
  {
    posts := [];
    var groups := Decode(text);
    if groups.None? {
      return false, posts;
    }
    ok, posts := PostGroups(mimir, tenant, ns, groups.value);
  }

  // What posting a whole namespace makes of it; nothing if its text does not decode.
  ghost function Target(before: Store, texts: Texts, ns: string): map<string, RemoteGroup> {
    if ns in texts && Decode(texts[ns]).Some? then Overlay(GroupsAt(before, ns), Decode(texts[ns]).value)
    else GroupsAt(before, ns)
  }

  // The namespaces in `done` have been posted in full, the others not at all.
  ghost predicate PostedSet(before: Store, after: Store, texts: Texts, done: set<string>) {
    && Valid(after)
    && (forall ns :: ns in done ==> ns in texts && Decode(texts[ns]).Some?)
    && forall ns :: GroupsAt(after, ns) == if ns in done then Target(before, texts, ns) else GroupsAt(before, ns)
  }

  // The log of posts so far, in the same situation.
  ghost predicate LoggedSet(posts: seq<Call>, tenant: string, texts: Texts, done: set<string>) {
    && (forall ns :: ns in done ==> ns in texts && Decode(texts[ns]).Some?)
    && (forall i :: 0 <= i < |posts| ==> posts[i].Post? && posts[i].tenant == tenant && posts[i].ok)
    && forall ns :: PostedTo(posts, ns) == if ns in done then Decode(texts[ns]).value else []
  }

  // The posts of a sync, wherever it was cut off: only wanted namespaces are posted to, each
  // gets a prefix of its groups, and one whose text does not decode gets none.
  ghost predicate PostsInOrder(posts: seq<Call>, tenant: string, texts: Texts) {
    && (forall i :: 0 <= i < |posts| ==> posts[i].Post? && posts[i].tenant == tenant)
    && forall ns :: if ns in texts && Decode(texts[ns]).Some? then PostedTo(posts, ns) <= Decode(texts[ns]).value
                    else PostedTo(posts, ns) == []
  }

  // The store of a sync that was cut off while posting: every wanted namespace has had a
  // prefix of its groups laid over what it held, and no other namespace has changed.
  ghost predicate PartlyPosted(before: Store, after: Store, texts: Texts) {
    && Valid(after)
    && (forall ns :: ns in texts ==> HasPrefix(before, after, texts, ns))
    && forall ns :: ns !in texts ==> GroupsAt(after, ns) == GroupsAt(before, ns)
  }

  ghost predicate HasPrefix(before: Store, after: Store, texts: Texts, ns: string)
    requires ns in texts
  {
    GroupsAt(after, ns) == GroupsAt(before, ns)
    || (Decode(texts[ns]).Some?
        && exists k: nat :: k <= |Decode(texts[ns]).value|
             && GroupsAt(after, ns) == Overlay(GroupsAt(before, ns), Decode(texts[ns]).value[..k]))
  }

  // These namespaces are wanted, decode, and hold what posting them in full makes of them.
  ghost predicate PostedNames(before: Store, after: Store, texts: Texts, names: set<string>) {
    forall ns :: ns in names ==>
      ns in texts && Decode(texts[ns]).Some? && GroupsAt(after, ns) == Target(before, texts, ns)
  }

  // Cut off in a namespace: those done hold what they should, this one has had a prefix of its
  // groups, no other has changed. Its text does not decode, or the last post, to it, failed.
  ghost predicate Stopped(before: Store, after: Store, posts: seq<Call>, texts: Texts, done: set<string>, ns: string)
  {
    && ns in texts && ns !in done
    && PostedNames(before, after, texts, done) && HasPrefix(before, after, texts, ns)
    && (forall other :: other !in done && other != ns ==> GroupsAt(after, other) == GroupsAt(before, other))
    && (Decode(texts[ns]).Some? ==>
          posts != [] && var last := posts[|posts| - 1]; last.Post? && last.namespace == ns && !last.ok)
  }

  // The texts were visited in this order, and so far each of the names was posted in full; the
  // failure is in the next.
  ghost predicate StoppedAfter(before: Store, after: Store, posts: seq<Call>, texts: Texts, names: seq<string>,
                               order: seq<string>)
  {
    && Distinct(order) && Elements(order) == texts.Keys && |names| < |order| && names == order[..|names|]
    && Stopped(before, after, posts, texts, Elements(names), order[|names|])
  }

  // One more namespace posted in full.
  lemma {:induction false} PostedOne(before: Store, middle: Store, after: Store, texts: Texts, done: set<string>,
                                     ns: string)
    requires PostedSet(before, middle, texts, done) && ns in texts && ns !in done && Decode(texts[ns]).Some?
    requires after == PostAll(middle, ns, Decode(texts[ns]).value)
    ensures PostedSet(before, after, texts, done + {ns})
  {
    PostAllAt(middle, ns, Decode(texts[ns]).value);
  }

  lemma LoggedOne(posts: seq<Call>, more: seq<Call>, tenant: string, texts: Texts, done: set<string>, ns: string)
    requires LoggedSet(posts, tenant, texts, done) && ns in texts && ns !in done && Decode(texts[ns]).Some?
    requires IsPosting(more, tenant, ns, Decode(texts[ns]).value) && |more| == |Decode(texts[ns]).value|
    requires forall i :: 0 <= i < |more| ==> more[i].ok
    ensures LoggedSet(posts + more, tenant, texts, done + {ns})
  {
    hide PostedTo, Decode;
    PostingPosts(more, tenant, ns, Decode(texts[ns]).value);
    var groups := Decode(texts[ns]).value;
    assert groups[..|more|] == groups;
    forall other ensures PostedTo(posts + more, other)
          == if other in done + {ns} then Decode(texts[other]).value else [] {
      PostedToConcat(posts, more, other);
    }
  }

  // A namespace cut off.
  lemma CutOff(before: Store, middle: Store, after: Store, posts: seq<Call>, more: seq<Call>, tenant: string,
               texts: Texts, done: set<string>, ns: string)
    requires PostedSet(before, middle, texts, done) && LoggedSet(posts, tenant, texts, done) && ns in texts
          && ns !in done
    requires if Decode(texts[ns]).None? then more == [] && after == middle
             else IsPosting(more, tenant, ns, Decode(texts[ns]).value)
                  && Outcome(middle, after, ns, Decode(texts[ns]).value, more, false)
    ensures PostsInOrder(posts + more, tenant, texts) && PartlyPosted(before, after, texts)
  {
    CutOffLog(posts, more, tenant, texts, done, ns);
    CutOffStore(before, middle, after, more, texts, done, ns);
  }

  lemma CutOffLog(posts: seq<Call>, more: seq<Call>, tenant: string, texts: Texts, done: set<string>, ns: string)
    requires LoggedSet(posts, tenant, texts, done) && ns in texts && ns !in done
    requires if Decode(texts[ns]).None? then more == [] else IsPosting(more, tenant, ns, Decode(texts[ns]).value)
    ensures PostsInOrder(posts + more, tenant, texts)
  {
    hide PostedTo, Decode;
    if Decode(texts[ns]).Some? {
      PostingPosts(more, tenant, ns, Decode(texts[ns]).value);
    } else {
      assert posts + more == posts;
    }
    forall other
      ensures if other in texts && Decode(texts[other]).Some?
              then PostedTo(posts + more, other) <= Decode(texts[other]).value
              else PostedTo(posts + more, other) == []
    {
      PostedToConcat(posts, more, other);
    }
  }

  lemma CutOffStore(before: Store, middle: Store, after: Store, more: seq<Call>, texts: Texts, done: set<string>,
                    ns: string)
    requires PostedSet(before, middle, texts, done) && ns in texts && ns !in done
    requires if Decode(texts[ns]).None? then after == middle
             else Outcome(middle, after, ns, Decode(texts[ns]).value, more, false)
    ensures PartlyPosted(before, after, texts)
  {
    if Decode(texts[ns]).Some? {
      var groups := Decode(texts[ns]).value;
      var k: nat :| k <= |groups| && |more| - 1 <= k <= |more| && after == PostAll(middle, ns, groups[..k]);
      PostAllAt(middle, ns, groups[..k]);
    }
    forall other | other in texts ensures HasPrefix(before, after, texts, other) {
      if other in done {
        var groups := Decode(texts[other]).value;
        assert groups[..|groups|] == groups;
      }
    }
  }

  type Tenants = map<string, Store>

  ghost predicate OthersAlone(then0: Tenants, now: Tenants, tenant: string) {
    forall t :: t != tenant ==> TenantStore(now, t) == TenantStore(then0, t)
  }

  // The posting loop between two namespaces.
  ghost predicate AtPost(mimir: Mimir, tenant: string, texts: Texts, tenants0: Tenants, calls0: seq<Call>,
                         done: set<string>, refRules: seq<string>, posts: seq<Call>)
    reads mimir
  {
    && mimir.calls == calls0 + posts && OthersAlone(tenants0, mimir.tenants, tenant)
    && PostedSet(TenantStore(tenants0, tenant), TenantStore(mimir.tenants, tenant), texts, done)
    && LoggedSet(posts, tenant, texts, done)
    && Distinct(refRules) && Elements(refRules) == done <= texts.Keys
  }

  // One turn of the posting loop.
  method PostNamespace(mimir: Mimir, tenant: string, texts: Texts, ns: string, ghost tenants0: Tenants,
                       ghost calls0: seq<Call>,
                       ghost done: set<string>, ghost refRules: seq<string>, ghost posts: seq<Call>)
    returns (ok: bool, ghost more: seq<Call>)
    requires AtPost(mimir, tenant, texts, tenants0, calls0, done, refRules, posts) && ns in texts && ns !in done
    modifies mimir
    ensures ok ==> AtPost(mimir, tenant, texts, tenants0, calls0, done + {ns}, refRules + [ns], posts + more)
    ensures mimir.calls == calls0 + (posts + more) && OthersAlone(tenants0, mimir.tenants, tenant)
    ensures Distinct(refRules) && Elements(refRules) <= texts.Keys
    ensures !ok ==> PostsInOrder(posts + more, tenant, texts)
                    && PartlyPosted(TenantStore(tenants0, tenant), TenantStore(mimir.tenants, tenant), texts)
                    && Stopped(TenantStore(tenants0, tenant), TenantStore(mimir.tenants, tenant), posts + more, texts,
                               done, ns)
    ensures Elements(refRules) == done && (ok ==> Decode(texts[ns]).Some?)
    ensures mimir.reliable && Decode(texts[ns]).Some? ==> ok
  {
    hide Decode, Outcome, PostedSet, LoggedSet, PostsInOrder, PartlyPosted, Stopped, IsPosting;
    ghost var before, middle := TenantStore(tenants0, tenant), TenantStore(mimir.tenants, tenant);
    ok, more := CreateRuleGroupStr(mimir, tenant, ns, texts[ns]);
    if ok {
      OutcomeOk(middle, TenantStore(mimir.tenants, tenant), ns, Decode(texts[ns]).value, more);
      PostedOne(before, middle, TenantStore(mimir.tenants, tenant), texts, done, ns);
      LoggedOne(posts, more, tenant, texts, done, ns);
      ElementsSnoc(refRules, ns);
    } else {
      CutOff(before, middle, TenantStore(mimir.tenants, tenant), posts, more, tenant, texts, done, ns);
      StoppedHere(before, middle, TenantStore(mimir.tenants, tenant), posts, more, tenant, texts, done, ns);
    }
  }

  lemma NamesCutOff(before: Store, middle: Store, after: Store, more: seq<Call>, texts: Texts, done: set<string>,
                    ns: string)
    requires PostedSet(before, middle, texts, done) && ns in texts && ns !in done
    requires if Decode(texts[ns]).None? then after == middle
             else Outcome(middle, after, ns, Decode(texts[ns]).value, more, false)
    ensures PostedNames(before, after, texts, done)
    ensures forall other :: other !in done && other != ns ==> GroupsAt(after, other) == GroupsAt(before, other)
  {
    hide Decode, Target;
    if Decode(texts[ns]).Some? {
      var groups := Decode(texts[ns]).value;
      var k: nat :| k <= |groups| && |more| - 1 <= k <= |more| && after == PostAll(middle, ns, groups[..k]);
      PostAllAt(middle, ns, groups[..k]);
    }
  }

  lemma StoppedHere(before: Store, middle: Store, after: Store, posts: seq<Call>, more: seq<Call>, tenant: string,
                    texts: Texts, done: set<string>, ns: string)
    requires PostedSet(before, middle, texts, done) && ns in texts && ns !in done
    requires PartlyPosted(before, after, texts)
    requires if Decode(texts[ns]).None? then after == middle
             else IsPosting(more, tenant, ns, Decode(texts[ns]).value)
                  && Outcome(middle, after, ns, Decode(texts[ns]).value, more, false)
    ensures Stopped(before, after, posts + more, texts, done, ns)
  {
    hide Decode, PostedNames, PostedSet, HasPrefix;
    NamesCutOff(before, middle, after, more, texts, done, ns);
    if Decode(texts[ns]).Some? {
      assert (posts + more)[|posts + more| - 1] == more[|more| - 1];
    }
  }

  // The rest of the order in which the texts would have been visited.
  lemma VisitOrder(texts: Texts, names: seq<string>, ns: string) returns (order: seq<string>)
    requires Distinct(names) && Elements(names) <= texts.Keys && ns in texts && ns !in Elements(names)
    ensures Distinct(order) && Elements(order) == texts.Keys && |names| < |order|
    ensures names == order[..|names|] && order[|names|] == ns
  {
    hide Elements, Distinct;
    var rest := InSomeOrder(texts.Keys - Elements(names) - {ns});
    ElementsSnoc(names, ns);
    AppendDistinct(names + [ns], rest);
    order := names + [ns] + rest;
  }

  // The posting loop of syncRulesToRuler, over the texts in any order.
  method PostNamespaces(mimir: Mimir, tenant: string, texts: Texts)
    returns (ok: bool, refRules: seq<string>, ghost posts: seq<Call>, ghost order: seq<string>)
    requires Valid(TenantStore(mimir.tenants, tenant))
    modifies mimir
    ensures mimir.calls == old(mimir.calls) + posts && OthersAlone(old(mimir.tenants), mimir.tenants, tenant)
    ensures Distinct(refRules) && Elements(refRules) <= texts.Keys
    ensures PostsInOrder(posts, tenant, texts)
    ensures PartlyPosted(old(TenantStore(mimir.tenants, tenant)), TenantStore(mimir.tenants, tenant), texts)
    ensures PostedNames(old(TenantStore(mimir.tenants, tenant)), TenantStore(mimir.tenants, tenant), texts,
                        Elements(refRules))
    ensures !ok ==> StoppedAfter(old(TenantStore(mimir.tenants, tenant)), TenantStore(mimir.tenants, tenant), posts,
                                 texts, refRules, order)
    ensures ok ==> AtPost(mimir, tenant, texts, old(mimir.tenants), old(mimir.calls), texts.Keys, refRules, posts)
    ensures mimir.reliable ==> (ok <==> forall ns :: ns in texts ==> Decode(texts[ns]).Some?)
  {
    hide Decode, AtPost, PostsInOrder, PartlyPosted, Stopped, PostedNames, OthersAlone, Distinct, Elements, Valid,
         TenantStore;
    refRules, posts, order := [], [], [];
    var todo := texts.Keys;
    ghost var tenants0, calls0 := mimir.tenants, mimir.calls;
    Begin(mimir, tenant, texts);
    assert texts.Keys - todo == {};
    while todo != {}
      invariant todo <= texts.Keys
      invariant AtPost(mimir, tenant, texts, tenants0, calls0, texts.Keys - todo, refRules, posts)
      invariant forall ns :: ns in texts.Keys - todo ==> Decode(texts[ns]).Some?
      decreases |todo|
    {
      var ns :| ns in todo;
      ghost var more;
      ok, more := PostNamespace(mimir, tenant, texts, ns, tenants0, calls0, texts.Keys - todo, refRules, posts);
      posts := posts + more;
      if !ok {
        order := VisitOrder(texts, refRules, ns);
        StoppedNames(TenantStore(tenants0, tenant), TenantStore(mimir.tenants, tenant), posts, texts, refRules, order);
        return;
      }
      assert texts.Keys - (todo - {ns}) == texts.Keys - todo + {ns};
      refRules := refRules + [ns];
      todo := todo - {ns};
    }
    assert texts.Keys - todo == texts.Keys;
    Complete(mimir, tenant, texts, tenants0, calls0, refRules, posts);
    return true, refRules, posts, refRules;
  }

  lemma {:induction false} OutcomeOk(before: Store, after: Store, ns: string, groups: seq<RemoteGroup>,
                                     calls: seq<Call>)
    requires Outcome(before, after, ns, groups, calls, true)
    ensures |calls| == |groups| && (forall i :: 0 <= i < |calls| ==> calls[i].ok)
          && after == PostAll(before, ns, groups)
  {
  }

  lemma Begin(mimir: Mimir, tenant: string, texts: Texts)
    requires Valid(TenantStore(mimir.tenants, tenant))
    ensures AtPost(mimir, tenant, texts, mimir.tenants, mimir.calls, {}, [], [])
  {
  }

  lemma Complete(mimir: Mimir, tenant: string, texts: Texts, tenants0: Tenants, calls0: seq<Call>,
                 refRules: seq<string>, posts: seq<Call>)
    requires AtPost(mimir, tenant, texts, tenants0, calls0, texts.Keys, refRules, posts)
    ensures mimir.calls == calls0 + posts && OthersAlone(tenants0, mimir.tenants, tenant)
    ensures Distinct(refRules) && Elements(refRules) == texts.Keys
    ensures PostsInOrder(posts, tenant, texts)
    ensures PartlyPosted(TenantStore(tenants0, tenant), TenantStore(mimir.tenants, tenant), texts)
    ensures PostedNames(TenantStore(tenants0, tenant), TenantStore(mimir.tenants, tenant), texts, Elements(refRules))
  {
    var before, after := TenantStore(tenants0, tenant), TenantStore(mimir.tenants, tenant);
    forall ns | ns in texts ensures HasPrefix(before, after, texts, ns) {
      var groups := Decode(texts[ns]).value;
      assert groups[..|groups|] == groups;
    }
  }

  // ---------------------------------------------------------------------------------------
  // Deleting, and the whole
  // ---------------------------------------------------------------------------------------

  // The deletions of the first namespaces of a list, all answered well except perhaps the last.
  ghost predicate IsDeleting(calls: seq<Call>, tenant: string, stale: seq<string>) {
    && |calls| <= |stale|
    && forall i :: 0 <= i < |calls| ==>
         calls[i] == Delete(tenant, stale[i], calls[i].ok) && (i < |calls| - 1 ==> calls[i].ok)
  }

  predicate LastFailed(calls: seq<Call>) { calls != [] && !calls[|calls| - 1].ok }

  // All before the n-th have been deleted; that deletion failed and may have taken effect.
  ghost predicate DeletedUpTo(stale: seq<string>, n: nat, gone: set<string>) {
    1 <= n <= |stale| && (gone == Elements(stale[..n - 1]) || gone == Elements(stale[..n]))
  }

  // What a clean-up deletes that made these calls.
  ghost predicate Deleted(cleanup: seq<Call>, stale: seq<string>, gone: set<string>, ok: bool) {
    && cleanup != []
    && if ok then |cleanup| == 1 + |stale| && gone == Elements(stale)
       else LastFailed(cleanup) && if |cleanup| == 1 then gone == {} else DeletedUpTo(stale, |cleanup| - 1, gone)
  }

  // The deletion loop of syncRulesToRuler.
  method DeleteNamespaces(mimir: Mimir, tenant: string, stale: seq<string>)
    returns (ok: bool, ghost deletes: seq<Call>, ghost gone: set<string>)
    requires Distinct(stale) && Elements(stale) <= TenantStore(mimir.tenants, tenant).Keys
    modifies mimir
    ensures mimir.calls == old(mimir.calls) + deletes && IsDeleting(deletes, tenant, stale)
    ensures OthersAlone(old(mimir.tenants), mimir.tenants, tenant)
    ensures gone <= Elements(stale) && TenantStore(mimir.tenants, tenant)
          == old(TenantStore(mimir.tenants, tenant)) - gone
    ensures ok ==> |deletes| == |stale| && gone == Elements(stale)
    ensures !ok ==> LastFailed(deletes) && DeletedUpTo(stale, |deletes|, gone)
    ensures mimir.reliable ==> ok
  {
    deletes, gone := [], {};
    ghost var before := TenantStore(mimir.tenants, tenant);
    var i := 0;
    while i < |stale|
      invariant i <= |stale| && |deletes| == i && gone == Elements(stale[..i])
      invariant mimir.calls == old(mimir.calls) + deletes
      invariant OthersAlone(old(mimir.tenants), mimir.tenants, tenant)
      invariant forall k :: 0 <= k < i ==> deletes[k] == Delete(tenant, stale[k], true)
      invariant TenantStore(mimir.tenants, tenant) == before - gone
    {
      assert stale[i] in Elements(stale) && stale[i] !in gone;
      ok := mimir.DeleteNamespace(tenant, stale[i]);
      deletes := deletes + [Delete(tenant, stale[i], ok)];
      ElementsSnoc(stale[..i], stale[i]);
      assert stale[..i + 1] == stale[..i] + [stale[i]];
      assert before - gone - {stale[i]} == before - (gone + {stale[i]});
      if !ok {
        if TenantStore(mimir.tenants, tenant) != before - gone {
          gone := gone + {stale[i]};
        }
        return;
      }
      gone := gone + {stale[i]};
      i := i + 1;
    }
    assert stale[..i] == stale;
    return true, deletes, gone;
  }

  // The store after a successful sync: exactly the wanted namespaces that hold something, each
  // with the wanted groups laid over the groups it held.
  ghost function Synced(before: Store, texts: Texts): Store {
    map ns | ns in texts && Target(before, texts, ns) != map[] :: Target(before, texts, ns)
  }

  // The calls after the posts: one listing, then deletions.
  ghost predicate IsCleanup(cleanup: seq<Call>, tenant: string, stale: seq<string>) {
    cleanup == [] || (cleanup[0] == List(tenant, cleanup[0].ok) && IsDeleting(cleanup[1..], tenant, stale))
  }

  // The store after all posts and these deletions.
  ghost predicate PostedAndDeleted(before: Store, after: Store, texts: Texts, gone: set<string>) {
    forall ns :: GroupsAt(after, ns) ==
                 if ns in texts then Target(before, texts, ns) else if ns in gone then map[] else GroupsAt(before, ns)
  }

  ghost predicate CleanedUp(before: Store, after: Store, texts: Texts, cleanup: seq<Call>, stale: seq<string>,
                            ok: bool)
  {
    exists gone :: Deleted(cleanup, stale, gone, ok) && PostedAndDeleted(before, after, texts, gone)
  }

  // The store of a sync cut off anywhere: wanted namespaces as in PartlyPosted, others as they
  // were or gone.
  ghost predicate PartlySynced(before: Store, after: Store, texts: Texts) {
    && Valid(after)
    && (forall ns :: ns in texts ==> HasPrefix(before, after, texts, ns))
    && forall ns :: ns !in texts ==> GroupsAt(after, ns) == GroupsAt(before, ns) || ns !in after
  }

  // What a sync of these texts does, wherever it ends.
  ghost predicate Pushed(before: Store, after: Store, tenant: string, texts: Texts, ok: bool, refRules: seq<string>,
                         posts: seq<Call>, cleanup: seq<Call>, stale: seq<string>, order: seq<string>)
  {
    && PostsInOrder(posts, tenant, texts) && IsCleanup(cleanup, tenant, stale) && PartlySynced(before, after, texts)
    && Ascending(stale) && Elements(stale) <= before.Keys - texts.Keys
    && (ok ==> after == Synced(before, texts) && forall ns :: ns in texts ==> Decode(texts[ns]).Some?)
    && if cleanup == [] then !ok && StoppedAfter(before, after, posts, texts, refRules, order)
       else
         && LoggedSet(posts, tenant, texts, texts.Keys) && Ascending(refRules) && Elements(refRules) == texts.Keys
         && (cleanup[0].ok ==> Elements(stale) == before.Keys - texts.Keys)
         && CleanedUp(before, after, texts, cleanup, stale, ok)
  }

  // syncRulesToRuler from the reset of RefRules on. RefRules is the sorted list of all the wanted
  // names once everything has been posted, whether the rest succeeds or not; and if it was cut
  // off before, the names visited before the one in which it failed, in that order. The calls it
  // makes are posts followed by cleanup; cleanup only starts once every wanted group has been
  // posted, and deletes, in order and once each, the namespaces that are held and not wanted, up
  // to the first failure. This holds of every log the method can leave, hence of every prefix of
  // a run.
  method PushRules(mimir: Mimir, tenant: string, texts: Texts)
    returns (ok: bool, refRules: seq<string>, ghost posts: seq<Call>, ghost cleanup: seq<Call>,
             ghost stale: seq<string>, ghost order: seq<string>)
    requires Valid(TenantStore(mimir.tenants, tenant))
    modifies mimir
    ensures mimir.calls == old(mimir.calls) + (posts + cleanup)
          && OthersAlone(old(mimir.tenants), mimir.tenants, tenant)
    ensures PostsInOrder(posts, tenant, texts) && IsCleanup(cleanup, tenant, stale)
    ensures cleanup != [] ==> LoggedSet(posts, tenant, texts, texts.Keys)
    ensures Ascending(stale) && Elements(stale) <= old(TenantStore(mimir.tenants, tenant)).Keys - texts.Keys
    ensures PartlySynced(old(TenantStore(mimir.tenants, tenant)), TenantStore(mimir.tenants, tenant), texts)
    ensures ok ==> TenantStore(mimir.tenants, tenant) == Synced(old(TenantStore(mimir.tenants, tenant)), texts)
    ensures cleanup != [] && cleanup[0].ok ==>
              Elements(stale) == old(TenantStore(mimir.tenants, tenant)).Keys - texts.Keys
    ensures ok ==> Elements(stale) == old(TenantStore(mimir.tenants, tenant)).Keys - texts.Keys
    ensures ok ==> forall ns :: ns in texts ==> Decode(texts[ns]).Some?
    ensures if cleanup == [] then
              !ok && StoppedAfter(old(TenantStore(mimir.tenants, tenant)), TenantStore(mimir.tenants, tenant), posts,
                                  texts, refRules, order)
            else Ascending(refRules) && Elements(refRules) == texts.Keys
    ensures cleanup != [] ==> CleanedUp(old(TenantStore(mimir.tenants, tenant)), TenantStore(mimir.tenants, tenant),
                                        texts, cleanup, stale, ok)
    ensures Distinct(refRules) && Elements(refRules) <= texts.Keys
    ensures PostedNames(old(TenantStore(mimir.tenants, tenant)), TenantStore(mimir.tenants, tenant), texts,
                        Elements(refRules))
    ensures Pushed(old(TenantStore(mimir.tenants, tenant)), TenantStore(mimir.tenants, tenant), tenant, texts, ok,
                   refRules, posts, cleanup, stale, order)
    ensures mimir.reliable ==> (ok <==> forall ns :: ns in texts ==> Decode(texts[ns]).Some?)
  {
    hide AtPost, PostsInOrder, PartlyPosted, PartlySynced, PostedNames, StoppedAfter, LoggedSet, PostedSet, IsCleanup,
         Deleted, PostedAndDeleted, Ascending, Distinct, Elements, Decode, Sort, Synced, OthersAlone;
    ghost var before := TenantStore(mimir.tenants, tenant);
    cleanup, stale := [], [];
    EmptyLists(tenant);
    ok, refRules, posts, order := PostNamespaces(mimir, tenant, texts);
    ghost var middle := TenantStore(mimir.tenants, tenant);
    PartlyDone(before, middle, texts);
    if !ok {
      assert posts + cleanup == posts;
      return;
    }
    AllPosted(mimir, tenant, texts, old(mimir.tenants), old(mimir.calls), refRules, posts);
    SortDistinct(refRules);
    AscendingDistinct(Sort(refRules));
    refRules := Sort(refRules);
    ghost var gone, tenants1 := {}, mimir.tenants;
    ok, cleanup, stale, gone := CleanUp(mimir, tenant, texts);
    StillAlone(old(mimir.tenants), tenants1, mimir.tenants, tenant);
    Cleaned(before, middle, TenantStore(mimir.tenants, tenant), texts, gone);
    PostedThenDeleted(before, middle, TenantStore(mimir.tenants, tenant), texts, gone);
    NamesCleaned(before, middle, TenantStore(mimir.tenants, tenant), texts, Elements(refRules), gone);
  }

  lemma StoppedNames(before: Store, after: Store, posts: seq<Call>, texts: Texts, names: seq<string>,
                     order: seq<string>)
    requires StoppedAfter(before, after, posts, texts, names, order)
    ensures PostedNames(before, after, texts, Elements(names))
    ensures Distinct(names) && Elements(names) <= texts.Keys
  {
    hide PostedNames, HasPrefix;
    forall i | 0 <= i < |names| ensures names[i] in Elements(order) {
      assert order[i] == names[i];
    }
  }

  lemma NamesCleaned(before: Store, middle: Store, after: Store, texts: Texts, names: set<string>, gone: set<string>)
    requires PostedNames(before, middle, texts, names) && gone !! texts.Keys && after == middle - gone
    ensures PostedNames(before, after, texts, names)
  {
    hide Decode, Target;
    forall ns | ns in names ensures GroupsAt(after, ns) == GroupsAt(middle, ns) {
    }
  }

  // The second half: list, compare, delete.
  method CleanUp(mimir: Mimir, tenant: string, texts: Texts)
    returns (ok: bool, ghost cleanup: seq<Call>, ghost stale: seq<string>, ghost gone: set<string>)
    requires Valid(TenantStore(mimir.tenants, tenant))
    modifies mimir
    ensures mimir.calls == old(mimir.calls) + cleanup && OthersAlone(old(mimir.tenants), mimir.tenants, tenant)
    ensures IsCleanup(cleanup, tenant, stale) && Ascending(stale)
    ensures gone <= Elements(stale) <= old(TenantStore(mimir.tenants, tenant)).Keys - texts.Keys
    ensures TenantStore(mimir.tenants, tenant) == old(TenantStore(mimir.tenants, tenant)) - gone
    ensures ok ==> gone == Elements(stale) == old(TenantStore(mimir.tenants, tenant)).Keys - texts.Keys
    ensures Deleted(cleanup, stale, gone, ok) && cleanup != []
    ensures cleanup[0].ok ==> Elements(stale) == old(TenantStore(mimir.tenants, tenant)).Keys - texts.Keys
    ensures mimir.reliable ==> ok
  {
    hide Ascending, Distinct, Elements, IsDeleting, DeletedUpTo;
    stale, gone := [], {};
    EmptyLists(tenant);
    ghost var middle := TenantStore(mimir.tenants, tenant);
    var namespaces := DiffRuleNamespaces(mimir, texts.Keys, tenant);
    cleanup := [List(tenant, namespaces.Some?)];
    if namespaces.None? {
      assert cleanup[1..] == [];
      return false, cleanup, stale, gone;
    }
    stale := namespaces.value;
    AscendingDistinct(stale);
    ghost var deletes;
    ok, deletes, gone := DeleteNamespaces(mimir, tenant, namespaces.value);
    cleanup := cleanup + deletes;
    assert cleanup[1..] == deletes;
  }

  lemma EmptyLists(tenant: string)
    ensures Ascending([]) && Distinct<string>([]) && Elements<string>([]) == {}
    ensures IsCleanup([], tenant, []) && IsDeleting([], tenant, [])
  {
  }

  lemma StillAlone(a: Tenants, b: Tenants, c: Tenants, tenant: string)
    requires OthersAlone(a, b, tenant) && OthersAlone(b, c, tenant)
    ensures OthersAlone(a, c, tenant)
  {
  }

  lemma PartlyDone(before: Store, after: Store, texts: Texts)
    requires PartlyPosted(before, after, texts)
    ensures PartlySynced(before, after, texts)
  {
  }

  lemma AscendingDistinct(xs: seq<string>)
    requires Ascending(xs)
    ensures Distinct(xs)
  {
    forall i, j | 0 <= i < j < |xs| ensures xs[i] != xs[j] {
      LessIsTotal(xs[i], xs[j]);
    }
  }

  lemma AllPosted(mimir: Mimir, tenant: string, texts: Texts, tenants0: Tenants, calls0: seq<Call>,
                  refRules: seq<string>, posts: seq<Call>)
    requires AtPost(mimir, tenant, texts, tenants0, calls0, texts.Keys, refRules, posts)
          && Valid(TenantStore(tenants0, tenant))
    ensures LoggedSet(posts, tenant, texts, texts.Keys) && Distinct(refRules) && Elements(refRules) == texts.Keys
    ensures PostedSet(TenantStore(tenants0, tenant), TenantStore(mimir.tenants, tenant), texts, texts.Keys)
    ensures Valid(TenantStore(mimir.tenants, tenant)) && forall ns :: ns in texts ==> Decode(texts[ns]).Some?
    ensures TenantStore(mimir.tenants, tenant).Keys - texts.Keys == TenantStore(tenants0, tenant).Keys - texts.Keys
  {
    var before, after := TenantStore(tenants0, tenant), TenantStore(mimir.tenants, tenant);
    forall ns | ns !in texts ensures ns in after <==> ns in before {
      assert GroupsAt(after, ns) == GroupsAt(before, ns);
    }
  }

  lemma PostedThenDeleted(before: Store, middle: Store, after: Store, texts: Texts, gone: set<string>)
    requires PostedSet(before, middle, texts, texts.Keys) && gone !! texts.Keys && after == middle - gone
    ensures PostedAndDeleted(before, after, texts, gone)
  {
    hide Decode, Target;
    forall ns
      ensures GroupsAt(after, ns) ==
              if ns in texts then Target(before, texts, ns) else if ns in gone then map[] else GroupsAt(before, ns)
    {
      assert GroupsAt(after, ns) == if ns in gone then map[] else GroupsAt(middle, ns);
    }
  }

  lemma Cleaned(before: Store, middle: Store, after: Store, texts: Texts, gone: set<string>)
    requires Valid(before) && PostedSet(before, middle, texts, texts.Keys)
    requires PartlyPosted(before, middle, texts)
    requires gone <= before.Keys - texts.Keys && after == middle - gone
    ensures PartlySynced(before, after, texts)
    ensures gone == before.Keys - texts.Keys ==> after == Synced(before, texts)
  {
    hide Decode, Overlay;
    forall ns | ns in texts ensures HasPrefix(before, after, texts, ns) {
      assert GroupsAt(after, ns) == GroupsAt(middle, ns);
    }
    if gone == before.Keys - texts.Keys {
      forall ns ensures ns in after <==> ns in Synced(before, texts) {
        assert GroupsAt(middle, ns) == if ns in texts then Target(before, texts, ns) else GroupsAt(before, ns);
      }
      forall ns | ns in after ensures after[ns] == Synced(before, texts)[ns] {
        assert GroupsAt(after, ns) == Target(before, texts, ns);
      }
    }
  }

  // ---------------------------------------------------------------------------------------
  // What a successful sync means
  // ---------------------------------------------------------------------------------------

  lemma {:induction false} OverlayIsUpdate(base: map<string, RemoteGroup>, groups: seq<RemoteGroup>)
    ensures Overlay(base, groups) == base + Overlay(map[], groups)
  {
    if groups != [] {
      OverlayIsUpdate(base, groups[..|groups| - 1]);
    }
  }

  // The last wanted group of a name.
  ghost function LastNamed(groups: seq<RemoteGroup>, name: string): Option<RemoteGroup> {
    if groups == [] then None
    else
      var n := |groups| - 1;
      if groups[n].name == name then Some(groups[n]) else LastNamed(groups[..n], name)
  }

  // A name that is wanted holds the last wanted group of that name; another holds what it held.
  lemma {:induction false} OverlayMeaning(base: map<string, RemoteGroup>, groups: seq<RemoteGroup>, name: string)
    ensures name in Overlay(base, groups) <==> LastNamed(groups, name).Some? || name in base
    ensures name in Overlay(base, groups) ==>
              Overlay(base, groups)[name] ==
              if LastNamed(groups, name).Some? then LastNamed(groups, name).value else base[name]
  {
    if groups != [] {
      OverlayMeaning(base, groups[..|groups| - 1], name);
    }
  }

  // A second sync of the same texts changes nothing and finds nothing to delete.
  lemma SyncTwice(before: Store, texts: Texts)
    requires Valid(before) && forall ns :: ns in texts ==> Decode(texts[ns]).Some?
    ensures Valid(Synced(before, texts)) && Synced(Synced(before, texts), texts) == Synced(before, texts)
    ensures Synced(before, texts).Keys - texts.Keys == {}
  {
    hide Decode, Target, GroupsAt;
    forall ns | ns in texts ensures Target(Synced(before, texts), texts, ns) == Target(before, texts, ns) {
      TargetTwice(before, texts, ns);
    }
  }

  lemma TargetTwice(before: Store, texts: Texts, ns: string)
    requires ns in texts && Decode(texts[ns]).Some?
    ensures Target(Synced(before, texts), texts, ns) == Target(before, texts, ns)
  {
    hide Decode;
    var groups, base := Decode(texts[ns]).value, GroupsAt(before, ns);
    OverlayIsUpdate(base, groups);
    OverlayIsUpdate(GroupsAt(Synced(before, texts), ns), groups);
    assert base + Overlay(map[], groups) + Overlay(map[], groups) == base + Overlay(map[], groups);
  }
}
