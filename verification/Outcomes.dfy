// What an attempt to synchronise reports, in a cluster that does not change and without a
// failing call.
module Outcomes {
  import opened Words
  import opened Ordering
  import opened RuleModel
  import opened Selection
  import opened RemoteRuler
  import opened Operator
  import opened Agreement
  import opened Readiness

  // Everything selected can be transformed without a panic.
  ghost predicate Transforms(cluster: Cluster, spec: Spec) {
    forall k :: k in SelectedMap(cluster, spec.selectors) ==> TextOf(spec, cluster[k].groups).Some?
  }

  // Why the text of a rule does not decode, if it does not.
  ghost function FaultAt(cluster: Cluster, spec: Spec, k: Key): Option<Fault>
    requires Transforms(cluster, spec) && k in SelectedMap(cluster, spec.selectors)
  {
    FirstFault(TextOf(spec, cluster[k].groups).value)
  }

  // Two selected texts differ in whether, or why, they do not decode.
  ghost predicate Differ(cluster: Cluster, spec: Spec, j: Key, k: Key)
    requires Transforms(cluster, spec)
  {
    && j in SelectedMap(cluster, spec.selectors) && k in SelectedMap(cluster, spec.selectors)
    && FaultAt(cluster, spec, j) != FaultAt(cluster, spec, k)
  }

  // An attempt does not come out in one way: it panics; or it gets as far as posting, some text
  // does not decode, and another does or fails differently, so that the order of posting matters.
  ghost predicate Restless(cluster: Cluster, spec: Spec) {
    Selection.AllValid(spec.selectors) && (Transforms(cluster, spec) ==> exists j, k :: Differ(cluster, spec, j, k))
  }

  ghost predicate FailsToRead(spec: Spec, refs: seq<string>, status: Status) {
    exists i ::
      && 0 <= i < |spec.selectors| && spec.selectors[i].Invalid? && Selection.AllValid(spec.selectors[..i])
      && status == Status(IsFailed, BadSelector(spec.selectors[i].reason), refs)
  }

  // Some texts, which decode, may have been posted before the one that does not.
  ghost predicate FailsToDecode(cluster: Cluster, spec: Spec, status: Status)
    requires Transforms(cluster, spec)
  {
    && Elements(status.refRules) <= KeyTexts(Decodable(cluster, spec)) && Distinct(status.refRules)
    && exists k ::
         && k in SelectedMap(cluster, spec.selectors) && FaultAt(cluster, spec, k).Some?
         && status == Status(IsFailed, BadText(FaultAt(cluster, spec, k).value), status.refRules)
  }

  ghost function Decodable(cluster: Cluster, spec: Spec): set<Key>
    requires Transforms(cluster, spec)
  {
    set k | k in SelectedMap(cluster, spec.selectors) && FaultAt(cluster, spec, k).None?
  }

  ghost predicate AllDecode(cluster: Cluster, spec: Spec)
    requires Transforms(cluster, spec)
  {
    forall k :: k in SelectedMap(cluster, spec.selectors) ==> FaultAt(cluster, spec, k).None?
  }

  ghost predicate IsTargetList(cluster: Cluster, spec: Spec, refs: seq<string>) {
    Ascending(refs) && Elements(refs) == KeyTexts(SelectedMap(cluster, spec.selectors).Keys)
  }

  // The status an attempt reports when `refs` is the RefRules it found. A panic reports none.
  ghost predicate IsOutcome(cluster: Cluster, spec: Spec, refs: seq<string>, status: Status) {
    if !Selection.AllValid(spec.selectors) then FailsToRead(spec, refs, status)
    else
      && Transforms(cluster, spec)
      && if AllDecode(cluster, spec) then
           status == Status(IsSynced, NoError, status.refRules) && IsTargetList(cluster, spec, status.refRules)
         else FailsToDecode(cluster, spec, status)
  }

  // Unless the spec is restless, a status that an attempt would report again is the only one.
  lemma OutcomeUnique(cluster: Cluster, spec: Spec, was: Status, now: Status)
    requires !Restless(cluster, spec)
    requires IsOutcome(cluster, spec, was.refRules, was) && IsOutcome(cluster, spec, was.refRules, now)
    ensures was == now
  {
    hide SelectedMap, FaultAt;
    if !Selection.AllValid(spec.selectors) {
      FirstInvalid(spec, was.refRules, was, now);
    } else if AllDecode(cluster, spec) {
      AscendingUnique(was.refRules, now.refRules);
    } else {
      SameFault(cluster, spec, was, now);
    }
  }

  lemma FirstInvalid(spec: Spec, refs: seq<string>, a: Status, b: Status)
    requires FailsToRead(spec, refs, a) && FailsToRead(spec, refs, b)
    ensures a == b
  {
    var s := spec.selectors;
    var i :| 0 <= i < |s| && s[i].Invalid? && Selection.AllValid(s[..i])
             && a == Status(IsFailed, BadSelector(s[i].reason), refs);
    var j :| 0 <= j < |s| && s[j].Invalid? && Selection.AllValid(s[..j])
             && b == Status(IsFailed, BadSelector(s[j].reason), refs);
    assert forall x :: 0 <= x < j ==> s[..j][x] == s[x];
    assert forall x :: 0 <= x < i ==> s[..i][x] == s[x];
  }

  lemma SameFault(cluster: Cluster, spec: Spec, a: Status, b: Status)
    requires Transforms(cluster, spec) && !(exists j, k :: Differ(cluster, spec, j, k))
    requires FailsToDecode(cluster, spec, a) && FailsToDecode(cluster, spec, b)
    ensures a == b
  {
    hide SelectedMap, FaultAt, Elements, Distinct;
    var j :| j in SelectedMap(cluster, spec.selectors) && FaultAt(cluster, spec, j).Some?
             && a == Status(IsFailed, BadText(FaultAt(cluster, spec, j).value), a.refRules);
    var k :| k in SelectedMap(cluster, spec.selectors) && FaultAt(cluster, spec, k).Some?
             && b == Status(IsFailed, BadText(FaultAt(cluster, spec, k).value), b.refRules);
    assert !Differ(cluster, spec, j, k);
    forall i | i in SelectedMap(cluster, spec.selectors) ensures i !in Decodable(cluster, spec) {
      assert !Differ(cluster, spec, i, k);
    }
    assert Decodable(cluster, spec) == {} && KeyTexts({}) == {};
    NoElements(a.refRules);
    NoElements(b.refRules);
  }

  // An attempt finds the RefRules it left.
  lemma OutcomeStays(cluster: Cluster, spec: Spec, refs: seq<string>, status: Status)
    requires IsOutcome(cluster, spec, refs, status)
    ensures IsOutcome(cluster, spec, status.refRules, status)
  {
    hide SelectedMap, FaultAt, Transforms, AllDecode;
  }

  // ---------------------------------------------------------------------------------------
  // Attempts under way
  // ---------------------------------------------------------------------------------------

  ghost predicate AreTexts(cluster: Cluster, spec: Spec, texts: Contents) {
    && texts.Keys == SelectedMap(cluster, spec.selectors).Keys
    && forall k :: k in texts ==> TextOf(spec, cluster[k].groups) == Some(texts[k])
  }

  ghost predicate NamesSoFar(texts: Contents, todo: set<Key>, current: Option<(Key, seq<RemoteGroup>)>,
                             posted: seq<string>)
  {
    && todo <= texts.Keys && Distinct(posted)
    && (forall k :: k in texts && k !in todo ==> Decode(texts[k]).Some?)
    && match current
       case None => Elements(posted) == KeyTexts(texts.Keys - todo)
       case Some((k, _)) => k in texts && k !in todo && Elements(posted) == KeyTexts(texts.Keys - todo - {k})
  }

  ghost predicate Finished(cluster: Cluster, spec: Spec, posted: seq<string>) {
    && Selection.AllValid(spec.selectors) && Transforms(cluster, spec) && AllDecode(cluster, spec)
    && IsTargetList(cluster, spec, posted)
  }

  // The deletions still to make: what is left on the tenant, once per group, perhaps after more
  // of the namespace just deleted.
  ghost predicate Counted(rest: seq<string>, store: Store) {
    && (forall ns :: ns in store ==> multiset(rest)[ns] == |store[ns]|)
    && (forall i :: 0 <= i < |rest| && rest[i] !in store ==> rest[i] == rest[0])
  }

  // A reconciliation under way that has read what the cluster and the tenant hold.
  ghost predicate Right(cluster: Cluster, p: Process, store: Store)
    requires p.copy.Some?
  {
    var spec, deleting := p.copy.value.spec, p.copy.value.deleting;
    match p.phase
    case Reading(next, read) =>
      && !deleting && next <= |spec.selectors| && Selection.AllValid(spec.selectors[..next])
      && read == SelectedMap(cluster, spec.selectors[..next])
    case Posting(todo, current) =>
      && !deleting && Selection.AllValid(spec.selectors)
      && AreTexts(cluster, spec, p.texts) && NamesSoFar(p.texts, todo, current, p.posted)
    case Listing => !deleting && Finished(cluster, spec, p.posted)
    case Deleting(_) => !deleting && Finished(cluster, spec, p.posted)
    case Reporting(status) =>
      if deleting then status.error.Missing? else IsOutcome(cluster, spec, p.copy.value.status.refRules, status)
    case ListingAll => deleting
    case Removing(rest) => deleting && Counted(rest, store)
    case DroppingFinalizer => deleting && store == map[]
    case _ => true
  }

  // The answer of a remote to a deletion when nothing fails.
  predicate GoodDeletion(strict: bool, rest: seq<string>, store: Store, answer: Answer) {
    if strict && rest != [] && rest[0] !in store then answer.NotFound? else answer.Ok?
  }

  // A sync call that does not fail.
  predicate GoodSync(strict: bool, p: Process, store: Store, action: Action) {
    match action
    case ReadSelector(a) => a.Ok?
    case PostGroup(a) => a.Ok?
    case ListTenant(a, _) => a.Ok?
    case DeleteNext(a) => p.phase.Deleting? && GoodDeletion(strict, p.phase.rest, store, a)
    case _ => true
  }

  lemma ReadStaysRight(cluster: Cluster, p: Process, store: Store)
    requires p.copy.Some? && CanSynchronise(p, store, ReadSelector(Ok)) && Right(cluster, p, store)
    ensures Right(cluster, Synchronise(cluster, p, store, ReadSelector(Ok)).0, store)
  {
    hide SelectedMap, Transform, ReadMore, KeyText, Decode, Transforms, AllDecode;
    var spec, next := p.copy.value.spec, p.phase.next;
    if spec.selectors[next].Invalid? {
      var q := Synchronise(cluster, p, store, ReadSelector(Ok)).0;
      assert FailsToRead(spec, p.copy.value.status.refRules, q.phase.status);
    } else {
      ReadOneMore(cluster, spec.selectors, next);
      SelectedMore(spec.selectors, next);
    }
  }

  lemma PrepareStaysRight(cluster: Cluster, p: Process, store: Store)
    requires p.copy.Some? && CanSynchronise(p, store, Prepare) && Right(cluster, p, store)
    ensures Right(cluster, Synchronise(cluster, p, store, Prepare).0, store)
  {
    hide Selected, Transform, KeyText, Decode;
    var spec := p.copy.value.spec;
    assert spec.selectors[..|spec.selectors|] == spec.selectors;
    var q := Synchronise(cluster, p, store, Prepare).0;
    assert q.texts.Keys - q.phase.todo == {} && KeyTexts({}) == {};
  }

  lemma TextsTransform(cluster: Cluster, spec: Spec, texts: Contents)
    requires AreTexts(cluster, spec, texts)
    ensures Transforms(cluster, spec)
    ensures forall k :: k in texts ==> k in SelectedMap(cluster, spec.selectors)
    ensures forall k :: k in texts ==> FaultAt(cluster, spec, k) == FirstFault(texts[k])
  {
    hide SelectedMap, TextOf, FirstFault;
  }

  lemma PickStaysRight(cluster: Cluster, p: Process, store: Store, k: Key)
    requires p.copy.Some? && CanSynchronise(p, store, PickNamespace(k)) && Right(cluster, p, store)
    ensures Right(cluster, Synchronise(cluster, p, store, PickNamespace(k)).0, store)
  {
    hide SelectedMap, KeyText, Decode, FirstFault, TextOf, AreTexts, Transforms, FaultAt;
    var spec, todo := p.copy.value.spec, p.phase.todo;
    assert p.texts.Keys - (todo - {k}) - {k} == p.texts.Keys - todo;
    TextsTransform(cluster, spec, p.texts);
    FaultMeaning(p.texts[k]);
    if Decode(p.texts[k]).None? {
      forall j | j in p.texts.Keys - todo ensures j in Decodable(cluster, spec) {
        FaultMeaning(p.texts[j]);
      }
      assert !AllDecode(cluster, spec);
      var q := Synchronise(cluster, p, store, PickNamespace(k)).0;
      assert FailsToDecode(cluster, spec, q.phase.status);
    }
  }

  lemma NoElements(xs: seq<string>)
    requires Elements(xs) == {}
    ensures xs == []
  {
    if xs != [] {
      FirstOff(xs);
    }
  }

  lemma FinishStaysRight(cluster: Cluster, p: Process, store: Store)
    requires p.copy.Some? && CanSynchronise(p, store, FinishNamespace) && Right(cluster, p, store)
    requires PlainKeys(cluster.Keys)
    ensures Right(cluster, Synchronise(cluster, p, store, FinishNamespace).0, store)
  {
    hide Transform, KeyText, Decode, Distinct, Elements;
    var k := p.phase.current.value.0;
    var done := p.texts.Keys - p.phase.todo - {k};
    assert p.texts.Keys - p.phase.todo == done + {k};
    OneMoreName(done, p.posted, k);
  }

  lemma OneMoreName(done: set<Key>, posted: seq<string>, k: Key)
    requires PlainKeys(done + {k}) && k !in done && Distinct(posted) && Elements(posted) == KeyTexts(done)
    ensures Distinct(posted + [KeyText(k)]) && Elements(posted + [KeyText(k)]) == KeyTexts(done + {k})
  {
    hide KeyText;
    if KeyText(k) in KeyTexts(done) {
      var j :| j in done && KeyText(j) == KeyText(k);
      KeyTextInjective(j, k);
    }
    ElementsSnoc(posted, KeyText(k));
    assert KeyTexts(done + {k}) == KeyTexts(done) + {KeyText(k)};
  }

  lemma EndPostingStaysRight(cluster: Cluster, p: Process, store: Store)
    requires p.copy.Some? && CanSynchronise(p, store, EndPosting) && Right(cluster, p, store)
    ensures Right(cluster, Synchronise(cluster, p, store, EndPosting).0, store)
  {
    hide TextOf, KeyText, Decode, FirstFault, Sort, Distinct, Elements, Ascending, SelectedMap, AreTexts, FaultAt,
         Transforms;
    SortDistinct(p.posted);
    assert p.texts.Keys - p.phase.todo == p.texts.Keys;
    TextsTransform(cluster, p.copy.value.spec, p.texts);
    SameKeys(cluster, p.copy.value.spec, p.texts);
    forall k | k in p.texts ensures FirstFault(p.texts[k]).None? {
      FaultMeaning(p.texts[k]);
    }
  }

  lemma SameKeys(cluster: Cluster, spec: Spec, texts: Contents)
    requires AreTexts(cluster, spec, texts)
    ensures texts.Keys == SelectedMap(cluster, spec.selectors).Keys
  {
  }

  lemma SyncStaysRight(cluster: Cluster, strict: bool, p: Process, store: Store, action: Action)
    requires p.copy.Some? && CanSynchronise(p, store, action) && Right(cluster, p, store)
    requires GoodSync(strict, p, store, action) && Positioned(p, store)
    requires PlainKeys(cluster.Keys)
    ensures var (q, after) := Synchronise(cluster, p, store, action); Right(cluster, q, after)
  {
    hide SelectedMap, TextOf, KeyText, Decode, FirstFault, Sort, AreTexts, ReadMore, PostTo, Restless, AllDecode,
         Transforms, IsTargetList, Elements, Ascending;
    match action {
      case ReadSelector(_) => ReadStaysRight(cluster, p, store);
      case Prepare => PrepareStaysRight(cluster, p, store);
      case PickNamespace(k) => PickStaysRight(cluster, p, store, k);
      case FinishNamespace => FinishStaysRight(cluster, p, store);
      case EndPosting => EndPostingStaysRight(cluster, p, store);
      case DeleteNext(_) => Shorter(p.phase.rest);
      case _ =>
    }
  }
}
