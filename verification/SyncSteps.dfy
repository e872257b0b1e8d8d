// The synchronisation of the transition system and the one of RuleSync are the same: whatever the
// answers to the calls, and however the cluster changes while the rules are read, the steps from
// the first list call to the status make the calls, and leave the tenant and RefRules, as the
// method promises.
module SyncSteps {
  import opened Words
  import opened Ordering
  import opened Selection
  import opened RemoteRuler
  import opened RuleSync
  import opened Operator
  import opened Agreement

  // One step, and the cluster as it is then.
  datatype Turn = Turn(cluster: Cluster, action: Action)

  // The calls made so far: posts, then a listing and deletions of the stale namespaces it gave;
  // whether RefRules has been reset; and the error of the step that failed.
  datatype Trace = Trace(reset: bool, posts: seq<Call>, cleanup: seq<Call>, stale: seq<string>, error: Cause)

  const NOTHING := Trace(false, [], [], [], NoError)

  // The error a call reports.
  predicate Says(answer: Answer, ns: string, error: Cause) {
    match answer
    case Ok => error == NoError
    case Refused(text) => error == CallFailed(text)
    case Lost(text) => error == CallFailed(text)
    case NotFound => error == Missing(ns)
  }

  lemma CauseIsSaid(answer: Answer, ns: string)
    ensures Says(answer, ns, CauseOf(answer, ns))
  {
  }

  ghost function Traced(trace: Trace, tenant: string, p: Process, store: Store, action: Action): Trace
    requires CanSynchronise(p, store, action)
  {
    match action
    case ReadSelector(a) =>
      var selector := p.copy.value.spec.selectors[p.phase.next];
      trace.(error := if selector.Invalid? then BadSelector(selector.reason) else CauseOf(a, ""))
    case Prepare => trace.(reset := true)
    case PickNamespace(k) =>
      trace.(error := if FirstFault(p.texts[k]).Some? then BadText(FirstFault(p.texts[k]).value) else NoError)
    case PostGroup(a) =>
      var (k, groups) := p.phase.current.value;
      trace.(posts := trace.posts + [Post(tenant, KeyText(k), groups[0], a.Ok?)], error := CauseOf(a, ""))
    case ListTenant(a, stale) =>
      trace.(cleanup := [List(tenant, a.Ok?)], stale := if a.Ok? then stale else [], error := CauseOf(a, ""))
    case DeleteNext(a) =>
      trace.(cleanup := trace.cleanup + [Delete(tenant, p.phase.rest[0], a.Ok?)], error := CauseOf(a, p.phase.rest[0]))
    case _ => trace
  }

  datatype Moment = Moment(p: Process, store: Store, trace: Trace)

  // Where some turns lead, if each is possible when it comes.
  ghost function After(tenant: string, start: Moment, turns: seq<Turn>): Option<Moment> {
    if turns == [] then Some(start)
    else
      var n := |turns| - 1;
      var m := After(tenant, start, turns[..n]);
      if m.Some? && CanSynchronise(m.value.p, m.value.store, turns[n].action)
      then
        var (p, store) := Synchronise(turns[n].cluster, m.value.p, m.value.store, turns[n].action);
        Some(Moment(p, store, Traced(m.value.trace, tenant, m.value.p, m.value.store, turns[n].action)))
      else None
  }

  // The texts under the names they are posted to.
  ghost function Named(texts: Contents): Texts
    requires PlainKeys(texts.Keys)
  {
    SameTextSameKey(texts.Keys);
    map k | k in texts :: KeyText(k) := texts[k]
  }

  lemma SameTextSameKey(keys: set<Key>)
    requires PlainKeys(keys)
    ensures forall j, k :: j in keys && k in keys && KeyText(j) == KeyText(k) ==> j == k
  {
    forall j, k | j in keys && k in keys && KeyText(j) == KeyText(k) ensures j == k {
      KeyTextInjective(j, k);
    }
  }

  lemma NamedFacts(texts: Contents)
    requires PlainKeys(texts.Keys)
    ensures Named(texts).Keys == KeyTexts(texts.Keys)
    ensures forall k :: k in texts ==> KeyText(k) in Named(texts) && Named(texts)[KeyText(k)] == texts[k]
    ensures forall k, some: set<Key> :: k in texts && some <= texts.Keys && k !in some ==> KeyText(k) !in KeyTexts(some)
  {
    hide KeyText;
    SameTextSameKey(texts.Keys);
  }

  // ---------------------------------------------------------------------------------------
  // What holds on the way
  // ---------------------------------------------------------------------------------------

  // Between two namespaces.
  ghost predicate Between(before: Store, store: Store, tenant: string, texts: Texts, done: set<string>,
                          names: seq<string>, posts: seq<Call>)
  {
    && PostedSet(before, store, texts, done) && LoggedSet(posts, tenant, texts, done)
    && Distinct(names) && Elements(names) == done <= texts.Keys
  }

  // In a namespace, with these groups still to post.
  ghost predicate Within(before: Store, store: Store, tenant: string, texts: Texts, done: set<string>,
                         names: seq<string>, posts: seq<Call>, ns: string, rest: seq<RemoteGroup>)
  {
    && ns in texts && ns !in done && Decode(texts[ns]).Some?
    && exists middle, base, more ::
         && posts == base + more && Between(before, middle, tenant, texts, done, names, base)
         && HalfPosted(middle, store, tenant, ns, Decode(texts[ns]).value, more, rest)
  }

  ghost predicate HalfPosted(middle: Store, store: Store, tenant: string, ns: string, groups: seq<RemoteGroup>,
                             more: seq<Call>, rest: seq<RemoteGroup>)
  {
    && |more| + |rest| == |groups| && rest == groups[|more|..]
    && IsPosting(more, tenant, ns, groups) && (forall i :: 0 <= i < |more| ==> more[i].ok)
    && store == PostAll(middle, ns, groups[..|more|])
  }

  // All is posted.
  ghost predicate Complete(before: Store, store: Store, tenant: string, texts: Texts, names: seq<string>,
                           posts: seq<Call>)
  {
    && PostedSet(before, store, texts, texts.Keys) && LoggedSet(posts, tenant, texts, texts.Keys)
    && Ascending(names) && Elements(names) == texts.Keys
  }

  // The listing and the first n deletions are done.
  ghost predicate Cleaning(middle: Store, store: Store, tenant: string, texts: Texts, cleanup: seq<Call>,
                           stale: seq<string>, n: nat)
  {
    && n <= |stale| && Ascending(stale) && Elements(stale) == middle.Keys - texts.Keys
    && |cleanup| == n + 1 && cleanup[0] == List(tenant, true)
    && (forall i :: 1 <= i <= n ==> cleanup[i] == Delete(tenant, stale[i - 1], true))
    && store == middle - Elements(stale[..n])
  }

  ghost predicate OnTheWay(before: Store, tenant: string, m: Moment)
  {
    var p, trace := m.p, m.trace;
    p.copy.Some? && PlainKeys(p.texts.Keys)
    && match p.phase
       case Reading(next, read) => trace == NOTHING && m.store == before && PlainKeys(read.Keys)
       case Posting(todo, None) =>
         && trace.reset && trace.cleanup == [] && trace.stale == [] && trace.error == NoError && todo <= p.texts.Keys
         && Between(before, m.store, tenant, Named(p.texts), KeyTexts(p.texts.Keys - todo), p.posted, trace.posts)
       case Posting(todo, Some((k, rest))) =>
         && trace.reset && trace.cleanup == [] && trace.stale == [] && trace.error == NoError
         && todo <= p.texts.Keys && k in p.texts && k !in todo
         && Within(before, m.store, tenant, Named(p.texts), KeyTexts(p.texts.Keys - todo - {k}), p.posted, trace.posts,
                   KeyText(k), rest)
       case Listing =>
         && trace.reset && trace.cleanup == [] && trace.stale == [] && trace.error == NoError
         && Complete(before, m.store, tenant, Named(p.texts), p.posted, trace.posts)
       case Deleting(rest) =>
         && trace.reset && trace.error == NoError && |rest| <= |trace.stale|
         && rest == trace.stale[|trace.stale| - |rest|..]
         && exists middle ::
              && Complete(before, middle, tenant, Named(p.texts), p.posted, trace.posts)
              && Cleaning(middle, m.store, tenant, Named(p.texts), trace.cleanup, trace.stale,
                          |trace.stale| - |rest|)
       case Reporting(status) => IsReport(before, tenant, m, status)
       case _ => false
  }

  // A status that reports a synchronisation: before RefRules is reset, the old RefRules and
  // nothing done; after, what the method promises.
  ghost predicate IsReport(before: Store, tenant: string, m: Moment, status: Status)
    requires m.p.copy.Some? && PlainKeys(m.p.texts.Keys)
  {
    && status.error == m.trace.error && (status.state == if status.error.NoError? then IsSynced else IsFailed)
    && if !m.trace.reset then
         && status.state.IsFailed? && status.refRules == m.p.copy.value.status.refRules && m.store == before
         && m.trace.posts == [] && m.trace.cleanup == []
       else
         exists order ::
           Pushed(before, m.store, tenant, Named(m.p.texts), status.state.IsSynced?, status.refRules, m.trace.posts,
                  m.trace.cleanup, m.trace.stale, order)
  }

  // ---------------------------------------------------------------------------------------
  // Step by step
  // ---------------------------------------------------------------------------------------

  ghost predicate Steps(tenant: string, m: Moment, turn: Turn, next: Moment) {
    && CanSynchronise(m.p, m.store, turn.action)
    && (next.p, next.store) == Synchronise(turn.cluster, m.p, m.store, turn.action)
    && next.trace == Traced(m.trace, tenant, m.p, m.store, turn.action)
  }

  lemma ReadStep(before: Store, tenant: string, m: Moment, turn: Turn, next: Moment)
    requires OnTheWay(before, tenant, m) && Steps(tenant, m, turn, next)
    requires turn.action.ReadSelector? && PlainKeys(turn.cluster.Keys)
    ensures OnTheWay(before, tenant, next)
  {
    hide KeyText, Matches, Pushed;
  }

  lemma PrepareStep(before: Store, tenant: string, m: Moment, turn: Turn, next: Moment)
    requires OnTheWay(before, tenant, m) && Steps(tenant, m, turn, next) && turn.action.Prepare? && Valid(before)
    ensures OnTheWay(before, tenant, next)
  {
    hide KeyText, TextOf, Decode;
    var q := next.p;
    assert q.texts.Keys - q.phase.todo == {} && KeyTexts({}) == {};
  }

  lemma PickStep(before: Store, tenant: string, m: Moment, turn: Turn, next: Moment)
    requires OnTheWay(before, tenant, m) && Steps(tenant, m, turn, next) && turn.action.PickNamespace?
    requires Valid(before)
    ensures OnTheWay(before, tenant, next)
  {
    hide KeyText, Decode, FirstFault, PostedSet, LoggedSet, Distinct, Elements, Pushed, IsPosting, PostAll;
    var p, k := m.p, turn.action.key;
    var done := KeyTexts(p.texts.Keys - p.phase.todo);
    NamedFacts(p.texts);
    FaultMeaning(p.texts[k]);
    if Decode(p.texts[k]).Some? {
      var groups := Decode(p.texts[k]).value;
      assert p.texts.Keys - (p.phase.todo - {k}) - {k} == p.texts.Keys - p.phase.todo;
      NothingPosted(m.store, tenant, KeyText(k), groups);
      assert m.trace.posts + [] == m.trace.posts;
    } else {
      var order := StoppedIn(before, m.store, m.store, tenant, Named(p.texts), done, p.posted, m.trace.posts, [],
                             KeyText(k));
      assert m.trace.posts + [] == m.trace.posts;
      Reported(before, tenant, next, order);
    }
  }

  lemma Reported(before: Store, tenant: string, m: Moment, order: seq<string>)
    requires m.p.copy.Some? && PlainKeys(m.p.texts.Keys) && m.p.phase.Reporting? && m.trace.reset
    requires var status := m.p.phase.status;
             && status.error == m.trace.error && (status.state == if status.error.NoError? then IsSynced else IsFailed)
             && Pushed(before, m.store, tenant, Named(m.p.texts), status.error.NoError?, status.refRules, m.trace.posts,
                       m.trace.cleanup, m.trace.stale, order)
    ensures OnTheWay(before, tenant, m)
  {
    hide Pushed;
    var status := m.p.phase.status;
    assert status.error.NoError? == status.state.IsSynced?;
    assert Pushed(before, m.store, tenant, Named(m.p.texts), status.state.IsSynced?, status.refRules, m.trace.posts,
                  m.trace.cleanup, m.trace.stale, order);
  }

  lemma NothingPosted(store: Store, tenant: string, ns: string, groups: seq<RemoteGroup>)
    ensures HalfPosted(store, store, tenant, ns, groups, [], groups)
  {
    assert groups[..0] == [] && groups[0..] == groups;
  }

  // Stopped in a namespace.
  lemma StoppedIn(before: Store, middle: Store, after: Store, tenant: string, texts: Texts, done: set<string>,
                  names: seq<string>, posts: seq<Call>, more: seq<Call>, ns: string) returns (order: seq<string>)
    requires Between(before, middle, tenant, texts, done, names, posts) && ns in texts && ns !in done
    requires if Decode(texts[ns]).None? then more == [] && after == middle
             else IsPosting(more, tenant, ns, Decode(texts[ns]).value)
                  && Outcome(middle, after, ns, Decode(texts[ns]).value, more, false)
    ensures Pushed(before, after, tenant, texts, false, names, posts + more, [], [], order)
  {
    hide Decode, PostedSet, LoggedSet, Distinct, Elements, Outcome, IsPosting, PostsInOrder, PartlyPosted, Stopped,
         PartlySynced, Ascending;
    CutOff(before, middle, after, posts, more, tenant, texts, done, ns);
    StoppedHere(before, middle, after, posts, more, tenant, texts, done, ns);
    order := VisitOrder(texts, names, ns);
    PartlyDone(before, after, texts);
    EmptyLists(tenant);
  }

  lemma PostStep(before: Store, tenant: string, m: Moment, turn: Turn, next: Moment)
    requires OnTheWay(before, tenant, m) && Steps(tenant, m, turn, next) && turn.action.PostGroup?
    ensures OnTheWay(before, tenant, next)
  {
    hide KeyText, Decode, Between, Pushed, HalfPosted, PostTo;
    var p, a := m.p, turn.action.answer;
    var (k, rest) := p.phase.current.value;
    var ns, texts, done := KeyText(k), Named(p.texts), KeyTexts(p.texts.Keys - p.phase.todo - {k});
    var groups := Decode(texts[ns]).value;
    var middle, base, more :|
      && m.trace.posts == base + more && Between(before, middle, tenant, texts, done, p.posted, base)
      && HalfPosted(middle, m.store, tenant, ns, groups, more, rest);
    var longer := more + [Post(tenant, ns, rest[0], a.Ok?)];
    assert next.trace.posts == base + longer;
    PostedNext(middle, m.store, next.store, tenant, ns, groups, more, rest, a.Ok?);
    if !a.Ok? {
      var order := StoppedIn(before, middle, next.store, tenant, texts, done, p.posted, base, longer, ns);
      Reported(before, tenant, next, order);
    }
  }

  lemma PostedNext(middle: Store, store: Store, after: Store, tenant: string, ns: string, groups: seq<RemoteGroup>,
                   more: seq<Call>, rest: seq<RemoteGroup>, ok: bool)
    requires HalfPosted(middle, store, tenant, ns, groups, more, rest) && rest != []
    requires after == PostTo(store, ns, rest[0]) || (!ok && after == store)
    ensures var longer := more + [Post(tenant, ns, rest[0], ok)];
            if ok then HalfPosted(middle, after, tenant, ns, groups, longer, rest[1..])
            else IsPosting(longer, tenant, ns, groups) && Outcome(middle, after, ns, groups, longer, false)
  {
    hide PostTo;
    var n := |more|;
    assert rest[0] == groups[n] && rest[1..] == groups[n + 1..];
    assert groups[..n + 1][..n] == groups[..n];
    assert PostAll(middle, ns, groups[..n + 1]) == PostTo(PostAll(middle, ns, groups[..n]), ns, groups[n]);
  }

  lemma FinishStep(before: Store, tenant: string, m: Moment, turn: Turn, next: Moment)
    requires OnTheWay(before, tenant, m) && Steps(tenant, m, turn, next) && turn.action.FinishNamespace?
    ensures OnTheWay(before, tenant, next)
  {
    hide KeyText, Decode, Between, Pushed, HalfPosted;
    var p := m.p;
    var (k, rest) := p.phase.current.value;
    var ns, texts, done := KeyText(k), Named(p.texts), KeyTexts(p.texts.Keys - p.phase.todo - {k});
    var groups := Decode(texts[ns]).value;
    var middle, base, more :|
      && m.trace.posts == base + more && Between(before, middle, tenant, texts, done, p.posted, base)
      && HalfPosted(middle, m.store, tenant, ns, groups, more, rest);
    OneMorePosted(before, middle, m.store, tenant, texts, done, p.posted, base, more, ns);
    assert p.texts.Keys - p.phase.todo == p.texts.Keys - p.phase.todo - {k} + {k};
    assert KeyTexts(p.texts.Keys - p.phase.todo) == done + {ns};
  }

  lemma OneMorePosted(before: Store, middle: Store, store: Store, tenant: string, texts: Texts, done: set<string>,
                      names: seq<string>, base: seq<Call>, more: seq<Call>, ns: string)
    requires Between(before, middle, tenant, texts, done, names, base) && ns in texts && ns !in done
    requires Decode(texts[ns]).Some? && HalfPosted(middle, store, tenant, ns, Decode(texts[ns]).value, more, [])
    ensures Between(before, store, tenant, texts, done + {ns}, names + [ns], base + more)
  {
    hide Decode, PostedSet, LoggedSet, Distinct, Elements, IsPosting;
    var groups := Decode(texts[ns]).value;
    assert groups[..|groups|] == groups;
    PostedOne(before, middle, store, texts, done, ns);
    LoggedOne(base, more, tenant, texts, done, ns);
    ElementsSnoc(names, ns);
  }

  lemma EndPostingStep(before: Store, tenant: string, m: Moment, turn: Turn, next: Moment)
    requires OnTheWay(before, tenant, m) && Steps(tenant, m, turn, next) && turn.action.EndPosting?
    ensures OnTheWay(before, tenant, next)
  {
    hide KeyText, Decode, Pushed, PostedSet, LoggedSet, Distinct, Elements, Ascending, Sort;
    NamedFacts(m.p.texts);
    assert m.p.texts.Keys - {} == m.p.texts.Keys;
    SortDistinct(m.p.posted);
  }

  // All posted, and cut off or done with this deleted.
  lemma CleanedReport(before: Store, middle: Store, after: Store, tenant: string, texts: Texts, names: seq<string>,
                      posts: seq<Call>, cleanup: seq<Call>, stale: seq<string>, gone: set<string>, ok: bool)
    requires Valid(before) && Complete(before, middle, tenant, texts, names, posts)
    requires IsCleanup(cleanup, tenant, stale) && Deleted(cleanup, stale, gone, ok) && Ascending(stale)
    requires Elements(stale) <= middle.Keys - texts.Keys && gone <= Elements(stale) && after == middle - gone
    requires cleanup[0].ok ==> Elements(stale) == middle.Keys - texts.Keys
    requires ok ==> cleanup[0].ok
    ensures Pushed(before, after, tenant, texts, ok, names, posts, cleanup, stale, [])
  {
    hide Decode, Target, LoggedSet, Elements, Ascending, IsCleanup, HasPrefix;
    SameUnwanted(before, middle, texts);
    AllPartly(before, middle, texts);
    LoggedInOrder(posts, tenant, texts);
    Cleaned(before, middle, after, texts, gone);
    PostedThenDeleted(before, middle, after, texts, gone);
  }

  lemma SameUnwanted(before: Store, middle: Store, texts: Texts)
    requires Valid(before) && PostedSet(before, middle, texts, texts.Keys)
    ensures middle.Keys - texts.Keys == before.Keys - texts.Keys
    ensures forall ns :: ns in texts ==> Decode(texts[ns]).Some?
  {
    hide Decode, Target;
    forall ns | ns !in texts ensures ns in middle <==> ns in before {
      assert GroupsAt(middle, ns) == GroupsAt(before, ns);
    }
  }

  lemma AllPartly(before: Store, middle: Store, texts: Texts)
    requires PostedSet(before, middle, texts, texts.Keys)
    ensures PartlyPosted(before, middle, texts)
  {
    hide Decode;
    forall ns | ns in texts ensures HasPrefix(before, middle, texts, ns) {
      var groups := Decode(texts[ns]).value;
      assert groups[..|groups|] == groups;
    }
  }

  lemma LoggedInOrder(posts: seq<Call>, tenant: string, texts: Texts)
    requires LoggedSet(posts, tenant, texts, texts.Keys)
    ensures PostsInOrder(posts, tenant, texts)
  {
    hide Decode;
  }

  lemma ListStep(before: Store, tenant: string, m: Moment, turn: Turn, next: Moment)
    requires OnTheWay(before, tenant, m) && Steps(tenant, m, turn, next) && turn.action.ListTenant? && Valid(before)
    ensures OnTheWay(before, tenant, next)
  {
    hide KeyText, Decode, Pushed, PostedSet, LoggedSet, Elements, Ascending, Complete;
    NamedFacts(m.p.texts);
    var texts, stale := Named(m.p.texts), turn.action.stale;
    if turn.action.answer.Ok? {
      assert stale[..0] == [] && stale[|stale| - |stale|..] == stale;
      NoneDeleted(m.store);
      assert Cleaning(m.store, next.store, tenant, texts, next.trace.cleanup, stale, 0);
    } else {
      assert next.trace.cleanup[1..] == [] && m.store - {} == m.store;
      NoneDeleted(m.store);
      CleanedReport(before, m.store, next.store, tenant, texts, m.p.posted, m.trace.posts, next.trace.cleanup, [], {},
                    false);
      Reported(before, tenant, next, []);
    }
  }

  lemma NoneDeleted(store: Store)
    ensures Elements<string>([]) == {} && Ascending([]) && store - {} == store
  {
  }

  lemma DeleteStep(before: Store, tenant: string, m: Moment, turn: Turn, next: Moment)
    requires OnTheWay(before, tenant, m) && Steps(tenant, m, turn, next) && turn.action.DeleteNext? && Valid(before)
    ensures OnTheWay(before, tenant, next)
  {
    hide OnTheWay, Steps;
    if turn.action.answer.Ok? {
      DeletedStep(before, tenant, m, turn, next);
    } else {
      UndeletedStep(before, tenant, m, turn, next);
    }
  }

  lemma DeletingFacts(before: Store, tenant: string, m: Moment) returns (middle: Store, n: nat)
    requires OnTheWay(before, tenant, m) && m.p.phase.Deleting?
    ensures m.p.copy.Some? && PlainKeys(m.p.texts.Keys) && m.trace.reset && m.trace.error == NoError
    ensures n <= |m.trace.stale| && m.p.phase.rest == m.trace.stale[n..]
    ensures Complete(before, middle, tenant, Named(m.p.texts), m.p.posted, m.trace.posts)
    ensures Cleaning(middle, m.store, tenant, Named(m.p.texts), m.trace.cleanup, m.trace.stale, n)
  {
    hide Complete, Cleaning, Named, PlainKeys;
    n := |m.trace.stale| - |m.p.phase.rest|;
    middle :| Complete(before, middle, tenant, Named(m.p.texts), m.p.posted, m.trace.posts)
              && Cleaning(middle, m.store, tenant, Named(m.p.texts), m.trace.cleanup, m.trace.stale, n);
  }

  lemma DeleteEffect(tenant: string, m: Moment, turn: Turn, next: Moment)
    requires Steps(tenant, m, turn, next) && turn.action.DeleteNext?
    ensures m.p.phase.Deleting? && m.p.phase.rest != []
    ensures var ns, a := m.p.phase.rest[0], turn.action.answer;
            && next.trace == m.trace.(cleanup := m.trace.cleanup + [Delete(tenant, ns, a.Ok?)], error := CauseOf(a, ns))
            && (next.store == Drop(m.store, ns) || (!a.Ok? && next.store == m.store))
            && next.p == m.p.(phase := if a.Ok? then Deleting(m.p.phase.rest[1..])
                                       else Reporting(Status(IsFailed, CauseOf(a, ns), m.p.posted)))
            && (CauseOf(a, ns).NoError? <==> a.Ok?)
  {
  }

  lemma DeletedStep(before: Store, tenant: string, m: Moment, turn: Turn, next: Moment)
    requires OnTheWay(before, tenant, m) && Steps(tenant, m, turn, next)
    requires turn.action.DeleteNext? && turn.action.answer.Ok?
    ensures OnTheWay(before, tenant, next)
  {
    hide Complete, Cleaning, Named, PlainKeys, Steps;
    DeleteEffect(tenant, m, turn, next);
    var middle, n := DeletingFacts(before, tenant, m);
    OneMoreDeleted(middle, m.store, tenant, Named(m.p.texts), m.trace.cleanup, m.trace.stale, n);
    assert m.p.phase.rest[1..] == m.trace.stale[n + 1..];
  }

  lemma UndeletedStep(before: Store, tenant: string, m: Moment, turn: Turn, next: Moment)
    requires OnTheWay(before, tenant, m) && Steps(tenant, m, turn, next)
    requires turn.action.DeleteNext? && !turn.action.answer.Ok? && Valid(before)
    ensures OnTheWay(before, tenant, next)
  {
    hide OnTheWay, Complete, Cleaning, Named, PlainKeys, Steps, Pushed, CauseOf;
    DeleteEffect(tenant, m, turn, next);
    var middle, n := DeletingFacts(before, tenant, m);
    DeletionReport(before, middle, m.store, next.store, tenant, Named(m.p.texts), m.p.posted, m.trace.posts,
                   m.trace.cleanup, m.trace.stale, n);
    Reported(before, tenant, next, []);
  }

  lemma DeletionReport(before: Store, middle: Store, store: Store, after: Store, tenant: string, texts: Texts,
                       names: seq<string>, posts: seq<Call>, cleanup: seq<Call>, stale: seq<string>, n: nat)
    requires Valid(before) && Complete(before, middle, tenant, texts, names, posts)
    requires Cleaning(middle, store, tenant, texts, cleanup, stale, n) && n < |stale|
    requires after == store || after == Drop(store, stale[n])
    ensures Pushed(before, after, tenant, texts, false, names, posts, cleanup + [Delete(tenant, stale[n], false)],
                   stale, [])
  {
    hide Pushed, Complete, Cleaning, IsCleanup, Deleted, Elements, Ascending, Valid;
    var gone := DeletionFailed(middle, store, after, tenant, texts, cleanup, stale, n);
    CleanedReport(before, middle, after, tenant, texts, names, posts, cleanup + [Delete(tenant, stale[n], false)],
                  stale, gone, false);
  }

  lemma OneMoreDeleted(middle: Store, store: Store, tenant: string, texts: Texts, cleanup: seq<Call>,
                       stale: seq<string>, n: nat)
    requires Cleaning(middle, store, tenant, texts, cleanup, stale, n) && n < |stale|
    ensures Cleaning(middle, Drop(store, stale[n]), tenant, texts, cleanup + [Delete(tenant, stale[n], true)], stale,
                     n + 1)
  {
    hide Elements, Ascending;
    ElementsSnoc(stale[..n], stale[n]);
    assert stale[..n + 1] == stale[..n] + [stale[n]];
  }

  lemma DeletionFailed(middle: Store, store: Store, after: Store, tenant: string, texts: Texts, cleanup: seq<Call>,
                       stale: seq<string>, n: nat)
    returns (gone: set<string>)
    requires Cleaning(middle, store, tenant, texts, cleanup, stale, n) && n < |stale|
    requires after == store || after == Drop(store, stale[n])
    ensures var longer := cleanup + [Delete(tenant, stale[n], false)];
            && IsCleanup(longer, tenant, stale) && Deleted(longer, stale, gone, false) && Ascending(stale)
            && longer[0].ok && Elements(stale) == middle.Keys - texts.Keys
            && gone <= Elements(stale) && after == middle - gone
  {
    hide Ascending;
    OneMoreDeleted(middle, store, tenant, texts, cleanup, stale, n);
    gone := if after == store then Elements(stale[..n]) else Elements(stale[..n + 1]);
    IsCleanupLog(cleanup + [Delete(tenant, stale[n], false)], tenant, stale);
    PrefixElements(stale, n);
    PrefixElements(stale, n + 1);
  }

  lemma PrefixElements(list: seq<string>, n: nat)
    requires n <= |list|
    ensures Elements(list[..n]) <= Elements(list)
  {
  }

  lemma EndDeletingStep(before: Store, tenant: string, m: Moment, turn: Turn, next: Moment)
    requires OnTheWay(before, tenant, m) && Steps(tenant, m, turn, next) && turn.action.EndDeleting? && Valid(before)
    ensures OnTheWay(before, tenant, next)
  {
    hide KeyText, Decode, Pushed, Complete, Cleaning;
    var texts, stale := Named(m.p.texts), m.trace.stale;
    var middle :| Complete(before, middle, tenant, texts, m.p.posted, m.trace.posts)
                  && Cleaning(middle, m.store, tenant, texts, m.trace.cleanup, stale, |stale|);
    AllDeleted(middle, m.store, tenant, texts, m.trace.cleanup, stale);
    CleanedReport(before, middle, next.store, tenant, texts, m.p.posted, m.trace.posts, m.trace.cleanup, stale,
                  Elements(stale), true);
    Reported(before, tenant, next, []);
  }

  lemma AllDeleted(middle: Store, store: Store, tenant: string, texts: Texts, cleanup: seq<Call>, stale: seq<string>)
    requires Cleaning(middle, store, tenant, texts, cleanup, stale, |stale|)
    ensures IsCleanup(cleanup, tenant, stale) && Deleted(cleanup, stale, Elements(stale), true)
    ensures Ascending(stale) && Elements(stale) == middle.Keys - texts.Keys && cleanup[0].ok
    ensures store == middle - Elements(stale)
  {
    assert stale[..|stale|] == stale;
    IsCleanupLog(cleanup, tenant, stale);
  }

  lemma IsCleanupLog(cleanup: seq<Call>, tenant: string, stale: seq<string>)
    requires 1 <= |cleanup| <= |stale| + 1 && cleanup[0] == List(tenant, true)
    requires forall i :: 1 <= i < |cleanup| ==>
               cleanup[i] == Delete(tenant, stale[i - 1], cleanup[i].ok) && (i < |cleanup| - 1 ==> cleanup[i].ok)
    ensures IsCleanup(cleanup, tenant, stale)
  {
    forall i | 0 <= i < |cleanup[1..]|
      ensures cleanup[1..][i] == Delete(tenant, stale[i], cleanup[1..][i].ok)
      ensures i < |cleanup[1..]| - 1 ==> cleanup[1..][i].ok
    {
      assert cleanup[1..][i] == cleanup[i + 1];
    }
  }

  // ---------------------------------------------------------------------------------------
  // The whole
  // ---------------------------------------------------------------------------------------

  lemma StepOnTheWay(before: Store, tenant: string, m: Moment, turn: Turn, next: Moment)
    requires OnTheWay(before, tenant, m) && Steps(tenant, m, turn, next)
    requires Valid(before) && PlainKeys(turn.cluster.Keys)
    ensures OnTheWay(before, tenant, next)
  {
    hide OnTheWay, Steps;
    match turn.action {
      case ReadSelector(_) => ReadStep(before, tenant, m, turn, next);
      case Prepare => PrepareStep(before, tenant, m, turn, next);
      case PickNamespace(_) => PickStep(before, tenant, m, turn, next);
      case PostGroup(_) => PostStep(before, tenant, m, turn, next);
      case FinishNamespace => FinishStep(before, tenant, m, turn, next);
      case EndPosting => EndPostingStep(before, tenant, m, turn, next);
      case ListTenant(_, _) => ListStep(before, tenant, m, turn, next);
      case DeleteNext(_) => DeleteStep(before, tenant, m, turn, next);
      case EndDeleting => EndDeletingStep(before, tenant, m, turn, next);
      case _ => Impossible(tenant, m, turn, next);
    }
  }

  lemma Impossible(tenant: string, m: Moment, turn: Turn, next: Moment)
    requires Steps(tenant, m, turn, next)
    ensures IsSync(turn.action)
  {
  }

  ghost predicate Proper(turns: seq<Turn>) { forall i :: 0 <= i < |turns| ==> PlainKeys(turns[i].cluster.Keys) }

  // From the first list call on, with the tenant as it is then. When it comes to a status, this
  // reports what has been done: nothing, with the old RefRules; or what PushRules promises of its
  // calls, its order of visiting, the tenant and RefRules.
  lemma {:induction false} SyncIsPushRules(before: Store, tenant: string, p: Process, turns: seq<Turn>)
    requires p.phase == Reading(0, map[]) && p.copy.Some? && p.texts == map[] && Valid(before) && Proper(turns)
    requires After(tenant, Moment(p, before, NOTHING), turns).Some?
    ensures var m := After(tenant, Moment(p, before, NOTHING), turns).value;
            OnTheWay(before, tenant, m) && (m.p.phase.Reporting? ==> IsReport(before, tenant, m, m.p.phase.status))
  {
    hide IsReport, CanSynchronise, Synchronise, Traced, PlainKeys;
    if turns != [] {
      var n := |turns| - 1;
      SyncIsPushRules(before, tenant, p, turns[..n]);
      var m, next := After(tenant, Moment(p, before, NOTHING), turns[..n]).value,
                     After(tenant, Moment(p, before, NOTHING), turns).value;
      StepOnTheWay(before, tenant, m, turns[n], next);
    } else {
      AtFirst(before, tenant, p);
    }
  }

  lemma AtFirst(before: Store, tenant: string, p: Process)
    requires p.phase == Reading(0, map[]) && p.copy.Some? && p.texts == map[]
    ensures OnTheWay(before, tenant, Moment(p, before, NOTHING))
  {
  }

  // Before a synchronisation, a failure is reported with its error and the old RefRules.
  lemma FailsWithOldNames(cluster: Cluster, node: Node, store: Store, action: Action)
    requires CanPerform(node, store, action) && !IsSync(action) && !node.process.phase.Reporting?
    requires Perform(cluster, node, store, action).0.process.phase.Reporting?
    ensures node.process.copy.Some? && (action.Connect? || action.ListForRemoval? || action.RemoveNext?)
    ensures var status := Perform(cluster, node, store, action).0.process.phase.status;
            && status == Status(IsFailed, status.error, node.process.copy.value.status.refRules)
            && Says(action.answer, if action.RemoveNext? then node.process.phase.rest[0] else "", status.error)
  {
    hide Synchronise, CanSynchronise, IsFlatList;
  }

  // ---------------------------------------------------------------------------------------
  // Reading
  // ---------------------------------------------------------------------------------------

  // A list of objects, and its rules by key.
  ghost predicate Shows(list: seq<Object>, read: Contents) {
    && (forall k :: HasKey(list, k) <==> k in read)
    && forall i :: 0 <= i < |list| ==> list[i].key in read && read[list[i].key] == list[i].rule.groups
  }

  // A step of reading takes up what the list call returns as the concatenation of
  // FindPrometheusRules does: the objects whose key is new, as they are now.
  lemma {:induction false} ReadIsConcatenated(cluster: Cluster, selector: Selector, listed: seq<Object>,
                                              objects: seq<Object>, read: Contents)
    requires Shows(FirstOccurrences(listed), read) && IsListing(objects, cluster, selector)
    ensures Shows(FirstOccurrences(listed + objects), ReadMore(cluster, selector, read))
  {
    hide Matches, Shows, FirstOccurrences, HasKey;
    ReadPrefix(cluster, listed, objects, read, |objects|);
    assert objects[..|objects|] == objects;
    TakenIsReadMore(cluster, selector, objects, read);
  }

  lemma TakenIsReadMore(cluster: Cluster, selector: Selector, objects: seq<Object>, read: Contents)
    requires IsListing(objects, cluster, selector)
    ensures ReadMore(cluster, selector, read) == Taken(cluster, objects, read)
  {
    hide Matches, HasKey;
    forall k | k in cluster && HasKey(objects, k) ensures Matches(selector, cluster[k].labels) {
      ListedMatches(cluster, selector, objects, k);
    }
  }

  lemma ListedMatches(cluster: Cluster, selector: Selector, objects: seq<Object>, k: Key)
    requires IsListing(objects, cluster, selector) && HasKey(objects, k)
    ensures k in cluster && Matches(selector, cluster[k].labels)
  {
    hide Matches;
  }

  // The objects listed, as they are, where nothing of the key has been read.
  ghost function Taken(cluster: Cluster, objects: seq<Object>, read: Contents): Contents {
    read + map k | k in cluster && k !in read && HasKey(objects, k) :: cluster[k].groups
  }

  lemma {:induction false} ReadPrefix(cluster: Cluster, listed: seq<Object>, objects: seq<Object>, read: Contents,
                                      n: nat)
    requires Shows(FirstOccurrences(listed), read) && n <= |objects|
    requires forall i :: 0 <= i < |objects| ==>
               objects[i].key in cluster && objects[i].rule == cluster[objects[i].key]
    ensures Shows(FirstOccurrences(listed + objects[..n]), Taken(cluster, objects[..n], read))
  {
    hide FirstOccurrences, Shows, Taken, HasKey;
    if n == 0 {
      assert listed + objects[..0] == listed;
      NothingTaken(cluster, objects, read);
    } else {
      ReadPrefix(cluster, listed, objects, read, n - 1);
      var front, last := listed + objects[..n - 1], objects[n - 1];
      assert listed + objects[..n] == front + [last] && objects[..n] == objects[..n - 1] + [last];
      OneMoreListed(front, last);
      FirstOccurrencesKeys(front);
      OneMoreTaken(cluster, FirstOccurrences(front), objects[..n - 1], last, read);
    }
  }

  lemma NothingTaken(cluster: Cluster, objects: seq<Object>, read: Contents)
    ensures Taken(cluster, objects[..0], read) == read
  {
  }

  lemma OneMoreTaken(cluster: Cluster, list: seq<Object>, objects: seq<Object>, last: Object, read: Contents)
    requires Shows(list, Taken(cluster, objects, read))
    requires last.key in cluster && last.rule == cluster[last.key]
    ensures Shows(if HasKey(list, last.key) then list else list + [last], Taken(cluster, objects + [last], read))
  {
    hide HasKey, Taken;
    HasKeySnoc(list, last);
    TakenMore(cluster, objects, last, read);
  }

  lemma TakenMore(cluster: Cluster, objects: seq<Object>, last: Object, read: Contents)
    requires last.key in cluster && last.rule == cluster[last.key]
    ensures var taken := Taken(cluster, objects, read);
            Taken(cluster, objects + [last], read)
            == if last.key in taken then taken else taken[last.key := last.rule.groups]
  {
    hide HasKey;
    HasKeySnoc(objects, last);
  }

  lemma {:induction false} OneMoreListed(front: seq<Object>, last: Object)
    ensures FirstOccurrences(front + [last])
         == if HasKey(front, last.key) then FirstOccurrences(front) else FirstOccurrences(front) + [last]
  {
    assert (front + [last])[..|front|] == front;
    assert FirstOccurrences(front) + [] == FirstOccurrences(front);
  }
}
