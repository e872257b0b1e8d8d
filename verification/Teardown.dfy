// deleteRulesForTenant: it asks to delete a namespace once for each group in it. A remote that
// refuses to delete an absent namespace therefore fails the attempt at the first namespace
// that holds two groups, and the tenant is emptied over several attempts.
module Teardown {
  import opened Ordering
  import opened RemoteRuler
  import opened RuleSync

  // Whatever fails, the calls are a listing and then deletions in order, one for each group, up to
  // the first failure; what has been deleted is what these calls were for.
  method DeleteRulesForTenant(mimir: Mimir, tenant: string)
    returns (ok: bool, ghost log: seq<Call>, ghost names: seq<string>, ghost gone: set<string>)
    requires Valid(TenantStore(mimir.tenants, tenant))
    modifies mimir
    ensures OthersAlone(old(mimir.tenants), mimir.tenants, tenant)
    ensures mimir.calls == old(mimir.calls) + log && IsCleanup(log, tenant, names) && Deleted(log, names, gone, ok)
    ensures log[0].ok ==> OncePerGroup(names, old(TenantStore(mimir.tenants, tenant)))
    ensures TenantStore(mimir.tenants, tenant) == old(TenantStore(mimir.tenants, tenant)) - gone
    ensures ok ==> TenantStore(mimir.tenants, tenant) == map[]
    ensures mimir.reliable && !mimir.strict ==> ok
    ensures mimir.reliable && mimir.strict ==>
              (ok <==> Crowded(old(TenantStore(mimir.tenants, tenant))) == {})
              && TenantStore(mimir.tenants, tenant) == AfterAttempt(old(TenantStore(mimir.tenants, tenant)))
  {
    hide *;
    ghost var before := TenantStore(mimir.tenants, tenant);
    var rules, keys := ListRulesElement(mimir, tenant);
    log, names, gone := [List(tenant, rules.Some?)], [], {};
    if rules.None? {
      assert before == before - {};
      NoDeletions(tenant);
      AllAlone(mimir.tenants, tenant);
      return false, log, names, gone;
    }
    ghost var done, deletes := 0, [];
    names := Namespaces(rules.value);
    ok, done, deletes, gone := DeleteElements(mimir, tenant, rules.value);
    log := log + deletes;
    DeletionLog(tenant, names, deletes, gone, ok);
    CountedNames(before, keys, names);
    AttemptMade(before, TenantStore(mimir.tenants, tenant), keys, names, done, ok, mimir.reliable, mimir.strict);
  }

  // How deleting the names in turn, the first `done` of them well, leaves the tenant.
  ghost predicate Attempted(before: Store, after: Store, names: seq<string>, done: nat, ok: bool, reliable: bool,
                            strict: bool)
  {
    && done <= |names| && (ok <==> done == |names|)
    && (ok || reliable ==> after == before - Elements(names[..done]))
    && (reliable && !strict ==> ok)
    && (reliable && strict && Elements(names) <= before.Keys ==>
          Distinct(names[..done]) && (!ok ==> names[done] in Elements(names[..done])))
  }

  lemma {:induction false} AttemptMade(before: Store, after: Store, keys: seq<string>, names: seq<string>, done: nat,
                                       ok: bool, reliable: bool, strict: bool)
    requires Valid(before) && Ascending(keys) && Elements(keys) == before.Keys && names == PerGroup(keys, before)
    requires Attempted(before, after, names, done, ok, reliable, strict)
    ensures ok ==> after == map[]
    ensures reliable && !strict ==> ok
    ensures reliable && strict ==> (ok <==> Crowded(before) == {}) && after == AfterAttempt(before)
  {
    hide Crowded, AfterAttempt, Distinct, Elements, Ascending, IsLeast;
    PerGroupFacts(keys, before);
    if ok {
      assert names[..done] == names;
      Exhausted(before, keys, names);
    } else if reliable && strict {
      StoppedAt(before, keys, names, done);
      LeastIsIn(names[done], Crowded(before));
    }
  }

  // Each namespace once for each of its groups, in order.
  ghost predicate OncePerGroup(names: seq<string>, store: Store) {
    Sorted(names) && forall ns :: multiset(names)[ns] == if ns in store then |store[ns]| else 0
  }

  lemma NoDeletions(tenant: string)
    ensures IsCleanup([List(tenant, false)], tenant, []) && Deleted([List(tenant, false)], [], {}, false)
  {
  }

  lemma AllAlone(tenants: Tenants, tenant: string)
    ensures OthersAlone(tenants, tenants, tenant)
  {
  }

  lemma DeletionLog(tenant: string, names: seq<string>, deletes: seq<Call>, gone: set<string>, ok: bool)
    requires IsDeleting(deletes, tenant, names)
    requires if ok then |deletes| == |names| && gone == Elements(names)
             else LastFailed(deletes) && DeletedUpTo(names, |deletes|, gone)
    ensures IsCleanup([List(tenant, true)] + deletes, tenant, names)
    ensures Deleted([List(tenant, true)] + deletes, names, gone, ok)
  {
    hide IsDeleting, DeletedUpTo, Elements;
    assert ([List(tenant, true)] + deletes)[1..] == deletes;
  }

  lemma LeastIsIn(ns: string, names: set<string>)
    requires IsLeast(ns, names)
    ensures names != {}
  {
  }

  // The loop: `done` deletions have been answered well.
  method DeleteElements(mimir: Mimir, tenant: string, rules: seq<RuleElement>)
    returns (ok: bool, ghost done: nat, ghost deletes: seq<Call>, ghost gone: set<string>)
    modifies mimir
    ensures OthersAlone(old(mimir.tenants), mimir.tenants, tenant)
    ensures mimir.calls == old(mimir.calls) + deletes && IsDeleting(deletes, tenant, Namespaces(rules))
    ensures TenantStore(mimir.tenants, tenant) == old(TenantStore(mimir.tenants, tenant)) - gone
    ensures if ok then |deletes| == |Namespaces(rules)| && gone == Elements(Namespaces(rules))
            else LastFailed(deletes) && DeletedUpTo(Namespaces(rules), |deletes|, gone)
    ensures Attempted(old(TenantStore(mimir.tenants, tenant)), TenantStore(mimir.tenants, tenant), Namespaces(rules),
                      done, ok, mimir.reliable, mimir.strict)
  {
    hide Distinct, Elements;
    ghost var before, names := TenantStore(mimir.tenants, tenant), Namespaces(rules);
    NoneYet(names);
    done, deletes := 0, [];
    var i := 0;
    while i < |rules|
      invariant done == i == |deletes| && i <= |rules| == |names|
      invariant mimir.calls == old(mimir.calls) + deletes
      invariant forall k :: 0 <= k < i ==> deletes[k] == Delete(tenant, names[k], true)
      invariant OthersAlone(old(mimir.tenants), mimir.tenants, tenant)
      invariant TenantStore(mimir.tenants, tenant) == before - Elements(names[..done])
      invariant mimir.strict ==> Distinct(names[..done])
    {
      ghost var middle := TenantStore(mimir.tenants, tenant);
      OneMore(names, done);
      assert Drop(middle, names[done]) == before - Elements(names[..done + 1]);
      ok := mimir.DeleteNamespace(tenant, rules[i].namespace);
      deletes := deletes + [Delete(tenant, names[done], ok)];
      gone := Elements(names[..done + 1]);
      if !ok {
        assert names[done] !in middle ==> Drop(middle, names[done]) == middle;
        if TenantStore(mimir.tenants, tenant) == middle {
          gone := Elements(names[..done]);
        }
        return;
      }
      done := done + 1;
      i := i + 1;
    }
    assert names[..done] == names;
    return true, done, deletes, Elements(names);
  }

  lemma NoneYet(names: seq<string>)
    ensures Elements(names[..0]) == {} && Distinct(names[..0])
  {
  }

  lemma OneMore(names: seq<string>, n: nat)
    requires n < |names|
    ensures Elements(names[..n + 1]) == Elements(names[..n]) + {names[n]} && names[n] in Elements(names)
    ensures Distinct(names[..n]) && names[n] !in Elements(names[..n]) ==> Distinct(names[..n + 1])
  {
    ElementsSnoc(names[..n], names[n]);
    assert names[..n + 1] == names[..n] + [names[n]];
  }

  // The namespaces with two groups or more.
  ghost function Crowded(store: Store): set<string> { set ns | ns in store && |store[ns]| >= 2 }

  ghost predicate IsLeast(ns: string, names: set<string>) {
    ns in names && forall other :: other in names && other != ns ==> Less(ns, other)
  }

  lemma {:induction false} LeastExists(names: set<string>) returns (least: string)
    requires names != {}
    ensures IsLeast(least, names)
    decreases |names|
  {
    var ns :| ns in names;
    if names == {ns} {
      least := ns;
    } else {
      least := LeastExists(names - {ns});
      LessIsTotal(ns, least);
      if Less(ns, least) {
        forall other | other in names && other != ns ensures Less(ns, other) {
          if other != least {
            LessIsTransitive(ns, least, other);
          }
        }
        least := ns;
      }
    }
  }

  lemma LeastUnique(a: string, b: string, names: set<string>)
    requires IsLeast(a, names) && IsLeast(b, names)
    ensures a == b
  {
    LessIsTotal(a, b);
  }

  // What one attempt on a strict and otherwise reliable remote leaves: the namespaces after
  // the least crowded one, or nothing if none is crowded.
  ghost function AfterAttempt(store: Store): Store {
    map ns | ns in store && exists crowded :: IsLeast(crowded, Crowded(store)) && Less(crowded, ns) :: store[ns]
  }

  lemma {:induction false} PerGroupCounts(keys: seq<string>, store: Store, ns: string)
    requires Ascending(keys) && Elements(keys) <= store.Keys
    ensures multiset(PerGroup(keys, store))[ns] == if ns in Elements(keys) then |store[ns]| else 0
  {
    if keys != [] {
      var n := |keys| - 1;
      assert keys[n] in Elements(keys) && Elements(keys[..n]) <= Elements(keys);
      PerGroupCounts(keys[..n], store, ns);
      RepeatCounts(keys[n], |store[keys[n]]|, ns);
      assert keys == keys[..n] + [keys[n]];
      ElementsSnoc(keys[..n], keys[n]);
      LessIsTotal(keys[n], keys[n]);
    }
  }

  lemma {:induction false} CountedNames(store: Store, keys: seq<string>, names: seq<string>)
    requires Valid(store) && Ascending(keys) && Elements(keys) == store.Keys && names == PerGroup(keys, store)
    ensures OncePerGroup(names, store)
  {
    PerGroupFacts(keys, store);
    forall ns ensures multiset(names)[ns] == if ns in store then |store[ns]| else 0 {
      PerGroupCounts(keys, store, ns);
    }
  }

  lemma {:induction false} RepeatCounts(x: string, n: nat, ns: string)
    ensures multiset(Repeat(x, n))[ns] == if ns == x then n else 0
  {
    if n > 0 {
      RepeatCounts(x, n - 1, ns);
      assert Repeat(x, n) == Repeat(x, n - 1) + [x];
    }
  }

  // A run of deletions without a repeated namespace has emptied the tenant.
  lemma {:induction false} Exhausted(store: Store, keys: seq<string>, names: seq<string>)
    requires Valid(store) && Ascending(keys) && Elements(keys) == store.Keys && names == PerGroup(keys, store)
    ensures store - Elements(names) == map[]
    ensures Distinct(names) ==> Crowded(store) == {} && AfterAttempt(store) == map[]
  {
    PerGroupFacts(keys, store);
    if Distinct(names) {
      forall ns | ns in store ensures |store[ns]| < 2 {
        PerGroupCounts(keys, store, ns);
        DistinctOnce(names, ns);
      }
    }
  }

  // The first repeated namespace is the least crowded one, and what has been deleted by then
  // is every namespace up to it.
  lemma {:induction false} StoppedAt(store: Store, keys: seq<string>, names: seq<string>, i: nat)
    requires Valid(store) && Ascending(keys) && Elements(keys) == store.Keys && names == PerGroup(keys, store)
    requires i < |names| && Distinct(names[..i]) && names[i] in Elements(names[..i])
    ensures IsLeast(names[i], Crowded(store))
    ensures store - Elements(names[..i]) == AfterAttempt(store)
  {
    var ns := names[i];
    PerGroupFacts(keys, store);
    assert ns in Elements(names);
    var j :| 0 <= j < i && names[..i][j] == ns;
    RepeatedTwice(names, j, i);
    PerGroupCounts(keys, store, ns);
    forall other | other in Crowded(store) && other != ns ensures Less(ns, other) {
      LessIsTotal(ns, other);
      if Less(other, ns) {
        SmallerIsBefore(names, i, other);
        CountedBefore(names, i, other);
        PerGroupCounts(keys, store, other);
        DistinctOnce(names[..i], other);
      }
    }
    forall other | other in store ensures other in Elements(names[..i]) <==> !Less(ns, other) {
      assert other in Elements(names);
      LessIsTotal(ns, other);
      if Less(other, ns) {
        SmallerIsBefore(names, i, other);
      } else if other in Elements(names[..i]) {
        var k :| 0 <= k < i && names[..i][k] == other;
        assert names[k] == other;
      }
    }
    forall crowded | IsLeast(crowded, Crowded(store)) ensures crowded == ns {
      LeastUnique(crowded, ns, Crowded(store));
    }
  }

  lemma {:induction false} SmallerIsBefore(names: seq<string>, i: nat, other: string)
    requires Sorted(names) && i < |names| && other in Elements(names) && Less(other, names[i])
    ensures other in Elements(names[..i])
  {
    var k :| 0 <= k < |names| && names[k] == other;
    LessIsTotal(other, names[i]);
    assert names[..i][k] == other;
  }

  // All occurrences of a smaller string come before.
  lemma {:induction false} CountedBefore(names: seq<string>, i: nat, other: string)
    requires Sorted(names) && i < |names| && Less(other, names[i])
    ensures multiset(names)[other] == multiset(names[..i])[other]
  {
    assert names == names[..i] + names[i..];
    LessIsTotal(other, names[i]);
    assert forall k :: i <= k < |names| ==> names[k] != other;
  }

  // ---------------------------------------------------------------------------------------
  // Attempt after attempt
  // ---------------------------------------------------------------------------------------

  lemma AttemptShrinks(store: Store)
    requires Valid(store)
    ensures Valid(AfterAttempt(store)) && AfterAttempt(store).Keys <= store.Keys
    ensures store != map[] ==> AfterAttempt(store).Keys < store.Keys
    ensures Crowded(store) != {} ==> |Crowded(AfterAttempt(store))| == |Crowded(store)| - 1
    ensures forall a, b :: IsLeast(a, Crowded(store)) && IsLeast(b, Crowded(AfterAttempt(store))) ==> Less(a, b)
  {
    var next := AfterAttempt(store);
    if Crowded(store) == {} {
      assert next == map[];
      assert store != map[] ==> exists ns :: ns in store;
    } else {
      var least := LeastExists(Crowded(store));
      forall crowded | IsLeast(crowded, Crowded(store)) ensures crowded == least {
        LeastUnique(crowded, least, Crowded(store));
      }
      LessIsTotal(least, least);
      assert least in store && least !in next;
      assert Crowded(next) == Crowded(store) - {least};
    }
  }

  ghost function AfterAttempts(store: Store, n: nat): Store {
    if n == 0 then store else AfterAttempt(AfterAttempts(store, n - 1))
  }

  lemma {:induction false} AttemptsLeft(store: Store, n: nat)
    requires Valid(store) && n <= |Crowded(store)|
    ensures Valid(AfterAttempts(store, n)) && |Crowded(AfterAttempts(store, n))| == |Crowded(store)| - n
  {
    if n > 0 {
      AttemptsLeft(store, n - 1);
      AttemptShrinks(AfterAttempts(store, n - 1));
    }
  }

  // On a strict remote that does not fail otherwise, the first attempt to succeed is number
  // 1 + (crowded namespaces): attempt n (from 0) succeeds exactly when no namespace is crowded
  // any more. The failures name ever greater namespaces, so no two give the same error.
  lemma {:induction false} FirstSuccess(store: Store)
    requires Valid(store)
    ensures forall n :: 0 <= n < |Crowded(store)| ==> Crowded(AfterAttempts(store, n)) != {}
    ensures Crowded(AfterAttempts(store, |Crowded(store)|)) == {}
    ensures AfterAttempts(store, |Crowded(store)| + 1) == map[]
    ensures forall n, a, b ::
              (0 <= n < |Crowded(store)| && IsLeast(a, Crowded(AfterAttempts(store, n)))
               && IsLeast(b, Crowded(AfterAttempts(store, n + 1)))) ==> Less(a, b)
  {
    forall n | 0 <= n <= |Crowded(store)| ensures |Crowded(AfterAttempts(store, n))| == |Crowded(store)| - n {
      AttemptsLeft(store, n);
    }
    forall n, a, b | 0 <= n < |Crowded(store)| && IsLeast(a, Crowded(AfterAttempts(store, n)))
      && IsLeast(b, Crowded(AfterAttempts(store, n + 1))) ensures Less(a, b)
    {
      AttemptsLeft(store, n);
      AttemptShrinks(AfterAttempts(store, n));
    }
  }
}
