// Strings in the order sort.Strings and slices.Sort use, and sorted lists of distinct strings.
module Ordering {

  predicate Less(s: string, t: string) {
    t != "" && (s == "" || s[0] < t[0] || (s[0] == t[0] && Less(s[1..], t[1..])))
  }

  // The strings agree up to n, and there the first ends or has the smaller character.
  ghost predicate SmallerAt(s: string, t: string, n: nat) {
    && n <= |s| && n < |t| && s[..n] == t[..n]
    && (n == |s| || s[n] < t[n])
  }

  // The order is lexicographic.
  lemma {:induction false} LessMeaning(s: string, t: string)
    ensures Less(s, t) <==> exists n: nat :: SmallerAt(s, t, n)
  {
    if s != "" && t != "" && s[0] == t[0] {
      LessMeaning(s[1..], t[1..]);
      if n: nat :| SmallerAt(s[1..], t[1..], n) {
        assert s[..n + 1] == [s[0]] + s[1..][..n] && t[..n + 1] == [t[0]] + t[1..][..n];
        assert SmallerAt(s, t, n + 1);
      }
      if n: nat :| SmallerAt(s, t, n) {
        assert n > 0;
        assert s[1..][..n - 1] == s[..n][1..] && t[1..][..n - 1] == t[..n][1..];
        assert SmallerAt(s[1..], t[1..], n - 1);
      }
    } else {
      FirstCharacter(s, t);
      assert SmallerAt(s, t, 0) <==> Less(s, t);
    }
  }

  lemma SameFirst(s: string, t: string, n: nat)
    requires 0 < n <= |s| && n <= |t| && s[..n] == t[..n]
    ensures s[0] == t[0]
  {
    assert s[0] == s[..n][0] && t[0] == t[..n][0];
  }

  lemma FirstCharacter(s: string, t: string)
    requires s == "" || t == "" || s[0] != t[0]
    ensures forall n: nat :: SmallerAt(s, t, n) ==> n == 0
  {
    forall n: nat | SmallerAt(s, t, n) ensures n == 0 {
      if n > 0 {
        SameFirst(s, t, n);
      }
    }
  }

  lemma {:induction false} LessIsTotal(s: string, t: string)
    ensures s == t || Less(s, t) || Less(t, s)
    ensures !(Less(s, t) && Less(t, s)) && (s == t ==> !Less(s, t))
  {
    if s != "" && t != "" && s[0] == t[0] {
      LessIsTotal(s[1..], t[1..]);
      assert s == [s[0]] + s[1..] && t == [t[0]] + t[1..];
    }
  }

  lemma {:induction false} LessIsTransitive(s: string, t: string, u: string)
    requires Less(s, t) && Less(t, u)
    ensures Less(s, u)
  {
    if s != "" && s[0] == t[0] && t[0] == u[0] {
      LessIsTransitive(s[1..], t[1..], u[1..]);
    }
  }

  ghost predicate Sorted(xs: seq<string>) {
    forall i, j :: 0 <= i < j < |xs| ==> !Less(xs[j], xs[i])
  }

  // Sorted and without repetition.
  ghost predicate Ascending(xs: seq<string>) {
    forall i, j :: 0 <= i < j < |xs| ==> Less(xs[i], xs[j])
  }

  ghost function Elements<T>(xs: seq<T>): set<T> { set i | 0 <= i < |xs| :: xs[i] }

  ghost predicate Distinct<T>(xs: seq<T>) {
    forall i, j :: 0 <= i < j < |xs| ==> xs[i] != xs[j]
  }

  lemma ElementsSnoc<T>(xs: seq<T>, x: T)
    ensures Elements(xs + [x]) == Elements(xs) + {x}
    ensures Distinct(xs) && x !in Elements(xs) ==> Distinct(xs + [x])
  {
    assert forall i :: 0 <= i < |xs| ==> (xs + [x])[i] == xs[i] && xs[i] in Elements(xs);
    assert (xs + [x])[|xs|] == x;
  }

  // A set listed in some order.
  lemma {:induction false} InSomeOrder<T>(names: set<T>) returns (list: seq<T>)
    ensures Distinct(list) && Elements(list) == names
  {
    if names == {} {
      list := [];
    } else {
      var name :| name in names;
      list := InSomeOrder(names - {name});
      ElementsSnoc(list, name);
      list := list + [name];
    }
  }

  lemma AppendDistinct<T>(xs: seq<T>, ys: seq<T>)
    requires Distinct(xs) && Distinct(ys) && Elements(xs) !! Elements(ys)
    ensures Distinct(xs + ys) && Elements(xs + ys) == Elements(xs) + Elements(ys)
  {
    assert forall i :: 0 <= i < |xs| ==> (xs + ys)[i] == xs[i] && xs[i] in Elements(xs);
    assert forall i :: 0 <= i < |ys| ==> (xs + ys)[|xs| + i] == ys[i] && ys[i] in Elements(ys);
  }

  lemma FirstOff(xs: seq<string>)
    requires xs != []
    ensures Elements(xs) == {xs[0]} + Elements(xs[1..])
  {
    assert xs == [xs[0]] + xs[1..];
    assert forall i :: 0 <= i < |xs| - 1 ==> xs[1..][i] == xs[i + 1];
  }

  function Insert(x: string, xs: seq<string>): (r: seq<string>)
    requires Sorted(xs)
    ensures Sorted(r) && multiset(r) == multiset(xs) + multiset{x}
  {
    if xs == [] then [x]
    else if !Less(xs[0], x) then
      SmallestFirst(x, xs);
      [x] + xs
    else
      assert xs == [xs[0]] + xs[1..];
      var rest := Insert(x, xs[1..]);
      InsertBehind(x, xs, rest);
      [xs[0]] + rest
  }

  lemma {:induction false} SmallestFirst(x: string, xs: seq<string>)
    requires Sorted(xs) && xs != [] && !Less(xs[0], x)
    ensures Sorted([x] + xs)
  {
    forall j | 0 <= j < |xs| ensures !Less(xs[j], x) {
      if Less(xs[j], x) {
        LessIsTotal(xs[0], x);
        LessIsTotal(xs[j], xs[0]);
        if xs[0] != x {
          LessIsTransitive(xs[j], x, xs[0]);
        }
      }
    }
  }

  lemma {:induction false} InsertBehind(x: string, xs: seq<string>, rest: seq<string>)
    requires Sorted(xs) && xs != [] && Less(xs[0], x) && Sorted(rest)
    requires multiset(rest) == multiset(xs[1..]) + multiset{x}
    ensures Sorted([xs[0]] + rest)
  {
    forall j | 0 <= j < |rest| ensures !Less(rest[j], xs[0]) {
      assert rest[j] in multiset(rest);
      if rest[j] == x {
        LessIsTotal(xs[0], x);
      } else {
        assert rest[j] in multiset(xs[1..]);
      }
    }
  }

  // The library sort, as a function.
  function Sort(xs: seq<string>): (r: seq<string>)
    ensures Sorted(r) && multiset(r) == multiset(xs)
  {
    if xs == [] then []
    else
      assert xs == [xs[0]] + xs[1..];
      Insert(xs[0], Sort(xs[1..]))
  }

  lemma SameMultiset<T>(xs: seq<T>, ys: seq<T>)
    requires multiset(xs) == multiset(ys)
    ensures Elements(xs) == Elements(ys) && |xs| == |ys|
  {
    forall x ensures x in Elements(xs) <==> x in Elements(ys) {
      assert x in Elements(xs) <==> x in multiset(xs);
      assert x in Elements(ys) <==> x in multiset(ys);
    }
    assert |multiset(xs)| == |multiset(ys)|;
  }

  lemma {:induction false} DistinctOnce<T>(xs: seq<T>, x: T)
    requires Distinct(xs)
    ensures multiset(xs)[x] <= 1
  {
    if xs != [] {
      var n := |xs| - 1;
      DistinctOnce(xs[..n], x);
      assert xs == xs[..n] + [xs[n]];
      assert xs[n] !in xs[..n];
    }
  }

  lemma RepeatedTwice<T>(xs: seq<T>, i: nat, j: nat)
    requires i < j < |xs| && xs[i] == xs[j]
    ensures multiset(xs)[xs[i]] >= 2
  {
    assert xs == xs[..i] + [xs[i]] + xs[i + 1..j] + [xs[j]] + xs[j + 1..];
  }

  // For instance, and whatever the order in which they came.
  lemma SortExample()
    ensures Sort(["b_r", "a_r"]) == Sort(["a_r", "b_r"]) == ["a_r", "b_r"]
  {
    assert Less("a_r", "b_r") && !Less("b_r", "a_r");
    var xs, ys := ["b_r", "a_r"], ["a_r", "b_r"];
    assert xs[1..] == ["a_r"] && ys[1..] == ["b_r"] && ["a_r"][1..] == [] && ["b_r"][1..] == [];
  }

  // Sorting distinct strings lists them in ascending order.
  lemma {:induction false} SortDistinct(xs: seq<string>)
    requires Distinct(xs)
    ensures Ascending(Sort(xs)) && Elements(Sort(xs)) == Elements(xs)
  {
    var ys := Sort(xs);
    SameMultiset(xs, ys);
    forall i, j | 0 <= i < j < |ys| ensures Less(ys[i], ys[j]) {
      LessIsTotal(ys[i], ys[j]);
      if ys[i] == ys[j] {
        DistinctOnce(xs, ys[i]);
        RepeatedTwice(ys, i, j);
      }
    }
  }

  // An ascending list is determined by its elements.
  lemma {:induction false} AscendingUnique(xs: seq<string>, ys: seq<string>)
    requires Ascending(xs) && Ascending(ys) && Elements(xs) == Elements(ys)
    ensures xs == ys
    decreases |xs|
  {
    assert xs != [] ==> xs[0] in Elements(xs);
    assert ys != [] ==> ys[0] in Elements(ys);
    if xs != [] {
      LeastFirst(xs, ys);
      LeastFirst(ys, xs);
      LessIsTotal(xs[0], ys[0]);
      TailElements(xs);
      TailElements(ys);
      AscendingUnique(xs[1..], ys[1..]);
      assert xs == [xs[0]] + xs[1..] && ys == [ys[0]] + ys[1..];
    }
  }

  lemma LeastFirst(xs: seq<string>, ys: seq<string>)
    requires Ascending(xs) && xs != [] && ys != [] && Elements(xs) == Elements(ys)
    ensures xs[0] == ys[0] || Less(xs[0], ys[0])
  {
    assert ys[0] in Elements(ys);
    var i :| 0 <= i < |xs| && xs[i] == ys[0];
  }

  lemma TailElements(xs: seq<string>)
    requires Ascending(xs) && xs != []
    ensures Elements(xs[1..]) == Elements(xs) - {xs[0]}
  {
    LessIsTotal(xs[0], xs[0]);
    assert xs == [xs[0]] + xs[1..];
    assert forall i :: 0 <= i < |xs| - 1 ==> xs[1..][i] == xs[i + 1] != xs[0];
    assert Elements(xs) == {xs[0]} + Elements(xs[1..]);
  }
}
