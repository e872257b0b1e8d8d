// A loop that ranges over the saved header of a slice while it overwrites elements of the
// current slice, or removes them by moving the last element into the hole. This is the shape
// of both loops of applyOverrides: over the rules of a group and over the groups of an item.
module SwapScan {
  import opened Words

  // What the loop body does about one element.
  datatype Action<+T> = Keep | Replace(value: T) | Remove | Abort

  // Overwrite position i with the last element and drop the last position.
  function SwapRemove<T>(s: seq<T>, i: nat): seq<T>
    requires i < |s|
  {
    s[i := s[|s| - 1]][..|s| - 1]
  }

  // The slice left when the loop, at position r of the saved header, runs to its end.
  // Positions are those of the saved header, so a write or a removal can be out of range in
  // the current slice; None stands for the run-time panic that follows.
  function Scan<T>(act: T -> Action<T>, saved: seq<T>, live: seq<T>, r: nat): Option<seq<T>>
    requires r <= |saved|
    decreases |saved| - r
  {
    if r == |saved| then Some(live)
    else
      match act(saved[r])
      case Keep => Scan(act, saved, live, r + 1)
      case Abort => None
      case Replace(x) => if r < |live| then Scan(act, saved, live[r := x], r + 1) else None
      case Remove => if r < |live| then Scan(act, saved, SwapRemove(live, r), r + 1) else None
  }

  // Number of elements the loop removes.
  function Removed<T>(act: T -> Action<T>, s: seq<T>): (n: nat)
    ensures n <= |s|
  {
    if s == [] then 0 else Removed(act, s[..|s| - 1]) + (if act(s[|s| - 1]).Remove? then 1 else 0)
  }

  // What the loop is meant to leave: the removed elements dropped, the others rewritten.
  function Kept<T>(act: T -> Action<T>, s: seq<T>): seq<T> {
    if s == [] then []
    else
      var last := s[|s| - 1];
      Kept(act, s[..|s| - 1])
      + match act(last)
        case Replace(x) => [x]
        case Remove => []
        case _ => [last]
  }

  // Every element the loop acts on still lies inside the current slice when it is reached.
  ghost predicate InBounds<T>(act: T -> Action<T>, s: seq<T>) {
    forall r :: 0 <= r < |s| ==> InBoundsAt(act, s, r)
  }

  predicate InBoundsAt<T>(act: T -> Action<T>, s: seq<T>, r: nat)
    requires r < |s|
  {
    act(s[r]).Keep? || (!act(s[r]).Abort? && r + Removed(act, s[..r]) < |s|)
  }

  // The final element at position j: a removed one has been replaced by what was the last
  // element at the time, which depends only on how many removals came before.
  function LayoutAt<T>(act: T -> Action<T>, s: seq<T>, j: nat): T
    requires j < |s|
  {
    match act(s[j])
    case Replace(x) => x
    case Remove => s[|s| - 1 - Removed(act, s[..j])]
    case _ => s[j]
  }

  // The loop invariant, as a relation between the saved elements and the current slice.
  ghost predicate Progress<T>(act: T -> Action<T>, saved: seq<T>, live: seq<T>, r: nat) {
    && r <= |saved|
    && |live| == |saved| - Removed(act, saved[..r])
    && (forall k :: r <= k < |live| ==> live[k] == saved[k])
    && (forall k :: 0 <= k < r && k < |live| ==> live[k] == LayoutAt(act, saved, k))
    && Contents(act, saved, live, r)
  }

  ghost predicate Contents<T>(act: T -> Action<T>, saved: seq<T>, live: seq<T>, r: nat)
    requires r <= |saved|
  {
    multiset(live) == multiset(Kept(act, saved[..r])) + multiset(saved[r..])
  }

  // The slice after one turn of the loop that stays in range.
  function Turn<T>(a: Action<T>, live: seq<T>, r: nat): seq<T>
    requires a.Replace? || a.Remove? ==> r < |live|
  {
    match a
    case Replace(x) => live[r := x]
    case Remove => SwapRemove(live, r)
    case _ => live
  }

  lemma ProgressStep<T>(act: T -> Action<T>, saved: seq<T>, live: seq<T>, r: nat)
    requires Progress(act, saved, live, r) && r < |saved| && InBoundsAt(act, saved, r)
    ensures !act(saved[r]).Keep? ==> r < |live|
    ensures Progress(act, saved, Turn(act(saved[r]), live, r), r + 1)
  {
    hide Contents, Kept;
    ContentsStep(act, saved, live, r);
    assert saved[..r + 1][..r] == saved[..r];
  }

  // What an element adds to the contents meant to be left.
  function Left<T>(a: Action<T>, x: T): multiset<T> {
    match a
    case Replace(y) => multiset{y}
    case Remove => multiset{}
    case _ => multiset{x}
  }

  lemma KeptNext<T>(act: T -> Action<T>, saved: seq<T>, r: nat)
    requires r < |saved|
    ensures multiset(Kept(act, saved[..r + 1])) == multiset(Kept(act, saved[..r])) + Left(act(saved[r]), saved[r])
  {
    assert saved[..r + 1][..r] == saved[..r];
  }

  lemma RestNext<T>(saved: seq<T>, r: nat)
    requires r < |saved|
    ensures multiset(saved[r..]) == multiset{saved[r]} + multiset(saved[r + 1..])
  {
    assert saved[r..] == [saved[r]] + saved[r + 1..];
  }

  lemma TurnContents<T>(a: Action<T>, live: seq<T>, r: nat, x: T)
    requires !a.Abort? && (!a.Keep? ==> r < |live| && live[r] == x)
    ensures a.Keep? ==> multiset(Turn(a, live, r)) == multiset(live)
    ensures !a.Keep? ==> x in multiset(live) && multiset(Turn(a, live, r)) == multiset(live) - multiset{x} + Left(a, x)
  {
    hide SwapRemove;
    match a {
      case Keep =>
      case Replace(y) => UpdateContents(live, r, y);
      case Remove => SwapRemoveContents(live, r);
    }
  }

  lemma ContentsStep<T>(act: T -> Action<T>, saved: seq<T>, live: seq<T>, r: nat)
    requires r < |saved| && Contents(act, saved, live, r) && !act(saved[r]).Abort?
    requires !act(saved[r]).Keep? ==> r < |live| && live[r] == saved[r]
    ensures Contents(act, saved, Turn(act(saved[r]), live, r), r + 1)
  {
    hide Turn, Kept;
    KeptNext(act, saved, r);
    RestNext(saved, r);
    TurnContents(act(saved[r]), live, r, saved[r]);
  }

  lemma SnocContents<T>(s: seq<T>, x: T)
    ensures multiset(s + [x]) == multiset(s) + multiset{x}
  {
  }

  lemma Cancel<T>(a: multiset<T>, b: multiset<T>, x: T)
    requires a + multiset{x} == b
    ensures a == b - multiset{x}
  {
  }

  lemma SwapRemoveContents<T>(s: seq<T>, i: nat)
    requires i < |s|
    ensures multiset(SwapRemove(s, i)) == multiset(s) - multiset{s[i]}
  {
    var last, t := s[|s| - 1], SwapRemove(s, i);
    assert s[i := last] == t + [last];
    SnocContents(t, last);
    UpdateContents(s, i, last);
    SwapOne(multiset(t), multiset(s), s[i], last);
  }

  lemma SwapOne<T>(t: multiset<T>, s: multiset<T>, x: T, y: T)
    requires t + multiset{y} == s - multiset{x} + multiset{y}
    ensures t == s - multiset{x}
  {
    Cancel(t, s - multiset{x} + multiset{y}, y);
    Cancel(s - multiset{x}, s - multiset{x} + multiset{y}, y);
  }

  lemma MiddleContents<T>(before: seq<T>, x: T, after: seq<T>)
    ensures multiset(before + [x] + after) == multiset(before) + multiset(after) + multiset{x}
  {
  }

  lemma UpdateContents<T>(s: seq<T>, i: nat, x: T)
    requires i < |s|
    ensures multiset(s[i := x]) == multiset(s) - multiset{s[i]} + multiset{x}
  {
    var before, after := s[..i], s[i + 1..];
    assert s == before + [s[i]] + after;
    assert s[i := x] == before + [x] + after;
    MiddleContents(before, s[i], after);
    MiddleContents(before, x, after);
    Cancel(multiset(before) + multiset(after), multiset(s), s[i]);
  }

  // From any point of the loop: it ends without a panic exactly when the rest is in bounds,
  // and then with the invariant at its end.
  lemma {:induction false} ScanFrom<T>(act: T -> Action<T>, saved: seq<T>, live: seq<T>, r: nat)
    requires Progress(act, saved, live, r)
    ensures Scan(act, saved, live, r).Some? <==> forall k :: r <= k < |saved| ==> InBoundsAt(act, saved, k)
    ensures Scan(act, saved, live, r).Some? ==> Progress(act, saved, Scan(act, saved, live, r).value, |saved|)
    decreases |saved| - r
  {
    if r < |saved| {
      if InBoundsAt(act, saved, r) {
        ProgressStep(act, saved, live, r);
        ScanFrom(act, saved, Turn(act(saved[r]), live, r), r + 1);
      }
    }
  }

  // The exact bound, the exact contents and the exact layout of a whole run of the loop.
  lemma {:induction false} ScanCharacterised<T>(act: T -> Action<T>, s: seq<T>)
    ensures Scan(act, s, s, 0).Some? <==> InBounds(act, s)
    ensures InBounds(act, s) ==>
              var out := Scan(act, s, s, 0).value;
              && |out| == |s| - Removed(act, s)
              && multiset(out) == multiset(Kept(act, s))
              && (forall j :: 0 <= j < |out| ==> out[j] == LayoutAt(act, s, j))
  {
    assert s[..0] == [] && s[0..] == s && s[..|s|] == s;
    ScanFrom(act, s, s, 0);
  }

  // An element that a removal moves is never acted on: had it been, its own position would
  // have been out of range.
  lemma MovedIsUntouched<T>(act: T -> Action<T>, s: seq<T>, j: nat)
    requires InBounds(act, s) && j < |s| && act(s[j]).Remove?
    requires j < |s| - 1 - Removed(act, s[..j])
    ensures act(s[|s| - 1 - Removed(act, s[..j])]).Keep?
  {
    var k := |s| - 1 - Removed(act, s[..j]);
    assert s[..j + 1][..j] == s[..j];
    RemovedMonotone(act, s, j + 1, k);
    assert InBoundsAt(act, s, k);
  }

  lemma {:induction false} RemovedMonotone<T>(act: T -> Action<T>, s: seq<T>, i: nat, j: nat)
    requires i <= j <= |s|
    ensures Removed(act, s[..i]) <= Removed(act, s[..j])
    decreases j
  {
    if i < j {
      RemovedMonotone(act, s, i, j - 1);
      assert s[..j][..j - 1] == s[..j - 1];
    }
  }

  // A loop that removes everything had a single element to begin with.
  lemma {:induction false} EmptiedOnlyIfSingle<T>(act: T -> Action<T>, s: seq<T>)
    requires InBounds(act, s) && s != [] && Removed(act, s) == |s|
    ensures |s| == 1
  {
    assert InBoundsAt(act, s, |s| - 1);
  }

  lemma {:induction false} NothingToDo<T>(act: T -> Action<T>, saved: seq<T>, live: seq<T>, r: nat)
    requires r <= |saved| && forall k :: r <= k < |saved| ==> act(saved[k]).Keep?
    ensures Scan(act, saved, live, r) == Some(live)
    decreases |saved| - r
  {
    if r < |saved| {
      NothingToDo(act, saved, live, r + 1);
    }
  }

  // A property of the elements that the loop body keeps holds of what is left.
  lemma {:induction false} ScanKeeps<T>(good: T -> bool, act: T -> Action<T>, saved: seq<T>, live: seq<T>, r: nat)
    requires r <= |saved| && (forall k :: 0 <= k < |live| ==> good(live[k]))
    requires forall k :: 0 <= k < |saved| && act(saved[k]).Replace? ==> good(act(saved[k]).value)
    ensures Scan(act, saved, live, r).Some? ==>
              forall k :: 0 <= k < |Scan(act, saved, live, r).value| ==> good(Scan(act, saved, live, r).value[k])
    decreases |saved| - r
  {
    if r < |saved| && (act(saved[r]).Keep? || (!act(saved[r]).Abort? && r < |live|)) {
      ScanKeeps(good, act, saved, Turn(act(saved[r]), live, r), r + 1);
    }
  }

  // ---------------------------------------------------------------------------------------
  // The loop commutes with a change of representation of the elements
  // ---------------------------------------------------------------------------------------

  function Map<T, U>(f: T -> U, s: seq<T>): seq<U> {
    seq(|s|, i requires 0 <= i < |s| => f(s[i]))
  }

  function MapAction<T, U>(f: T -> U, a: Action<T>): Action<U> {
    match a
    case Keep => Keep
    case Replace(x) => Replace(f(x))
    case Remove => Remove
    case Abort => Abort
  }

  lemma {:induction false} ScanNatural<T, U>(f: T -> U, act: T -> Action<T>, act': U -> Action<U>,
                                            saved: seq<T>, live: seq<T>, r: nat)
    requires r <= |saved|
    requires forall k :: 0 <= k < |saved| ==> act'(f(saved[k])) == MapAction(f, act(saved[k]))
    ensures Scan(act', Map(f, saved), Map(f, live), r)
         == if Scan(act, saved, live, r).None? then None else Some(Map(f, Scan(act, saved, live, r).value))
    decreases |saved| - r
  {
    if r < |saved| {
      assert Map(f, saved)[r] == f(saved[r]);
      match act(saved[r]) {
        case Keep => ScanNatural(f, act, act', saved, live, r + 1);
        case Abort =>
        case Replace(x) =>
          if r < |live| {
            assert Map(f, live)[r := f(x)] == Map(f, live[r := x]);
            ScanNatural(f, act, act', saved, live[r := x], r + 1);
          }
        case Remove =>
          if r < |live| {
            assert SwapRemove(Map(f, live), r) == Map(f, SwapRemove(live, r));
            ScanNatural(f, act, act', saved, SwapRemove(live, r), r + 1);
          }
      }
    }
  }
}
