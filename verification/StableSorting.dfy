/** `Array.prototype.sort`: what a stable sort is, and that there is only one. */
module StableSorting {

  /** A comparator JavaScript's sort may rely on: a strict weak order. */
  ghost predicate IsConsistent<T(!new)>(before: (T, T) -> bool) {
    (forall a :: !before(a, a)) &&
    (forall a, b, c :: before(a, c) ==> before(a, b) || before(b, c)) &&
    (forall a, b :: before(a, b) ==> !before(b, a))
  }

  predicate Ties<T>(a: T, b: T, before: (T, T) -> bool) {
    !before(a, b) && !before(b, a)
  }

  predicate IsSorted<T>(s: seq<T>, before: (T, T) -> bool) {
    forall i, j :: 0 <= i < j < |s| ==> !before(s[j], s[i])
  }

  /** The elements that tie with `x`, in their order. */
  function TiedWith<T>(s: seq<T>, x: T, before: (T, T) -> bool): seq<T> {
    if s == [] then []
    else (if Ties(s[0], x, before) then [s[0]] else []) + TiedWith(s[1..], x, before)
  }

  /** Sorted, with the very elements of `s`, those that tie in the order of `s`. */
  ghost predicate IsStableSortOf<T(!new)>(sorted: seq<T>, s: seq<T>, before: (T, T) -> bool) {
    IsSorted(sorted, before) && forall x :: TiedWith(sorted, x, before) == TiedWith(s, x, before)
  }

  function Insert<T>(x: T, s: seq<T>, before: (T, T) -> bool): seq<T> {
    if s == [] || !before(s[0], x) then [x] + s else [s[0]] + Insert(x, s[1..], before)
  }

  /** `Array.prototype.sort`. */
  function StableSort<T>(s: seq<T>, before: (T, T) -> bool): seq<T> {
    if s == [] then [] else Insert(s[0], StableSort(s[1..], before), before)
  }

  lemma {:induction false} InsertKeepsMembers<T>(x: T, s: seq<T>, before: (T, T) -> bool)
    ensures multiset(Insert(x, s, before)) == multiset{x} + multiset(s)
  {
    if s != [] && before(s[0], x) {
      InsertKeepsMembers(x, s[1..], before);
      assert s == [s[0]] + s[1..];
    }
  }

  lemma {:induction false} InsertSorts<T(!new)>(x: T, s: seq<T>, before: (T, T) -> bool)
    requires IsConsistent(before) && IsSorted(s, before)
    ensures IsSorted(Insert(x, s, before), before)
  {
    if s != [] && before(s[0], x) {
      InsertSorts(x, s[1..], before);
      var rest := Insert(x, s[1..], before);
      InsertKeepsMembers(x, s[1..], before);
      forall j | 0 <= j < |rest|
        ensures !before(rest[j], s[0])
      {
        assert rest[j] in multiset(rest);
        assert rest[j] == x || rest[j] in s[1..];
      }
    } else if s != [] {
      forall j | 0 <= j < |s|
        ensures !before(s[j], x)
      {
        assert !before(s[j], s[0]) && !before(s[0], x);
      }
    }
  }

  lemma {:induction false} TiedWithSplits<T>(a: seq<T>, b: seq<T>, x: T, before: (T, T) -> bool)
    ensures TiedWith(a + b, x, before) == TiedWith(a, x, before) + TiedWith(b, x, before)
  {
    if a == [] {
      assert a + b == b;
    } else {
      TiedWithSplits(a[1..], b, x, before);
      assert (a + b)[0] == a[0] && (a + b)[1..] == a[1..] + b;
      var first := if Ties(a[0], x, before) then [a[0]] else [];
      assert first + (TiedWith(a[1..], x, before) + TiedWith(b, x, before))
          == first + TiedWith(a[1..], x, before) + TiedWith(b, x, before);
    }
  }

  lemma {:induction false} InsertIsStable<T(!new)>(x: T, s: seq<T>, y: T, before: (T, T) -> bool)
    requires IsConsistent(before)
    ensures TiedWith(Insert(x, s, before), y, before) == TiedWith([x] + s, y, before)
  {
    if s != [] && before(s[0], x) {
      InsertIsStable(x, s[1..], y, before);
      TiedWithSplits([s[0]], Insert(x, s[1..], before), y, before);
      TiedWithSplits([x], s, y, before);
      TiedWithSplits([x], s[1..], y, before);
      assert ([x] + s)[1..] == s && ([x] + s[1..])[1..] == s[1..];
    }
  }

  lemma {:induction false} StableSortIsStable<T(!new)>(s: seq<T>, before: (T, T) -> bool)
    requires IsConsistent(before)
    ensures IsStableSortOf(StableSort(s, before), s, before)
    ensures multiset(StableSort(s, before)) == multiset(s)
  {
    if s != [] {
      var rest := StableSort(s[1..], before);
      StableSortIsStable(s[1..], before);
      InsertSorts(s[0], rest, before);
      InsertKeepsMembers(s[0], rest, before);
      assert s == [s[0]] + s[1..];
      forall y ensures TiedWith(StableSort(s, before), y, before) == TiedWith(s, y, before) {
        InsertIsStable(s[0], rest, y, before);
        TiedWithSplits([s[0]], rest, y, before);
        TiedWithSplits([s[0]], s[1..], y, before);
      }
    }
  }

  lemma {:induction false} TiedAreMembers<T>(s: seq<T>, x: T, before: (T, T) -> bool)
    ensures forall y :: y in TiedWith(s, x, before) ==> y in s
  {
    if s != [] {
      TiedAreMembers(s[1..], x, before);
    }
  }

  lemma {:induction false} MembersAreTied<T(!new)>(s: seq<T>, x: T, before: (T, T) -> bool)
    requires IsConsistent(before) && x in s
    ensures x in TiedWith(s, x, before)
  {
    if s[0] != x {
      MembersAreTied(s[1..], x, before);
    }
  }

  lemma SortedHead<T(!new)>(s: seq<T>, x: T, before: (T, T) -> bool)
    requires IsConsistent(before) && IsSorted(s, before) && x in s
    ensures !before(x, s[0])
  {
  }

  lemma {:induction false} TiesGiveSameClass<T(!new)>(s: seq<T>, x: T, y: T, before: (T, T) -> bool)
    requires IsConsistent(before) && Ties(x, y, before)
    ensures TiedWith(s, x, before) == TiedWith(s, y, before)
  {
    if s != [] {
      TiesGiveSameClass(s[1..], x, y, before);
    }
  }

  lemma SameClassesSameMembers<T(!new)>(a: seq<T>, b: seq<T>, before: (T, T) -> bool)
    requires IsConsistent(before)
    requires forall x :: TiedWith(a, x, before) == TiedWith(b, x, before)
    ensures forall x :: x in a ==> x in b
  {
    forall x | x in a
      ensures x in b
    {
      MembersAreTied(a, x, before);
      TiedAreMembers(b, x, before);
    }
  }

  /** There is only one stable sort, so any correct implementation of `sort` gives this result. */
  lemma {:induction false} StableSortsAreEqual<T(!new)>(a: seq<T>, b: seq<T>, before: (T, T) -> bool)
    requires IsConsistent(before) && IsSorted(a, before) && IsSorted(b, before)
    requires forall x :: TiedWith(a, x, before) == TiedWith(b, x, before)
    ensures a == b
    decreases |a|
  {
    SameClassesSameMembers(a, b, before);
    SameClassesSameMembers(b, a, before);
    assert b == [] || b[0] in b;
    if a != [] {
      assert a[0] in b;
      assert b[0] in a;
      SortedHead(b, a[0], before);
      SortedHead(a, b[0], before);
      TiesGiveSameClass(b, a[0], b[0], before);
      assert TiedWith(a, a[0], before)[0] == a[0] && TiedWith(b, b[0], before)[0] == b[0];
      forall x ensures TiedWith(a[1..], x, before) == TiedWith(b[1..], x, before) {
        var first := if Ties(a[0], x, before) then [a[0]] else [];
        assert TiedWith(a, x, before) == first + TiedWith(a[1..], x, before);
        assert TiedWith(b, x, before) == first + TiedWith(b[1..], x, before);
        assert TiedWith(a, x, before)[|first|..] == TiedWith(a[1..], x, before);
        assert TiedWith(b, x, before)[|first|..] == TiedWith(b[1..], x, before);
      }
      StableSortsAreEqual(a[1..], b[1..], before);
      assert a == [a[0]] + a[1..] && b == [b[0]] + b[1..];
    }
  }

  /** A stable sort by a coarser order keeps the order of what ties under a finer one. */
  lemma {:induction false} CoarserClassHoldsFiner<T(!new)>(s: seq<T>, x: T, coarse: (T, T) -> bool, fine: (T, T) -> bool)
    requires forall a, b :: Ties(a, b, fine) ==> Ties(a, b, coarse)
    ensures TiedWith(TiedWith(s, x, coarse), x, fine) == TiedWith(s, x, fine)
  {
    if s != [] {
      CoarserClassHoldsFiner(s[1..], x, coarse, fine);
      var rest := TiedWith(s[1..], x, coarse);
      if Ties(s[0], x, coarse) {
        TiedWithSplits([s[0]], rest, x, fine);
        assert TiedWith(s, x, coarse) == [s[0]] + rest;
      } else {
        assert TiedWith(s, x, coarse) == rest;
        assert !Ties(s[0], x, fine);
      }
    }
  }

  lemma SortKeepsFinerTies<T(!new)>(s: seq<T>, x: T, coarse: (T, T) -> bool, fine: (T, T) -> bool)
    requires IsConsistent(coarse)
    requires forall a, b :: Ties(a, b, fine) ==> Ties(a, b, coarse)
    ensures TiedWith(StableSort(s, coarse), x, fine) == TiedWith(s, x, fine)
  {
    StableSortIsStable(s, coarse);
    CoarserClassHoldsFiner(StableSort(s, coarse), x, coarse, fine);
    CoarserClassHoldsFiner(s, x, coarse, fine);
  }
}
