/**
  Sorting by a comparison function: the stable sort as a function, its in-place form, and
  why the outcome is determined by the input.
 */
module Sorting {

  /** A comparison that sorts can work with: ties are allowed and behave like equality. */
  ghost predicate StrictWeak<T(!new)>(less: (T, T) -> bool) {
    && (forall x :: !less(x, x))
    && (forall x, y, z :: less(x, y) && less(y, z) ==> less(x, z))
    && (forall x, y, z :: !less(x, y) && !less(y, z) ==> !less(x, z))
  }

  /** No ties between different elements. */
  ghost predicate StrictTotal<T(!new)>(less: (T, T) -> bool) {
    StrictWeak(less) && forall x, y :: x != y ==> less(x, y) || less(y, x)
  }

  /** In an order without ties the weak part comes for free. */
  lemma {:induction false} TotalOrder<T(!new)>(less: (T, T) -> bool)
    requires forall x :: !less(x, x)
    requires forall x, y, z :: less(x, y) && less(y, z) ==> less(x, z)
    requires forall x, y :: x != y ==> less(x, y) || less(y, x)
    ensures StrictTotal(less)
  {
  }

  predicate Tied<T>(less: (T, T) -> bool, x: T, y: T) {
    !less(x, y) && !less(y, x)
  }

  ghost predicate Sorted<T>(s: seq<T>, less: (T, T) -> bool) {
    forall i, j :: 0 <= i < j < |s| ==> !less(s[j], s[i])
  }

  /** The elements tied with `x`, in order. */
  function TiedWith<T>(s: seq<T>, less: (T, T) -> bool, x: T): seq<T> {
    if s == [] then []
    else TiedWith(s[..|s| - 1], less, x) + (if Tied(less, s[|s| - 1], x) then [s[|s| - 1]] else [])
  }

  /** `x` put behind everything it does not have to precede. */
  function InsertInto<T>(s: seq<T>, x: T, less: (T, T) -> bool): (r: seq<T>)
    ensures |r| == |s| + 1
  {
    if s == [] || !less(x, s[|s| - 1]) then s + [x]
    else InsertInto(s[..|s| - 1], x, less) + [s[|s| - 1]]
  }

  function StableSort<T>(s: seq<T>, less: (T, T) -> bool): (r: seq<T>)
    ensures |r| == |s|
  {
    if s == [] then [] else InsertInto(StableSort(s[..|s| - 1], less), s[|s| - 1], less)
  }

  lemma {:induction false} InsertIntoMultiset<T>(s: seq<T>, x: T, less: (T, T) -> bool)
    ensures multiset(InsertInto(s, x, less)) == multiset(s) + multiset{x}
  {
    if s != [] && less(x, s[|s| - 1]) {
      assert s == s[..|s| - 1] + [s[|s| - 1]];
      InsertIntoMultiset(s[..|s| - 1], x, less);
    }
  }

  lemma {:induction false} InsertIntoSorted<T(!new)>(s: seq<T>, x: T, less: (T, T) -> bool)
    requires StrictWeak(less) && Sorted(s, less)
    ensures Sorted(InsertInto(s, x, less), less)
  {
    var r := InsertInto(s, x, less);
    if s != [] && less(x, s[|s| - 1]) {
      var init, last := s[..|s| - 1], s[|s| - 1];
      var t := InsertInto(init, x, less);
      InsertIntoSorted(init, x, less);
      InsertIntoMultiset(init, x, less);
      forall i | 0 <= i < |t|
        ensures !less(last, t[i])
      {
        assert t[i] in multiset(t);
        assert t[i] in multiset(init) || t[i] == x;
      }
    } else if s != [] {
      forall i | 0 <= i < |s|
        ensures !less(x, s[i])
      {
        assert !less(s[|s| - 1], s[i]);
      }
    }
  }

  lemma {:induction false} InsertIntoTied<T(!new)>(s: seq<T>, x: T, less: (T, T) -> bool, y: T)
    requires StrictWeak(less)
    ensures TiedWith(InsertInto(s, x, less), less, y) == TiedWith(s + [x], less, y)
  {
    if s != [] && less(x, s[|s| - 1]) {
      var init, last := s[..|s| - 1], s[|s| - 1];
      var t := InsertInto(init, x, less);
      InsertIntoTied(init, x, less, y);
      assert (t + [last])[..|t|] == t && (init + [x])[..|init|] == init && (s + [x])[..|s|] == s;
      assert !(Tied(less, x, y) && Tied(less, last, y));
    }
  }

  lemma {:induction false} TiedWithAppend<T>(s: seq<T>, x: T, less: (T, T) -> bool, y: T)
    ensures TiedWith(s + [x], less, y) == TiedWith(s, less, y) + (if Tied(less, x, y) then [x] else [])
  {
    assert (s + [x])[..|s|] == s;
  }

  lemma {:induction false} StableSortTied<T(!new)>(s: seq<T>, less: (T, T) -> bool, y: T)
    requires StrictWeak(less)
    ensures TiedWith(StableSort(s, less), less, y) == TiedWith(s, less, y)
  {
    if s != [] {
      var init, x := s[..|s| - 1], s[|s| - 1];
      StableSortTied(init, less, y);
      InsertIntoTied(StableSort(init, less), x, less, y);
      TiedWithAppend(StableSort(init, less), x, less, y);
    }
  }

  /** The stable sort permutes its input, sorts it, and keeps ties in input order. */
  lemma {:induction false} StableSortCorrect<T(!new)>(s: seq<T>, less: (T, T) -> bool)
    requires StrictWeak(less)
    ensures multiset(StableSort(s, less)) == multiset(s)
    ensures Sorted(StableSort(s, less), less)
    ensures forall y :: TiedWith(StableSort(s, less), less, y) == TiedWith(s, less, y)
  {
    hide Sorted, StrictWeak;
    forall y
      ensures TiedWith(StableSort(s, less), less, y) == TiedWith(s, less, y)
    {
      StableSortTied(s, less, y);
    }
    if s == [] {
      EmptySorted(less);
    } else {
      var init, x := s[..|s| - 1], s[|s| - 1];
      StableSortCorrect(init, less);
      InsertIntoMultiset(StableSort(init, less), x, less);
      InsertIntoSorted(StableSort(init, less), x, less);
      assert s == init + [x];
    }
  }

  lemma {:induction false} EmptySorted<T>(less: (T, T) -> bool)
    ensures Sorted([], less)
  {
  }

  /** A sorted sequence whose ties are those of `s`, in order, is the stable sort of `s`. */
  lemma {:induction false} StableSortUnique<T(!new)>(s: seq<T>, r: seq<T>, less: (T, T) -> bool)
    requires StrictWeak(less) && Sorted(r, less)
    requires forall y :: TiedWith(r, less, y) == TiedWith(s, less, y)
    ensures r == StableSort(s, less)
  {
    StableSortCorrect(s, less);
    SortedTiesDetermine(r, StableSort(s, less), less);
  }

  lemma {:induction false} TiedMembers<T(!new)>(s: seq<T>, less: (T, T) -> bool, x: T)
    requires StrictWeak(less)
    ensures forall y :: y in TiedWith(s, less, x) <==> y in s && Tied(less, y, x)
  {
    if s != [] {
      var init, last := s[..|s| - 1], s[|s| - 1];
      TiedMembers(init, less, x);
      assert forall y :: y in s <==> y in init || y == last;
    }
  }

  lemma {:induction false} TiedInit<T>(s: seq<T>, less: (T, T) -> bool, y: T)
    requires s != []
    ensures var t := TiedWith(s, less, y);
            TiedWith(s[..|s| - 1], less, y) ==
            if Tied(less, s[|s| - 1], y) then t[..|t| - 1] else t
  {
  }

  /** Sorted sequences with the same ties are equal. */
  lemma {:induction false} SortedTiesDetermine<T(!new)>(a: seq<T>, b: seq<T>, less: (T, T) -> bool)
    requires StrictWeak(less) && Sorted(a, less) && Sorted(b, less)
    requires forall y :: TiedWith(a, less, y) == TiedWith(b, less, y)
    ensures a == b
    decreases |a|
  {
    if a == [] || b == [] {
      EmptyTies(a, b, less);
    } else {
      var x, y := a[|a| - 1], b[|b| - 1];
      LastTied(a, b, less);
      LastTied(b, a, less);
      assert TiedWith(a, less, x)[|TiedWith(a, less, x)| - 1] == x;
      assert TiedWith(b, less, x)[|TiedWith(b, less, x)| - 1] == y;
      var a', b' := a[..|a| - 1], b[..|b| - 1];
      forall z
        ensures TiedWith(a', less, z) == TiedWith(b', less, z)
      {
        TiedInit(a, less, z);
        TiedInit(b, less, z);
      }
      SortedTiesDetermine(a', b', less);
      assert a == a' + [x] && b == b' + [x];
    }
  }

  lemma {:induction false} EmptyTies<T(!new)>(a: seq<T>, b: seq<T>, less: (T, T) -> bool)
    requires StrictWeak(less) && (a == [] || b == [])
    requires forall y :: TiedWith(a, less, y) == TiedWith(b, less, y)
    ensures a == b
  {
    if a != [] { assert TiedWith(b, less, a[|a| - 1]) == []; }
    if b != [] { assert TiedWith(a, less, b[|b| - 1]) == []; }
  }

  /** The last element of `b` is not before the last of `a`, as `b` contains a tie of it. */
  lemma {:induction false} LastTied<T(!new)>(a: seq<T>, b: seq<T>, less: (T, T) -> bool)
    requires StrictWeak(less) && Sorted(b, less) && a != [] && b != []
    requires TiedWith(a, less, a[|a| - 1]) == TiedWith(b, less, a[|a| - 1])
    ensures !less(b[|b| - 1], a[|a| - 1])
  {
    var x := a[|a| - 1];
    TiedMembers(a, less, x);
    TiedMembers(b, less, x);
    assert x in TiedWith(b, less, x);
    var i :| 0 <= i < |b| && b[i] == x;
    if i < |b| - 1 { assert !less(b[|b| - 1], b[i]); }
  }

  lemma {:induction false} LastNotBefore<T(!new)>(a: seq<T>, b: seq<T>, less: (T, T) -> bool)
    requires Sorted(b, less) && a != [] && b != [] && StrictWeak(less)
    requires multiset(a) == multiset(b)
    ensures !less(b[|b| - 1], a[|a| - 1])
  {
    assert a[|a| - 1] in multiset(b);
    var i :| 0 <= i < |b| && b[i] == a[|a| - 1];
    if i < |b| - 1 { assert !less(b[|b| - 1], b[i]); }
  }

  lemma {:induction false} MultisetInit<T>(s: seq<T>)
    requires s != []
    ensures multiset(s[..|s| - 1]) == multiset(s) - multiset{s[|s| - 1]}
  {
    assert s == s[..|s| - 1] + [s[|s| - 1]];
  }

  lemma {:induction false} SortedInit<T>(s: seq<T>, less: (T, T) -> bool)
    requires s != [] && Sorted(s, less)
    ensures Sorted(s[..|s| - 1], less)
  {
  }

  /** Without ties, sorting is determined by the elements alone, stable or not. */
  lemma {:induction false} SortedDetermined<T(!new)>(a: seq<T>, b: seq<T>, less: (T, T) -> bool)
    requires StrictTotal(less) && Sorted(a, less) && Sorted(b, less)
    requires multiset(a) == multiset(b)
    ensures a == b
    decreases |a|
  {
    hide Sorted, StrictWeak;
    assert |a| == |multiset(a)| == |multiset(b)| == |b|;
    if a != [] {
      var n := |a| - 1;
      LastNotBefore(a, b, less);
      LastNotBefore(b, a, less);
      assert a[n] == b[n];
      MultisetInit(a);
      MultisetInit(b);
      SortedInit(a, less);
      SortedInit(b, less);
      SortedDetermined(a[..n], b[..n], less);
      assert a == a[..n] + [a[n]] && b == b[..n] + [b[n]];
    }
  }

  // ---------------------------------------------------------------------------
  // In place
  // ---------------------------------------------------------------------------

  lemma {:induction false} InsertIntoPrefix<T>(s: seq<T>, x: T, less: (T, T) -> bool, j: nat)
    requires j <= |s| && forall k :: j <= k < |s| ==> less(x, s[k])
    ensures InsertInto(s, x, less) == InsertInto(s[..j], x, less) + s[j..]
    decreases |s|
  {
    if j < |s| {
      var init := s[..|s| - 1];
      InsertIntoPrefix(init, x, less, j);
      assert init[..j] == s[..j] && init[j..] + [s[|s| - 1]] == s[j..];
    } else {
      assert s[..j] == s && s[j..] == [];
    }
  }

  lemma {:induction false} InsertIntoAt<T>(s: seq<T>, x: T, less: (T, T) -> bool, j: nat)
    requires j <= |s| && forall k :: j <= k < |s| ==> less(x, s[k])
    requires j > 0 ==> !less(x, s[j - 1])
    ensures InsertInto(s, x, less) == s[..j] + [x] + s[j..]
  {
    InsertIntoPrefix(s, x, less, j);
    assert j > 0 ==> s[..j][j - 1] == s[j - 1];
  }

  /** Moves the element at `i` left to its place in the sorted part before it. */
  method InsertAt<T>(a: array<T>, i: nat, less: (T, T) -> bool)
    requires i < a.Length
    modifies a
    ensures a[..i + 1] == InsertInto(old(a[..i]), old(a[i]), less)
    ensures a[i + 1..] == old(a[i + 1..])
  {
    hide InsertInto;
    ghost var t, x, rest := a[..i], a[i], a[i + 1..];
    var j := i;
    while j > 0 && less(a[j], a[j - 1])
      invariant 0 <= j <= i
      invariant a[..j] == t[..j] && a[j] == x && a[j + 1..i + 1] == t[j..] && a[i + 1..] == rest
      invariant forall k :: j <= k < i ==> less(x, t[k])
    {
      ghost var right := a[j + 1..i + 1];
      assert a[j - 1] == t[j - 1] by { assert a[..j][j - 1] == t[..j][j - 1]; }
      a[j], a[j - 1] := a[j - 1], a[j];
      assert a[j..i + 1] == [t[j - 1]] + right;
      assert t[j - 1..] == [t[j - 1]] + t[j..];
      j := j - 1;
      assert a[..j] == t[..j];
    }
    assert j > 0 ==> t[..j][j - 1] == a[..j][j - 1];
    InsertIntoAt(t, x, less, j);
    assert a[..i + 1] == a[..j] + [a[j]] + a[j + 1..i + 1];
  }

  /** `sort.SliceStable`. */
  method SliceStable<T>(a: array<T>, less: (T, T) -> bool)
    modifies a
    ensures a[..] == StableSort(old(a[..]), less)
  {
    ghost var s := a[..];
    for i := 0 to a.Length
      invariant a[..i] == StableSort(s[..i], less) && a[i..] == s[i..]
    {
      assert a[i] == s[i] by { assert a[i..][0] == s[i..][0]; }
      assert a[i + 1..] == s[i + 1..] by { assert a[i..][1..] == s[i..][1..]; }
      assert s[..i + 1][..i] == s[..i];
      InsertAt(a, i, less);
    }
    assert a[..a.Length] == a[..] && s[..a.Length] == s;
  }

  /** `sort.Slice`: sorted, but ties may end up in any order. */
  method Slice<T(!new)>(a: array<T>, less: (T, T) -> bool)
    requires StrictWeak(less)
    modifies a
    ensures Sorted(a[..], less) && multiset(a[..]) == multiset(old(a[..]))
  {
    StableSortCorrect(a[..], less);
    SliceStable(a, less);
  }
}
