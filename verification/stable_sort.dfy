/**
 * The behaviour of `Array.prototype.sort` with a consistent comparator, which
 * both dashboard views rely on.  A comparator `cmp` is represented by the
 * relation `le(a, b)`, "cmp(a, b) <= 0": `b` is never placed strictly before
 * `a`.  The sort is stable, so its result is fully determined; `Sort` computes
 * it by insertion, and `StableSortIsUnique` shows that every stable sorted
 * permutation is that same sequence, whatever algorithm produced it.
 */
module StableSort {

  /** `a` and `b` are ordered one way or the other. */
  predicate Comparable<T>(le: (T, T) -> bool, a: T, b: T) {
    le(a, b) || le(b, a)
  }

  /** Transitivity of `le` at `a`, `b`, `c`. */
  predicate Chained<T>(le: (T, T) -> bool, a: T, b: T, c: T) {
    le(a, b) && le(b, c) ==> le(a, c)
  }

  /**
   * A consistent comparator: any two elements are comparable, and `le` is
   * transitive.  The quantifiers fire only on `Comparable` and `Chained`, so
   * proofs name the instances they use.
   */
  ghost predicate TotalPreorder<T(!new)>(le: (T, T) -> bool) {
    && (forall a, b {:trigger Comparable(le, a, b)} :: Comparable(le, a, b))
    && (forall a, b, c {:trigger Chained(le, a, b, c)} :: Chained(le, a, b, c))
  }

  /** The comparator with its arguments swapped: `(a, b) => cmp(b, a)`. */
  function Flip<T>(le: (T, T) -> bool): (T, T) -> bool {
    (a, b) => le(b, a)
  }

  /** `a` and `b` compare equal. */
  predicate Tie<T>(le: (T, T) -> bool, a: T, b: T) {
    le(a, b) && le(b, a)
  }

  ghost predicate Sorted<T>(s: seq<T>, le: (T, T) -> bool) {
    forall i, j :: 0 <= i < j < |s| ==> le(s[i], s[j])
  }

  /** The elements of `s` that compare equal to `x`, in their order in `s`. */
  function Ties<T>(s: seq<T>, x: T, le: (T, T) -> bool): seq<T> {
    if s == [] then []
    else Ties(s[..|s| - 1], x, le) + (if Tie(le, s[|s| - 1], x) then [s[|s| - 1]] else [])
  }

  /** A sort is stable when every class of equal elements keeps its input order. */
  ghost predicate StablePermutation<T(!new)>(r: seq<T>, s: seq<T>, le: (T, T) -> bool) {
    forall x :: Ties(r, x, le) == Ties(s, x, le)
  }

  /**
   * Insert `x` into `s`, after every element that does not compare strictly
   * greater than it: the step of a stable insertion sort.
   */
  function Insert<T>(s: seq<T>, x: T, le: (T, T) -> bool): (r: seq<T>)
    ensures |r| == |s| + 1
    ensures multiset(r) == multiset(s) + multiset{x}
    decreases |s|
  {
    if s == [] || le(s[|s| - 1], x) then s + [x]
    else
      var init := s[..|s| - 1];
      assert s == init + [s[|s| - 1]];
      Insert(init, x, le) + [s[|s| - 1]]
  }

  /** Stable sort of `s` by `le`, inserting the elements from left to right. */
  function Sort<T>(s: seq<T>, le: (T, T) -> bool): (r: seq<T>)
    ensures |r| == |s|
    ensures multiset(r) == multiset(s)
  {
    if s == [] then []
    else
      assert s == s[..|s| - 1] + [s[|s| - 1]];
      Insert(Sort(s[..|s| - 1], le), s[|s| - 1], le)
  }

  /** Two elements come out in their own order exactly when the first may precede the second. */
  lemma SortPair<T>(x: T, y: T, le: (T, T) -> bool)
    ensures Sort([x, y], le) == if le(x, y) then [x, y] else [y, x]
  {
    assert [x, y][..1] == [x];
    assert Sort([x], le) == [x];
  }

  // ---------------------------------------------------------------- Ties

  lemma {:induction false} TiesAppend<T>(a: seq<T>, b: seq<T>, x: T, le: (T, T) -> bool)
    ensures Ties(a + b, x, le) == Ties(a, x, le) + Ties(b, x, le)
    decreases |b|
  {
    if b == [] {
      assert a + b == a;
    } else {
      var b' := b[..|b| - 1];
      assert (a + b)[..|a + b| - 1] == a + b';
      TiesAppend(a, b', x, le);
    }
  }

  lemma {:induction false} TiesMembers<T>(s: seq<T>, x: T, le: (T, T) -> bool)
    ensures forall e :: e in Ties(s, x, le) ==> e in s && Tie(le, e, x)
  {
    if s != [] {
      TiesMembers(s[..|s| - 1], x, le);
    }
  }

  lemma {:induction false} TiesOfSingleton<T>(y: T, x: T, le: (T, T) -> bool)
    ensures Ties([y], x, le) == if Tie(le, y, x) then [y] else []
  {
    assert [y][..0] == [];
  }

  lemma TiesOfLast<T(!new)>(s: seq<T>, le: (T, T) -> bool)
    requires TotalPreorder(le)
    requires s != []
    ensures Ties(s, s[|s| - 1], le) != []
  {
    assert Comparable(le, s[|s| - 1], s[|s| - 1]);
  }

  /** Inserting `y` adds it at the end of its own class and leaves the other classes alone. */
  lemma {:induction false} TiesInsert<T(!new)>(s: seq<T>, y: T, x: T, le: (T, T) -> bool)
    requires TotalPreorder(le)
    ensures Ties(Insert(s, y, le), x, le) == Ties(s, x, le) + Ties([y], x, le)
    decreases |s|
  {
    if s == [] || le(s[|s| - 1], y) {
      TiesAppend(s, [y], x, le);
    } else {
      var init, last := s[..|s| - 1], s[|s| - 1];
      assert s == init + [last];
      assert Insert(s, y, le) == Insert(init, y, le) + [last];
      TiesInsert(init, y, x, le);
      TiesAppend(Insert(init, y, le), [last], x, le);
      TiesAppend(init, [last], x, le);
      var a, b, c := Ties(init, x, le), Ties([y], x, le), Ties([last], x, le);
      SeparateClasses(last, y, x, le);
      assert b + c == c + b;
      assert a + b + c == a + c + b;
    }
  }

  /** `last` compares strictly greater than `y`, so the two never share a class. */
  lemma SeparateClasses<T(!new)>(last: T, y: T, x: T, le: (T, T) -> bool)
    requires TotalPreorder(le)
    requires !le(last, y)
    ensures Ties([last], x, le) == [] || Ties([y], x, le) == []
  {
    TiesOfSingleton(last, x, le);
    TiesOfSingleton(y, x, le);
    assert Chained(le, last, x, y);
  }

  lemma {:induction false} SortIsStable<T(!new)>(s: seq<T>, le: (T, T) -> bool)
    requires TotalPreorder(le)
    ensures StablePermutation(Sort(s, le), s, le)
  {
    if s != [] {
      var init, last := s[..|s| - 1], s[|s| - 1];
      SortIsStable(init, le);
      forall x ensures Ties(Sort(s, le), x, le) == Ties(s, x, le) {
        TiesInsert(Sort(init, le), last, x, le);
        TiesOfSingleton(last, x, le);
      }
    }
  }

  // ---------------------------------------------------------------- order

  lemma {:induction false} InsertSorted<T(!new)>(s: seq<T>, x: T, le: (T, T) -> bool)
    requires TotalPreorder(le)
    requires Sorted(s, le)
    ensures Sorted(Insert(s, x, le), le)
    decreases |s|
  {
    if s == [] || le(s[|s| - 1], x) {
      forall i | 0 <= i < |s| ensures le(s[i], x) {
        assert Chained(le, s[i], s[|s| - 1], x);
      }
    } else {
      var init, last := s[..|s| - 1], s[|s| - 1];
      assert Comparable(le, last, x);
      InsertSorted(init, x, le);
      var r := Insert(init, x, le);
      forall e | e in r ensures le(e, last) {
        assert e in multiset(r);
        if e != x {
          assert e in multiset(init);
          var k :| 0 <= k < |init| && init[k] == e;
          assert s[k] == e;
        }
      }
      assert Insert(s, x, le) == r + [last];
    }
  }

  lemma {:induction false} SortSorted<T(!new)>(s: seq<T>, le: (T, T) -> bool)
    requires TotalPreorder(le)
    ensures Sorted(Sort(s, le), le)
  {
    if s != [] {
      SortSorted(s[..|s| - 1], le);
      InsertSorted(Sort(s[..|s| - 1], le), s[|s| - 1], le);
    }
  }

  /**
   * The result of a stable sort is determined: two sequences that are both
   * sorted and have the same classes of equal elements, in the same order,
   * are the same sequence.
   */
  lemma {:induction false} SortedTiesDetermine<T(!new)>(r: seq<T>, t: seq<T>, le: (T, T) -> bool)
    requires TotalPreorder(le)
    requires Sorted(r, le) && Sorted(t, le)
    requires StablePermutation(r, t, le)
    ensures r == t
    decreases |r| + |t|
  {
    if r == [] && t == [] {
    } else if r == [] || t == [] {
      // the last element of the non-empty one has a non-empty class there, and none in the other
      TiesOfLast(if r == [] then t else r, le);
      assert false;
    } else {
      var r', t' := r[..|r| - 1], t[..|t| - 1];
      SortedLastsAgree(r, t, le);
      DropLastStable(r, t, le);
      assert Sorted(r', le) && Sorted(t', le);
      SortedTiesDetermine(r', t', le);
      assert r == r' + [r[|r| - 1]] && t == t' + [t[|t| - 1]];
    }
  }

  /** In a sorted sequence every element is at most the last one. */
  lemma UpToLast<T(!new)>(t: seq<T>, y: T, le: (T, T) -> bool)
    requires TotalPreorder(le)
    requires Sorted(t, le) && y in t
    ensures le(y, t[|t| - 1])
  {
    assert Comparable(le, y, y);
    var k :| 0 <= k < |t| && t[k] == y;
    if k < |t| - 1 {
      assert le(t[k], t[|t| - 1]);
    }
  }

  /**
   * Two sorted sequences with the same classes end with the same element: each
   * last element is in the other's class of it, so the two compare equal, and
   * then both end that common class.
   */
  lemma SortedLastsAgree<T(!new)>(r: seq<T>, t: seq<T>, le: (T, T) -> bool)
    requires TotalPreorder(le)
    requires Sorted(r, le) && Sorted(t, le)
    requires StablePermutation(r, t, le)
    requires r != [] && t != []
    ensures r[|r| - 1] == t[|t| - 1]
  {
    var y, z := r[|r| - 1], t[|t| - 1];
    var r', t' := r[..|r| - 1], t[..|t| - 1];
    assert Comparable(le, y, y) && Comparable(le, z, z);
    assert r == r' + [y] && t == t' + [z];
    assert y in Ties(r, y, le);
    TiesMembers(t, y, le);
    UpToLast(t, y, le);
    assert z in Ties(t, z, le);
    TiesMembers(r, z, le);
    UpToLast(r, z, le);
    var cy, ct := Ties(r, y, le), Ties(t, y, le);
    assert cy == Ties(r', y, le) + [y];
    assert ct == Ties(t', y, le) + [z];
    assert cy[|cy| - 1] == y && ct[|ct| - 1] == z;
  }

  /** Dropping a common last element keeps the classes equal. */
  lemma DropLastStable<T(!new)>(r: seq<T>, t: seq<T>, le: (T, T) -> bool)
    requires StablePermutation(r, t, le)
    requires r != [] && t != [] && r[|r| - 1] == t[|t| - 1]
    ensures StablePermutation(r[..|r| - 1], t[..|t| - 1], le)
  {
    var y, r', t' := r[|r| - 1], r[..|r| - 1], t[..|t| - 1];
    forall x ensures Ties(r', x, le) == Ties(t', x, le) {
      var tail := if Tie(le, y, x) then [y] else [];
      var a, b := Ties(r', x, le), Ties(t', x, le);
      assert Ties(r, x, le) == a + tail;
      assert Ties(t, x, le) == b + tail;
      assert |a| == |b|;
      assert a == (a + tail)[..|a|] == (b + tail)[..|b|] == b;
    }
  }

  /** Every stable sorted permutation of `s` (whatever algorithm produced it) is `Sort(s, le)`. */
  lemma StableSortIsUnique<T(!new)>(s: seq<T>, r: seq<T>, le: (T, T) -> bool)
    requires TotalPreorder(le)
    requires Sorted(r, le) && StablePermutation(r, s, le)
    ensures r == Sort(s, le)
  {
    SortSorted(s, le);
    SortIsStable(s, le);
    SortedTiesDetermine(r, Sort(s, le), le);
  }

  /** What the stable sort guarantees: ordered, a permutation, ties in input order. */
  lemma SortSpec<T(!new)>(s: seq<T>, le: (T, T) -> bool)
    requires TotalPreorder(le)
    ensures Sorted(Sort(s, le), le)
    ensures multiset(Sort(s, le)) == multiset(s)
    ensures StablePermutation(Sort(s, le), s, le)
  {
    SortSorted(s, le);
    SortIsStable(s, le);
  }

  /** Sorting twice in the same direction gives what sorting once gives. */
  lemma SortIdempotent<T(!new)>(s: seq<T>, le: (T, T) -> bool)
    requires TotalPreorder(le)
    ensures Sort(Sort(s, le), le) == Sort(s, le)
  {
    var r := Sort(s, le);
    SortSorted(s, le);
    SortIsStable(r, le);
    SortSorted(r, le);
    SortedTiesDetermine(Sort(r, le), r, le);
  }

  // ---------------------------------------------------------------- reversal

  function Reverse<T>(s: seq<T>): (r: seq<T>)
    ensures |r| == |s|
    ensures forall i :: 0 <= i < |s| ==> r[i] == s[|s| - 1 - i]
  {
    if s == [] then [] else [s[|s| - 1]] + Reverse(s[..|s| - 1])
  }

  lemma FlipIsTotalPreorder<T(!new)>(le: (T, T) -> bool)
    requires TotalPreorder(le)
    ensures TotalPreorder(Flip(le))
  {
    forall a, b ensures Comparable(Flip(le), a, b) {
      assert Comparable(le, a, b);
    }
    forall a, b, c ensures Chained(Flip(le), a, b, c) {
      assert Chained(le, c, b, a);
    }
  }

  lemma {:induction false} TiesFlip<T>(s: seq<T>, x: T, le: (T, T) -> bool)
    ensures Ties(s, x, Flip(le)) == Ties(s, x, le)
  {
    if s != [] {
      TiesFlip(s[..|s| - 1], x, le);
    }
  }

  lemma {:induction false} TiesReverse<T>(s: seq<T>, x: T, le: (T, T) -> bool)
    ensures Ties(Reverse(s), x, le) == Reverse(Ties(s, x, le))
  {
    if s != [] {
      var init, last := s[..|s| - 1], s[|s| - 1];
      TiesReverse(init, x, le);
      TiesAppend([last], Reverse(init), x, le);
      TiesOfSingleton(last, x, le);
      ReverseAppend(Ties(init, x, le), if Tie(le, last, x) then [last] else []);
    }
  }

  lemma ReverseAppend<T>(a: seq<T>, b: seq<T>)
    ensures Reverse(a + b) == Reverse(b) + Reverse(a)
  {
  }

  /** No two elements of `s` compare equal (for the dashboard: no two names collate equal). */
  ghost predicate NoTies<T(!new)>(s: seq<T>, le: (T, T) -> bool) {
    forall x :: |Ties(s, x, le)| <= 1
  }

  lemma ReverseSortedFlip<T>(r: seq<T>, le: (T, T) -> bool)
    requires Sorted(r, le)
    ensures Sorted(Reverse(r), Flip(le))
  {
    var rr := Reverse(r);
    forall i, j | 0 <= i < j < |rr| ensures Flip(le)(rr[i], rr[j]) {
      assert rr[i] == r[|r| - 1 - i] && rr[j] == r[|r| - 1 - j];
    }
  }

  lemma ReverseStable<T(!new)>(r: seq<T>, s: seq<T>, le: (T, T) -> bool)
    requires StablePermutation(r, s, le)
    requires NoTies(s, le)
    ensures StablePermutation(Reverse(r), s, Flip(le))
  {
    forall x ensures Ties(Reverse(r), x, Flip(le)) == Ties(s, x, Flip(le)) {
      ReverseClass(r, s, x, le);
    }
  }

  /** A class of at most one element reads the same reversed and under the flipped order. */
  lemma ReverseClass<T>(r: seq<T>, s: seq<T>, x: T, le: (T, T) -> bool)
    requires Ties(r, x, le) == Ties(s, x, le) && |Ties(s, x, le)| <= 1
    ensures Ties(Reverse(r), x, Flip(le)) == Ties(s, x, Flip(le))
  {
    TiesFlip(Reverse(r), x, le);
    TiesFlip(s, x, le);
    TiesReverse(r, x, le);
    var t := Ties(r, x, le);
    assert Reverse(t) == t;
  }

  /**
   * When no two elements compare equal, sorting with the flipped comparator
   * gives the reverse of sorting with the original one.
   */
  lemma SortFlipReverses<T(!new)>(s: seq<T>, le: (T, T) -> bool)
    requires TotalPreorder(le)
    requires NoTies(s, le)
    ensures Sort(s, Flip(le)) == Reverse(Sort(s, le))
  {
    var r := Sort(s, le);
    SortSpec(s, le);
    FlipIsTotalPreorder(le);
    ReverseSortedFlip(r, le);
    ReverseStable(r, s, le);
    StableSortIsUnique(s, Reverse(r), Flip(le));
  }

  // ---------------------------------------------------------------- in place

  /**
   * The in-place form used on a live array: insertion sort by shifting, which
   * leaves exactly `Sort(old(a[..]), le)` in `a`.
   */
  method SortInPlace<T>(a: array<T>, le: (T, T) -> bool)
    modifies a
    ensures a[..] == Sort(old(a[..]), le)
  {
    ghost var s0 := a[..];
    var i := 0;
    while i < a.Length
      invariant 0 <= i <= a.Length
      invariant a[..] == Sort(s0[..i], le) + s0[i..]
    {
      ghost var before := a[..];
      InsertInPlace(a, i, le);
      SortedPrefixGrows(s0, i, before, a[..], le);
      i := i + 1;
    }
    assert s0[..a.Length] == s0;
  }

  /** One more element of the input joins the sorted prefix. */
  lemma SortedPrefixGrows<T>(s0: seq<T>, i: nat, before: seq<T>, after: seq<T>, le: (T, T) -> bool)
    requires i < |s0|
    requires before == Sort(s0[..i], le) + s0[i..]
    requires after == Insert(before[..i], before[i], le) + before[i + 1..]
    ensures after == Sort(s0[..i + 1], le) + s0[i + 1..]
  {
    assert before[..i] == Sort(s0[..i], le);
    assert before[i] == s0[i] && before[i + 1..] == s0[i + 1..];
    assert s0[..i + 1][..i] == s0[..i];
  }

  /** One pass of the insertion sort: `a[i]` is shifted left into the prefix `a[..i]`. */
  method InsertInPlace<T>(a: array<T>, i: nat, le: (T, T) -> bool)
    requires i < a.Length
    modifies a
    ensures var s := old(a[..]); a[..] == Insert(s[..i], s[i], le) + s[i + 1..]
  {
    ghost var p, q := a[..][..i], a[..][i + 1..];
    var x := a[i];
    var j := i;
    assert p[..j] == p;
    assert Shifted(a[..], p, q, j);
    while j > 0 && !le(a[j - 1], x)
      invariant 0 <= j <= i
      invariant Shifted(a[..], p, q, j)
      invariant Insert(p, x, le) == Insert(p[..j], x, le) + p[j..]
    {
      InsertStep(p, j, x, le);
      ghost var r := a[..];
      a[j] := a[j - 1];
      assert a[..] == r[j := r[j - 1]];
      ShiftStep(r, p, q, j);
      j := j - 1;
    }
    InsertAtGap(p, j, x, le);
    ghost var r := a[..];
    a[j] := x;
    assert a[..] == r[j := x];
    Splice(r, p, q, j, x);
  }

  /**
   * `r` is `p + [_] + q` with the gap at `j`: the part of `p` from `j` on has
   * moved one place right.
   */
  ghost predicate Shifted<T>(r: seq<T>, p: seq<T>, q: seq<T>, j: nat) {
    && j <= |p| && |r| == |p| + 1 + |q|
    && (forall k :: 0 <= k < j ==> r[k] == p[k])
    && (forall k :: j < k <= |p| ==> r[k] == p[k - 1])
    && (forall k :: |p| < k < |r| ==> r[k] == q[k - |p| - 1])
  }

  lemma ShiftStep<T>(r: seq<T>, p: seq<T>, q: seq<T>, j: nat)
    requires Shifted(r, p, q, j) && j > 0
    ensures Shifted(r[j := r[j - 1]], p, q, j - 1)
  {
  }

  /** Filling the gap with `x` gives back the whole sequence. */
  lemma Splice<T>(r: seq<T>, p: seq<T>, q: seq<T>, j: nat, x: T)
    requires Shifted(r, p, q, j)
    ensures r[j := x] == p[..j] + [x] + p[j..] + q
  {
  }

  lemma InsertStep<T>(sorted: seq<T>, j: nat, x: T, le: (T, T) -> bool)
    requires 0 < j <= |sorted|
    requires !le(sorted[j - 1], x)
    ensures Insert(sorted[..j], x, le) + sorted[j..] == Insert(sorted[..j - 1], x, le) + sorted[j - 1..]
  {
    assert sorted[..j][..j - 1] == sorted[..j - 1];
    assert sorted[j - 1..] == [sorted[j - 1]] + sorted[j..];
  }

  lemma InsertAtGap<T>(sorted: seq<T>, j: nat, x: T, le: (T, T) -> bool)
    requires j <= |sorted|
    requires j == 0 || le(sorted[j - 1], x)
    ensures Insert(sorted[..j], x, le) == sorted[..j] + [x]
  {
  }
}
