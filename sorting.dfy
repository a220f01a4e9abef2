/**
 * Python's `sorted` / `list.sort` as a stable insertion sort on sequences.
 * `le(a, b)` means "a may come before b"; a descending sort (`reverse=True`)
 * is the same sort with the comparison flipped, which keeps ties in input
 * order exactly as Python's stable sort does.
 */
module Sorting {

  ghost predicate TotalPreorder<T(!new)>(le: (T, T) -> bool) {
    && (forall a, b :: le(a, b) || le(b, a))
    && (forall a, b, c :: le(a, b) && le(b, c) ==> le(a, c))
  }

  ghost predicate SortedBy<T>(s: seq<T>, le: (T, T) -> bool) {
    forall i, j :: 0 <= i < j < |s| ==> le(s[i], s[j])
  }

  /** Puts `x` in front of the first element it may precede (so before its ties). */
  function InsertFront<T>(x: T, r: seq<T>, le: (T, T) -> bool): (o: seq<T>)
    ensures |o| == |r| + 1
    ensures multiset(o) == multiset(r) + multiset{x}
  {
    if r == [] then [x]
    else if le(x, r[0]) then [x] + r
    else assert r == [r[0]] + r[1..]; [r[0]] + InsertFront(x, r[1..], le)
  }

  /** The stable sort: the result is the unique sorted arrangement that keeps ties in input order. */
  function SortBy<T>(s: seq<T>, le: (T, T) -> bool): (o: seq<T>)
    ensures |o| == |s|
    ensures multiset(o) == multiset(s)
  {
    if s == [] then [] else assert s == [s[0]] + s[1..]; InsertFront(s[0], SortBy(s[1..], le), le)
  }

  lemma {:induction false} InsertFrontSorted<T(!new)>(x: T, r: seq<T>, le: (T, T) -> bool)
    requires TotalPreorder(le)
    requires SortedBy(r, le)
    ensures SortedBy(InsertFront(x, r, le), le)
  {
    if r != [] && !le(x, r[0]) {
      var tail := InsertFront(x, r[1..], le);
      InsertFrontSorted(x, r[1..], le);
      assert le(r[0], x);
      forall k | 0 <= k < |tail| ensures le(r[0], tail[k]) {
        assert tail[k] in multiset(tail);
        if tail[k] != x {
          assert tail[k] in multiset(r[1..]);
          var j :| 0 <= j < |r[1..]| && r[1..][j] == tail[k];
          assert r[1..][j] == r[j + 1];
        }
      }
      var o := [r[0]] + tail;
      forall i, j | 0 <= i < j < |o| ensures le(o[i], o[j]) {
        if i > 0 { assert o[i] == tail[i - 1] && o[j] == tail[j - 1]; }
        else { assert o[j] == tail[j - 1]; }
      }
    }
  }

  lemma {:induction false} SortBySorted<T(!new)>(s: seq<T>, le: (T, T) -> bool)
    requires TotalPreorder(le)
    ensures SortedBy(SortBy(s, le), le)
  {
    if s != [] {
      SortBySorted(s[1..], le);
      InsertFrontSorted(s[0], SortBy(s[1..], le), le);
    }
  }

  /** The elements of `s` that tie with `x` (each may precede the other), in order. */
  function TiesOf<T>(s: seq<T>, x: T, le: (T, T) -> bool): seq<T> {
    if s == [] then []
    else (if le(x, s[0]) && le(s[0], x) then [s[0]] else []) + TiesOf(s[1..], x, le)
  }

  lemma {:induction false} InsertFrontOtherTies<T>(y: T, r: seq<T>, x: T, le: (T, T) -> bool)
    requires !(le(x, y) && le(y, x))
    ensures TiesOf(InsertFront(y, r, le), x, le) == TiesOf(r, x, le)
  {
    if r != [] {
      if le(y, r[0]) {
        assert ([y] + r)[1..] == r;
      } else {
        InsertFrontOtherTies(y, r[1..], x, le);
        assert ([r[0]] + InsertFront(y, r[1..], le))[1..] == InsertFront(y, r[1..], le);
      }
    } else {
      assert [y][1..] == [];
    }
  }

  /** `y` may precede every element of `r` that ties with `x`. */
  predicate PrecedesTies<T>(y: T, x: T, r: seq<T>, le: (T, T) -> bool) {
    forall i :: 0 <= i < |r| ==> (le(x, r[i]) && le(r[i], x) ==> le(y, r[i]))
  }

  lemma TiedPrecedes<T(!new)>(y: T, x: T, r: seq<T>, le: (T, T) -> bool)
    requires TotalPreorder(le)
    requires le(y, x)
    ensures PrecedesTies(y, x, r, le)
  {
  }

  lemma TiesOfCons<T>(h: T, t: seq<T>, x: T, le: (T, T) -> bool)
    ensures TiesOf([h] + t, x, le) == (if le(x, h) && le(h, x) then [h] else []) + TiesOf(t, x, le)
  {
    assert ([h] + t)[1..] == t;
  }

  /** An element tied with `x` is put in front of every element of its tie class. */
  lemma {:induction false} InsertFrontTies<T>(y: T, r: seq<T>, x: T, le: (T, T) -> bool)
    requires le(x, y) && le(y, x)
    requires PrecedesTies(y, x, r, le)
    ensures TiesOf(InsertFront(y, r, le), x, le) == [y] + TiesOf(r, x, le)
  {
    if r == [] {
      TiesOfCons(y, [], x, le);
      assert [y] + [] == [y];
    } else if le(y, r[0]) {
      TiesOfCons(y, r, x, le);
    } else {
      PrecedesTiesTail(y, x, r, le);
      InsertFrontTies(y, r[1..], x, le);
      var h := r[0];
      assert le(x, h) && le(h, x) ==> le(y, h);
      assert InsertFront(y, r, le) == [h] + InsertFront(y, r[1..], le);
      InsertFrontSkips(h, InsertFront(y, r[1..], le), r[1..], x, y, le);
      assert [h] + r[1..] == r;
    }
  }

  lemma PrecedesTiesTail<T>(y: T, x: T, r: seq<T>, le: (T, T) -> bool)
    requires r != [] && PrecedesTies(y, x, r, le)
    ensures PrecedesTies(y, x, r[1..], le)
  {
    assert forall i :: 0 <= i < |r[1..]| ==> r[1..][i] == r[i + 1];
  }

  /** Passing over an element that is not a tie of `x` changes no tie class. */
  lemma InsertFrontSkips<T>(h: T, t: seq<T>, rest: seq<T>, x: T, y: T, le: (T, T) -> bool)
    requires !(le(x, h) && le(h, x))
    requires TiesOf(t, x, le) == [y] + TiesOf(rest, x, le)
    ensures TiesOf([h] + t, x, le) == [y] + TiesOf([h] + rest, x, le)
  {
    TiesOfCons(h, t, x, le);
    TiesOfCons(h, rest, x, le);
  }

  /** The sort is stable: the elements of every tie class keep their input order. */
  lemma {:induction false} SortByStable<T(!new)>(s: seq<T>, x: T, le: (T, T) -> bool)
    requires TotalPreorder(le)
    ensures TiesOf(SortBy(s, le), x, le) == TiesOf(s, x, le)
  {
    if s != [] {
      SortByStable(s[1..], x, le);
      if le(x, s[0]) && le(s[0], x) {
        TiedPrecedes(s[0], x, SortBy(s[1..], le), le);
        InsertFrontTies(s[0], SortBy(s[1..], le), x, le);
      } else {
        InsertFrontOtherTies(s[0], SortBy(s[1..], le), x, le);
      }
    }
  }

  function SumBy<T>(s: seq<T>, w: T -> int): int {
    if s == [] then 0 else w(s[0]) + SumBy(s[1..], w)
  }

  lemma {:induction false} SumByAppend<T>(a: seq<T>, b: seq<T>, w: T -> int)
    ensures SumBy(a + b, w) == SumBy(a, w) + SumBy(b, w)
  {
    if a == [] {
      assert a + b == b;
    } else {
      assert (a + b)[1..] == a[1..] + b;
      SumByAppend(a[1..], b, w);
    }
  }

  lemma {:induction false} InsertFrontSum<T>(x: T, r: seq<T>, le: (T, T) -> bool, w: T -> int)
    ensures SumBy(InsertFront(x, r, le), w) == w(x) + SumBy(r, w)
  {
    if r != [] && !le(x, r[0]) {
      InsertFrontSum(x, r[1..], le, w);
    }
  }

  /** Sorting does not change any total over the elements. */
  lemma {:induction false} SortBySum<T>(s: seq<T>, le: (T, T) -> bool, w: T -> int)
    ensures SumBy(SortBy(s, le), w) == SumBy(s, w)
  {
    if s != [] {
      SortBySum(s[1..], le, w);
      InsertFrontSum(s[0], SortBy(s[1..], le), le, w);
    }
  }

  /** A total of non-negative weights is at least any one of them. */
  lemma {:induction false} SumByAtLeast<T>(s: seq<T>, w: T -> int, i: nat)
    requires i < |s|
    requires forall k :: 0 <= k < |s| ==> w(s[k]) >= 0
    ensures SumBy(s, w) >= w(s[i])
  {
    if i == 0 {
      SumByNonNegative(s[1..], w);
    } else {
      SumByAtLeast(s[1..], w, i - 1);
    }
  }

  lemma {:induction false} SumByNonNegative<T>(s: seq<T>, w: T -> int)
    requires forall k :: 0 <= k < |s| ==> w(s[k]) >= 0
    ensures SumBy(s, w) >= 0
  {
    if s != [] {
      SumByNonNegative(s[1..], w);
    }
  }

  /** The index of the first element that may precede every element. */
  function FirstLeast<T>(s: seq<T>, le: (T, T) -> bool): (k: nat)
    requires s != []
    ensures k < |s|
  {
    if |s| == 1 then 0
    else
      var k := FirstLeast(s[1..], le);
      if le(s[0], s[1 + k]) then 0 else 1 + k
  }

  lemma {:induction false} FirstLeastIsLeast<T(!new)>(s: seq<T>, le: (T, T) -> bool)
    requires s != [] && TotalPreorder(le)
    ensures forall j :: 0 <= j < |s| ==> le(s[FirstLeast(s, le)], s[j])
    ensures forall j :: 0 <= j < FirstLeast(s, le) ==> !le(s[j], s[FirstLeast(s, le)])
  {
    if |s| > 1 {
      FirstLeastIsLeast(s[1..], le);
      var k := FirstLeast(s[1..], le);
      forall j | 1 <= j < |s| ensures le(s[1 + k], s[j]) { assert s[j] == s[1..][j - 1]; }
      forall j | 1 <= j < 1 + k ensures !le(s[j], s[1 + k]) { assert s[j] == s[1..][j - 1]; }
    }
  }

  /** The head of the stable sort is the first least element of the input. */
  lemma {:induction false} SortByHead<T>(s: seq<T>, le: (T, T) -> bool)
    requires s != []
    ensures SortBy(s, le)[0] == s[FirstLeast(s, le)]
  {
    if |s| > 1 {
      SortByHead(s[1..], le);
      assert s[1..][FirstLeast(s[1..], le)] == s[1 + FirstLeast(s[1..], le)];
    }
  }
}
