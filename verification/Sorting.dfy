/** A stable insertion sort, standing in for Array.prototype.sort. */
module Sorting {
  ghost predicate Preorder<T(!new)>(le: (T, T) -> bool) {
    (forall a, b :: le(a, b) || le(b, a)) && forall a, b, c :: le(a, b) && le(b, c) ==> le(a, c)
  }

  ghost predicate SortedBy<T>(xs: seq<T>, le: (T, T) -> bool) {
    forall i, j | 0 <= i < j < |xs| :: le(xs[i], xs[j])
  }

  function Insert<T(==, !new)>(x: T, xs: seq<T>, le: (T, T) -> bool): (r: seq<T>)
    ensures forall y :: y in r <==> y == x || y in xs
  {
    if xs == [] || le(x, xs[0]) then [x] + xs
    else
      assert xs == [xs[0]] + xs[1..];
      [xs[0]] + Insert(x, xs[1..], le)
  }

  function SortBy<T(==, !new)>(xs: seq<T>, le: (T, T) -> bool): (r: seq<T>)
    ensures forall y :: y in r <==> y in xs
  {
    if xs == [] then []
    else
      assert xs == [xs[0]] + xs[1..];
      Insert(xs[0], SortBy(xs[1..], le), le)
  }

  lemma {:induction false} InsertSorted<T(!new)>(x: T, xs: seq<T>, le: (T, T) -> bool)
    requires Preorder(le) && SortedBy(xs, le)
    ensures SortedBy(Insert(x, xs, le), le)
  {
    var r := Insert(x, xs, le);
    if xs == [] {
    } else if le(x, xs[0]) {
      forall k | 0 <= k < |xs| ensures le(x, xs[k]) {
        assert k == 0 || le(xs[0], xs[k]);
      }
    } else {
      InsertSorted(x, xs[1..], le);
      var tail := Insert(x, xs[1..], le);
      forall k | 0 <= k < |tail| ensures le(xs[0], tail[k]) {
        assert tail[k] in tail;
        if tail[k] != x {
          var i :| 0 <= i < |xs[1..]| && xs[1..][i] == tail[k];
          assert le(xs[0], xs[i + 1]);
        }
      }
    }
  }

  lemma {:induction false} InsertKeeps<T(!new)>(x: T, xs: seq<T>, le: (T, T) -> bool)
    ensures multiset(Insert(x, xs, le)) == multiset(xs) + multiset{x}
  {
    if xs != [] && !le(x, xs[0]) {
      assert xs == [xs[0]] + xs[1..];
      InsertKeeps(x, xs[1..], le);
    }
  }

  /** The result is a permutation in the given order. */
  lemma {:induction false} SortSorts<T(!new)>(xs: seq<T>, le: (T, T) -> bool)
    requires Preorder(le)
    ensures SortedBy(SortBy(xs, le), le) && multiset(SortBy(xs, le)) == multiset(xs)
  {
    if xs != [] {
      assert xs == [xs[0]] + xs[1..];
      SortSorts(xs[1..], le);
      InsertSorted(xs[0], SortBy(xs[1..], le), le);
      InsertKeeps(xs[0], SortBy(xs[1..], le), le);
    }
  }

  // ---- stability ----------------------------------------------------------------------------------------

  // The elements that satisfy p, in their order.
  function Where<T>(xs: seq<T>, p: T -> bool): seq<T> {
    if xs == [] then [] else (if p(xs[0]) then [xs[0]] else []) + Where(xs[1..], p)
  }

  lemma WhereFirst<T>(x: T, xs: seq<T>, p: T -> bool)
    ensures Where([x] + xs, p) == (if p(x) then [x] else []) + Where(xs, p)
  {
    assert ([x] + xs)[1..] == xs;
  }

  lemma {:induction false} WhereBoth<T>(xs: seq<T>, p: T -> bool, q: T -> bool, both: T -> bool)
    requires forall x <- xs :: both(x) == (p(x) && q(x))
    ensures Where(Where(xs, p), q) == Where(xs, both)
  {
    if xs != [] {
      assert xs[0] in xs;
      WhereBoth(xs[1..], p, q, both);
      if p(xs[0]) {
        assert ([xs[0]] + Where(xs[1..], p))[1..] == Where(xs[1..], p);
      } else {
        assert [] + Where(xs[1..], p) == Where(xs[1..], p);
      }
    }
  }

  lemma {:induction false} WhereIn<T>(xs: seq<T>, p: T -> bool, x: T)
    ensures x in Where(xs, p) <==> x in xs && p(x)
  {
    if xs != [] {
      WhereIn(xs[1..], p, x);
      assert xs == [xs[0]] + xs[1..];
    }
  }

  lemma {:induction false} WhereSorted<T>(xs: seq<T>, p: T -> bool, le: (T, T) -> bool)
    requires SortedBy(xs, le)
    ensures SortedBy(Where(xs, p), le)
  {
    if xs != [] {
      WhereSorted(xs[1..], p, le);
      var tail := Where(xs[1..], p);
      forall k | 0 <= k < |tail| ensures le(xs[0], tail[k]) {
        WhereIn(xs[1..], p, tail[k]);
        var i :| 0 <= i < |xs[1..]| && xs[1..][i] == tail[k];
        assert le(xs[0], xs[i + 1]);
      }
    }
  }

  lemma {:induction false} InsertStable<T(!new)>(x: T, xs: seq<T>, le: (T, T) -> bool, p: T -> bool)
    requires forall a, b | p(a) && p(b) :: le(a, b)
    ensures Where(Insert(x, xs, le), p) == Where([x] + xs, p)
  {
    if xs != [] && !le(x, xs[0]) {
      var (y, ys) := (xs[0], xs[1..]);
      InsertStable(x, ys, le, p);
      hide Where;
      assert xs == [y] + ys && !(p(x) && p(y));
      WhereFirst(y, Insert(x, ys, le), p);
      WhereFirst(x, ys, p);
      WhereFirst(x, xs, p);
      WhereFirst(y, ys, p);
    }
  }

  /** The sort is stable: elements that the order does not tell apart keep their order. */
  lemma {:induction false} SortStable<T(!new)>(xs: seq<T>, le: (T, T) -> bool, p: T -> bool)
    requires forall a, b | p(a) && p(b) :: le(a, b)
    ensures Where(SortBy(xs, le), p) == Where(xs, p)
  {
    if xs != [] {
      SortStable(xs[1..], le, p);
      InsertStable(xs[0], SortBy(xs[1..], le), le, p);
      WhereFirst(xs[0], SortBy(xs[1..], le), p);
      WhereFirst(xs[0], xs[1..], p);
      assert xs == [xs[0]] + xs[1..];
    }
  }

  lemma SortOne<T(!new)>(x: T, le: (T, T) -> bool)
    ensures SortBy([x], le) == [x]
  {
    assert [x][1..] == [];
    assert SortBy([], le) == [];
  }

  lemma SortTwo<T(!new)>(x: T, y: T, le: (T, T) -> bool)
    ensures SortBy([x, y], le) == if le(x, y) then [x, y] else [y, x]
  {
    assert [x, y][1..] == [y];
    SortOne(y, le);
    assert Insert(x, [], le) == [x];
  }
}
