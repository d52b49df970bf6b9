/** Python's `sorted`: a stable sort by a total preorder. */
module Sorting {
  import opened Common

  ghost predicate TotalPreorder<T(!new)>(le: (T, T) -> bool) {
    && (forall x, y :: le(x, y) || le(y, x))
    && (forall x, y, z :: le(x, y) && le(y, z) ==> le(x, z))
  }

  ghost predicate SortedBy<T>(xs: seq<T>, le: (T, T) -> bool) {
    forall i, j | 0 <= i < j < |xs| :: le(xs[i], xs[j])
  }

  /** Puts `x` before the first element that does not precede it strictly. */
  function Insert<T>(x: T, ys: seq<T>, le: (T, T) -> bool): (r: seq<T>) {
    if ys == [] || le(x, ys[0]) then [x] + ys else [ys[0]] + Insert(x, ys[1..], le)
  }

  function StableSort<T>(xs: seq<T>, le: (T, T) -> bool): (r: seq<T>) {
    if xs == [] then [] else Insert(xs[0], StableSort(xs[1..], le), le)
  }

  lemma {:induction false} InsertPermutes<T>(x: T, ys: seq<T>, le: (T, T) -> bool)
    ensures multiset(Insert(x, ys, le)) == multiset{x} + multiset(ys)
    ensures |Insert(x, ys, le)| == |ys| + 1
  {
    if ys != [] && !le(x, ys[0]) {
      InsertPermutes(x, ys[1..], le);
      assert ys == [ys[0]] + ys[1..];
    }
  }

  lemma {:induction false} InsertSorted<T(!new)>(x: T, ys: seq<T>, le: (T, T) -> bool)
    requires TotalPreorder(le) && SortedBy(ys, le)
    ensures SortedBy(Insert(x, ys, le), le)
  {
    if ys != [] && !le(x, ys[0]) {
      InsertSorted(x, ys[1..], le);
      InsertPermutes(x, ys[1..], le);
      var tail := Insert(x, ys[1..], le);
      forall j | 0 <= j < |tail| ensures le(ys[0], tail[j]) {
        assert tail[j] in multiset(tail);
        assert tail[j] == x || tail[j] in ys[1..];
      }
    }
  }

  /** The sort permutes its input and orders it. */
  lemma {:induction false} SortSorts<T(!new)>(xs: seq<T>, le: (T, T) -> bool)
    requires TotalPreorder(le)
    ensures multiset(StableSort(xs, le)) == multiset(xs)
    ensures |StableSort(xs, le)| == |xs|
    ensures SortedBy(StableSort(xs, le), le)
  {
    if xs != [] {
      SortSorts(xs[1..], le);
      InsertPermutes(xs[0], StableSort(xs[1..], le), le);
      InsertSorted(xs[0], StableSort(xs[1..], le), le);
      assert xs == [xs[0]] + xs[1..];
    }
  }

  /** Sorting an ordered list changes nothing. */
  lemma {:induction false} SortOfSorted<T(!new)>(xs: seq<T>, le: (T, T) -> bool)
    requires SortedBy(xs, le)
    ensures StableSort(xs, le) == xs
  {
    if xs != [] {
      SortOfSorted(xs[1..], le);
      assert xs == [xs[0]] + xs[1..];
    }
  }

  /** The sort keeps exactly the elements of its input. */
  lemma SortMembers<T(!new)>(xs: seq<T>, le: (T, T) -> bool)
    requires TotalPreorder(le)
    ensures forall x :: x in StableSort(xs, le) <==> x in xs
  {
    SortSorts(xs, le);
    forall x ensures x in StableSort(xs, le) <==> x in xs {
      assert x in StableSort(xs, le) <==> x in multiset(StableSort(xs, le));
      assert x in xs <==> x in multiset(xs);
    }
  }

  function Filter<T>(p: T -> bool, xs: seq<T>): (r: seq<T>) {
    if xs == [] then [] else (if p(xs[0]) then [xs[0]] else []) + Filter(p, xs[1..])
  }

  lemma {:induction false} FilterSnoc<T(!new)>(p: T -> bool, xs: seq<T>, x: T)
    ensures Filter(p, xs + [x]) == Filter(p, xs) + if p(x) then [x] else []
  {
    if xs == [] {
      assert xs + [x] == [x] && Filter(p, [x][1..]) == [];
    } else {
      FilterSnoc(p, xs[1..], x);
      assert (xs + [x])[1..] == xs[1..] + [x];
    }
  }

  /** Filtering twice is filtering by both tests. */
  lemma {:induction false} FilterTwice<T(!new)>(p: T -> bool, q: T -> bool, both: T -> bool, xs: seq<T>)
    requires forall x :: both(x) <==> p(x) && q(x)
    ensures Filter(both, xs) == Filter(q, Filter(p, xs))
  {
    if xs != [] {
      FilterTwice(p, q, both, xs[1..]);
      var rest := Filter(p, xs[1..]);
      if p(xs[0]) {
        assert ([xs[0]] + rest)[1..] == rest;
      } else {
        assert [] + rest == rest;
      }
    }
  }

  lemma {:induction false} InsertFilter<T(!new)>(x: T, ys: seq<T>, le: (T, T) -> bool, p: T -> bool)
    requires forall a, b :: p(a) && p(b) ==> le(a, b)
    ensures Filter(p, Insert(x, ys, le)) == (if p(x) then [x] else []) + Filter(p, ys)
  {
    if ys != [] && !le(x, ys[0]) {
      InsertFilter(x, ys[1..], le, p);
      assert Insert(x, ys, le)[1..] == Insert(x, ys[1..], le);
    } else {
      assert ([x] + ys)[1..] == ys;
    }
  }

  /** Stability: elements with equal keys keep their relative order. */
  lemma {:induction false} SortIsStable<T(!new)>(xs: seq<T>, le: (T, T) -> bool, p: T -> bool)
    requires forall a, b :: p(a) && p(b) ==> le(a, b)
    ensures Filter(p, StableSort(xs, le)) == Filter(p, xs)
  {
    if xs != [] {
      SortIsStable(xs[1..], le, p);
      InsertFilter(xs[0], StableSort(xs[1..], le), le, p);
    }
  }

  lemma {:induction false} FilterMembers<T(!new)>(p: T -> bool, xs: seq<T>, x: T)
    ensures x in Filter(p, xs) <==> x in xs && p(x)
  {
    if xs != [] {
      FilterMembers(p, xs[1..], x);
      assert xs == [xs[0]] + xs[1..];
    }
  }

  lemma {:induction false} FilterConcat<T(!new)>(p: T -> bool, xs: seq<T>, ys: seq<T>)
    ensures Filter(p, xs + ys) == Filter(p, xs) + Filter(p, ys)
  {
    if xs == [] {
      assert xs + ys == ys;
    } else {
      FilterConcat(p, xs[1..], ys);
      var first := if p(xs[0]) then [xs[0]] else [];
      assert (xs + ys)[1..] == xs[1..] + ys;
      assert first + (Filter(p, xs[1..]) + Filter(p, ys)) == first + Filter(p, xs[1..]) + Filter(p, ys);
    }
  }

  lemma {:induction false} InsertAtFront<T(!new)>(x: T, ys: seq<T>, le: (T, T) -> bool)
    requires forall y | y in ys :: le(x, y)
    ensures Insert(x, ys, le) == [x] + ys
  {
    if ys != [] { assert ys[0] in ys; }
  }

  lemma {:induction false} FilterOfInsert<T(!new)>(x: T, ys: seq<T>, le: (T, T) -> bool, p: T -> bool)
    requires TotalPreorder(le) && SortedBy(ys, le)
    ensures Filter(p, Insert(x, ys, le)) == if p(x) then Insert(x, Filter(p, ys), le) else Filter(p, ys)
  {
    if ys == [] || le(x, ys[0]) {
      assert ([x] + ys)[1..] == ys;
      forall y | y in Filter(p, ys) ensures le(x, y) {
        FilterMembers(p, ys, y);
        var i :| 0 <= i < |ys| && ys[i] == y;
        assert i > 0 ==> le(ys[0], ys[i]);
      }
      InsertAtFront(x, Filter(p, ys), le);
    } else {
      FilterOfInsert(x, ys[1..], le, p);
      assert Insert(x, ys, le)[1..] == Insert(x, ys[1..], le);
      var rest := Filter(p, ys[1..]);
      if p(ys[0]) {
        assert Filter(p, ys)[1..] == rest;
      } else {
        assert [] + rest == rest && [] + Filter(p, Insert(x, ys[1..], le)) == Filter(p, Insert(x, ys[1..], le));
      }
    }
  }

  /** Sorting what a test keeps is keeping it of what was sorted. */
  lemma {:induction false} SortFilters<T(!new)>(xs: seq<T>, le: (T, T) -> bool, p: T -> bool)
    requires TotalPreorder(le)
    ensures Filter(p, StableSort(xs, le)) == StableSort(Filter(p, xs), le)
  {
    if xs != [] {
      SortFilters(xs[1..], le, p);
      SortSorts(xs[1..], le);
      FilterOfInsert(xs[0], StableSort(xs[1..], le), le, p);
      if p(xs[0]) {
        assert Filter(p, xs)[1..] == Filter(p, xs[1..]);
      } else {
        assert [] + Filter(p, xs[1..]) == Filter(p, xs[1..]);
      }
    }
  }

  // ----- Python's `sorted` on a set -----

  /** Sorted, and nothing twice. */
  ghost predicate SortedOnce<T(!new)>(xs: seq<T>, le: (T, T) -> bool) {
    SortedBy(xs, le) && forall i, j | 0 <= i < j < |xs| :: xs[i] != xs[j]
  }

  lemma InsertMembers<T(!new)>(x: T, ys: seq<T>, le: (T, T) -> bool)
    ensures forall y :: y in Insert(x, ys, le) <==> y == x || y in ys
  {
    InsertPermutes(x, ys, le);
    forall y ensures y in Insert(x, ys, le) <==> y == x || y in ys {
      assert y in Insert(x, ys, le) <==> y in multiset(Insert(x, ys, le));
      assert y in ys <==> y in multiset(ys);
    }
  }

  lemma {:induction false} InsertOnce<T(!new)>(x: T, ys: seq<T>, le: (T, T) -> bool)
    requires TotalPreorder(le) && SortedOnce(ys, le) && x !in ys
    ensures SortedOnce(Insert(x, ys, le), le)
  {
    InsertSorted(x, ys, le);
    if ys != [] && !le(x, ys[0]) {
      InsertOnce(x, ys[1..], le);
      InsertMembers(x, ys[1..], le);
      var tail := Insert(x, ys[1..], le);
      forall j | 0 <= j < |tail| ensures ys[0] != tail[j] {
        assert tail[j] in tail;
      }
    }
  }

  method SortedSet<T(==, !new)>(s: set<T>, le: (T, T) -> bool) returns (r: seq<T>)
    requires TotalPreorder(le)
    ensures SortedOnce(r, le) && forall x :: x in r <==> x in s
  {
    r := [];
    var rest := s;
    while rest != {}
      invariant rest <= s && SortedOnce(r, le)
      invariant forall y :: y in r <==> y in s - rest
    {
      var x := AnyOf(rest);
      InsertOnce(x, r, le);
      InsertMembers(x, r, le);
      r, rest := Insert(x, r, le), rest - {x};
    }
  }

  ghost predicate Antisymmetric<T(!new)>(le: (T, T) -> bool) {
    forall x, y :: le(x, y) && le(y, x) ==> x == y
  }

  lemma FirstIsLeast<T(!new)>(xs: seq<T>, le: (T, T) -> bool, x: T)
    requires TotalPreorder(le) && SortedBy(xs, le) && x in xs
    ensures le(xs[0], x)
  {
    var i :| 0 <= i < |xs| && xs[i] == x;
    assert le(x, x);
  }

  lemma RestMembers<T(!new)>(xs: seq<T>, le: (T, T) -> bool)
    requires SortedOnce(xs, le) && xs != []
    ensures forall x :: x in xs[1..] <==> x in xs && x != xs[0]
  {
    assert xs == [xs[0]] + xs[1..];
  }

  lemma FirstIsMember<T>(xs: seq<T>)
    requires xs != []
    ensures xs[0] in xs
  {
  }

  /** The order and the members determine the list. */
  lemma {:induction false} SortedOnceIsUnique<T(!new)>(xs: seq<T>, ys: seq<T>, le: (T, T) -> bool)
    requires TotalPreorder(le) && Antisymmetric(le) && SortedOnce(xs, le) && SortedOnce(ys, le)
    requires forall x :: x in xs <==> x in ys
    ensures xs == ys
  {
    if xs == [] {
      if ys != [] { FirstIsMember(ys); }
    } else {
      assert xs[0] in ys && ys[0] in xs;
      FirstIsLeast(ys, le, xs[0]);
      FirstIsLeast(xs, le, ys[0]);
      RestMembers(xs, le);
      RestMembers(ys, le);
      SortedOnceIsUnique(xs[1..], ys[1..], le);
    }
  }
}
