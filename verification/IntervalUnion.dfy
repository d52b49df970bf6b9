/** `compute_interval_union_ms`: time covered by a set of intervals, counted once. The clock ticks in microseconds. */
module IntervalUnion {
  import opened Common
  import opened Sorting
  import opened Measure

  datatype Interval = Interval(start: int, end: int)

  /** The timestamps of one interval as they arrive; either may be missing. */
  type Stamps = (Option<int>, Option<int>)

  predicate StartLe(a: Interval, b: Interval) {
    a.start <= b.start
  }

  predicate Holds(s: Interval, t: int) {
    s.start <= t < s.end
  }

  ghost predicate Covered(spans: seq<Interval>, t: int) {
    exists s | s in spans :: Holds(s, t)
  }

  /** The instant is inside an interval whose two ends are known. */
  ghost predicate InSome(stamps: seq<Stamps>, t: int) {
    exists s | s in stamps :: s.0.Some? && s.1.Some? && s.0.value <= t < s.1.value
  }

  predicate Proper(s: Stamps) {
    s.0.Some? && s.1.Some? && s.0.value < s.1.value
  }

  ghost predicate Bounds(stamps: seq<Stamps>, lo: int, hi: int) {
    forall s | s in stamps && Proper(s) :: lo <= s.0.value && s.1.value <= hi
  }

  method ValidPairs(stamps: seq<Stamps>) returns (pairs: seq<Interval>)
    ensures forall p | p in pairs :: p.start < p.end
    ensures forall p: Interval :: p in pairs <==> (Some(p.start), Some(p.end)) in stamps && p.start < p.end
    ensures pairs == [] <==> forall s | s in stamps :: !Proper(s)
  {
    pairs := [];
    for i := 0 to |stamps|
      invariant forall p: Interval :: p in pairs <==> (Some(p.start), Some(p.end)) in stamps[..i] && p.start < p.end
      invariant pairs == [] <==> forall s | s in stamps[..i] :: !Proper(s)
    {
      var (start, end) := stamps[i];
      assert stamps[..i + 1] == stamps[..i] + [stamps[i]];
      if start.None? || end.None? {
        continue;
      }
      if end.value <= start.value {
        continue;
      }
      pairs := pairs + [Interval(start.value, end.value)];
    }
    assert stamps[..|stamps|] == stamps;
  }

  /** `total` counts what the closed blocks cover; [curStart, curEnd) is the open one. */
  ghost predicate Swept(pairs: seq<Interval>, total: int, curStart: int, curEnd: int, lo: int) {
    && lo <= curStart < curEnd
    && total == Length(t => Covered(pairs, t), lo, curStart)
    && (forall t | curStart <= t < curEnd :: Covered(pairs, t))
    && (forall t | curEnd <= t :: !Covered(pairs, t))
  }

  lemma CoveredAppend(pairs: seq<Interval>, s: Interval, t: int)
    ensures Covered(pairs + [s], t) <==> Covered(pairs, t) || Holds(s, t)
  {
    if Covered(pairs, t) {
      var u :| u in pairs && Holds(u, t);
      assert u in pairs + [s];
    }
    if Holds(s, t) { assert s in pairs + [s]; }
  }

  /** The next interval either widens the open block or closes it. */
  lemma SweepOne(pairs: seq<Interval>, s: Interval, total: int, curStart: int, curEnd: int, lo: int)
    requires Swept(pairs, total, curStart, curEnd, lo) && curStart <= s.start < s.end
    ensures s.start <= curEnd ==> Swept(pairs + [s], total, curStart, MaxInt(curEnd, s.end), lo)
    ensures s.start > curEnd ==> Swept(pairs + [s], total + (curEnd - curStart), s.start, s.end, lo)
  {
    var p := t => Covered(pairs, t);
    var q := t => Covered(pairs + [s], t);
    forall t ensures Covered(pairs + [s], t) <==> Covered(pairs, t) || Holds(s, t) {
      CoveredAppend(pairs, s, t);
    }
    LengthDepends(p, q, lo, curStart);
    if s.start > curEnd {
      LengthSplits(q, lo, curStart, s.start);
      LengthSplits(q, curStart, curEnd, s.start);
      LengthOfConstant(q, curStart, curEnd, true);
      LengthOfConstant(q, curEnd, s.start, false);
    }
  }

  /** The sum of the sweep is the length of the union, whatever bounds one measures it between. */
  lemma SweepTotal(pairs: seq<Interval>, total: int, curStart: int, curEnd: int, lo: int, hi: int)
    requires Swept(pairs, total, curStart, curEnd, lo) && curEnd <= hi
    ensures total + (curEnd - curStart) == Length(t => Covered(pairs, t), lo, hi)
  {
    var p := t => Covered(pairs, t);
    LengthSplits(p, lo, curStart, hi);
    LengthSplits(p, curStart, curEnd, hi);
    LengthOfConstant(p, curStart, curEnd, true);
    LengthOfConstant(p, curEnd, hi, false);
  }

  method UnionLength(pairs: seq<Interval>, ghost lo: int, ghost hi: int) returns (total: int)
    requires pairs != [] && SortedBy(pairs, StartLe)
    requires forall p | p in pairs :: lo <= p.start < p.end <= hi
    ensures total == Length(t => Covered(pairs, t), lo, hi)
  {
    total := 0;
    var curStart, curEnd := pairs[0].start, pairs[0].end;
    assert pairs[0] in pairs;
    LengthOfConstant(t => Covered(pairs[..1], t), lo, curStart, false);
    assert forall t :: Covered(pairs[..1], t) <==> Holds(pairs[0], t) by {
      forall t ensures Covered(pairs[..1], t) <==> Holds(pairs[0], t) {
        CoveredAppend([], pairs[0], t);
        assert pairs[..1] == [] + [pairs[0]];
      }
    }
    for i := 1 to |pairs|
      invariant Swept(pairs[..i], total, curStart, curEnd, lo) && curEnd <= hi
      invariant i < |pairs| ==> curStart <= pairs[i].start
    {
      var s := pairs[i];
      assert s in pairs;
      assert i + 1 < |pairs| ==> StartLe(pairs[i], pairs[i + 1]);
      SweepOne(pairs[..i], s, total, curStart, curEnd, lo);
      assert pairs[..i + 1] == pairs[..i] + [s];
      if s.start <= curEnd {
        if s.end > curEnd { curEnd := s.end; }
      } else {
        total := total + (curEnd - curStart);
        curStart, curEnd := s.start, s.end;
      }
    }
    assert pairs[..|pairs|] == pairs;
    SweepTotal(pairs, total, curStart, curEnd, lo, hi);
    total := total + (curEnd - curStart);
  }

  /** Whole milliseconds of the union, or nothing when no interval is proper. */
  method ComputeIntervalUnionMs(stamps: seq<Stamps>, ghost lo: int, ghost hi: int) returns (ms: Option<int>)
    requires Bounds(stamps, lo, hi)
    ensures ms.None? <==> forall s | s in stamps :: !Proper(s)
    ensures ms.Some? ==> ms.value == Length(t => InSome(stamps, t), lo, hi) / 1000
  {
    var pairs := ValidPairs(stamps);
    if pairs == [] {
      return None;
    }
    var sorted := StableSort(pairs, StartLe);
    assert TotalPreorder(StartLe);
    SortSorts(pairs, StartLe);
    SortMembers(pairs, StartLe);
    forall p | p in sorted ensures lo <= p.start < p.end <= hi {
      assert Proper((Some(p.start), Some(p.end)));
    }
    var total := UnionLength(sorted, lo, hi);
    forall t ensures Covered(sorted, t) <==> InSome(stamps, t) {
      if s :| s in stamps && s.0.Some? && s.1.Some? && s.0.value <= t < s.1.value {
        assert Interval(s.0.value, s.1.value) in sorted;
      }
    }
    LengthDepends(t => Covered(sorted, t), t => InSome(stamps, t), lo, hi);
    return Some(total / 1000);
  }
}
