/** Length of a set of instants on an integer clock: the number of unit steps [k, k + 1) it holds. */
module Measure {
  ghost function Length(p: int -> bool, lo: int, hi: int): (n: nat)
    decreases hi - lo
  {
    if lo >= hi then 0 else Length(p, lo, hi - 1) + if p(hi - 1) then 1 else 0
  }

  lemma {:induction false} LengthSplits(p: int -> bool, lo: int, mid: int, hi: int)
    requires lo <= mid <= hi
    ensures Length(p, lo, hi) == Length(p, lo, mid) + Length(p, mid, hi)
    decreases hi - mid
  {
    if mid < hi { LengthSplits(p, lo, mid, hi - 1); }
  }

  lemma {:induction false} LengthOfConstant(p: int -> bool, lo: int, hi: int, b: bool)
    requires lo <= hi && forall k | lo <= k < hi :: p(k) == b
    ensures Length(p, lo, hi) == if b then hi - lo else 0
    decreases hi - lo
  {
    if lo < hi { LengthOfConstant(p, lo, hi - 1, b); }
  }

  lemma {:induction false} LengthDepends(p: int -> bool, q: int -> bool, lo: int, hi: int)
    requires forall k | lo <= k < hi :: p(k) == q(k)
    ensures Length(p, lo, hi) == Length(q, lo, hi)
    decreases hi - lo
  {
    if lo < hi { LengthDepends(p, q, lo, hi - 1); }
  }

  lemma {:induction false} LengthIsMonotone(p: int -> bool, q: int -> bool, lo: int, hi: int)
    requires forall k | lo <= k < hi :: p(k) ==> q(k)
    ensures Length(p, lo, hi) <= Length(q, lo, hi)
    decreases hi - lo
  {
    if lo < hi { LengthIsMonotone(p, q, lo, hi - 1); }
  }

  /** The length is the number of unit steps: the cardinality of the set of their left ends. */
  lemma {:induction false} LengthCounts(p: int -> bool, lo: int, hi: int)
    ensures Length(p, lo, hi) == |set k | lo <= k < hi && p(k)|
    decreases hi - lo
  {
    var steps := set k | lo <= k < hi && p(k);
    if lo >= hi {
      assert steps == {};
    } else {
      LengthCounts(p, lo, hi - 1);
      var fewer := set k | lo <= k < hi - 1 && p(k);
      assert steps == fewer + if p(hi - 1) then {hi - 1} else {};
    }
  }
}
