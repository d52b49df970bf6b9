/** `_smooth_diarization_turns`: turns shorter than a threshold are absorbed into a neighbour. */
module Smoothing {
  import opened Common
  import opened Sorting
  import opened SpeakerTurns
  import opened Coalescing

  /** Position of the first longest turn. */
  function Longest(ts: seq<Turn>): (k: nat)
    requires ts != []
    ensures k < |ts|
    ensures forall i | 0 <= i < |ts| :: Duration(ts[i]) <= Duration(ts[k])
    ensures forall i | 0 <= i < k :: Duration(ts[i]) < Duration(ts[k])
  {
    var n := |ts| - 1;
    if n == 0 then 0
    else
      var k := Longest(ts[..n]);
      if Duration(ts[n]) > Duration(ts[k]) then n else k
  }

  ghost predicate AllMicro(ts: seq<Turn>, minDuration: real) {
    forall t | t in ts :: Duration(t) < minDuration
  }

  /** Which sorted turns are absorbed: the short ones, sparing the longest when all are short. */
  ghost function Absorbed(ts: seq<Turn>, minDuration: real): (r: seq<bool>)
    requires ts != []
    ensures |r| == |ts| && HasKept(r)
  {
    var spared := if AllMicro(ts, minDuration) then Longest(ts) else |ts|;
    var r := seq(|ts|, i requires 0 <= i < |ts| => Duration(ts[i]) < minDuration && i != spared);
    assert HasKept(r) by {
      if spared < |ts| {
        assert !r[spared];
      } else {
        var t :| t in ts && !(Duration(t) < minDuration);
        var i :| 0 <= i < |ts| && ts[i] == t;
        assert !r[i];
      }
    }
    r
  }

  ghost predicate HasKept(absorbed: seq<bool>) {
    exists i | 0 <= i < |absorbed| :: !absorbed[i]
  }

  /** Nearest kept index below `idx`. */
  ghost function PrevKept(absorbed: seq<bool>, idx: nat): (r: Option<nat>)
    requires idx <= |absorbed|
    ensures r.Some? ==> r.value < idx && !absorbed[r.value] && forall p | r.value < p < idx :: absorbed[p]
    ensures r.None? ==> forall p | 0 <= p < idx :: absorbed[p]
  {
    if idx == 0 then None
    else if !absorbed[idx - 1] then Some(idx - 1)
    else PrevKept(absorbed, idx - 1)
  }

  /** Nearest kept index from `idx` on. */
  ghost function NextKept(absorbed: seq<bool>, idx: nat): (r: Option<nat>)
    requires idx <= |absorbed|
    ensures r.Some? ==> idx <= r.value < |absorbed| && !absorbed[r.value] && forall p | idx <= p < r.value :: absorbed[p]
    ensures r.None? ==> forall p | idx <= p < |absorbed| :: absorbed[p]
    decreases |absorbed| - idx
  {
    if idx == |absorbed| then None
    else if !absorbed[idx] then Some(idx)
    else NextKept(absorbed, idx + 1)
  }

  /** Whether `micro` prefers `a` to `b`: more overlap first, then the longer of the two. */
  ghost predicate Preferred(a: Turn, b: Turn, micro: Turn) {
    || Overlap(a, micro) > Overlap(b, micro)
    || (Overlap(a, micro) == Overlap(b, micro) && Duration(a) >= Duration(b))
  }

  /** The neighbour a micro-turn is absorbed into; the earlier one wins a tie. */
  ghost function Target(cur: seq<Turn>, absorbed: seq<bool>, idx: nat, micro: Turn): (k: nat)
    requires |cur| == |absorbed| && idx < |cur| && absorbed[idx] && HasKept(absorbed)
    ensures k < |cur| && !absorbed[k]
  {
    match (PrevKept(absorbed, idx), NextKept(absorbed, idx + 1))
    case (Some(p), Some(n)) => if Preferred(cur[p], cur[n], micro) then p else n
    case (Some(p), None) => p
    case (None, Some(n)) => n
  }

  /** `j` is the kept turn next to `idx` on one side. */
  ghost predicate KeptNeighbour(absorbed: seq<bool>, idx: nat, j: nat) {
    && idx < |absorbed| && j < |absorbed| && j != idx && !absorbed[j]
    && forall p | (if j < idx then j < p < idx else idx < p < j) :: absorbed[p]
  }

  /** The target is a kept neighbour, and no other one overlaps the micro-turn more, or as much while being longer. */
  lemma TargetIsBest(cur: seq<Turn>, absorbed: seq<bool>, idx: nat, micro: Turn, j: nat)
    requires |cur| == |absorbed| && idx < |cur| && absorbed[idx] && HasKept(absorbed) && KeptNeighbour(absorbed, idx, j)
    ensures var k := Target(cur, absorbed, idx, micro);
      && KeptNeighbour(absorbed, idx, k)
      && Overlap(cur[j], micro) <= Overlap(cur[k], micro)
      && (Overlap(cur[j], micro) == Overlap(cur[k], micro) ==> Duration(cur[j]) <= Duration(cur[k]))
      && (Overlap(cur[j], micro) == Overlap(cur[k], micro) && Duration(cur[j]) == Duration(cur[k]) ==> k <= j)
  {
    var p, n := PrevKept(absorbed, idx), NextKept(absorbed, idx + 1);
    assert if j < idx then p == Some(j) else n == Some(j);
  }

  function Widen(target: Turn, micro: Turn): Turn {
    target.(start := Min(target.start, micro.start), end := Max(target.end, micro.end))
  }

  /** The turns, by sorted index, once the micro-turns below `n` have been absorbed. */
  ghost function AbsorbUpTo(s: seq<Turn>, absorbed: seq<bool>, n: nat): (cur: seq<Turn>)
    requires |absorbed| == |s| && HasKept(absorbed) && n <= |s|
    ensures |cur| == |s|
  {
    if n == 0 then s
    else
      var cur := AbsorbUpTo(s, absorbed, n - 1);
      if absorbed[n - 1] then
        var k := Target(cur, absorbed, n - 1, s[n - 1]);
        cur[k := Widen(cur[k], s[n - 1])]
      else cur
  }

  ghost function Kept(cur: seq<Turn>, absorbed: seq<bool>): (r: seq<Turn>)
    requires |cur| == |absorbed|
  {
    if cur == [] then [] else
      var n := |cur| - 1;
      Kept(cur[..n], absorbed[..n]) + if absorbed[n] then [] else [cur[n]]
  }

  ghost function KeptTurns(s: seq<Turn>, minDuration: real): (r: seq<Turn>)
    requires s != []
  {
    var absorbed := Absorbed(s, minDuration);
    Kept(AbsorbUpTo(s, absorbed, |s|), absorbed)
  }

  ghost function Smooth(turns: seq<Turn>, minDuration: real): (r: seq<Turn>) {
    if turns == [] || minDuration <= 0.0 then turns
    else
      var s := StableSort(turns, TurnLe);
      SortSorts(turns, TurnLe);
      MergeAdjacent(StableSort(KeptTurns(s, minDuration), TurnLe))
  }

  // ----- The loops -----

  ghost function Rank(absorbed: seq<bool>, k: nat): nat
    requires k <= |absorbed|
  {
    if k == 0 then 0 else Rank(absorbed, k - 1) + if absorbed[k - 1] then 0 else 1
  }

  lemma {:induction false} RankPrefix(absorbed: seq<bool>, n: nat, k: nat)
    requires k <= n <= |absorbed|
    ensures Rank(absorbed[..n], k) == Rank(absorbed, k)
  {
    if k > 0 { RankPrefix(absorbed, n, k - 1); }
  }

  /** A kept turn sits in the compact list at the number of kept turns before it. */
  lemma {:induction false} KeptAt(cur: seq<Turn>, absorbed: seq<bool>, k: nat, x: Turn)
    requires |cur| == |absorbed| && k < |cur| && !absorbed[k]
    ensures |Kept(cur, absorbed)| == Rank(absorbed, |cur|)
    ensures Rank(absorbed, k) < |Kept(cur, absorbed)|
    ensures Kept(cur, absorbed)[Rank(absorbed, k)] == cur[k]
    ensures Kept(cur[k := x], absorbed) == Kept(cur, absorbed)[Rank(absorbed, k) := x]
  {
    var n := |cur| - 1;
    KeptSize(cur[..n], absorbed[..n]);
    RankPrefix(absorbed, n, n);
    if k < n {
      KeptAt(cur[..n], absorbed[..n], k, x);
      RankPrefix(absorbed, n, k);
      assert cur[k := x][..n] == cur[..n][k := x];
    } else {
      assert cur[k := x][..n] == cur[..n];
    }
  }

  lemma {:induction false} KeptSize(cur: seq<Turn>, absorbed: seq<bool>)
    requires |cur| == |absorbed|
    ensures |Kept(cur, absorbed)| == Rank(absorbed, |cur|)
  {
    if cur != [] {
      var n := |cur| - 1;
      KeptSize(cur[..n], absorbed[..n]);
      RankPrefix(absorbed, n, n);
    }
  }

  /** Nothing absorbed: the kept turns are all of them. */
  lemma {:induction false} KeptOfNone(s: seq<Turn>, absorbed: seq<bool>)
    requires |absorbed| == |s| && forall i | 0 <= i < |s| :: !absorbed[i]
    ensures Kept(s, absorbed) == s
    ensures HasKept(absorbed) ==> forall n: nat | n <= |s| :: AbsorbUpTo(s, absorbed, n) == s
  {
    if s != [] {
      KeptOfNone(s[..|s| - 1], absorbed[..|s| - 1]);
    }
    if HasKept(absorbed) {
      AbsorbOfNone(s, absorbed, |s|);
    }
  }

  lemma {:induction false} AbsorbOfNone(s: seq<Turn>, absorbed: seq<bool>, n: nat)
    requires |absorbed| == |s| && HasKept(absorbed) && n <= |s|
    requires forall i | 0 <= i < |s| :: !absorbed[i]
    ensures forall m: nat | m <= n :: AbsorbUpTo(s, absorbed, m) == s
  {
    if n > 0 { AbsorbOfNone(s, absorbed, n - 1); }
  }

  method LongestTurn(ts: seq<Turn>) returns (k: nat)
    requires ts != []
    ensures k == Longest(ts)
  {
    k := 0;
    assert ts[..1][0] == ts[0];
    for i := 1 to |ts|
      invariant k < i
      invariant k == Longest(ts[..i])
    {
      assert ts[..i + 1][..i] == ts[..i];
      if Duration(ts[i]) > Duration(ts[k]) { k := i; }
    }
    assert ts[..|ts|] == ts;
  }

  method FindNeighbours(absorbed: seq<bool>, idx: nat) returns (prev: Option<nat>, next: Option<nat>)
    requires idx < |absorbed|
    ensures prev == PrevKept(absorbed, idx) && next == NextKept(absorbed, idx + 1)
  {
    prev, next := None, None;
    var p: nat := idx;
    while p > 0 && prev.None?
      invariant p <= idx
      invariant prev.None? ==> PrevKept(absorbed, idx) == PrevKept(absorbed, p)
      invariant prev.Some? ==> PrevKept(absorbed, idx) == prev
      decreases p, prev.None?
    {
      p := p - 1;
      if !absorbed[p] { prev := Some(p); }
    }
    var n := idx + 1;
    while n < |absorbed| && next.None?
      invariant n <= |absorbed|
      invariant next.None? ==> NextKept(absorbed, idx + 1) == NextKept(absorbed, n)
      invariant next.Some? ==> NextKept(absorbed, idx + 1) == next
    {
      if !absorbed[n] { next := Some(n); }
      n := n + 1;
    }
  }

  /** Indices of kept turns to be looked up in the compact list. */
  ghost predicate Indexes(keptByOrigIdx: map<nat, nat>, absorbed: seq<bool>, n: nat)
    requires n <= |absorbed|
  {
    && (forall i: nat {:trigger i in keptByOrigIdx} | i < n && !absorbed[i] :: i in keptByOrigIdx)
    && (forall i | i in keptByOrigIdx :: i < n && IndexedAt(keptByOrigIdx, absorbed, i))
  }

  ghost predicate IndexedAt(keptByOrigIdx: map<nat, nat>, absorbed: seq<bool>, i: nat)
    requires i in keptByOrigIdx
  {
    i < |absorbed| && keptByOrigIdx[i] == Rank(absorbed, i)
  }

  /** Splits the sorted turns into the kept list and the absorbed flags, sparing the longest if need be. */
  method Partition(s: seq<Turn>, minDuration: real) returns (kept: seq<Turn>, absorbed: seq<bool>)
    requires s != []
    ensures absorbed == Absorbed(s, minDuration)
    ensures kept == Kept(s, absorbed)
  {
    kept, absorbed := FlagMicros(s, minDuration);
    if kept == [] {
      var k := LongestTurn(s);
      assert AllMicro(s, minDuration);
      KeptOnly(s, absorbed, k);
      kept := [s[k]];
      absorbed := absorbed[k := false];
    } else {
      var i :| 0 <= i < |s| && !absorbed[i];
      assert s[i] in s && !AllMicro(s, minDuration);
    }
    assert absorbed == Absorbed(s, minDuration);
  }

  method FlagMicros(s: seq<Turn>, minDuration: real) returns (kept: seq<Turn>, absorbed: seq<bool>)
    ensures |absorbed| == |s| && forall i | 0 <= i < |s| :: absorbed[i] == (Duration(s[i]) < minDuration)
    ensures kept == Kept(s, absorbed)
    ensures kept == [] <==> forall i | 0 <= i < |s| :: absorbed[i]
  {
    kept, absorbed := [], [];
    for idx := 0 to |s|
      invariant |absorbed| == idx
      invariant forall i | 0 <= i < idx :: absorbed[i] == (Duration(s[i]) < minDuration)
      invariant kept == Kept(s[..idx], absorbed)
      invariant kept == [] <==> forall i | 0 <= i < idx :: absorbed[i]
    {
      assert s[..idx + 1][..idx] == s[..idx];
      var turn := s[idx];
      var short := turn.end - turn.start < minDuration;
      if !short { kept := kept + [turn]; }
      ghost var before := absorbed;
      absorbed := absorbed + [short];
      assert absorbed[..idx] == before;
    }
    assert s[..|s|] == s;
  }

  lemma {:induction false} KeptOnly(s: seq<Turn>, absorbed: seq<bool>, k: nat)
    requires |absorbed| == |s| && k <= |s| && forall i | 0 <= i < |s| :: absorbed[i]
    ensures Kept(s, absorbed) == []
    ensures k < |s| ==> Kept(s, absorbed[k := false]) == [s[k]]
  {
    if s != [] {
      var n := |s| - 1;
      KeptOnly(s[..n], absorbed[..n], if k < n then k else n);
      if k < n { assert absorbed[k := false][..n] == absorbed[..n][k := false]; }
      else if k == n { assert absorbed[k := false][..n] == absorbed[..n]; }
    }
  }

  lemma AllKept(s: seq<Turn>, minDuration: real)
    requires s != [] && forall i | 0 <= i < |s| :: !Absorbed(s, minDuration)[i]
    ensures KeptTurns(s, minDuration) == s
  {
    KeptOfNone(s, Absorbed(s, minDuration));
  }

  lemma SmoothOfNone(turns: seq<Turn>, minDuration: real)
    requires turns != [] && minDuration > 0.0
    requires var s := StableSort(turns, TurnLe); s != [] && forall i | 0 <= i < |s| :: !Absorbed(s, minDuration)[i]
    ensures Smooth(turns, minDuration) == MergeAdjacent(StableSort(turns, TurnLe))
  {
    var s := StableSort(turns, TurnLe);
    SortSorts(turns, TurnLe);
    AllKept(s, minDuration);
    SortOfSorted(s, TurnLe);
  }

  method SmoothDiarizationTurns(turns: seq<Turn>, minDuration: real) returns (out: seq<Turn>)
    ensures out == Smooth(turns, minDuration)
  {
    if turns == [] || minDuration <= 0.0 {
      return turns;
    }
    var s := StableSort(turns, TurnLe);
    SortSorts(turns, TurnLe);
    var kept, absorbed := Partition(s, minDuration);
    if forall i | 0 <= i < |s| :: !absorbed[i] {
      SmoothOfNone(turns, minDuration);
      out := MergeAdjacentTurns(s);
      return;
    }
    var keptByOrigIdx := IndexKept(absorbed);
    kept := AbsorbAll(s, kept, absorbed, keptByOrigIdx);
    out := MergeAdjacentTurns(StableSort(kept, TurnLe));
  }

  method IndexKept(absorbed: seq<bool>) returns (keptByOrigIdx: map<nat, nat>)
    ensures Indexes(keptByOrigIdx, absorbed, |absorbed|)
  {
    keptByOrigIdx := map[];
    for i := 0 to |absorbed|
      invariant IndexedTo(keptByOrigIdx, absorbed, i)
    {
      if !absorbed[i] {
        IndexStep(keptByOrigIdx, absorbed, i);
        keptByOrigIdx := keptByOrigIdx[i := |keptByOrigIdx|];
      } else {
        IndexSkip(keptByOrigIdx, absorbed, i);
      }
    }
  }

  /** The first `n` flags are indexed, in an order that makes the next index the map's size. */
  ghost predicate IndexedTo(keptByOrigIdx: map<nat, nat>, absorbed: seq<bool>, n: nat)
    requires n <= |absorbed|
  {
    Indexes(keptByOrigIdx, absorbed, n) && |keptByOrigIdx| == Rank(absorbed, n)
  }

  lemma IndexSkip(keptByOrigIdx: map<nat, nat>, absorbed: seq<bool>, i: nat)
    requires i < |absorbed| && absorbed[i] && IndexedTo(keptByOrigIdx, absorbed, i)
    ensures IndexedTo(keptByOrigIdx, absorbed, i + 1)
  {
  }

  lemma NewKeyCounts(before: map<nat, nat>, key: nat, value: nat)
    requires key !in before
    ensures |before[key := value]| == |before| + 1
  {
    var after := before[key := value];
    assert after.Keys == before.Keys + {key};
    assert |after| == |after.Keys|;
  }

  lemma IndexStep(before: map<nat, nat>, absorbed: seq<bool>, i: nat)
    requires i < |absorbed| && !absorbed[i] && IndexedTo(before, absorbed, i)
    ensures IndexedTo(before[i := |before|], absorbed, i + 1)
  {
    var after := before[i := |before|];
    NewKeyCounts(before, i, |before|);
    forall j | j in after ensures j < i + 1 && IndexedAt(after, absorbed, j) {
      if j != i { assert IndexedAt(before, absorbed, j); }
    }
  }

  /** Extends the best neighbour of each absorbed turn in place. */
  method AbsorbAll(s: seq<Turn>, kept0: seq<Turn>, absorbed: seq<bool>, keptByOrigIdx: map<nat, nat>)
    returns (kept: seq<Turn>)
    requires |absorbed| == |s| && HasKept(absorbed)
    requires Indexes(keptByOrigIdx, absorbed, |s|) && kept0 == Kept(s, absorbed)
    ensures kept == Kept(AbsorbUpTo(s, absorbed, |s|), absorbed)
  {
    kept := kept0;
    for idx := 0 to |s|
      invariant kept == Kept(AbsorbUpTo(s, absorbed, idx), absorbed)
    {
      kept := AbsorbOne(s, kept, absorbed, keptByOrigIdx, idx);
    }
  }

  method AbsorbOne(s: seq<Turn>, kept0: seq<Turn>, absorbed: seq<bool>, keptByOrigIdx: map<nat, nat>, idx: nat)
    returns (kept: seq<Turn>)
    requires |absorbed| == |s| && HasKept(absorbed) && idx < |s|
    requires Indexes(keptByOrigIdx, absorbed, |s|) && kept0 == Kept(AbsorbUpTo(s, absorbed, idx), absorbed)
    ensures kept == Kept(AbsorbUpTo(s, absorbed, idx + 1), absorbed)
  {
    kept := kept0;
    if absorbed[idx] {
      var micro := s[idx];
      ghost var cur := AbsorbUpTo(s, absorbed, idx);
      var targetIdx := TargetIndex(cur, kept, absorbed, keptByOrigIdx, idx, micro);
      ghost var k := Target(cur, absorbed, idx, micro);
      KeptAt(cur, absorbed, k, Widen(cur[k], micro));
      var target := kept[targetIdx];
      kept := kept[targetIdx := target.(start := Min(target.start, micro.start), end := Max(target.end, micro.end))];
    }
  }

  method TargetIndex(ghost cur: seq<Turn>, kept: seq<Turn>, absorbed: seq<bool>,
                     keptByOrigIdx: map<nat, nat>, idx: nat, micro: Turn) returns (targetIdx: nat)
    requires |cur| == |absorbed| && idx < |cur| && absorbed[idx] && HasKept(absorbed)
    requires Indexes(keptByOrigIdx, absorbed, |absorbed|) && kept == Kept(cur, absorbed)
    ensures targetIdx == Rank(absorbed, Target(cur, absorbed, idx, micro))
  {
    var prevOrig, nextOrig := FindNeighbours(absorbed, idx);
    if prevOrig.Some? && nextOrig.Some? {
      KeptAt(cur, absorbed, prevOrig.value, micro);
      KeptAt(cur, absorbed, nextOrig.value, micro);
      var prev, next := kept[keptByOrigIdx[prevOrig.value]], kept[keptByOrigIdx[nextOrig.value]];
      var ovPrev, ovNext := Overlap(prev, micro), Overlap(next, micro);
      if ovPrev > ovNext {
        targetIdx := keptByOrigIdx[prevOrig.value];
      } else if ovNext > ovPrev {
        targetIdx := keptByOrigIdx[nextOrig.value];
      } else if prev.end - prev.start >= next.end - next.start {
        targetIdx := keptByOrigIdx[prevOrig.value];
      } else {
        targetIdx := keptByOrigIdx[nextOrig.value];
      }
    } else if prevOrig.Some? {
      targetIdx := keptByOrigIdx[prevOrig.value];
    } else {
      targetIdx := keptByOrigIdx[nextOrig.value];
    }
  }

  // ----- What absorption is -----

  /** Exactly the short turns, sparing the first of the longest when all are short. */
  ghost predicate AreShort(absorbed: seq<bool>, s: seq<Turn>, minDuration: real) {
    |absorbed| == |s| && forall i | 0 <= i < |s| ::
      absorbed[i] <==> Duration(s[i]) < minDuration && !(AllMicro(s, minDuration) && IsFirstLongest(s, i))
  }

  ghost predicate IsFirstLongest(s: seq<Turn>, k: nat) {
    k < |s| && (forall i | 0 <= i < |s| :: Duration(s[i]) <= Duration(s[k])) && forall i | 0 <= i < k :: Duration(s[i]) < Duration(s[k])
  }

  /** `k` suits the short turn better than `j`: more time shared, then longer, then earlier. */
  ghost predicate Suits(cur: seq<Turn>, micro: Turn, k: nat, j: nat)
    requires k < |cur| && j < |cur|
  {
    var shared, other := Overlap(cur[k], micro), Overlap(cur[j], micro);
    shared > other || (shared == other && (Duration(cur[k]) > Duration(cur[j]) || (Duration(cur[k]) == Duration(cur[j]) && k < j)))
  }

  /** The kept neighbour that suits the short turn best, as the neighbours stand now. */
  ghost predicate IsBest(cur: seq<Turn>, absorbed: seq<bool>, n: nat, micro: Turn, k: nat)
    requires |cur| == |absorbed|
  {
    KeptNeighbour(absorbed, n, k) && forall j: nat | KeptNeighbour(absorbed, n, j) && j != k :: Suits(cur, micro, k, j)
  }

  /** Only slot `k` changes: it now spans the short turn too, and is the same turn otherwise. */
  ghost predicate WidensOnly(cur: seq<Turn>, next: seq<Turn>, k: nat, micro: Turn) {
    && k < |cur| == |next|
    && (forall i | 0 <= i < |cur| && i != k :: next[i] == cur[i])
    && next[k].start == Min(cur[k].start, micro.start) && next[k].end == Max(cur[k].end, micro.end)
    && next[k].speaker == cur[k].speaker && next[k].confidence == cur[k].confidence
    && next[k].overlappingSpeakers == cur[k].overlappingSpeakers
  }

  ghost predicate AbsorbStep(cur: seq<Turn>, next: seq<Turn>, absorbed: seq<bool>, n: nat, micro: Turn)
    requires n < |absorbed| == |cur|
  {
    if absorbed[n] then exists k: nat :: IsBest(cur, absorbed, n, micro, k) && WidensOnly(cur, next, k, micro) else next == cur
  }

  /** The states that the sorted turns go through, short turn by short turn. */
  ghost predicate IsAbsorption(states: seq<seq<Turn>>, s: seq<Turn>, absorbed: seq<bool>) {
    && |states| == |s| + 1 && |absorbed| == |s| && states[0] == s
    && (forall n | 0 <= n <= |s| :: |states[n]| == |s|)
    && (forall n | 0 <= n < |s| :: AbsorbStep(states[n], states[n + 1], absorbed, n, s[n]))
  }

  lemma AbsorbedAreShort(s: seq<Turn>, minDuration: real)
    requires s != []
    ensures AreShort(Absorbed(s, minDuration), s, minDuration)
  {
    var k := Longest(s);
    assert IsFirstLongest(s, k);
    assert forall i | 0 <= i < |s| && IsFirstLongest(s, i) :: i == k;
    assert forall i | 0 <= i < |s| :: s[i] in s;
  }

  lemma OneNeighbourEachSide(absorbed: seq<bool>, n: nat, i: nat, j: nat)
    requires KeptNeighbour(absorbed, n, i) && KeptNeighbour(absorbed, n, j) && (i < n <==> j < n)
    ensures i == j
  {
  }

  lemma TargetSuitsBest(cur: seq<Turn>, absorbed: seq<bool>, n: nat, micro: Turn)
    requires |cur| == |absorbed| && n < |cur| && absorbed[n] && HasKept(absorbed)
    ensures IsBest(cur, absorbed, n, micro, Target(cur, absorbed, n, micro))
  {
    var k := Target(cur, absorbed, n, micro);
    forall j: nat | KeptNeighbour(absorbed, n, j) ensures KeptNeighbour(absorbed, n, k) && (j != k ==> Suits(cur, micro, k, j)) {
      TargetIsBest(cur, absorbed, n, micro, j);
    }
    var kept :| 0 <= kept < |absorbed| && !absorbed[kept];
    var p, next := PrevKept(absorbed, n), NextKept(absorbed, n + 1);
    assert p.Some? ==> KeptNeighbour(absorbed, n, p.value);
    assert next.Some? ==> KeptNeighbour(absorbed, n, next.value);
  }

  lemma AbsorbUpToSteps(s: seq<Turn>, absorbed: seq<bool>, n: nat)
    requires |absorbed| == |s| && HasKept(absorbed) && n < |s|
    ensures AbsorbStep(AbsorbUpTo(s, absorbed, n), AbsorbUpTo(s, absorbed, n + 1), absorbed, n, s[n])
  {
    if absorbed[n] {
      var cur, next := AbsorbUpTo(s, absorbed, n), AbsorbUpTo(s, absorbed, n + 1);
      TargetSuitsBest(cur, absorbed, n, s[n]);
      assert WidensOnly(cur, next, Target(cur, absorbed, n, s[n]), s[n]);
    }
  }

  ghost function States(s: seq<Turn>, absorbed: seq<bool>): (states: seq<seq<Turn>>)
    requires |absorbed| == |s| && HasKept(absorbed)
    ensures |states| == |s| + 1 && forall n | 0 <= n <= |s| :: states[n] == AbsorbUpTo(s, absorbed, n)
  {
    seq(|s| + 1, n requires 0 <= n <= |s| => AbsorbUpTo(s, absorbed, n))
  }

  /**
   * The output is the kept slots of the last state, sorted and coalesced; and from the state before each short turn to
   * the state after it just one slot changes, that of the kept neighbour which suits it best in that state.
   */
  lemma SmoothIsAbsorption(turns: seq<Turn>, minDuration: real) returns (states: seq<seq<Turn>>, absorbed: seq<bool>)
    requires turns != [] && minDuration > 0.0
    ensures var s := StableSort(turns, TurnLe);
      && AreShort(absorbed, s, minDuration) && IsAbsorption(states, s, absorbed)
      && Smooth(turns, minDuration) == MergeAdjacent(StableSort(Kept(states[|s|], absorbed), TurnLe))
  {
    var s := StableSort(turns, TurnLe);
    SortSorts(turns, TurnLe);
    absorbed := Absorbed(s, minDuration);
    states := States(s, absorbed);
    AbsorbedAreShort(s, minDuration);
    forall n | 0 <= n < |s| ensures AbsorbStep(states[n], states[n + 1], absorbed, n, s[n]) {
      AbsorbUpToSteps(s, absorbed, n);
    }
  }

  lemma SuitsOneWay(cur: seq<Turn>, micro: Turn, k: nat, j: nat)
    requires k < |cur| && j < |cur|
    ensures !(Suits(cur, micro, k, j) && Suits(cur, micro, j, k))
  {
  }

  lemma BestIsUnique(cur: seq<Turn>, absorbed: seq<bool>, n: nat, micro: Turn, k: nat, j: nat)
    requires |cur| == |absorbed| && IsBest(cur, absorbed, n, micro, k) && IsBest(cur, absorbed, n, micro, j)
    ensures k == j
  {
    SuitsOneWay(cur, micro, k, j);
  }

  lemma WideningIsUnique(cur: seq<Turn>, a: seq<Turn>, b: seq<Turn>, k: nat, micro: Turn)
    requires WidensOnly(cur, a, k, micro) && WidensOnly(cur, b, k, micro)
    ensures a == b
  {
    forall i | 0 <= i < |cur| ensures a[i] == b[i] {
    }
  }

  /** The flags and the states are determined by that. */
  lemma {:induction false} AbsorptionIsUnique(a: seq<seq<Turn>>, b: seq<seq<Turn>>, s: seq<Turn>, absorbed: seq<bool>, n: nat)
    requires IsAbsorption(a, s, absorbed) && IsAbsorption(b, s, absorbed) && n <= |s|
    ensures a[n] == b[n]
  {
    if n > 0 {
      var m := n - 1;
      AbsorptionIsUnique(a, b, s, absorbed, m);
      assert AbsorbStep(a[m], a[m + 1], absorbed, m, s[m]) && AbsorbStep(b[m], b[m + 1], absorbed, m, s[m]);
      if absorbed[m] {
        var k: nat :| IsBest(a[m], absorbed, m, s[m], k) && WidensOnly(a[m], a[n], k, s[m]);
        var j: nat :| IsBest(b[m], absorbed, m, s[m], j) && WidensOnly(b[m], b[n], j, s[m]);
        BestIsUnique(a[m], absorbed, m, s[m], k, j);
        WideningIsUnique(a[m], a[n], b[n], k, s[m]);
      }
    }
  }

  // ----- What smoothing guarantees -----

  /** While micro-turns are absorbed, each kept slot extends its original turn, and its ends are those of input turns. */
  lemma {:induction false} AbsorbExtends(s: seq<Turn>, absorbed: seq<bool>, n: nat, i: nat)
    requires |absorbed| == |s| && HasKept(absorbed) && n <= |s| && i < |s|
    ensures var cur := AbsorbUpTo(s, absorbed, n);
      && Extends(cur[i], s[i])
      && (exists t | t in s :: cur[i].start == t.start)
      && (exists t | t in s :: cur[i].end == t.end)
  {
    if n == 0 {
      assert s[i] in s;
    } else {
      AbsorbExtends(s, absorbed, n - 1, i);
      assert s[n - 1] in s;
    }
  }

  /** A micro-turn handled before `n` lies inside some kept slot from then on. */
  lemma {:induction false} AbsorbCovers(s: seq<Turn>, absorbed: seq<bool>, n: nat, i: nat) returns (j: nat)
    requires |absorbed| == |s| && HasKept(absorbed) && i < n <= |s| && absorbed[i]
    ensures j < |s| && !absorbed[j] && Within(s[i], AbsorbUpTo(s, absorbed, n)[j])
  {
    if i == n - 1 {
      j := Target(AbsorbUpTo(s, absorbed, n - 1), absorbed, n - 1, s[n - 1]);
    } else {
      j := AbsorbCovers(s, absorbed, n - 1, i);
    }
  }

  lemma {:induction false} KeptMembers(cur: seq<Turn>, absorbed: seq<bool>, t: Turn)
    requires |cur| == |absorbed|
    ensures t in Kept(cur, absorbed) <==> exists i | 0 <= i < |cur| :: !absorbed[i] && cur[i] == t
    decreases |cur|
  {
    if cur != [] {
      var n := |cur| - 1;
      var before, flags := cur[..n], absorbed[..n];
      KeptMembers(before, flags, t);
      assert forall i | 0 <= i < n :: before[i] == cur[i] && flags[i] == absorbed[i];
    }
  }

  /** The state Smooth works on, with what its sorts guarantee. */
  lemma Stages(turns: seq<Turn>, minDuration: real)
    requires turns != [] && minDuration > 0.0
    ensures var s := StableSort(turns, TurnLe);
      && s != [] && SortedBy(s, TurnLe) && (forall t :: t in s <==> t in turns)
      && var kept := KeptTurns(s, minDuration);
      && SortedBy(StableSort(kept, TurnLe), TurnLe)
      && (forall t :: t in StableSort(kept, TurnLe) <==> t in kept)
      && |StableSort(kept, TurnLe)| == |kept|
      && Smooth(turns, minDuration) == MergeAdjacent(StableSort(kept, TurnLe))
  {
    SortSorts(turns, TurnLe);
    SortMembers(turns, TurnLe);
    var kept := KeptTurns(StableSort(turns, TurnLe), minDuration);
    SortSorts(kept, TurnLe);
    SortMembers(kept, TurnLe);
  }

  /** Every sorted turn lies inside a kept one, which is the turn's own slot unless the turn was absorbed. */
  lemma KeptCovers(s: seq<Turn>, minDuration: real, i: nat) returns (u: Turn)
    requires i < |s|
    ensures u in KeptTurns(s, minDuration) && Within(s[i], u)
    ensures !Absorbed(s, minDuration)[i] ==> Extends(u, s[i])
  {
    var absorbed := Absorbed(s, minDuration);
    var cur := AbsorbUpTo(s, absorbed, |s|);
    var j: nat := i;
    if absorbed[i] {
      j := AbsorbCovers(s, absorbed, |s|, i);
    } else {
      AbsorbExtends(s, absorbed, |s|, i);
    }
    u := cur[j];
    KeptMembers(cur, absorbed, u);
  }

  /** A kept turn extends an input turn of the same duration class and is spliced from input ends. */
  lemma KeptFrom(s: seq<Turn>, minDuration: real, u: Turn) returns (i: nat)
    requires s != [] && u in KeptTurns(s, minDuration)
    ensures i < |s| && !Absorbed(s, minDuration)[i] && Extends(u, s[i])
    ensures (exists t | t in s :: u.start == t.start) && (exists t | t in s :: u.end == t.end)
  {
    var absorbed := Absorbed(s, minDuration);
    var cur := AbsorbUpTo(s, absorbed, |s|);
    KeptMembers(cur, absorbed, u);
    i :| 0 <= i < |cur| && !absorbed[i] && cur[i] == u;
    AbsorbExtends(s, absorbed, |s|, i);
  }

  /** The output is sorted by (start, end), and no two neighbours could still be coalesced. */
  lemma SmoothIsSortedAndCoalesced(turns: seq<Turn>, minDuration: real)
    requires minDuration > 0.0
    ensures SortedBy(Smooth(turns, minDuration), TurnLe) && Coalesced(Smooth(turns, minDuration))
    ensures Smooth(turns, minDuration) == [] <==> turns == []
  {
    if turns != [] {
      Stages(turns, minDuration);
      var s := StableSort(turns, TurnLe);
      var kept := KeptTurns(s, minDuration);
      var u := KeptCovers(s, minDuration, 0);
      MergeSortsAndCoalesces(StableSort(kept, TurnLe));
    }
  }

  /** No diarized time is lost: each input turn lies inside an output turn, of its own speaker if it was long enough. */
  lemma SmoothLosesNoTime(turns: seq<Turn>, minDuration: real, t: Turn)
    requires t in turns
    ensures exists u | u in Smooth(turns, minDuration) :: Within(t, u)
    ensures Duration(t) >= minDuration ==> Covered(t, Smooth(turns, minDuration))
  {
    if minDuration <= 0.0 {
      assert Within(t, t);
      return;
    }
    Stages(turns, minDuration);
    var s := StableSort(turns, TurnLe);
    var i :| 0 <= i < |s| && s[i] == t;
    var u := KeptCovers(s, minDuration, i);
    var sorted := StableSort(KeptTurns(s, minDuration), TurnLe);
    MergeCovers(u, sorted);
    var v :| v in MergeAdjacent(sorted) && Within(u, v) && v.speaker == u.speaker;
    assert Within(t, v);
  }

  /** Nothing is invented: an output turn starts and ends where input turns do, and is an input turn otherwise. */
  lemma SmoothInventsNothing(turns: seq<Turn>, minDuration: real, u: Turn)
    requires u in Smooth(turns, minDuration)
    ensures exists t | t in turns :: Extends(u, t)
    ensures exists t | t in turns :: u.start == t.start
    ensures exists t | t in turns :: u.end == t.end
  {
    if minDuration <= 0.0 {
      assert Extends(u, u);
      return;
    }
    Stages(turns, minDuration);
    var s := StableSort(turns, TurnLe);
    var sorted := StableSort(KeptTurns(s, minDuration), TurnLe);
    MergeSplices(u, sorted);
    var t :| t in sorted && Extends(u, t) && u.start == t.start;
    var e :| e in sorted && u.end == e.end && u.speaker == e.speaker;
    var i := KeptFrom(s, minDuration, t);
    var j := KeptFrom(s, minDuration, e);
    var first :| first in s && t.start == first.start;
    var last :| last in s && e.end == last.end;
    assert s[i] in turns && Extends(u, s[i]);
    assert first in turns && last in turns;
  }

  lemma {:induction false} RankOfAll(absorbed: seq<bool>, k: nat, n: nat)
    requires k < |absorbed| && !absorbed[k] && n <= |absorbed|
    requires forall i | 0 <= i < |absorbed| :: absorbed[i] <==> i != k
    ensures Rank(absorbed, n) == if k < n then 1 else 0
  {
    if n > 0 { RankOfAll(absorbed, k, n - 1); }
  }

  lemma OneTurnRemains(turns: seq<Turn>, minDuration: real)
    requires turns != [] && minDuration > 0.0 && AllMicro(turns, minDuration)
    ensures |Smooth(turns, minDuration)| == 1
  {
    Stages(turns, minDuration);
    var s := StableSort(turns, TurnLe);
    var absorbed := Absorbed(s, minDuration);
    assert AllMicro(s, minDuration);
    var kept := KeptTurns(s, minDuration);
    KeptSize(AbsorbUpTo(s, absorbed, |s|), absorbed);
    RankOfAll(absorbed, Longest(s), |s|);
    assert |StableSort(kept, TurnLe)| == 1;
    MergeOfCoalesced(StableSort(kept, TurnLe));
  }

  /** Every output turn extends a turn that was kept. */
  lemma OutputFrom(turns: seq<Turn>, minDuration: real, u: Turn) returns (i: nat)
    requires turns != [] && minDuration > 0.0 && u in Smooth(turns, minDuration)
    ensures var s := StableSort(turns, TurnLe); i < |s| && s != [] && !Absorbed(s, minDuration)[i] && Extends(u, s[i])
  {
    Stages(turns, minDuration);
    var s := StableSort(turns, TurnLe);
    var sorted := StableSort(KeptTurns(s, minDuration), TurnLe);
    MergeSplices(u, sorted);
    var t :| t in sorted && Extends(u, t) && u.start == t.start;
    i := KeptFrom(s, minDuration, t);
  }

  lemma SmoothReachesThreshold(turns: seq<Turn>, minDuration: real, u: Turn)
    requires minDuration > 0.0 && !AllMicro(turns, minDuration) && u in Smooth(turns, minDuration)
    ensures Duration(u) >= minDuration
  {
    var i := OutputFrom(turns, minDuration, u);
    var s := StableSort(turns, TurnLe);
    Stages(turns, minDuration);
    assert !AllMicro(s, minDuration) by {
      var t :| t in turns && !(Duration(t) < minDuration);
      assert t in s;
    }
  }

  /** Every output turn reaches the threshold, unless every input turn was short: then one turn spans them all. */
  lemma SmoothDurations(turns: seq<Turn>, minDuration: real)
    requires turns != [] && minDuration > 0.0
    ensures var out := Smooth(turns, minDuration);
      if AllMicro(turns, minDuration)
      then |out| == 1 && forall t | t in turns :: Within(t, out[0])
      else forall u | u in out :: Duration(u) >= minDuration
  {
    var out := Smooth(turns, minDuration);
    if AllMicro(turns, minDuration) {
      OneTurnRemains(turns, minDuration);
      forall t | t in turns ensures Within(t, out[0]) {
        SmoothLosesNoTime(turns, minDuration, t);
      }
    } else {
      forall u | u in out ensures Duration(u) >= minDuration {
        SmoothReachesThreshold(turns, minDuration, u);
      }
    }
  }

  lemma NothingToAbsorb(ts: seq<Turn>, minDuration: real)
    requires ts != []
    requires |ts| == 1 || forall u | u in ts :: Duration(u) >= minDuration
    ensures KeptTurns(ts, minDuration) == ts
  {
    var absorbed := Absorbed(ts, minDuration);
    forall i | 0 <= i < |ts| ensures !absorbed[i] {
      assert ts[i] in ts;
    }
    AllKept(ts, minDuration);
  }

  /** A sorted, coalesced list with nothing to absorb is a fixed point. */
  lemma SmoothFixes(ts: seq<Turn>, minDuration: real)
    requires ts != [] && minDuration > 0.0 && SortedBy(ts, TurnLe) && Coalesced(ts)
    requires |ts| == 1 || forall u | u in ts :: Duration(u) >= minDuration
    ensures Smooth(ts, minDuration) == ts
  {
    SortOfSorted(ts, TurnLe);
    NothingToAbsorb(ts, minDuration);
    MergeOfCoalesced(ts);
  }

  /** Smoothing twice is smoothing once, for every list of turns and every threshold. */
  lemma SmoothIsIdempotent(turns: seq<Turn>, minDuration: real)
    ensures Smooth(Smooth(turns, minDuration), minDuration) == Smooth(turns, minDuration)
  {
    if turns != [] && minDuration > 0.0 {
      SmoothIsSortedAndCoalesced(turns, minDuration);
      SmoothDurations(turns, minDuration);
      SmoothFixes(Smooth(turns, minDuration), minDuration);
    }
  }
}
