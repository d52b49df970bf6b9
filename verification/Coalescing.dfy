/** `_merge_adjacent_turns`: consecutive turns of one speaker that touch become one turn. */
module Coalescing {
  import opened Common
  import opened Sorting
  import opened SpeakerTurns

  function Join(prev: Turn, turn: Turn): Turn {
    prev.(end := Max(prev.end, turn.end))
  }

  predicate Mergeable(prev: Turn, turn: Turn) {
    turn.speaker == prev.speaker && turn.start <= prev.end
  }

  function MergeOnto(merged: seq<Turn>, turn: Turn): (r: seq<Turn>) {
    var n := |merged|;
    if n > 0 && Mergeable(merged[n - 1], turn)
    then merged[..n - 1] + [Join(merged[n - 1], turn)]
    else merged + [turn]
  }

  function MergeAdjacent(turns: seq<Turn>): (r: seq<Turn>) {
    if turns == [] then [] else MergeOnto(MergeAdjacent(turns[..|turns| - 1]), turns[|turns| - 1])
  }

  lemma MergeAdjacentSnoc(turns: seq<Turn>, i: nat)
    requires i < |turns|
    ensures MergeAdjacent(turns[..i + 1]) == MergeOnto(MergeAdjacent(turns[..i]), turns[i])
  {
    assert turns[..i + 1][..i] == turns[..i];
  }

  lemma UpdateLast<T>(xs: seq<T>, x: T)
    requires xs != []
    ensures xs[|xs| - 1 := x] == xs[..|xs| - 1] + [x]
  {
  }

  method MergeAdjacentTurns(turns: seq<Turn>) returns (merged: seq<Turn>)
    ensures merged == MergeAdjacent(turns)
  {
    if turns == [] {
      return [];
    }
    merged := [turns[0]];
    assert turns[..1][..0] == [];
    for i := 1 to |turns|
      invariant merged == MergeAdjacent(turns[..i])
      invariant |merged| > 0
    {
      MergeAdjacentSnoc(turns, i);
      var turn, prev := turns[i], merged[|merged| - 1];
      if turn.speaker == prev.speaker && turn.start <= prev.end {
        UpdateLast(merged, Join(prev, turn));
        merged := merged[|merged| - 1 := prev.(end := Max(prev.end, turn.end))];
      } else {
        merged := merged + [turn];
      }
    }
    assert turns[..|turns|] == turns;
  }

  /** No two neighbours could still be merged. */
  ghost predicate Coalesced(turns: seq<Turn>) {
    forall k | 0 < k < |turns| :: !Mergeable(turns[k - 1], turns[k])
  }

  /** `out` keeps the start, speaker and metadata of one input turn and ends where one of the same speaker ends. */
  ghost predicate Spliced(out: Turn, turns: seq<Turn>) {
    && (exists t | t in turns :: Extends(out, t) && out.start == t.start)
    && (exists t | t in turns :: out.end == t.end && out.speaker == t.speaker)
  }

  ghost predicate Covered(t: Turn, turns: seq<Turn>) {
    exists u | u in turns :: Within(t, u) && u.speaker == t.speaker
  }

  lemma MergeOntoSorts(m: seq<Turn>, turn: Turn)
    requires SortedBy(m, TurnLe) && Coalesced(m)
    requires m != [] ==> TurnLe(m[|m| - 1], turn)
    ensures var r := MergeOnto(m, turn);
      r != [] && SortedBy(r, TurnLe) && Coalesced(r) && TurnLe(r[|r| - 1], turn)
  {
    var n := |m|;
    if n > 0 && Mergeable(m[n - 1], turn) {
      var j := Join(m[n - 1], turn);
      var r := MergeOnto(m, turn);
      forall i | 0 <= i < n - 1 ensures TurnLe(r[i], j) {
        assert TurnLe(m[i], m[n - 1]);
      }
      assert forall k | 0 <= k < n - 1 :: r[k] == m[k];
      assert n > 1 ==> !Mergeable(m[n - 2], m[n - 1]);
    }
  }

  /** On a sorted list the result is sorted and coalesced. */
  lemma {:induction false} MergeSortsAndCoalesces(turns: seq<Turn>)
    requires SortedBy(turns, TurnLe)
    ensures var m := MergeAdjacent(turns);
      && SortedBy(m, TurnLe) && Coalesced(m) && (m == [] <==> turns == [])
      && (turns != [] ==> TurnLe(m[|m| - 1], turns[|turns| - 1]))
  {
    if turns != [] {
      var n := |turns| - 1;
      MergeSortsAndCoalesces(turns[..n]);
      assert n > 0 ==> TurnLe(turns[n - 1], turns[n]);
      MergeOntoSorts(MergeAdjacent(turns[..n]), turns[n]);
    }
  }

  lemma MergeOntoCovers(t: Turn, m: seq<Turn>, turn: Turn)
    requires m != [] ==> m[|m| - 1].start <= turn.start
    requires t == turn || Covered(t, m)
    ensures Covered(t, MergeOnto(m, turn))
  {
    var r := MergeOnto(m, turn);
    if t == turn {
      assert r[|r| - 1] in r && Within(turn, r[|r| - 1]);
    } else {
      var u :| u in m && Within(t, u) && u.speaker == t.speaker;
      var i :| 0 <= i < |m| && m[i] == u;
      assert r[i] in r && Within(u, r[i]) && r[i].speaker == u.speaker;
    }
  }

  lemma MergeStartsBefore(turns: seq<Turn>, n: nat)
    requires SortedBy(turns, TurnLe) && n < |turns|
    ensures SortedBy(turns[..n], TurnLe)
    ensures var m := MergeAdjacent(turns[..n]); m != [] ==> m[|m| - 1].start <= turns[n].start
  {
    MergeSortsAndCoalesces(turns[..n]);
    if n > 0 {
      assert TurnLe(turns[n - 1], turns[n]);
    }
  }

  /** Every input turn lies inside an output turn of its own speaker. */
  lemma {:induction false} MergeCovers(t: Turn, turns: seq<Turn>)
    requires SortedBy(turns, TurnLe) && t in turns
    ensures Covered(t, MergeAdjacent(turns))
    decreases |turns|
  {
    var n := |turns| - 1;
    MergeStartsBefore(turns, n);
    assert turns == turns[..n] + [turns[n]];
    if t != turns[n] {
      MergeCovers(t, turns[..n]);
    }
    MergeOntoCovers(t, MergeAdjacent(turns[..n]), turns[n]);
  }

  lemma StaysSpliced(u: Turn, before: seq<Turn>, turn: Turn)
    requires Spliced(u, before)
    ensures Spliced(u, before + [turn])
  {
    var t :| t in before && Extends(u, t) && u.start == t.start;
    var e :| e in before && u.end == e.end && u.speaker == e.speaker;
    assert t in before + [turn] && e in before + [turn];
  }

  lemma JoinSplices(prev: Turn, before: seq<Turn>, turn: Turn)
    requires Spliced(prev, before) && Mergeable(prev, turn)
    ensures Spliced(Join(prev, turn), before + [turn])
  {
    var t :| t in before && Extends(prev, t) && prev.start == t.start;
    var e :| e in before && prev.end == e.end && prev.speaker == e.speaker;
    assert t in before + [turn] && e in before + [turn] && turn in before + [turn];
    assert Extends(Join(prev, turn), t);
  }

  /** Every output turn is spliced from input turns. */
  lemma {:induction false} MergeSplices(u: Turn, turns: seq<Turn>)
    requires u in MergeAdjacent(turns)
    ensures Spliced(u, turns)
    decreases |turns|
  {
    var n := |turns| - 1;
    var before, m, turn := turns[..n], MergeAdjacent(turns[..n]), turns[n];
    assert turns == before + [turn];
    if u in m {
      MergeSplices(u, before);
      StaysSpliced(u, before, turn);
    } else if u == turn {
      assert Extends(turn, turn);
    } else {
      var prev := m[|m| - 1];
      MergeSplices(prev, before);
      JoinSplices(prev, before, turn);
    }
  }

  /** A coalesced list is a fixed point. */
  lemma {:induction false} MergeOfCoalesced(turns: seq<Turn>)
    requires Coalesced(turns)
    ensures MergeAdjacent(turns) == turns
  {
    if turns != [] {
      MergeOfCoalesced(turns[..|turns| - 1]);
    }
  }

  /** A turn of the speaker covers the instant, ends included. */
  ghost predicate Speaks(turns: seq<Turn>, speaker: string, x: real) {
    exists t | t in turns :: t.speaker == speaker && t.start <= x <= t.end
  }

  lemma SpeaksSnoc(turns: seq<Turn>, t: Turn, speaker: string, x: real)
    ensures Speaks(turns + [t], speaker, x) <==> Speaks(turns, speaker, x) || (t.speaker == speaker && t.start <= x <= t.end)
  {
    if Speaks(turns, speaker, x) {
      var u :| u in turns && u.speaker == speaker && u.start <= x <= u.end;
      assert u in turns + [t];
    }
    if t.speaker == speaker && t.start <= x <= t.end { assert t in turns + [t]; }
  }

  lemma OntoKeepsSpeech(merged: seq<Turn>, turn: Turn, speaker: string, x: real)
    requires merged != [] ==> merged[|merged| - 1].start <= turn.start
    ensures Speaks(MergeOnto(merged, turn), speaker, x) <==>
      Speaks(merged, speaker, x) || (turn.speaker == speaker && turn.start <= x <= turn.end)
  {
    var n := |merged| - 1;
    if n >= 0 && turn.speaker == merged[n].speaker && turn.start <= merged[n].end {
      assert merged == merged[..n] + [merged[n]];
      SpeaksSnoc(merged[..n], merged[n], speaker, x);
      SpeaksSnoc(merged[..n], Join(merged[n], turn), speaker, x);
    } else {
      SpeaksSnoc(merged, turn, speaker, x);
    }
  }

  lemma {:induction false} LastStarts(turns: seq<Turn>, bound: real)
    requires forall i | 0 <= i < |turns| :: turns[i].start <= bound
    ensures var m := MergeAdjacent(turns); m != [] ==> m[|m| - 1].start <= bound
  {
    if turns != [] { LastStarts(turns[..|turns| - 1], bound); }
  }

  /** Coalescing neither adds nor loses time of any speaker. */
  lemma {:induction false} MergeKeepsSpeech(turns: seq<Turn>, speaker: string, x: real)
    requires SortedBy(turns, TurnLe)
    ensures Speaks(MergeAdjacent(turns), speaker, x) <==> Speaks(turns, speaker, x)
    decreases |turns|
  {
    if turns != [] {
      var n := |turns| - 1;
      MergeKeepsSpeech(turns[..n], speaker, x);
      LastStarts(turns[..n], turns[n].start);
      OntoKeepsSpeech(MergeAdjacent(turns[..n]), turns[n], speaker, x);
      assert Speaks(turns, speaker, x) <==> Speaks(turns[..n] + [turns[n]], speaker, x) by { assert turns == turns[..n] + [turns[n]]; }
      SpeaksSnoc(turns[..n], turns[n], speaker, x);
    }
  }

  /** And leaves no two neighbours of one speaker touching. */
  lemma MergeLeavesApart(turns: seq<Turn>, k: nat)
    requires SortedBy(turns, TurnLe) && 0 < k < |MergeAdjacent(turns)|
    ensures var m := MergeAdjacent(turns); m[k - 1].speaker == m[k].speaker ==> m[k - 1].end < m[k].start
  {
    MergeSortsAndCoalesces(turns);
  }
}
