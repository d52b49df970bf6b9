/** Who speaks when: overlap search, nearest-turn search and the windows a segment is cut into. */
module SpeakerWindows {
  import opened Common
  import opened Sorting
  import opened SpeakerTurns

  datatype Window = Window(start: real, end: real, speaker: Option<string>)

  // ----- The speaker at an instant -----

  predicate Covers(t: Turn, x: real) {
    t.start <= x < t.end
  }

  /** Speaker of the first listed turn that covers the instant. */
  ghost function SpeakerAt(turns: seq<Turn>, x: real): Option<string> {
    if turns == [] then None
    else if Covers(turns[0], x) then Some(turns[0].speaker)
    else SpeakerAt(turns[1..], x)
  }

  // ----- Maximum overlap -----

  function OverlapWith(lo: real, hi: real, t: Turn): real {
    Max(0.0, Min(hi, t.end) - Max(lo, t.start))
  }

  /** It is the length of the stretch that the turn shares with [lo, hi). */
  lemma OverlapWithIsShared(lo: real, hi: real, t: Turn, x: real)
    ensures var first := Max(lo, t.start); (lo <= x < hi && Covers(t, x)) <==> first <= x < first + OverlapWith(lo, hi, t)
  {
  }

  /** First turn with the largest positive overlap. */
  ghost predicate IsBestOverlap(lo: real, hi: real, turns: seq<Turn>, k: nat) {
    && k < |turns|
    && OverlapWith(lo, hi, turns[k]) > 0.0
    && (forall i | 0 <= i < |turns| :: OverlapWith(lo, hi, turns[i]) <= OverlapWith(lo, hi, turns[k]))
    && (forall i | 0 <= i < k :: OverlapWith(lo, hi, turns[i]) < OverlapWith(lo, hi, turns[k]))
  }

  ghost predicate IsSpeakerByOverlap(lo: real, hi: real, turns: seq<Turn>, r: Option<string>) {
    if r.None? then forall i | 0 <= i < |turns| :: OverlapWith(lo, hi, turns[i]) == 0.0
    else exists k: nat :: IsBestOverlap(lo, hi, turns, k) && turns[k].speaker == r.value
  }

  /** The speaker such a search must return. */
  ghost function SpeakerByOverlap(lo: real, hi: real, turns: seq<Turn>): (r: Option<string>)
    ensures IsSpeakerByOverlap(lo, hi, turns, r)
  {
    BestOverlapExists(lo, hi, turns);
    var r :| IsSpeakerByOverlap(lo, hi, turns, r);
    r
  }

  lemma {:induction false} BestOverlapExists(lo: real, hi: real, turns: seq<Turn>)
    ensures exists r :: IsSpeakerByOverlap(lo, hi, turns, r)
  {
    if forall i | 0 <= i < |turns| :: OverlapWith(lo, hi, turns[i]) == 0.0 {
      assert IsSpeakerByOverlap(lo, hi, turns, None);
    } else {
      var k := BestOverlap(lo, hi, turns);
      assert IsSpeakerByOverlap(lo, hi, turns, Some(turns[k].speaker));
    }
  }

  lemma {:induction false} BestOverlap(lo: real, hi: real, turns: seq<Turn>) returns (k: nat)
    requires exists i | 0 <= i < |turns| :: OverlapWith(lo, hi, turns[i]) != 0.0
    ensures IsBestOverlap(lo, hi, turns, k)
  {
    var n := |turns| - 1;
    if i :| 0 <= i < n && OverlapWith(lo, hi, turns[i]) != 0.0 {
      assert turns[..n][i] == turns[i];
      k := BestOverlap(lo, hi, turns[..n]);
      if OverlapWith(lo, hi, turns[n]) > OverlapWith(lo, hi, turns[k]) { k := n; }
    } else {
      k := n;
    }
  }

  method FindSpeakerByOverlap(lo: real, hi: real, turns: seq<Turn>) returns (best: Option<string>)
    ensures best == SpeakerByOverlap(lo, hi, turns)
  {
    best := None;
    var bestOverlap := 0.0;
    ghost var k: nat := 0;
    for i := 0 to |turns|
      invariant bestOverlap >= 0.0
      invariant best.None? <==> bestOverlap == 0.0
      invariant best.None? ==> forall j | 0 <= j < i :: OverlapWith(lo, hi, turns[j]) == 0.0
      invariant best.Some? ==> IsBestOverlap(lo, hi, turns[..i], k) && turns[k].speaker == best.value
      invariant best.Some? ==> bestOverlap == OverlapWith(lo, hi, turns[k])
    {
      var turn := turns[i];
      var overlap := Max(0.0, Min(hi, turn.end) - Max(lo, turn.start));
      if overlap > bestOverlap {
        bestOverlap, best, k := overlap, Some(turn.speaker), i;
      }
      assert forall j | 0 <= j <= i :: turns[..i + 1][j] == turns[j];
    }
    assert turns[..|turns|] == turns;
  }

  /** No turn begins or ends strictly inside [lo, hi), so each covers all of it or none of it. */
  ghost predicate Elementary(lo: real, hi: real, turns: seq<Turn>) {
    forall t | t in turns :: (t.start <= lo && hi <= t.end) || Min(hi, t.end) <= Max(lo, t.start)
  }

  lemma {:induction false} SpeakerAtFirst(turns: seq<Turn>, x: real, k: nat)
    requires k < |turns| && Covers(turns[k], x) && forall i | 0 <= i < k :: !Covers(turns[i], x)
    ensures SpeakerAt(turns, x) == Some(turns[k].speaker)
  {
    if k > 0 {
      assert turns[1..][k - 1] == turns[k];
      SpeakerAtFirst(turns[1..], x, k - 1);
    }
  }

  /** On an elementary window the maximum-overlap search finds the first turn covering any instant of it. */
  lemma OverlapSearchIsPointwise(lo: real, hi: real, turns: seq<Turn>, r: Option<string>, x: real)
    requires lo <= x < hi && Elementary(lo, hi, turns)
    requires IsSpeakerByOverlap(lo, hi, turns, r)
    ensures r == SpeakerAt(turns, x)
  {
    forall i | 0 <= i < |turns|
      ensures Covers(turns[i], x) <==> OverlapWith(lo, hi, turns[i]) == hi - lo
      ensures !Covers(turns[i], x) ==> OverlapWith(lo, hi, turns[i]) == 0.0
    {
      assert turns[i] in turns;
    }
    if r.None? {
    } else {
      var k: nat :| IsBestOverlap(lo, hi, turns, k) && turns[k].speaker == r.value;
      SpeakerAtFirst(turns, x, k);
    }
  }

  // ----- Nearest turn -----

  function Distance(at: real, t: Turn): real {
    if t.start <= at <= t.end then 0.0
    else if at < t.start then t.start - at
    else at - t.end
  }

  /** The least distance to an instant of the turn. */
  lemma DistanceIsToTheClosest(at: real, t: Turn, x: real) returns (closest: real)
    requires t.start <= x <= t.end
    ensures t.start <= closest <= t.end && Distance(at, t) == Max(at - closest, closest - at) <= Max(at - x, x - at)
  {
    closest := if at < t.start then t.start else if at > t.end then t.end else at;
  }

  /** First turn at the smallest distance. */
  ghost predicate IsNearest(at: real, turns: seq<Turn>, k: nat) {
    && k < |turns|
    && (forall i | 0 <= i < |turns| :: Distance(at, turns[k]) <= Distance(at, turns[i]))
    && (forall i | 0 <= i < k :: Distance(at, turns[k]) < Distance(at, turns[i]))
  }

  ghost predicate IsNearestSpeaker(at: real, turns: seq<Turn>, r: Option<string>) {
    if r.None? then turns == []
    else exists k: nat :: IsNearest(at, turns, k) && turns[k].speaker == r.value
  }

  lemma NearestSpeakerIsUnique(at: real, turns: seq<Turn>, r: Option<string>, s: Option<string>)
    requires IsNearestSpeaker(at, turns, r) && IsNearestSpeaker(at, turns, s)
    ensures r == s
  {
  }

  /** The speaker such a search must return. */
  ghost function NearestSpeaker(at: real, turns: seq<Turn>): (r: Option<string>)
    ensures IsNearestSpeaker(at, turns, r)
  {
    if turns == [] then None
    else
      var k := NearestIndex(at, turns);
      Some(turns[k].speaker)
  }

  ghost function NearestIndex(at: real, turns: seq<Turn>): (k: nat)
    requires turns != []
    ensures IsNearest(at, turns, k)
  {
    var n := |turns| - 1;
    if n == 0 then 0
    else
      var k := NearestIndex(at, turns[..n]);
      if Distance(at, turns[n]) < Distance(at, turns[k]) then n else k
  }

  method FindNearestTurnSpeaker(at: real, turns: seq<Turn>) returns (nearest: Option<string>)
    ensures nearest == NearestSpeaker(at, turns)
  {
    nearest := None;
    var nearestDistance: Option<real> := None;
    ghost var k: nat := 0;
    for i := 0 to |turns|
      invariant nearest.None? <==> i == 0
      invariant nearestDistance.None? <==> i == 0
      invariant forall j | 0 <= j < i :: Distance(at, turns[j]) > 0.0
      invariant i > 0 ==> k < i && turns[k].speaker == nearest.value && nearestDistance.value == Distance(at, turns[k])
      invariant i > 0 ==> forall j | 0 <= j < i :: Distance(at, turns[k]) <= Distance(at, turns[j])
      invariant i > 0 ==> forall j | 0 <= j < k :: Distance(at, turns[k]) < Distance(at, turns[j])
    {
      var turn := turns[i];
      if turn.start <= at <= turn.end {
        assert IsNearest(at, turns, i);
        NearestSpeakerIsUnique(at, turns, Some(turn.speaker), NearestSpeaker(at, turns));
        return Some(turn.speaker);
      }
      var distance := if at < turn.start then turn.start - at else at - turn.end;
      if nearestDistance.None? || distance < nearestDistance.value {
        nearestDistance, nearest, k := Some(distance), Some(turn.speaker), i;
      }
    }
    if turns != [] { assert IsNearest(at, turns, k); }
    NearestSpeakerIsUnique(at, turns, nearest, NearestSpeaker(at, turns));
  }

  // ----- Windows -----

  /** Non-empty windows that follow one another from `lo` to `hi`. */
  ghost predicate Tiles(ws: seq<Window>, lo: real, hi: real) {
    && ws != [] && ws[0].start == lo && ws[|ws| - 1].end == hi
    && (forall i | 0 <= i < |ws| :: ws[i].start < ws[i].end)
    && (forall i | 0 < i < |ws| :: ws[i - 1].end == ws[i].start)
  }

  ghost predicate Alternates(ws: seq<Window>) {
    forall i | 0 < i < |ws| :: ws[i - 1].speaker != ws[i].speaker
  }

  ghost predicate Agrees(w: Window, turns: seq<Turn>) {
    forall x | w.start <= x < w.end :: SpeakerAt(turns, x) == w.speaker
  }

  /** The run-length encoding of `SpeakerAt` on [lo, hi). */
  ghost predicate IsSpeakerWindows(ws: seq<Window>, lo: real, hi: real, turns: seq<Turn>) {
    Tiles(ws, lo, hi) && Alternates(ws) && forall w | w in ws :: Agrees(w, turns)
  }

  lemma FirstWindowsAgree(ws: seq<Window>, vs: seq<Window>, lo: real, hi: real, turns: seq<Turn>)
    requires IsSpeakerWindows(ws, lo, hi, turns) && IsSpeakerWindows(vs, lo, hi, turns)
    ensures ws[0] == vs[0]
  {
    FirstWindowIsNoShorter(ws, vs, lo, hi, turns);
    FirstWindowIsNoShorter(vs, ws, lo, hi, turns);
    assert ws[0] in ws && vs[0] in vs;
    assert SpeakerAt(turns, lo) == ws[0].speaker == vs[0].speaker;
  }

  /** There is only one such encoding. */
  lemma {:induction false} SpeakerWindowsAreUnique(ws: seq<Window>, vs: seq<Window>, lo: real, hi: real, turns: seq<Turn>)
    requires IsSpeakerWindows(ws, lo, hi, turns) && IsSpeakerWindows(vs, lo, hi, turns)
    ensures ws == vs
    decreases |ws|
  {
    FirstWindowsAgree(ws, vs, lo, hi, turns);
    if |ws| > 1 && |vs| > 1 {
      SpeakerWindowsAreUnique(ws[1..], vs[1..], ws[0].end, hi, turns);
      assert ws == [ws[0]] + ws[1..] && vs == [vs[0]] + vs[1..];
    } else if |ws| > 1 {
      EndsAfterFirst(ws, lo, hi);
    } else if |vs| > 1 {
      EndsAfterFirst(vs, lo, hi);
    }
  }

  lemma {:induction false} EndsAfterFirst(ws: seq<Window>, lo: real, hi: real)
    requires Tiles(ws, lo, hi) && |ws| > 1
    ensures ws[0].end < hi
    decreases |ws|
  {
    if |ws| > 2 { EndsAfterFirst(ws[1..], ws[0].end, hi); }
  }

  lemma FirstWindowIsNoShorter(ws: seq<Window>, vs: seq<Window>, lo: real, hi: real, turns: seq<Turn>)
    requires IsSpeakerWindows(ws, lo, hi, turns) && IsSpeakerWindows(vs, lo, hi, turns)
    ensures ws[0].end >= vs[0].end
  {
    assert ws[0] in ws && vs[0] in vs;
    var atStart, atCut := SpeakerAt(turns, lo), SpeakerAt(turns, ws[0].end);
    if |vs| > 1 { EndsAfterFirst(vs, lo, hi); }
    if |ws| > 1 {
      assert ws[1] in ws && ws[0].speaker == atStart;
      assert ws[1].speaker == atCut;
    }
  }

  ghost predicate Increasing(xs: seq<real>) {
    forall i, j | 0 <= i < j < |xs| :: xs[i] < xs[j]
  }

  method SortedBoundaries(boundaries: set<real>) returns (r: seq<real>)
    ensures Increasing(r) && forall y :: y in r <==> y in boundaries
  {
    r := SortedSet(boundaries, (a: real, b: real) => a <= b);
  }

  /** The cut points hold both ends, lie between them, and hold the clipped ends of the turns in between. */
  ghost predicate HoldsCuts(ordered: seq<real>, lo: real, hi: real, turns: seq<Turn>) {
    && Increasing(ordered) && lo in ordered && hi in ordered && (forall b | b in ordered :: lo <= b <= hi)
    && forall t | t in turns && !(t.end <= lo || t.start >= hi) :: Max(lo, t.start) in ordered && Min(hi, t.end) in ordered
  }

  lemma NextToEachOther(ordered: seq<real>, lo: real, hi: real, turns: seq<Turn>, idx: nat)
    requires HoldsCuts(ordered, lo, hi, turns) && idx + 1 < |ordered|
    ensures ordered[idx] < ordered[idx + 1] && Elementary(ordered[idx], ordered[idx + 1], turns)
  {
    var a, b := ordered[idx], ordered[idx + 1];
    assert a in ordered && b in ordered;
    forall t | t in turns ensures (t.start <= a && b <= t.end) || Min(b, t.end) <= Max(a, t.start) {
      if !(t.end <= lo || t.start >= hi) {
        var p :| 0 <= p < |ordered| && ordered[p] == Max(lo, t.start);
        var q :| 0 <= q < |ordered| && ordered[q] == Min(hi, t.end);
        assert p <= idx || idx + 1 <= p;
        assert q <= idx || idx + 1 <= q;
      }
    }
  }

  method Boundaries(lo: real, hi: real, turns: seq<Turn>) returns (boundaries: set<real>)
    requires lo < hi
    ensures lo in boundaries && hi in boundaries && forall b | b in boundaries :: lo <= b <= hi
    ensures forall t | t in turns && !(t.end <= lo || t.start >= hi) :: Max(lo, t.start) in boundaries && Min(hi, t.end) in boundaries
  {
    boundaries := {lo, hi};
    for i := 0 to |turns|
      invariant lo in boundaries && hi in boundaries && forall b | b in boundaries :: lo <= b <= hi
      invariant forall t | t in turns[..i] && !(t.end <= lo || t.start >= hi) :: Max(lo, t.start) in boundaries && Min(hi, t.end) in boundaries
    {
      var turn := turns[i];
      assert turns[..i + 1] == turns[..i] + [turn];
      if turn.end <= lo || turn.start >= hi {
        continue;
      }
      boundaries := boundaries + {Max(lo, turn.start)};
      boundaries := boundaries + {Min(hi, turn.end)};
    }
    assert turns[..|turns|] == turns;
  }

  /** Adds a window, widening the last one instead when its speaker is the same. */
  function AppendWindow(ws: seq<Window>, w: Window): seq<Window> {
    var n := |ws| - 1;
    if n >= 0 && ws[n].speaker == w.speaker then ws[n := Window(ws[n].start, w.end, w.speaker)] else ws + [w]
  }

  method AppendTo(ws: seq<Window>, w: Window) returns (r: seq<Window>)
    ensures r == AppendWindow(ws, w)
  {
    var n := |ws| - 1;
    if ws != [] && ws[n].speaker == w.speaker {
      r := ws[n := Window(ws[n].start, w.end, ws[n].speaker)];
    } else {
      r := ws + [w];
    }
  }

  lemma AppendTiles(ws: seq<Window>, w: Window, lo: real)
    requires w.start < w.end
    requires if ws == [] then lo == w.start else Tiles(ws, lo, w.start) && Alternates(ws)
    ensures Tiles(AppendWindow(ws, w), lo, w.end) && Alternates(AppendWindow(ws, w))
  {
  }

  /** The windows encode the speakers up to an instant, starting from none. */
  ghost predicate EncodedTo(ws: seq<Window>, lo: real, upTo: real, turns: seq<Turn>) {
    if ws == [] then lo == upTo else IsSpeakerWindows(ws, lo, upTo, turns)
  }

  /** Extends an encoding by an elementary window. */
  lemma ExtendWindows(ws: seq<Window>, lo: real, w: Window, turns: seq<Turn>)
    requires w.start < w.end && Elementary(w.start, w.end, turns) && w.speaker == SpeakerByOverlap(w.start, w.end, turns)
    requires EncodedTo(ws, lo, w.start, turns)
    ensures IsSpeakerWindows(AppendWindow(ws, w), lo, w.end, turns)
  {
    AppendTiles(ws, w, lo);
    forall x | w.start <= x < w.end ensures SpeakerAt(turns, x) == w.speaker {
      OverlapSearchIsPointwise(w.start, w.end, turns, w.speaker, x);
    }
    var n := |ws| - 1;
    assert n >= 0 ==> ws[n] in ws;
    forall v | v in AppendWindow(ws, w) ensures Agrees(v, turns) {
    }
  }

  method BuildSpeakerWindows(lo: real, hi: real, turns: seq<Turn>) returns (windows: seq<Window>)
    ensures hi <= lo ==> windows == []
    ensures lo < hi ==> IsSpeakerWindows(windows, lo, hi, turns)
  {
    if hi <= lo {
      return [];
    }
    var boundaries := Boundaries(lo, hi, turns);
    var ordered := SortedBoundaries(boundaries);
    EndsOfOrdered(ordered, lo, hi);
    windows := [];
    for idx := 0 to |ordered| - 1
      invariant EncodedTo(windows, lo, ordered[idx], turns) && (windows == [] ==> idx == 0)
    {
      NextToEachOther(ordered, lo, hi, turns, idx);
      var winStart, winEnd := ordered[idx], ordered[idx + 1];
      if winEnd <= winStart {
        continue;
      }
      var speaker := FindSpeakerByOverlap(winStart, winEnd, turns);
      ExtendWindows(windows, lo, Window(winStart, winEnd, speaker), turns);
      windows := AppendTo(windows, Window(winStart, winEnd, speaker));
    }
  }

  lemma EndsOfOrdered(ordered: seq<real>, lo: real, hi: real)
    requires Increasing(ordered) && lo < hi && lo in ordered && hi in ordered && forall b | b in ordered :: lo <= b <= hi
    ensures |ordered| > 1 && ordered[0] == lo && ordered[|ordered| - 1] == hi
  {
    var i :| 0 <= i < |ordered| && ordered[i] == lo;
    var j :| 0 <= j < |ordered| && ordered[j] == hi;
    assert ordered[0] in ordered && ordered[|ordered| - 1] in ordered;
  }
}
