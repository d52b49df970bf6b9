/** `_compute_missed_speech`: detected speech that no transcribed segment covers. */
module MissedSpeech {
  import opened Common
  import opened Sorting

  const MISSED_SPEECH_MIN_REGION_S := 0.25

  predicate SpanLe(a: Span, b: Span) {
    a.start < b.start || (a.start == b.start && a.end <= b.end)
  }

  /** Spans are closed here. */
  predicate Holds(s: Span, t: real) {
    s.start <= t <= s.end
  }

  /** Some span holds the instant. */
  ghost predicate Covered(spans: seq<Span>, t: real) {
    exists s | s in spans :: Holds(s, t)
  }

  function WidenSpan(s: Span, tolerance: real): Span {
    Span(Max(0.0, s.start - tolerance), s.end + tolerance)
  }

  function WidenAll(segments: seq<Span>, tolerance: real): (r: seq<Span>)
    ensures |r| == |segments| && forall i | 0 <= i < |r| :: r[i] == WidenSpan(segments[i], tolerance)
  {
    seq(|segments|, i requires 0 <= i < |segments| => WidenSpan(segments[i], tolerance))
  }

  /** Such a span holds nothing. */
  predicate Inverted(s: Span) {
    s.end < s.start
  }

  /** Disjoint spans in order, with room between them; inverted ones may stand among them. */
  ghost predicate Separated(spans: seq<Span>) {
    forall i, j | 0 <= i < j < |spans| :: spans[i].end < spans[j].start && SpanLe(spans[i], spans[j])
  }

  /** The cover: separated, and holding exactly the instants of `spans`. */
  ghost predicate IsCover(merged: seq<Span>, spans: seq<Span>) {
    Separated(merged) && forall t :: Covered(merged, t) <==> Covered(spans, t)
  }

  /** The inverted spans of the cover are among `spans`; one of those that is missing starts inside a span of the cover. */
  ghost predicate KeepsInverted(merged: seq<Span>, spans: seq<Span>) {
    && (forall m | m in merged && Inverted(m) :: m in spans)
    && (forall w | w in spans && Inverted(w) :: w in merged || StartsInside(w, merged))
  }

  ghost predicate StartsInside(w: Span, merged: seq<Span>) {
    exists u | u in merged :: u.start < w.start <= u.end
  }

  function AddSpan(merged: seq<Span>, s: Span): seq<Span> {
    var n := |merged| - 1;
    if n >= 0 && s.start <= merged[n].end
    then merged[n := Span(merged[n].start, Max(merged[n].end, s.end))]
    else merged + [s]
  }

  function MergedSpans(covered: seq<Span>): seq<Span> {
    if covered == [] then [] else AddSpan(MergedSpans(covered[..|covered| - 1]), covered[|covered| - 1])
  }

  method MergeSpans(covered: seq<Span>) returns (merged: seq<Span>)
    ensures merged == MergedSpans(covered)
  {
    merged := [];
    for i := 0 to |covered|
      invariant merged == MergedSpans(covered[..i])
    {
      assert covered[..i + 1][..i] == covered[..i];
      var s, n := covered[i], |merged| - 1;
      if merged != [] && s.start <= merged[n].end {
        merged := merged[n := Span(merged[n].start, Max(merged[n].end, s.end))];
      } else {
        merged := merged + [s];
      }
    }
    assert covered[..|covered|] == covered;
  }

  /** What the last merged span and the next sorted one have to do with each other. */
  predicate Follows(last: Span, next: Span) {
    && last.start <= next.start
    && (Inverted(last) ==> SpanLe(last, next))
    && (!Inverted(last) && next.start == last.start ==> !Inverted(next))
  }

  lemma StaysSeparated(merged: seq<Span>, s: Span)
    requires Separated(merged) && (merged != [] ==> Follows(merged[|merged| - 1], s))
    ensures Separated(AddSpan(merged, s))
  {
    var n := |merged| - 1;
    if n >= 0 && s.start > merged[n].end {
      forall i | 0 <= i <= n ensures merged[i].end < s.start && SpanLe(merged[i], s) {
        if i < n { assert merged[i].end < merged[n].start && SpanLe(merged[i], merged[n]); }
      }
    }
  }

  lemma StillFollows(merged: seq<Span>, s: Span, next: Span)
    requires (merged != [] ==> Follows(merged[|merged| - 1], s)) && SpanLe(s, next)
    ensures var r := AddSpan(merged, s); Follows(r[|r| - 1], next)
  {
  }

  lemma AddKeepsInverted(merged: seq<Span>, spans: seq<Span>, s: Span)
    requires KeepsInverted(merged, spans) && (merged != [] ==> Follows(merged[|merged| - 1], s))
    ensures KeepsInverted(AddSpan(merged, s), spans + [s])
  {
    var n, next := |merged| - 1, AddSpan(merged, s);
    if n >= 0 && s.start <= merged[n].end {
      assert next[n] in next && !Inverted(next[n]);
      assert merged == merged[..n] + [merged[n]] && next == merged[..n] + [next[n]];
    }
    forall w | w in spans + [s] && Inverted(w) ensures w in next || StartsInside(w, next) {
      if w in spans && w !in merged {
        var u :| u in merged && u.start < w.start <= u.end;
        if u !in next { assert u == merged[n]; }
      }
    }
  }

  lemma {:induction false} CoverSoFar(covered: seq<Span>, n: nat)
    requires SortedBy(covered, SpanLe) && n <= |covered|
    ensures var merged := MergedSpans(covered[..n]);
      && IsCover(merged, covered[..n]) && KeepsInverted(merged, covered[..n])
      && (merged != [] && n < |covered| ==> Follows(merged[|merged| - 1], covered[n]))
  {
    if n > 0 {
      var before, s := covered[..n - 1], covered[n - 1];
      var merged := MergedSpans(before);
      CoverSoFar(covered, n - 1);
      assert covered[..n] == before + [s] && covered[..n][..n - 1] == before;
      StaysSeparated(merged, s);
      AddKeepsInverted(merged, before, s);
      CoverOneMore(merged, before, s);
      if n < |covered| { StillFollows(merged, s, covered[n]); }
    }
  }

  /** Sorted spans merge into separated spans that hold the same instants. */
  lemma MergedSpansCover(covered: seq<Span>)
    requires SortedBy(covered, SpanLe)
    ensures IsCover(MergedSpans(covered), covered) && KeepsInverted(MergedSpans(covered), covered)
  {
    CoverSoFar(covered, |covered|);
    assert covered[..|covered|] == covered;
  }

  lemma CoverOneMore(merged: seq<Span>, spans: seq<Span>, s: Span)
    requires forall t :: Covered(merged, t) <==> Covered(spans, t)
    requires merged != [] ==> merged[|merged| - 1].start <= s.start
    ensures forall t :: Covered(AddSpan(merged, s), t) <==> Covered(spans + [s], t)
  {
    forall t ensures Covered(AddSpan(merged, s), t) <==> Covered(spans + [s], t) {
      CoveredOneMore(merged, s, t);
      CoveredAppend(spans, s, t);
    }
  }

  lemma CoveredAppend(spans: seq<Span>, s: Span, t: real)
    ensures Covered(spans + [s], t) <==> Covered(spans, t) || Holds(s, t)
  {
    if Covered(spans, t) {
      var u :| u in spans && Holds(u, t);
      assert u in spans + [s];
    }
    if Holds(s, t) { assert s in spans + [s]; }
  }

  lemma CoveredOneMore(merged: seq<Span>, s: Span, t: real)
    requires merged != [] ==> merged[|merged| - 1].start <= s.start
    ensures Covered(AddSpan(merged, s), t) <==> Covered(merged, t) || Holds(s, t)
  {
    var n := |merged| - 1;
    if n >= 0 && s.start <= merged[n].end {
      var joined := Span(merged[n].start, Max(merged[n].end, s.end));
      assert merged == merged[..n] + [merged[n]] && AddSpan(merged, s) == merged[..n] + [joined];
      CoveredAppend(merged[..n], merged[n], t);
      CoveredAppend(merged[..n], joined, t);
    } else {
      CoveredAppend(merged, s, t);
    }
  }

  // ----- Gaps -----

  /** A maximal stretch of the region without covered instants strictly inside. */
  ghost predicate IsGap(g: Span, region: Span, cover: seq<Span>) {
    && region.start <= g.start < g.end <= region.end
    && (forall t | g.start < t < g.end :: !Covered(cover, t))
    && (g.start == region.start || Covered(cover, g.start))
    && (g.end == region.end || Covered(cover, g.end))
  }

  ghost predicate LongGap(g: Span, region: Span, cover: seq<Span>, minGap: real) {
    IsGap(g, region, cover) && g.end - g.start >= minGap
  }

  /** Exactly the gaps of at least `minGap`, in order. */
  ghost predicate IsMissed(missed: seq<Span>, region: Span, cover: seq<Span>, minGap: real) {
    && (forall g :: g in missed <==> LongGap(g, region, cover, minGap))
    && (forall i, j | 0 <= i < j < |missed| :: missed[i].end <= missed[j].start)
  }

  // ----- The scan -----

  function RestOfRegion(region: Span, minGap: real, cursor: real): seq<Span> {
    if region.end - cursor >= minGap then [Span(cursor, region.end)] else []
  }

  /** The gap reported before a span, if it is long enough. */
  function GapTo(region: Span, s: Span, minGap: real, cursor: real): seq<Span> {
    if s.start > cursor && s.start - cursor >= minGap then [Span(cursor, Min(s.start, region.end))] else []
  }

  /** Where the cursor is after a span. */
  function Pass(region: Span, s: Span, cursor: real): real {
    Max(cursor, Min(s.end, region.end))
  }

  /** The spans reported from span `k` of the cover on, with the cursor where it is. */
  function MissedFrom(region: Span, cover: seq<Span>, minGap: real, k: nat, cursor: real): seq<Span>
    decreases |cover| - k
  {
    if k >= |cover| then RestOfRegion(region, minGap, cursor)
    else if cover[k].end <= cursor then MissedFrom(region, cover, minGap, k + 1, cursor)
    else if cover[k].start >= region.end then RestOfRegion(region, minGap, cursor)
    else
      var next := Pass(region, cover[k], cursor);
      GapTo(region, cover[k], minGap, cursor) +
        if next >= region.end then RestOfRegion(region, minGap, next) else MissedFrom(region, cover, minGap, k + 1, next)
  }

  lemma OneMoreSpan(missed: seq<Span>, region: Span, cover: seq<Span>, minGap: real, k: nat, cursor: real)
    requires k < |cover| && cover[k].end > cursor && cover[k].start < region.end
    ensures var next := Pass(region, cover[k], cursor);
      missed + MissedFrom(region, cover, minGap, k, cursor) == missed + GapTo(region, cover[k], minGap, cursor) +
        if next >= region.end then RestOfRegion(region, minGap, next) else MissedFrom(region, cover, minGap, k + 1, next)
  {
  }

  lemma BehindOrBeyond(region: Span, cover: seq<Span>, minGap: real, k: nat, cursor: real)
    requires k < |cover|
    ensures cover[k].end <= cursor ==>
      MissedFrom(region, cover, minGap, k, cursor) == MissedFrom(region, cover, minGap, k + 1, cursor)
    ensures cover[k].end > cursor && cover[k].start >= region.end ==>
      MissedFrom(region, cover, minGap, k, cursor) == RestOfRegion(region, minGap, cursor)
  {
  }

  method MissedInRegion(region: Span, cover: seq<Span>, minGap: real) returns (missed: seq<Span>)
    ensures missed == MissedFrom(region, cover, minGap, 0, region.start)
  {
    missed := [];
    var cursor := region.start;
    ghost var all := MissedFrom(region, cover, minGap, 0, region.start);
    ghost var rest := all;
    for k := 0 to |cover|
      invariant all == missed + rest && rest == MissedFrom(region, cover, minGap, k, cursor)
    {
      var start, end := cover[k].start, cover[k].end;
      BehindOrBeyond(region, cover, minGap, k, cursor);
      if end <= cursor {
        continue;
      }
      if start >= region.end {
        break;
      }
      OneMoreSpan(missed, region, cover, minGap, k, cursor);
      ghost var reported := missed + GapTo(region, cover[k], minGap, cursor);
      if start > cursor && start - cursor >= minGap {
        missed := missed + [Span(cursor, Min(start, region.end))];
      }
      assert missed == reported;
      cursor := Max(cursor, Min(end, region.end));
      if cursor >= region.end {
        rest := RestOfRegion(region, minGap, cursor);
        break;
      }
      rest := MissedFrom(region, cover, minGap, k + 1, cursor);
    }
    if region.end - cursor >= minGap {
      missed := missed + [Span(cursor, region.end)];
    }
  }

  // ----- When the scan is exact -----

  /** Exactly the spans of this kind, in order. */
  ghost predicate Lists(missed: seq<Span>, kind: Span -> bool) {
    && (forall g :: g in missed <==> kind(g))
    && (forall i, j | 0 <= i < j < |missed| :: missed[i].end <= missed[j].start)
  }

  ghost function LongFrom(region: Span, cover: seq<Span>, minGap: real, lo: real): Span -> bool {
    (g: Span) => LongGap(g, region, cover, minGap) && g.start >= lo
  }

  /** Exactly the long gaps from `lo` on, in order. */
  ghost predicate ExactFrom(missed: seq<Span>, region: Span, cover: seq<Span>, minGap: real, lo: real) {
    Lists(missed, LongFrom(region, cover, minGap, lo))
  }

  lemma ListsMore(g: Span, rest: seq<Span>, kind: Span -> bool, kindOfRest: Span -> bool)
    requires g !in rest && forall h :: kind(h) <==> h == g || kindOfRest(h)
    requires !kindOfRest(g) && forall h | kindOfRest(h) :: g.end <= h.start
    ensures Lists([g] + rest, kind) <==> Lists(rest, kindOfRest)
  {
    var all := [g] + rest;
    assert all[0] == g && forall i | 0 < i < |all| :: all[i] == rest[i - 1];
    if Lists(all, kind) {
      forall i, j | 0 <= i < j < |rest| ensures rest[i].end <= rest[j].start {
        assert all[i + 1].end <= all[j + 1].start;
      }
      forall h ensures h in rest <==> kindOfRest(h) {
        assert h in all <==> h == g || h in rest;
      }
    }
    if Lists(rest, kindOfRest) {
      forall i | 0 < i < |all| ensures g.end <= all[i].start {
        assert all[i] in rest;
      }
      forall h ensures h in all <==> kind(h) {
        assert h in all <==> h == g || h in rest;
      }
    }
  }

  lemma ListsSame(missed: seq<Span>, kind: Span -> bool, other: Span -> bool)
    requires forall h :: kind(h) <==> other(h)
    ensures Lists(missed, kind) <==> Lists(missed, other)
  {
  }

  /** An inverted span in a long gap, unless it starts where the gap ends and ends too near for another report. */
  predicate Harms(w: Span, g: Span, region: Span, minGap: real) {
    && Inverted(w) && g.start < w.end && w.start <= g.end && w.start < region.end
    && !(w.start == g.end && g.end - w.end < minGap)
  }

  /** No span from `k` on harms a long gap from `lo` on. */
  ghost predicate HarmlessFrom(region: Span, cover: seq<Span>, minGap: real, k: nat, lo: real) {
    forall i, g | k <= i < |cover| && LongGap(g, region, cover, minGap) && g.start >= lo :: !Harms(cover[i], g, region, minGap)
  }

  /** The spans below `k` are behind the cursor. */
  ghost predicate Behind(cover: seq<Span>, k: nat, cursor: real) {
    k <= |cover| && forall i | 0 <= i < k :: cover[i].end <= cursor
  }

  /** The cursor is where a gap can start. */
  ghost predicate AtEdge(region: Span, cover: seq<Span>, k: nat, cursor: real) {
    && Behind(cover, k, cursor) && region.start <= cursor
    && (cursor == region.start || (Covered(cover, cursor) && forall i | k <= i < |cover| :: cover[i].start > cursor))
  }

  /** The cursor is in a gap, and what is left of it is too short to report. */
  ghost predicate InGap(region: Span, cover: seq<Span>, minGap: real, k: nat, cursor: real, g: Span) {
    Behind(cover, k, cursor) && IsGap(g, region, cover) && g.start <= cursor < g.end && g.end - cursor < minGap
  }

  /** A span does not overlap a gap that starts before the span's end. */
  lemma NoSpanInGap(region: Span, cover: seq<Span>, k: nat, g: Span)
    requires IsGap(g, region, cover) && k < |cover| && !Inverted(cover[k]) && g.start < cover[k].end
    ensures cover[k].start >= g.end
  {
    if cover[k].start < g.end {
      var t := if cover[k].start > g.start then cover[k].start
        else if cover[k].end < g.end then cover[k].end else (g.start + g.end) / 2.0;
      assert cover[k] in cover && Holds(cover[k], t);
      assert Covered(cover, t);
    }
  }

  lemma LaterSpans(cover: seq<Span>, k: nat, t: real)
    requires Separated(cover) && (k < |cover| ==> t <= cover[k].start)
    ensures forall i | k <= i < |cover| :: t <= cover[i].start
  {
    forall i | k < i < |cover| ensures t <= cover[i].start {
      assert SpanLe(cover[k], cover[i]);
    }
  }

  /** Between the cursor and the next span nothing is covered. */
  lemma UncoveredAhead(cover: seq<Span>, k: nat, cursor: real, t: real)
    requires Separated(cover) && Behind(cover, k, cursor) && cursor < t && (k < |cover| ==> t < cover[k].start)
    ensures !Covered(cover, t)
  {
    if k < |cover| { LaterSpans(cover, k, cover[k].start); }
  }

  /** If something is left of the region, the gap at the cursor; it reaches the next span, or its start if that one is not inverted. */
  lemma GapAtCursor(region: Span, cover: seq<Span>, k: nat, cursor: real) returns (g: Span)
    requires Separated(cover) && AtEdge(region, cover, k, cursor) && cursor < region.end && (k < |cover| ==> cursor < cover[k].start)
    ensures IsGap(g, region, cover) && g.start == cursor
    ensures k < |cover| ==> g.end >= Min(cover[k].start, region.end)
    ensures k < |cover| && !Inverted(cover[k]) ==> g.end <= cover[k].start
    ensures k >= |cover| ==> g.end == region.end
  {
    var bound := if k < |cover| then Min(cover[k].start, region.end) else region.end;
    var t := (cursor + bound) / 2.0;
    UncoveredAhead(cover, k, cursor, t);
    var hi := GapEnd(cover, region, t);
    g := Span(cursor, hi);
    if hi < bound { UncoveredAhead(cover, k, cursor, hi); }
    forall u | cursor < u < hi ensures !Covered(cover, u) {
      if u < bound { UncoveredAhead(cover, k, cursor, u); }
    }
    if k < |cover| && !Inverted(cover[k]) { NoSpanInGap(region, cover, k, g); }
  }

  /** Two gaps are the same or apart. */
  lemma GapsApart(region: Span, cover: seq<Span>, g: Span, h: Span)
    requires IsGap(g, region, cover) && IsGap(h, region, cover) && h.start >= g.start && h != g
    ensures h.start >= g.end
  {
  }

  // ----- In a gap with too little left -----

  lemma SpanAfterGap(region: Span, cover: seq<Span>, k: nat, cursor: real, g: Span)
    requires Separated(cover) && IsGap(g, region, cover) && cursor < g.end < region.end && Behind(cover, k, cursor)
    ensures k < |cover| && cover[k].start <= g.end
  {
    var s :| s in cover && Holds(s, g.end);
    var j :| 0 <= j < |cover| && cover[j] == s;
    assert k < j ==> SpanLe(cover[k], cover[j]);
  }

  lemma HarmlessSkip(region: Span, cover: seq<Span>, minGap: real, k: nat, lo: real)
    requires k < |cover| && (cover[k].end <= lo || !Inverted(cover[k]))
    ensures HarmlessFrom(region, cover, minGap, k, lo) <==> HarmlessFrom(region, cover, minGap, k + 1, lo)
  {
  }

  /** No long gap starts in between. */
  ghost predicate NoneBetween(region: Span, cover: seq<Span>, minGap: real, lo: real, hi: real) {
    lo <= hi && forall g | LongGap(g, region, cover, minGap) && lo <= g.start :: hi <= g.start
  }

  lemma MoveOn(missed: seq<Span>, region: Span, cover: seq<Span>, minGap: real, k: nat, lo: real, hi: real)
    requires NoneBetween(region, cover, minGap, lo, hi)
    ensures ExactFrom(missed, region, cover, minGap, lo) <==> ExactFrom(missed, region, cover, minGap, hi)
    ensures HarmlessFrom(region, cover, minGap, k, lo) <==> HarmlessFrom(region, cover, minGap, k, hi)
  {
    ListsSame(missed, LongFrom(region, cover, minGap, lo), LongFrom(region, cover, minGap, hi));
  }

  lemma NothingLeft(region: Span, cover: seq<Span>, minGap: real, k: nat, lo: real)
    requires lo >= region.end
    ensures ExactFrom([], region, cover, minGap, lo) && HarmlessFrom(region, cover, minGap, k, lo)
  {
  }

  lemma NoReport(region: Span, cover: seq<Span>, minGap: real, k: nat, cursor: real)
    requires minGap > 0.0 && k < |cover| && cursor < cover[k].end && cover[k].start < region.end && cover[k].start - cursor < minGap
    ensures var next := Pass(region, cover[k], cursor);
      MissedFrom(region, cover, minGap, k, cursor) == if next < region.end then MissedFrom(region, cover, minGap, k + 1, next) else []
  {
    OneMoreSpan([], region, cover, minGap, k, cursor);
  }

  lemma EnterGap(region: Span, cover: seq<Span>, minGap: real, k: nat, cursor: real, g: Span)
    requires Behind(cover, k, cursor) && IsGap(g, region, cover) && g.start <= cursor && k < |cover|
    requires cursor < cover[k].end < cover[k].start <= g.end && g.end - cover[k].end < minGap
    ensures InGap(region, cover, minGap, k + 1, cover[k].end, g)
  {
  }

  lemma StayInGap(region: Span, cover: seq<Span>, minGap: real, k: nat, cursor: real, g: Span)
    requires InGap(region, cover, minGap, k, cursor, g) && k < |cover| && cover[k].end <= cursor
    ensures InGap(region, cover, minGap, k + 1, cursor, g)
    ensures MissedFrom(region, cover, minGap, k, cursor) == MissedFrom(region, cover, minGap, k + 1, cursor)
  {
  }

  /** The rest of such a gap reports nothing; what follows is as exact as the scan from its end on. */
  lemma {:induction false} RestOfGap(region: Span, cover: seq<Span>, minGap: real, k: nat, cursor: real, g: Span)
    requires Separated(cover) && minGap > 0.0 && InGap(region, cover, minGap, k, cursor, g)
    ensures ExactFrom(MissedFrom(region, cover, minGap, k, cursor), region, cover, minGap, g.end)
       <==> HarmlessFrom(region, cover, minGap, k, g.end)
    decreases |cover| - k, 1
  {
    if g.end < region.end { SpanAfterGap(region, cover, k, cursor, g); }
    if k >= |cover| || (cover[k].end > cursor && cover[k].start >= region.end) {
      EndInGap(region, cover, minGap, k, cursor, g);
    } else if cover[k].end <= cursor {
      HarmlessSkip(region, cover, minGap, k, g.end);
      StayInGap(region, cover, minGap, k, cursor, g);
      RestOfGap(region, cover, minGap, k + 1, cursor, g);
    } else if Inverted(cover[k]) {
      InvertedInGap(region, cover, minGap, k, cursor, g);
    } else {
      LeaveGap(region, cover, minGap, k, cursor, g);
    }
  }

  lemma EndInGap(region: Span, cover: seq<Span>, minGap: real, k: nat, cursor: real, g: Span)
    requires InGap(region, cover, minGap, k, cursor, g) && g.end == region.end
    requires k >= |cover| || (cover[k].end > cursor && cover[k].start >= region.end)
    ensures ExactFrom(MissedFrom(region, cover, minGap, k, cursor), region, cover, minGap, g.end)
    ensures HarmlessFrom(region, cover, minGap, k, g.end)
  {
    assert MissedFrom(region, cover, minGap, k, cursor) == RestOfRegion(region, minGap, cursor) == [];
    NothingLeft(region, cover, minGap, k, g.end);
  }

  lemma InvertedInGap(region: Span, cover: seq<Span>, minGap: real, k: nat, cursor: real, g: Span)
    requires Separated(cover) && minGap > 0.0 && InGap(region, cover, minGap, k, cursor, g)
    requires k < |cover| && Inverted(cover[k]) && cursor < cover[k].end && cover[k].start <= g.end && cover[k].start < region.end
    ensures ExactFrom(MissedFrom(region, cover, minGap, k, cursor), region, cover, minGap, g.end)
       <==> HarmlessFrom(region, cover, minGap, k, g.end)
    decreases |cover| - k, 0
  {
    assert MissedFrom(region, cover, minGap, k, cursor) == MissedFrom(region, cover, minGap, k + 1, cover[k].end) by {
      NoReport(region, cover, minGap, k, cursor);
    }
    HarmlessSkip(region, cover, minGap, k, g.end);
    EnterGap(region, cover, minGap, k, cursor, g);
    RestOfGap(region, cover, minGap, k + 1, cover[k].end, g);
  }

  lemma PastSpan(region: Span, cover: seq<Span>, minGap: real, k: nat, cursor: real)
    requires Separated(cover) && Behind(cover, k, cursor) && region.start <= cursor < region.end
    requires k < |cover| && !Inverted(cover[k]) && cursor < cover[k].end && cover[k].start < region.end
    ensures var next := Pass(region, cover[k], cursor);
      && NoneBetween(region, cover, minGap, Max(cursor, cover[k].start), next)
      && (next < region.end ==> AtEdge(region, cover, k + 1, next))
  {
    var next := Pass(region, cover[k], cursor);
    forall g | LongGap(g, region, cover, minGap) && Max(cursor, cover[k].start) <= g.start ensures next <= g.start {
      if g.start < next { NoSpanInGap(region, cover, k, g); }
    }
    assert cover[k] in cover && Holds(cover[k], next);
    forall i | k < i < |cover| ensures cover[i].start > cover[k].end {
    }
  }

  /** The span at the end of the gap takes the scan on. */
  lemma LeaveGap(region: Span, cover: seq<Span>, minGap: real, k: nat, cursor: real, g: Span)
    requires Separated(cover) && minGap > 0.0 && InGap(region, cover, minGap, k, cursor, g)
    requires k < |cover| && !Inverted(cover[k]) && cursor < cover[k].end && cover[k].start <= g.end && cover[k].start < region.end
    ensures ExactFrom(MissedFrom(region, cover, minGap, k, cursor), region, cover, minGap, g.end)
       <==> HarmlessFrom(region, cover, minGap, k, g.end)
    decreases |cover| - k, 0
  {
    var next := Pass(region, cover[k], cursor);
    NoSpanInGap(region, cover, k, g);
    PastSpan(region, cover, minGap, k, cursor);
    HarmlessSkip(region, cover, minGap, k, g.end);
    NoReport(region, cover, minGap, k, cursor);
    if next < region.end {
      MoveOn(MissedFrom(region, cover, minGap, k + 1, next), region, cover, minGap, k + 1, g.end, next);
      ScanIsExactIff(region, cover, minGap, k + 1, next);
    } else {
      MoveOn([], region, cover, minGap, k + 1, g.end, next);
      NothingLeft(region, cover, minGap, k + 1, next);
    }
  }

  // ----- At the start of a gap, or of the region -----

  lemma {:induction false} ReportsStartLater(region: Span, cover: seq<Span>, minGap: real, k: nat, cursor: real)
    ensures forall h | h in MissedFrom(region, cover, minGap, k, cursor) :: h.start >= cursor
    decreases |cover| - k
  {
    if k < |cover| {
      if cover[k].end <= cursor {
        ReportsStartLater(region, cover, minGap, k + 1, cursor);
      } else if cover[k].start < region.end {
        ReportsStartLater(region, cover, minGap, k + 1, Pass(region, cover[k], cursor));
      }
    }
  }

  /** Reporting a long gap first. */
  lemma Prepend(g: Span, rest: seq<Span>, region: Span, cover: seq<Span>, minGap: real)
    requires LongGap(g, region, cover, minGap) && forall h | h in rest :: h.start > g.start
    ensures ExactFrom([g] + rest, region, cover, minGap, g.start) <==> ExactFrom(rest, region, cover, minGap, g.end)
  {
    forall h | LongGap(h, region, cover, minGap) && h.start >= g.start && h != g ensures h.start >= g.end {
      GapsApart(region, cover, g, h);
    }
    ListsMore(g, rest, LongFrom(region, cover, minGap, g.start), LongFrom(region, cover, minGap, g.end));
  }

  /** Nothing more to scan: the rest of the region is the last gap. */
  lemma ScanRest(region: Span, cover: seq<Span>, minGap: real, k: nat, cursor: real)
    requires Separated(cover) && minGap > 0.0 && AtEdge(region, cover, k, cursor)
    requires k < |cover| ==> cover[k].start >= region.end && cover[k].end > cursor
    ensures ExactFrom(MissedFrom(region, cover, minGap, k, cursor), region, cover, minGap, cursor)
    ensures HarmlessFrom(region, cover, minGap, k, cursor)
  {
    LaterSpans(cover, k, region.end);
    assert MissedFrom(region, cover, minGap, k, cursor) == RestOfRegion(region, minGap, cursor);
    if cursor < region.end {
      var g := GapAtCursor(region, cover, k, cursor);
      assert g == Span(cursor, region.end);
      forall h | LongGap(h, region, cover, minGap) && h.start >= cursor ensures h == g {
        if h != g { GapsApart(region, cover, g, h); }
      }
    }
  }

  lemma SkipBehind(region: Span, cover: seq<Span>, minGap: real, k: nat, cursor: real)
    requires AtEdge(region, cover, k, cursor) && k < |cover| && cover[k].end <= cursor
    ensures AtEdge(region, cover, k + 1, cursor)
    ensures MissedFrom(region, cover, minGap, k, cursor) == MissedFrom(region, cover, minGap, k + 1, cursor)
  {
  }

  lemma NothingReported(region: Span, cover: seq<Span>, minGap: real, k: nat, cursor: real)
    requires minGap > 0.0 && cursor >= region.end && k < |cover| && cover[k].end > cursor && cover[k].start < region.end
    ensures MissedFrom(region, cover, minGap, k, cursor) == []
  {
  }

  /** In every region the scan is exact if and only if no inverted span harms a long gap. */
  lemma {:induction false} ScanIsExactIff(region: Span, cover: seq<Span>, minGap: real, k: nat, cursor: real)
    requires Separated(cover) && minGap > 0.0 && AtEdge(region, cover, k, cursor)
    ensures ExactFrom(MissedFrom(region, cover, minGap, k, cursor), region, cover, minGap, cursor)
       <==> HarmlessFrom(region, cover, minGap, k, cursor)
    decreases |cover| - k, 2
  {
    if k >= |cover| || (cover[k].end > cursor && cover[k].start >= region.end) {
      ScanRest(region, cover, minGap, k, cursor);
    } else if cover[k].end <= cursor {
      HarmlessSkip(region, cover, minGap, k, cursor);
      SkipBehind(region, cover, minGap, k, cursor);
      ScanIsExactIff(region, cover, minGap, k + 1, cursor);
    } else if cursor >= region.end {
      NothingLeft(region, cover, minGap, k, cursor);
      NothingReported(region, cover, minGap, k, cursor);
    } else if Inverted(cover[k]) {
      ScanInverted(region, cover, minGap, k, cursor);
    } else {
      ScanProper(region, cover, minGap, k, cursor);
    }
  }

  /** The gap before a span is reported if it is long, and nothing else up to the span's end. */
  lemma SpanReports(rest: seq<Span>, region: Span, cover: seq<Span>, minGap: real, k: nat, cursor: real)
    requires Separated(cover) && minGap > 0.0 && AtEdge(region, cover, k, cursor) && cursor < region.end
    requires k < |cover| && cursor < cover[k].end && cover[k].start < region.end && !Inverted(cover[k])
    requires forall h | h in rest :: h.start >= Pass(region, cover[k], cursor)
    ensures var next := Pass(region, cover[k], cursor); var all := GapTo(region, cover[k], minGap, cursor) + rest;
      && (ExactFrom(all, region, cover, minGap, cursor) <==> ExactFrom(rest, region, cover, minGap, next))
      && (HarmlessFrom(region, cover, minGap, k, cursor) <==> HarmlessFrom(region, cover, minGap, k + 1, next))
  {
    var next, start := Pass(region, cover[k], cursor), Max(cursor, cover[k].start);
    PastSpan(region, cover, minGap, k, cursor);
    MoveOn(rest, region, cover, minGap, k + 1, start, next);
    HarmlessSkip(region, cover, minGap, k, cursor);
    if cover[k].start > cursor {
      var g := GapAtCursor(region, cover, k, cursor);
      assert g == Span(cursor, cover[k].start);
      HarmlessAfter(region, cover, minGap, k, g);
      if g.end - g.start >= minGap {
        Prepend(g, rest, region, cover, minGap);
      } else {
        ShortGap(region, cover, minGap, g);
        MoveOn(rest, region, cover, minGap, k + 1, cursor, start);
        assert [] + rest == rest;
      }
    } else {
      assert [] + rest == rest;
    }
  }

  lemma ShortGap(region: Span, cover: seq<Span>, minGap: real, g: Span)
    requires IsGap(g, region, cover) && g.end - g.start < minGap
    ensures NoneBetween(region, cover, minGap, g.start, g.end)
  {
    forall h | LongGap(h, region, cover, minGap) && g.start <= h.start ensures g.end <= h.start {
      GapsApart(region, cover, g, h);
    }
  }

  lemma HarmlessAfter(region: Span, cover: seq<Span>, minGap: real, k: nat, g: Span)
    requires Separated(cover) && k < |cover| && !Inverted(cover[k]) && cover[k].start == g.end && IsGap(g, region, cover)
    ensures HarmlessFrom(region, cover, minGap, k + 1, g.start) <==> HarmlessFrom(region, cover, minGap, k + 1, g.end)
  {
    forall i, h | k < i < |cover| && LongGap(h, region, cover, minGap) && g.start <= h.start < g.end
      ensures !Harms(cover[i], h, region, minGap)
    {
      if h != g { GapsApart(region, cover, g, h); }
      assert cover[k].end < cover[i].start;
    }
  }

  function RestAfter(region: Span, cover: seq<Span>, minGap: real, k: nat, next: real): seq<Span> {
    if next < region.end then MissedFrom(region, cover, minGap, k + 1, next) else []
  }

  lemma SpanThenRest(region: Span, cover: seq<Span>, minGap: real, k: nat, cursor: real)
    requires minGap > 0.0 && k < |cover| && cover[k].end > cursor && cover[k].start < region.end
    ensures var next := Pass(region, cover[k], cursor); var rest := RestAfter(region, cover, minGap, k, next);
      && MissedFrom(region, cover, minGap, k, cursor) == GapTo(region, cover[k], minGap, cursor) + rest
      && forall h | h in rest :: h.start >= next
  {
    var next := Pass(region, cover[k], cursor);
    OneMoreSpan([], region, cover, minGap, k, cursor);
    ReportsStartLater(region, cover, minGap, k + 1, next);
  }

  lemma AfterSpan(region: Span, cover: seq<Span>, minGap: real, k: nat, cursor: real)
    requires Separated(cover) && minGap > 0.0 && AtEdge(region, cover, k, cursor) && cursor < region.end
    requires k < |cover| && cursor < cover[k].end && cover[k].start < region.end && !Inverted(cover[k])
    ensures var next := Pass(region, cover[k], cursor);
      ExactFrom(RestAfter(region, cover, minGap, k, next), region, cover, minGap, next)
      <==> HarmlessFrom(region, cover, minGap, k + 1, next)
    decreases |cover| - k, 0
  {
    var next := Pass(region, cover[k], cursor);
    if next < region.end {
      assert AtEdge(region, cover, k + 1, next) by { PastSpan(region, cover, minGap, k, cursor); }
      ScanIsExactIff(region, cover, minGap, k + 1, next);
    } else {
      NothingLeft(region, cover, minGap, k + 1, next);
    }
  }

  lemma ScanProper(region: Span, cover: seq<Span>, minGap: real, k: nat, cursor: real)
    requires Separated(cover) && minGap > 0.0 && AtEdge(region, cover, k, cursor) && cursor < region.end
    requires k < |cover| && cursor < cover[k].end && cover[k].start < region.end && !Inverted(cover[k])
    ensures ExactFrom(MissedFrom(region, cover, minGap, k, cursor), region, cover, minGap, cursor)
       <==> HarmlessFrom(region, cover, minGap, k, cursor)
    decreases |cover| - k, 1
  {
    SpanThenRest(region, cover, minGap, k, cursor);
    SpanReports(RestAfter(region, cover, minGap, k, Pass(region, cover[k], cursor)), region, cover, minGap, k, cursor);
    AfterSpan(region, cover, minGap, k, cursor);
  }

  lemma ScanInverted(region: Span, cover: seq<Span>, minGap: real, k: nat, cursor: real)
    requires Separated(cover) && minGap > 0.0 && AtEdge(region, cover, k, cursor) && cursor < region.end
    requires k < |cover| && cursor < cover[k].end && cover[k].start < region.end && Inverted(cover[k])
    ensures ExactFrom(MissedFrom(region, cover, minGap, k, cursor), region, cover, minGap, cursor)
       <==> HarmlessFrom(region, cover, minGap, k, cursor)
    decreases |cover| - k, 1
  {
    var w := cover[k];
    var g := GapAtCursor(region, cover, k, cursor);
    if g.end - g.start < minGap {
      InShortGap(region, cover, minGap, k, g);
    } else if w.start == g.end && g.end - w.end < minGap {
      AtEndOfGap(region, cover, minGap, k, g);
    } else {
      assert Harms(w, g, region, minGap) && LongGap(g, region, cover, minGap);
      HarmShows(region, cover, minGap, k, cursor, g);
    }
  }

  lemma ShortGapPasses(rest: seq<Span>, region: Span, cover: seq<Span>, minGap: real, k: nat, g: Span)
    requires IsGap(g, region, cover) && g.end - g.start < minGap
    ensures ExactFrom(rest, region, cover, minGap, g.start) <==> ExactFrom(rest, region, cover, minGap, g.end)
    ensures HarmlessFrom(region, cover, minGap, k, g.start) <==> HarmlessFrom(region, cover, minGap, k, g.end)
  {
    ShortGap(region, cover, minGap, g);
    MoveOn(rest, region, cover, minGap, k, g.start, g.end);
  }

  lemma ReportsGap(region: Span, cover: seq<Span>, minGap: real, k: nat, g: Span)
    requires k < |cover| && g.start < cover[k].end < cover[k].start == g.end < region.end && g.end - g.start >= minGap
    ensures MissedFrom(region, cover, minGap, k, g.start) == [g] + MissedFrom(region, cover, minGap, k + 1, cover[k].end)
  {
    OneMoreSpan([], region, cover, minGap, k, g.start);
  }

  lemma InShortGap(region: Span, cover: seq<Span>, minGap: real, k: nat, g: Span)
    requires Separated(cover) && minGap > 0.0 && Behind(cover, k, g.start) && IsGap(g, region, cover) && g.end - g.start < minGap
    requires k < |cover| && g.start < cover[k].end && cover[k].start < region.end && Inverted(cover[k]) && cover[k].start <= g.end
    ensures ExactFrom(MissedFrom(region, cover, minGap, k, g.start), region, cover, minGap, g.start)
       <==> HarmlessFrom(region, cover, minGap, k, g.start)
    decreases |cover| - k, 0
  {
    var rest := MissedFrom(region, cover, minGap, k + 1, cover[k].end);
    assert MissedFrom(region, cover, minGap, k, g.start) == rest by { NoReport(region, cover, minGap, k, g.start); }
    ShortGapPasses(rest, region, cover, minGap, k, g);
    assert HarmlessFrom(region, cover, minGap, k, g.end) <==> HarmlessFrom(region, cover, minGap, k + 1, g.end) by {
      HarmlessSkip(region, cover, minGap, k, g.end);
    }
    EnterGap(region, cover, minGap, k, g.start, g);
    RestOfGap(region, cover, minGap, k + 1, cover[k].end, g);
  }

  lemma AtEndOfGap(region: Span, cover: seq<Span>, minGap: real, k: nat, g: Span)
    requires Separated(cover) && minGap > 0.0 && Behind(cover, k, g.start) && LongGap(g, region, cover, minGap)
    requires k < |cover| && g.start < cover[k].end && cover[k].start < region.end && Inverted(cover[k])
    requires cover[k].start == g.end && g.end - cover[k].end < minGap
    ensures ExactFrom(MissedFrom(region, cover, minGap, k, g.start), region, cover, minGap, g.start)
       <==> HarmlessFrom(region, cover, minGap, k, g.start)
    decreases |cover| - k, 0
  {
    var rest := MissedFrom(region, cover, minGap, k + 1, cover[k].end);
    ReportsGap(region, cover, minGap, k, g);
    assert ExactFrom([g] + rest, region, cover, minGap, g.start) <==> ExactFrom(rest, region, cover, minGap, g.end) by {
      ReportsStartLater(region, cover, minGap, k + 1, cover[k].end);
      Prepend(g, rest, region, cover, minGap);
    }
    HarmlessNear(region, cover, minGap, k, g);
    EnterGap(region, cover, minGap, k, g.start, g);
    RestOfGap(region, cover, minGap, k + 1, cover[k].end, g);
  }

  /** An inverted span that starts at the end of the gap and ends near it does no harm, nor do those after it. */
  lemma HarmlessNear(region: Span, cover: seq<Span>, minGap: real, k: nat, g: Span)
    requires Separated(cover) && k < |cover| && Inverted(cover[k]) && IsGap(g, region, cover)
    requires cover[k].start == g.end && g.end - cover[k].end < minGap
    ensures HarmlessFrom(region, cover, minGap, k, g.start) <==> HarmlessFrom(region, cover, minGap, k + 1, g.end)
  {
    HarmlessSkip(region, cover, minGap, k, g.end);
    forall i, h | k <= i < |cover| && LongGap(h, region, cover, minGap) && g.start <= h.start < g.end
      ensures !Harms(cover[i], h, region, minGap)
    {
      if h != g { GapsApart(region, cover, g, h); }
      LaterIsNear(cover, k, i, g, h, region, minGap);
    }
  }

  lemma LaterIsNear(cover: seq<Span>, k: nat, i: nat, g: Span, h: Span, region: Span, minGap: real)
    requires Separated(cover) && k <= i < |cover| && (h == g || h.start >= g.end) && h.start < g.end
    requires Inverted(cover[k]) && cover[k].start == g.end && g.end - cover[k].end < minGap
    ensures !Harms(cover[i], h, region, minGap)
  {
    assert i > k ==> SpanLe(cover[k], cover[i]);
  }

  /** With the cursor back inside a gap that ends at a span, the rest of the gap is reported again. */
  lemma {:induction false} ReportedAgain(region: Span, cover: seq<Span>, minGap: real, k: nat, cursor: real, g: Span)
    requires Separated(cover) && Behind(cover, k, cursor) && IsGap(g, region, cover) && g.start < cursor < g.end < region.end
    requires (k < |cover| ==> cover[k].start >= g.end) && g.end - cursor >= minGap
    ensures Span(cursor, g.end) in MissedFrom(region, cover, minGap, k, cursor)
    decreases |cover| - k
  {
    SpanAfterGap(region, cover, k, cursor, g);
    LaterSpans(cover, k, g.end);
    if cover[k].end <= cursor {
      ReportedAgain(region, cover, minGap, k + 1, cursor, g);
    }
  }

  /** A harmful span makes the result wrong: a long gap is not reported, or something that is no gap is. */
  lemma HarmShows(region: Span, cover: seq<Span>, minGap: real, k: nat, cursor: real, g: Span)
    requires Separated(cover) && minGap > 0.0 && Behind(cover, k, cursor)
    requires k < |cover| && cursor < cover[k].end && cover[k].start < region.end
    requires LongGap(g, region, cover, minGap) && g.start == cursor && Harms(cover[k], g, region, minGap)
    ensures !ExactFrom(MissedFrom(region, cover, minGap, k, cursor), region, cover, minGap, cursor)
  {
    var w, all := cover[k], MissedFrom(region, cover, minGap, k, cursor);
    var rest := MissedFrom(region, cover, minGap, k + 1, w.end);
    assert all == GapTo(region, w, minGap, cursor) + rest;
    if w.start == g.end {
      LaterSpans(cover, k, g.end);
      ReportedAgain(region, cover, minGap, k + 1, w.end, g);
      PartOfGap(region, cover, g, Span(w.end, g.end));
      assert Span(w.end, g.end) in all;
    } else if w.start - cursor >= minGap {
      PartOfGap(region, cover, g, Span(cursor, w.start));
      assert GapTo(region, w, minGap, cursor) == [Span(cursor, w.start)];
      assert Span(cursor, w.start) in all;
    } else {
      ReportsStartLater(region, cover, minGap, k + 1, w.end);
      assert g !in all;
    }
  }

  lemma PartOfGap(region: Span, cover: seq<Span>, g: Span, h: Span)
    requires IsGap(g, region, cover) && g.start <= h.start < h.end <= g.end && h != g
    ensures !IsGap(h, region, cover)
  {
  }

  lemma ExactIsMissed(missed: seq<Span>, region: Span, cover: seq<Span>, minGap: real)
    ensures IsMissed(missed, region, cover, minGap) <==> ExactFrom(missed, region, cover, minGap, region.start)
  {
    ListsSame(missed, (g: Span) => LongGap(g, region, cover, minGap), LongFrom(region, cover, minGap, region.start));
  }

  ghost predicate Harmless(region: Span, spans: seq<Span>, minGap: real) {
    forall w, g | w in spans && LongGap(g, region, spans, minGap) :: !Harms(w, g, region, minGap)
  }

  /** In every region the scan over a separated cover reports exactly the long gaps, if and only if no inverted span harms one. */
  lemma ScanReportsTheGapsIff(region: Span, cover: seq<Span>, minGap: real)
    requires Separated(cover) && minGap > 0.0
    ensures IsMissed(MissedFrom(region, cover, minGap, 0, region.start), region, cover, minGap) <==> Harmless(region, cover, minGap)
  {
    ScanIsExactIff(region, cover, minGap, 0, region.start);
    ExactIsMissed(MissedFrom(region, cover, minGap, 0, region.start), region, cover, minGap);
    if HarmlessFrom(region, cover, minGap, 0, region.start) {
      forall w, g | w in cover && LongGap(g, region, cover, minGap) ensures !Harms(w, g, region, minGap) {
        var i :| 0 <= i < |cover| && cover[i] == w;
      }
    }
  }

  /** An instant is covered by the widened segments iff it is within `tolerance` of one (and not before zero). */
  lemma WidenedCover(segments: seq<Span>, tolerance: real, t: real)
    ensures Covered(WidenAll(segments, tolerance), t) <==>
      exists s | s in segments :: Max(0.0, s.start - tolerance) <= t <= s.end + tolerance
  {
    var widened := WidenAll(segments, tolerance);
    if Covered(widened, t) {
      var w :| w in widened && Holds(w, t);
      var i :| 0 <= i < |widened| && widened[i] == w;
      assert segments[i] in segments;
    }
    if s :| s in segments && Max(0.0, s.start - tolerance) <= t <= s.end + tolerance {
      var i :| 0 <= i < |segments| && segments[i] == s;
      assert widened[i] in widened && Holds(widened[i], t);
    }
  }

  /** The result, region by region: the long gaps between the widened segments. `None` stands for a region whose times do not parse. */
  ghost predicate IsMissedSpeech(missed: seq<Span>, regions: seq<Option<Span>>, segments: seq<Span>, tolerance: real)
    decreases |regions|
  {
    if regions == [] then missed == []
    else
      var n := |regions| - 1;
      exists k: nat | k <= |missed| ::
        && IsMissedSpeech(missed[..k], regions[..n], segments, tolerance)
        && if regions[n].None? then missed[k..] == []
           else IsMissed(missed[k..], regions[n].value, WidenAll(segments, tolerance), MISSED_SPEECH_MIN_REGION_S)
  }

  /** The sorted, merged cover of the widened segments. */
  ghost function CoverOf(segments: seq<Span>, tolerance: real): seq<Span> {
    MergedSpans(StableSort(WidenAll(segments, tolerance), SpanLe))
  }

  /** What is reported for one region. */
  ghost function MissedIn(region: Span, segments: seq<Span>, tolerance: real): seq<Span> {
    MissedFrom(region, CoverOf(segments, tolerance), MISSED_SPEECH_MIN_REGION_S, 0, region.start)
  }

  ghost predicate HarmlessIn(region: Span, segments: seq<Span>, tolerance: real) {
    Harmless(region, WidenAll(segments, tolerance), MISSED_SPEECH_MIN_REGION_S)
  }

  ghost function MissedSpans(regions: seq<Option<Span>>, segments: seq<Span>, tolerance: real): seq<Span>
    decreases |regions|
  {
    if regions == [] then []
    else
      var n := |regions| - 1;
      MissedSpans(regions[..n], segments, tolerance) +
        if regions[n].None? then []
        else MissedIn(regions[n].value, segments, tolerance)
  }

  method ComputeMissedSpeech(regions: seq<Option<Span>>, segments: seq<Span>, tolerance: real) returns (missed: seq<Span>)
    ensures missed == MissedSpans(regions, segments, tolerance)
    ensures (forall r: Span | Some(r) in regions :: HarmlessIn(r, segments, tolerance)) ==>
      IsMissedSpeech(missed, regions, segments, tolerance)
  {
    var covered := StableSort(WidenAll(segments, tolerance), SpanLe);
    var merged := MergeSpans(covered);
    missed := [];
    for i := 0 to |regions|
      invariant missed == MissedSpans(regions[..i], segments, tolerance)
    {
      assert regions[..i + 1][..i] == regions[..i];
      if regions[i].Some? {
        var found := MissedInRegion(regions[i].value, merged, MISSED_SPEECH_MIN_REGION_S);
        missed := missed + found;
      }
    }
    assert regions[..|regions|] == regions;
    if forall r: Span | Some(r) in regions :: HarmlessIn(r, segments, tolerance) {
      MissedSpansAreExact(regions, segments, tolerance);
    }
  }

  lemma CoverIsSeparated(segments: seq<Span>, tolerance: real)
    ensures IsCover(CoverOf(segments, tolerance), WidenAll(segments, tolerance))
    ensures KeepsInverted(CoverOf(segments, tolerance), WidenAll(segments, tolerance))
  {
    var widened := WidenAll(segments, tolerance);
    SortSorts(widened, SpanLe);
    SortMembers(widened, SpanLe);
    MergedSpansCover(StableSort(widened, SpanLe));
  }

  lemma InsideDoesNotHarm(w: Span, g: Span, region: Span, cover: seq<Span>, minGap: real)
    requires IsGap(g, region, cover) && StartsInside(w, cover)
    ensures !Harms(w, g, region, minGap)
  {
    var u :| u in cover && u.start < w.start <= u.end;
    var t := (Max(u.start, g.start) + w.start) / 2.0;
    if Harms(w, g, region, minGap) {
      assert Holds(u, t);
      assert Covered(cover, t);
    }
  }

  lemma HarmlessByCover(region: Span, cover: seq<Span>, spans: seq<Span>, minGap: real)
    requires IsCover(cover, spans) && KeepsInverted(cover, spans)
    ensures Harmless(region, cover, minGap) <==> Harmless(region, spans, minGap)
  {
    forall g ensures LongGap(g, region, cover, minGap) <==> LongGap(g, region, spans, minGap) {
    }
    if Harmless(region, cover, minGap) {
      forall w, g | w in spans && LongGap(g, region, spans, minGap) ensures !Harms(w, g, region, minGap) {
        assert LongGap(g, region, cover, minGap);
        if Inverted(w) && w !in cover { InsideDoesNotHarm(w, g, region, cover, minGap); }
      }
    }
  }

  /** What is reported for a region is exact if and only if no widened segment harms one of its long gaps. */
  lemma RegionIsExactIff(region: Span, segments: seq<Span>, tolerance: real)
    ensures IsMissed(MissedIn(region, segments, tolerance), region, WidenAll(segments, tolerance), 0.25)
       <==> HarmlessIn(region, segments, tolerance)
  {
    var cover, widened := CoverOf(segments, tolerance), WidenAll(segments, tolerance);
    var missed := MissedIn(region, segments, tolerance);
    CoverIsSeparated(segments, tolerance);
    ScanReportsTheGapsIff(region, cover, MISSED_SPEECH_MIN_REGION_S);
    HarmlessByCover(region, cover, widened, MISSED_SPEECH_MIN_REGION_S);
    MissedByCover(missed, region, cover, widened, MISSED_SPEECH_MIN_REGION_S);
  }

  /** Gaps depend only on which instants are covered. */
  lemma MissedByCover(missed: seq<Span>, region: Span, a: seq<Span>, b: seq<Span>, minGap: real)
    requires forall t :: Covered(a, t) <==> Covered(b, t)
    ensures IsMissed(missed, region, a, minGap) <==> IsMissed(missed, region, b, minGap)
  {
    forall g ensures LongGap(g, region, a, minGap) <==> LongGap(g, region, b, minGap) {
    }
  }

  lemma {:induction false} MissedSpansAreExact(regions: seq<Option<Span>>, segments: seq<Span>, tolerance: real)
    requires forall r: Span | Some(r) in regions :: HarmlessIn(r, segments, tolerance)
    ensures IsMissedSpeech(MissedSpans(regions, segments, tolerance), regions, segments, tolerance)
    decreases |regions|
  {
    if regions != [] {
      var n := |regions| - 1;
      MissedSpansAreExact(regions[..n], segments, tolerance);
      if regions[n].Some? {
        assert Some(regions[n].value) in regions;
        RegionIsExactIff(regions[n].value, segments, tolerance);
      }
      assert regions[..n + 1] == regions;
      OneMoreRegion(
        MissedSpans(regions[..n], segments, tolerance), MissedSpans(regions, segments, tolerance), regions, n, segments, tolerance);
    }
  }

  lemma LoneSpanMerges(w: Span)
    ensures MergedSpans(StableSort([w], SpanLe)) == [w]
  {
    assert StableSort([w], SpanLe) == [w] && [w][..0] == [];
    assert MergedSpans([]) == [];
  }

  /** It need not be: one segment from 10 s back to 0 s covers nothing, and splits the only gap into two that overlap it. */
  lemma InvertedSegmentSplitsAGap()
    ensures var region, segments := Span(0.0, 20.0), [Span(10.0, 0.0)];
      && MissedIn(region, segments, 1.0) == [Span(0.0, 9.0), Span(1.0, 20.0)]
      && !HarmlessIn(region, segments, 1.0)
  {
    var region, segments, w := Span(0.0, 20.0), [Span(10.0, 0.0)], Span(9.0, 1.0);
    assert WidenAll(segments, 1.0) == [w];
    LoneSpanMerges(w);
    OneMoreSpan([], region, [w], MISSED_SPEECH_MIN_REGION_S, 0, 0.0);
    assert MissedFrom(region, [w], MISSED_SPEECH_MIN_REGION_S, 1, 1.0) == [Span(1.0, 20.0)];
    var missed := MissedIn(region, segments, 1.0);
    assert missed[0].end > missed[1].start;
    RegionIsExactIff(region, segments, 1.0);
  }

  lemma OneMoreRegion(before: seq<Span>, missed: seq<Span>, regions: seq<Option<Span>>, i: nat, segments: seq<Span>, tolerance: real)
    requires i < |regions| && |before| <= |missed| && missed[..|before|] == before
    requires IsMissedSpeech(before, regions[..i], segments, tolerance)
    requires if regions[i].None? then missed == before
      else IsMissed(missed[|before|..], regions[i].value, WidenAll(segments, tolerance), MISSED_SPEECH_MIN_REGION_S)
    ensures IsMissedSpeech(missed, regions[..i + 1], segments, tolerance)
  {
    assert regions[..i + 1][..i] == regions[..i];
    assert IsMissedSpeech(missed[..|before|], regions[..i], segments, tolerance);
  }

  /** Where the uncovered stretch around an uncovered instant starts. */
  lemma {:induction false} GapStart(spans: seq<Span>, region: Span, t: real) returns (lo: real)
    requires !Covered(spans, t) && region.start < t
    ensures region.start <= lo < t && (lo == region.start || Covered(spans, lo)) && forall u | lo < u <= t :: !Covered(spans, u)
  {
    lo := region.start;
    if spans != [] {
      var n := |spans| - 1;
      assert spans == spans[..n] + [spans[n]];
      forall u ensures Covered(spans, u) <==> Covered(spans[..n], u) || Holds(spans[n], u) { CoveredAppend(spans[..n], spans[n], u); }
      lo := GapStart(spans[..n], region, t);
      if !Inverted(spans[n]) && lo < spans[n].end < t { lo := spans[n].end; }
    }
  }

  /** And where it ends. */
  lemma {:induction false} GapEnd(spans: seq<Span>, region: Span, t: real) returns (hi: real)
    requires !Covered(spans, t) && t < region.end
    ensures t < hi <= region.end && (hi == region.end || Covered(spans, hi)) && forall u | t <= u < hi :: !Covered(spans, u)
  {
    hi := region.end;
    if spans != [] {
      var n := |spans| - 1;
      assert spans == spans[..n] + [spans[n]];
      forall u ensures Covered(spans, u) <==> Covered(spans[..n], u) || Holds(spans[n], u) { CoveredAppend(spans[..n], spans[n], u); }
      hi := GapEnd(spans[..n], region, t);
      if !Inverted(spans[n]) && t < spans[n].start < hi { hi := spans[n].start; }
    }
  }

  /** Where the result is exact, every instant inside the region is covered, in a reported span, or in a gap too short to report. */
  lemma EveryInstantIsAccountedFor(missed: seq<Span>, region: Span, cover: seq<Span>, minGap: real, t: real)
    requires IsMissed(missed, region, cover, minGap) && region.start < t < region.end
    ensures Covered(cover, t)
      || (exists g | g in missed :: g.start < t < g.end)
      || (exists g :: IsGap(g, region, cover) && g.end - g.start < minGap && g.start < t < g.end)
  {
    if !Covered(cover, t) {
      var lo := GapStart(cover, region, t);
      var hi := GapEnd(cover, region, t);
      var g := Span(lo, hi);
      forall u | lo < u < hi ensures !Covered(cover, u) {
        if u > t { assert t <= u; }
      }
      assert IsGap(g, region, cover);
      if hi - lo >= minGap { assert LongGap(g, region, cover, minGap) && g in missed; }
    }
  }
}
