/** `VadChunker.split`: detected speech is cut and grouped into chunks of bounded length, from a resume boundary on. */
module VadChunker {
  import opened Common

  datatype AudioChunk = AudioChunk(offset: real, duration: real)

  /** Groups that end within this of the resume boundary are dropped. */
  const RESUME_SLACK_S := 0.001

  /** A span is the stretch [start, end) here: a speech segment, or the hull of a group of them. */
  predicate Holds(s: Span, t: real) {
    s.start <= t < s.end
  }

  ghost predicate In(spans: seq<Span>, t: real) {
    exists s | s in spans :: Holds(s, t)
  }

  /** Non-empty spans, one after another. */
  ghost predicate Ordered(spans: seq<Span>) {
    && (forall i | 0 <= i < |spans| :: spans[i].start < spans[i].end)
    && (forall i, j | 0 <= i < j < |spans| :: spans[i].end <= spans[j].start)
  }

  ghost predicate Capped(spans: seq<Span>, cap: real) {
    forall i | 0 <= i < |spans| :: spans[i].end - spans[i].start <= cap
  }

  function SpanOf(c: AudioChunk): Span {
    Span(c.offset, c.offset + c.duration)
  }

  function Spans(chunks: seq<AudioChunk>): (r: seq<Span>)
    ensures |r| == |chunks| && forall i | 0 <= i < |r| :: r[i] == SpanOf(chunks[i])
  {
    seq(|chunks|, i requires 0 <= i < |chunks| => SpanOf(chunks[i]))
  }

  // ----- What the split computes -----

  /** The instant `k` caps into a segment. */
  function CutAt(seg: Span, cap: real, k: nat): real {
    seg.start + cap * k as real
  }

  function PieceAt(seg: Span, cap: real, k: nat): Span {
    Span(CutAt(seg, cap, k), Min(CutAt(seg, cap, k + 1), seg.end))
  }

  function FirstPieces(seg: Span, cap: real, n: nat): (r: seq<Span>)
    ensures |r| == n && forall k | 0 <= k < n :: r[k] == PieceAt(seg, cap, k)
  {
    seq(n, k requires 0 <= k < n => PieceAt(seg, cap, k))
  }

  function Ceil(q: real): (n: int)
    ensures (n - 1) as real < q <= n as real
  {
    if q.Floor as real == q then q.Floor else q.Floor + 1
  }

  /** Number of pieces that reach the end of the segment. */
  function PieceCount(seg: Span, cap: real): (n: nat)
    requires cap > 0.0 && seg.start < seg.end
    ensures n > 0 && CutAt(seg, cap, n - 1) < seg.end <= CutAt(seg, cap, n)
  {
    CeilBounds(seg.end - seg.start, cap);
    Ceil((seg.end - seg.start) / cap)
  }

  lemma CeilBounds(length: real, cap: real)
    requires cap > 0.0 && length > 0.0
    ensures var n := Ceil(length / cap); n > 0 && cap * (n - 1) as real < length <= cap * n as real
  {
    assert cap * (length / cap) == length;
    CeilTimes(cap, length / cap, Ceil(length / cap), length);
  }

  lemma CeilTimes(cap: real, q: real, n: int, length: real)
    requires cap > 0.0 && (n - 1) as real < q <= n as real && cap * q == length > 0.0
    ensures n > 0 && cap * (n - 1) as real < length <= cap * n as real
  {
    var below, above := (n - 1) as real, n as real;
    Scaled(cap, below, q);
    Scaled(cap, q, above);
    Scaled(cap, q, 0.0);
    assert cap * below < cap * q <= cap * above;
  }

  lemma Scaled(c: real, a: real, b: real)
    requires c > 0.0
    ensures a < b ==> c * a < c * b
    ensures a <= b ==> c * a <= c * b
  {
  }

  /** A segment no longer than the cap is one piece; a longer one is cut at every multiple of the cap. */
  function CutSegment(seg: Span, cap: real): seq<Span>
    requires cap > 0.0
  {
    if seg.end - seg.start <= cap then [seg] else FirstPieces(seg, cap, PieceCount(seg, cap))
  }

  function Pieces(segments: seq<Span>, cap: real): seq<Span>
    requires cap > 0.0
  {
    if segments == [] then []
    else Pieces(segments[..|segments| - 1], cap) + CutSegment(segments[|segments| - 1], cap)
  }

  /** A piece joins the last group if both fit under the cap; a group is represented by its hull. */
  function AddPiece(groups: seq<Span>, piece: Span, cap: real): seq<Span> {
    var n := |groups| - 1;
    if n >= 0 && piece.end - groups[n].start <= cap
    then groups[..n] + [Span(groups[n].start, piece.end)]
    else groups + [piece]
  }

  function Groups(pieces: seq<Span>, cap: real): seq<Span> {
    if pieces == [] then [] else AddPiece(Groups(pieces[..|pieces| - 1], cap), pieces[|pieces| - 1], cap)
  }

  predicate Survives(group: Span, boundary: real) {
    group.end > boundary + RESUME_SLACK_S
  }

  function Clip(group: Span, boundary: real): AudioChunk {
    var start := Max(group.start, boundary);
    AudioChunk(start, group.end - start)
  }

  /** Groups that end no later than the slack after the boundary are dropped, the others clipped at the boundary. */
  function Resume(groups: seq<Span>, boundary: real): seq<AudioChunk> {
    if groups == [] then []
    else
      var group := groups[|groups| - 1];
      Resume(groups[..|groups| - 1], boundary) + if Survives(group, boundary) then [Clip(group, boundary)] else []
  }

  function GroupsOf(speech: seq<Span>, cap: real): seq<Span>
    requires cap > 0.0
  {
    Groups(Pieces(speech, cap), cap)
  }

  function Split(speech: seq<Span>, cap: real, boundary: real): seq<AudioChunk>
    requires cap > 0.0
  {
    Resume(GroupsOf(speech, cap), boundary)
  }

  // ----- The loops -----

  lemma CutStep(seg: Span, cap: real, k: nat)
    ensures CutAt(seg, cap, 0) == seg.start && CutAt(seg, cap, k + 1) == CutAt(seg, cap, k) + cap
  {
  }

  lemma CutsAdvance(seg: Span, cap: real, j: nat, k: nat)
    requires cap > 0.0 && j <= k
    ensures CutAt(seg, cap, j) <= CutAt(seg, cap, k)
  {
    Scaled(cap, j as real, k as real);
  }

  /** Cuts one over-long segment at the cap, over and over. */
  method ForceSplit(seg: Span, cap: real) returns (pieces: seq<Span>)
    requires cap > 0.0 && seg.end - seg.start > cap
    ensures pieces == CutSegment(seg, cap)
  {
    pieces := [];
    var cursor := seg.start;
    ghost var count := PieceCount(seg, cap);
    CutStep(seg, cap, 0);
    while cursor < seg.end
      invariant |pieces| <= count && pieces == FirstPieces(seg, cap, |pieces|)
      invariant cursor == Min(CutAt(seg, cap, |pieces|), seg.end)
      decreases count - |pieces|
    {
      CutStep(seg, cap, |pieces|);
      var nextEnd := Min(cursor + cap, seg.end);
      pieces := pieces + [Span(cursor, nextEnd)];
      cursor := nextEnd;
    }
    if |pieces| < count { CutsAdvance(seg, cap, |pieces|, count - 1); }
  }

  method CapSegments(segments: seq<Span>, cap: real) returns (capped: seq<Span>)
    requires cap > 0.0
    ensures capped == Pieces(segments, cap)
  {
    capped := [];
    for i := 0 to |segments|
      invariant capped == Pieces(segments[..i], cap)
    {
      assert segments[..i + 1][..i] == segments[..i];
      var seg := segments[i];
      if seg.end - seg.start <= cap {
        capped := capped + [seg];
        continue;
      }
      var pieces := ForceSplit(seg, cap);
      capped := capped + pieces;
    }
    assert segments[..|segments|] == segments;
  }

  method GroupSegments(capped: seq<Span>, cap: real) returns (groups: seq<Span>)
    ensures groups == Groups(capped, cap)
  {
    groups := [];
    var current: Option<Span> := None;
    for i := 0 to |capped|
      invariant Groups(capped[..i], cap) == groups + if current.Some? then [current.value] else []
      invariant current.None? <==> i == 0
      invariant current.None? ==> groups == []
    {
      assert capped[..i + 1][..i] == capped[..i];
      var seg := capped[i];
      if current.None? {
        current := Some(seg);
        continue;
      }
      var open := current.value;
      assert (groups + [open])[..|groups|] == groups;
      if seg.end - open.start <= cap {
        current := Some(Span(open.start, seg.end));
      } else {
        groups := groups + [open];
        current := Some(seg);
      }
    }
    assert capped[..|capped|] == capped;
    if current.Some? {
      groups := groups + [current.value];
    }
  }

  lemma ResumeSnoc(groups: seq<Span>, boundary: real, i: nat)
    requires i < |groups|
    ensures Resume(groups[..i + 1], boundary) ==
      Resume(groups[..i], boundary) + if Survives(groups[i], boundary) then [Clip(groups[i], boundary)] else []
  {
    assert groups[..i + 1][..i] == groups[..i];
  }

  /** Clips a group at the boundary, or drops it. */
  method ResumeGroup(chunks: seq<AudioChunk>, group: Span, boundary: real) returns (r: seq<AudioChunk>)
    ensures r == chunks + if Survives(group, boundary) then [Clip(group, boundary)] else []
  {
    var startS, endS := group.start, group.end;
    if endS <= boundary + RESUME_SLACK_S {
      return chunks;
    }
    if startS < boundary {
      startS := boundary;
    }
    r := chunks + [AudioChunk(startS, endS - startS)];
  }

  method SplitSpeech(segments: seq<Span>, cap: real, boundary: real) returns (chunks: seq<AudioChunk>)
    requires cap > 0.0
    ensures chunks == Split(segments, cap, boundary)
  {
    var capped := CapSegments(segments, cap);
    var groups := GroupSegments(capped, cap);
    chunks := [];
    for i := 0 to |groups|
      invariant chunks == Resume(groups[..i], boundary)
    {
      ResumeSnoc(groups, boundary, i);
      chunks := ResumeGroup(chunks, groups[i], boundary);
    }
    assert groups[..|groups|] == groups;
  }

  // ----- Pieces -----

  /** The span is one of the segment's pieces. */
  ghost predicate IsPiece(p: Span, s: Span, cap: real) {
    exists k: nat :: CutAt(s, cap, k) < s.end && p == PieceAt(s, cap, k)
  }

  ghost predicate PieceOf(p: Span, segments: seq<Span>, cap: real) {
    exists s | s in segments :: IsPiece(p, s, cap)
  }

  lemma PieceBounds(p: Span, s: Span, cap: real)
    requires cap > 0.0 && IsPiece(p, s, cap)
    ensures s.start <= p.start < p.end <= s.end && p.end - p.start <= cap
    ensures s.end - s.start <= cap ==> p == s
  {
    var k: nat :| CutAt(s, cap, k) < s.end && p == PieceAt(s, cap, k);
    CutStep(s, cap, k);
    CutsAdvance(s, cap, 0, k);
    if k > 0 { CutsAdvance(s, cap, 1, k); CutStep(s, cap, 0); }
  }

  lemma InAppend(spans: seq<Span>, s: Span, t: real)
    ensures In(spans + [s], t) <==> In(spans, t) || Holds(s, t)
  {
    if In(spans, t) {
      var u :| u in spans && Holds(u, t);
      assert u in spans + [s];
    }
    if Holds(s, t) { assert s in spans + [s]; }
  }

  lemma InConcat(a: seq<Span>, b: seq<Span>, t: real)
    ensures In(a + b, t) <==> In(a, t) || In(b, t)
  {
    if In(a, t) {
      var u :| u in a && Holds(u, t);
      assert u in a + b;
    }
    if In(b, t) {
      var u :| u in b && Holds(u, t);
      assert u in a + b;
    }
  }

  lemma OrderedAppend(spans: seq<Span>, s: Span)
    requires Ordered(spans) && s.start < s.end && (spans != [] ==> spans[|spans| - 1].end <= s.start)
    ensures Ordered(spans + [s])
  {
    var n := |spans| - 1;
    forall i | 0 <= i < |spans| ensures spans[i].end <= s.start {
      if i < n { assert spans[i].end <= spans[n].start; }
    }
  }

  lemma OrderedConcat(a: seq<Span>, b: seq<Span>)
    requires Ordered(a) && Ordered(b) && (a != [] && b != [] ==> a[|a| - 1].end <= b[0].start)
    ensures Ordered(a + b)
  {
    forall i, j | 0 <= i < |a| && 0 <= j < |b| ensures a[i].end <= b[j].start {
      if i < |a| - 1 { assert a[i].end <= a[|a| - 1].start; }
      if j > 0 { assert b[0].end <= b[j].start; }
    }
  }

  /** The segment's stretch up to the cursor is cut into these pieces. */
  ghost predicate CutTo(pieces: seq<Span>, seg: Span, cap: real, cursor: real) {
    && Ordered(pieces) && (forall p | p in pieces :: IsPiece(p, seg, cap))
    && (pieces == [] <==> cursor == seg.start)
    && (pieces != [] ==> pieces[0].start == seg.start && pieces[|pieces| - 1].end == cursor)
    && (forall t :: In(pieces, t) <==> seg.start <= t < cursor)
  }

  lemma CutOneMore(pieces: seq<Span>, seg: Span, cap: real, piece: Span)
    requires cap > 0.0 && CutTo(pieces, seg, cap, piece.start) && IsPiece(piece, seg, cap)
    ensures CutTo(pieces + [piece], seg, cap, piece.end)
  {
    PieceBounds(piece, seg, cap);
    OrderedAppend(pieces, piece);
    forall t ensures In(pieces + [piece], t) <==> seg.start <= t < piece.end {
      InAppend(pieces, piece, t);
    }
  }

  lemma {:induction false} FirstPiecesCut(seg: Span, cap: real, n: nat)
    requires cap > 0.0 && seg.start < seg.end && (n > 0 ==> CutAt(seg, cap, n - 1) < seg.end)
    ensures CutTo(FirstPieces(seg, cap, n), seg, cap, if n == 0 then seg.start else PieceAt(seg, cap, n - 1).end)
  {
    if n > 0 {
      var k := n - 1;
      if k > 0 { CutsAdvance(seg, cap, k - 1, k); }
      CutStep(seg, cap, k);
      FirstPiecesCut(seg, cap, k);
      assert IsPiece(PieceAt(seg, cap, k), seg, cap);
      CutOneMore(FirstPieces(seg, cap, k), seg, cap, PieceAt(seg, cap, k));
      assert FirstPieces(seg, cap, n) == FirstPieces(seg, cap, k) + [PieceAt(seg, cap, k)];
    }
  }

  lemma WholePiece(seg: Span, cap: real)
    requires seg.start < seg.end <= seg.start + cap
    ensures PieceAt(seg, cap, 0) == seg && FirstPieces(seg, cap, 1) == [seg]
  {
    CutStep(seg, cap, 0);
  }

  /** Cutting a segment keeps it whole as a stretch of time. */
  lemma SegmentIsCut(seg: Span, cap: real)
    requires cap > 0.0 && seg.start < seg.end
    ensures CutSegment(seg, cap) != [] && CutTo(CutSegment(seg, cap), seg, cap, seg.end)
  {
    CutStep(seg, cap, 0);
    if seg.end - seg.start <= cap {
      WholePiece(seg, cap);
      FirstPiecesCut(seg, cap, 1);
    } else {
      FirstPiecesCut(seg, cap, PieceCount(seg, cap));
    }
  }

  /** The pieces of the segments done so far. */
  ghost predicate CappedTo(capped: seq<Span>, done: seq<Span>, segments: seq<Span>, cap: real) {
    && Ordered(capped) && (forall p | p in capped :: PieceOf(p, segments, cap))
    && (forall t :: In(capped, t) <==> In(done, t))
    && (capped != [] ==> done != [] && capped[|capped| - 1].end == done[|done| - 1].end)
  }

  lemma CapOneMore(capped: seq<Span>, done: seq<Span>, segments: seq<Span>, cap: real, seg: Span, pieces: seq<Span>)
    requires CappedTo(capped, done, segments, cap) && seg in segments && (done != [] ==> done[|done| - 1].end <= seg.start)
    requires pieces != [] && CutTo(pieces, seg, cap, seg.end)
    ensures CappedTo(capped + pieces, done + [seg], segments, cap)
  {
    forall t ensures In(capped + pieces, t) <==> In(done + [seg], t) {
      InConcat(capped, pieces, t);
      InAppend(done, seg, t);
    }
    OrderedConcat(capped, pieces);
    forall p | p in capped + pieces ensures PieceOf(p, segments, cap) {
      if p !in capped { assert seg in segments && IsPiece(p, seg, cap); }
    }
  }

  lemma {:induction false} PiecesSoFar(segments: seq<Span>, cap: real, n: nat)
    requires cap > 0.0 && Ordered(segments) && n <= |segments|
    ensures CappedTo(Pieces(segments[..n], cap), segments[..n], segments, cap)
  {
    if n > 0 {
      var k := n - 1;
      PiecesSoFar(segments, cap, k);
      SegmentIsCut(segments[k], cap);
      assert segments[..n] == segments[..k] + [segments[k]] && segments[..n][..k] == segments[..k];
      assert k > 0 ==> segments[k - 1].end <= segments[k].start;
      CapOneMore(Pieces(segments[..k], cap), segments[..k], segments, cap, segments[k], CutSegment(segments[k], cap));
    }
  }

  /** The pieces are in order, each under the cap and cut from a segment, and the same instants are speech. */
  lemma PiecesHoldTheSpeech(segments: seq<Span>, cap: real)
    requires cap > 0.0 && Ordered(segments)
    ensures var pieces := Pieces(segments, cap);
      && Ordered(pieces) && Capped(pieces, cap) && (forall p | p in pieces :: PieceOf(p, segments, cap))
      && forall t :: In(pieces, t) <==> In(segments, t)
  {
    PiecesSoFar(segments, cap, |segments|);
    assert segments[..|segments|] == segments;
    var pieces := Pieces(segments, cap);
    forall i | 0 <= i < |pieces| ensures pieces[i].end - pieces[i].start <= cap {
      assert PieceOf(pieces[i], segments, cap);
      var s :| s in segments && IsPiece(pieces[i], s, cap);
      PieceBounds(pieces[i], s, cap);
    }
  }

  // ----- Groups -----

  ghost predicate StartsPiece(pieces: seq<Span>, t: real) {
    exists p | p in pieces :: p.start == t
  }

  ghost predicate EndsPiece(pieces: seq<Span>, t: real) {
    exists p | p in pieces :: p.end == t
  }

  /** The piece that starts at the instant does not fit under the cap with a group that starts at `start`. */
  ghost predicate Overflows(pieces: seq<Span>, start: real, t: real, cap: real) {
    exists p | p in pieces :: p.start == t && p.end - start > cap
  }

  /** Each group is the hull of pieces, and could not have taken the first piece of the next one. */
  ghost predicate AreGreedy(groups: seq<Span>, pieces: seq<Span>, cap: real) {
    && (forall i | 0 <= i < |groups| :: StartsPiece(pieces, groups[i].start) && EndsPiece(pieces, groups[i].end))
    && (forall i, j | 0 <= i && j == i + 1 < |groups| :: Overflows(pieces, groups[i].start, groups[j].start, cap))
  }

  /** The groups so far, once only these pieces are taken into account. */
  ghost predicate Grouping(groups: seq<Span>, done: seq<Span>, pieces: seq<Span>, cap: real) {
    && Ordered(groups) && Capped(groups, cap) && AreGreedy(groups, pieces, cap)
    && (groups == [] <==> done == []) && (done != [] ==> groups[|groups| - 1].end == done[|done| - 1].end)
    && forall t | In(done, t) :: In(groups, t)
  }

  lemma WidenLast(groups: seq<Span>, open: Span, wider: Span, cap: real)
    requires Ordered(groups + [open]) && wider.start == open.start && open.end <= wider.end
    requires Capped(groups + [open], cap) && wider.end - wider.start <= cap
    ensures Ordered(groups + [wider]) && Capped(groups + [wider], cap)
  {
    var all := groups + [open];
    forall i | 0 <= i < |groups| ensures groups[i].end - groups[i].start <= cap {
      assert all[i] == groups[i];
    }
    forall i, j | 0 <= i < j < |groups| + 1 ensures (groups + [wider])[i].end <= (groups + [wider])[j].start {
      assert all[i].end <= all[j].start;
    }
    assert all[|groups|] == open;
    forall i | 0 <= i < |groups| ensures groups[i].start < groups[i].end {
      assert all[i] == groups[i];
    }
  }

  lemma WidenGreedy(groups: seq<Span>, open: Span, wider: Span, pieces: seq<Span>, cap: real)
    requires AreGreedy(groups + [open], pieces, cap) && wider.start == open.start && EndsPiece(pieces, wider.end)
    ensures AreGreedy(groups + [wider], pieces, cap)
  {
    var all, next := groups + [open], groups + [wider];
    forall i | 0 <= i < |next| ensures StartsPiece(pieces, next[i].start) && EndsPiece(pieces, next[i].end) {
      assert StartsPiece(pieces, all[i].start);
    }
    forall i, j | 0 <= i && j == i + 1 < |next| ensures Overflows(pieces, next[i].start, next[j].start, cap) {
      assert Overflows(pieces, all[i].start, all[j].start, cap);
    }
  }

  lemma WidenGroup(groups: seq<Span>, open: Span, done: seq<Span>, piece: Span, pieces: seq<Span>, cap: real)
    requires Grouping(groups + [open], done, pieces, cap) && piece in pieces
    requires open.end <= piece.start < piece.end && piece.end - open.start <= cap
    ensures Grouping(groups + [Span(open.start, piece.end)], done + [piece], pieces, cap)
  {
    var wider := Span(open.start, piece.end);
    WidenLast(groups, open, wider, cap);
    WidenGreedy(groups, open, wider, pieces, cap);
    forall t | In(done + [piece], t) ensures In(groups + [wider], t) {
      InAppend(done, piece, t);
      InAppend(groups, open, t);
      InAppend(groups, wider, t);
      assert (groups + [open])[|groups|] == open && open.start < open.end;
    }
  }

  lemma GreedyAppend(groups: seq<Span>, open: Span, piece: Span, pieces: seq<Span>, cap: real)
    requires AreGreedy(groups + [open], pieces, cap) && piece in pieces && piece.end - open.start > cap
    ensures AreGreedy(groups + [open] + [piece], pieces, cap)
  {
    var all, next := groups + [open], groups + [open] + [piece];
    forall i | 0 <= i < |next| ensures StartsPiece(pieces, next[i].start) && EndsPiece(pieces, next[i].end) {
      if i < |all| { assert StartsPiece(pieces, all[i].start); }
    }
    forall i, j | 0 <= i && j == i + 1 < |next| ensures Overflows(pieces, next[i].start, next[j].start, cap) {
      if j < |all| { assert Overflows(pieces, all[i].start, all[j].start, cap); }
    }
  }

  lemma OpenGroup(groups: seq<Span>, open: Span, done: seq<Span>, piece: Span, pieces: seq<Span>, cap: real)
    requires Grouping(groups + [open], done, pieces, cap) && piece in pieces && piece.end - piece.start <= cap
    requires open.end <= piece.start < piece.end && piece.end - open.start > cap
    ensures Grouping(groups + [open] + [piece], done + [piece], pieces, cap)
  {
    OrderedAppend(groups + [open], piece);
    GreedyAppend(groups, open, piece, pieces, cap);
    forall t | In(done + [piece], t) ensures In(groups + [open] + [piece], t) {
      InAppend(done, piece, t);
      InAppend(groups + [open], piece, t);
    }
  }

  lemma FirstGroup(pieces: seq<Span>, cap: real)
    requires Ordered(pieces) && Capped(pieces, cap) && pieces != []
    ensures Groups(pieces[..1], cap) == [pieces[0]] && Grouping([pieces[0]], pieces[..1], pieces, cap)
  {
    assert pieces[..1] == [pieces[0]] && pieces[..1][..0] == [] && pieces[0] in pieces;
    assert Groups([], cap) == [];
  }

  lemma AddPieceGroups(groups: seq<Span>, pieces: seq<Span>, k: nat, cap: real)
    requires Ordered(pieces) && Capped(pieces, cap) && 0 < k < |pieces| && Grouping(groups, pieces[..k], pieces, cap)
    ensures Grouping(AddPiece(groups, pieces[k], cap), pieces[..k + 1], pieces, cap)
  {
    var n := |groups| - 1;
    var before, open := groups[..n], groups[n];
    assert groups == before + [open] && pieces[..k + 1] == pieces[..k] + [pieces[k]];
    assert open.end == pieces[k - 1].end <= pieces[k].start;
    if pieces[k].end - open.start <= cap {
      WidenGroup(before, open, pieces[..k], pieces[k], pieces, cap);
    } else {
      OpenGroup(before, open, pieces[..k], pieces[k], pieces, cap);
    }
  }

  lemma GroupsSnoc(pieces: seq<Span>, cap: real, k: nat)
    requires k < |pieces|
    ensures Groups(pieces[..k + 1], cap) == AddPiece(Groups(pieces[..k], cap), pieces[k], cap)
  {
    assert pieces[..k + 1][..k] == pieces[..k];
  }

  lemma {:induction false} GroupsSoFar(pieces: seq<Span>, cap: real, n: nat)
    requires Ordered(pieces) && Capped(pieces, cap) && n <= |pieces|
    ensures Grouping(Groups(pieces[..n], cap), pieces[..n], pieces, cap)
  {
    if n == 1 {
      FirstGroup(pieces, cap);
    } else if n > 1 {
      GroupsSoFar(pieces, cap, n - 1);
      AddPieceGroups(Groups(pieces[..n - 1], cap), pieces, n - 1, cap);
      GroupsSnoc(pieces, cap, n - 1);
    }
  }

  /** The groups are in order, under the cap, hold all speech, and are hulls of pieces taken greedily. */
  lemma GroupsHoldTheSpeech(speech: seq<Span>, cap: real)
    requires cap > 0.0 && Ordered(speech)
    ensures var groups := GroupsOf(speech, cap);
      && Ordered(groups) && Capped(groups, cap) && AreGreedy(groups, Pieces(speech, cap), cap)
      && forall t | In(speech, t) :: In(groups, t)
  {
    var pieces := Pieces(speech, cap);
    PiecesHoldTheSpeech(speech, cap);
    GroupsSoFar(pieces, cap, |pieces|);
    assert pieces[..|pieces|] == pieces;
  }

  /** The instant ends a segment, or lies a multiple of the cap into an over-long one. */
  ghost predicate CutOrEnd(speech: seq<Span>, cap: real, t: real) {
    exists s | s in speech :: EndsPieceOf(s, cap, t)
  }

  ghost predicate EndsPieceOf(s: Span, cap: real, t: real) {
    exists k: nat :: CutAt(s, cap, k) < s.end && t == Min(CutAt(s, cap, k + 1), s.end)
  }

  lemma GroupEdges(speech: seq<Span>, cap: real, i: nat)
    requires cap > 0.0 && Ordered(speech) && i < |GroupsOf(speech, cap)|
    ensures In(speech, GroupsOf(speech, cap)[i].start) && CutOrEnd(speech, cap, GroupsOf(speech, cap)[i].end)
  {
    var pieces, group := Pieces(speech, cap), GroupsOf(speech, cap)[i];
    GroupsHoldTheSpeech(speech, cap);
    PiecesHoldTheSpeech(speech, cap);
    assert StartsPiece(pieces, group.start) && EndsPiece(pieces, group.end);
    var p :| p in pieces && p.start == group.start;
    PieceStarts(p, speech, cap);
    var q :| q in pieces && q.end == group.end;
    PieceEnds(q, speech, cap);
  }

  lemma PieceStarts(p: Span, speech: seq<Span>, cap: real)
    requires cap > 0.0 && PieceOf(p, speech, cap)
    ensures In(speech, p.start)
  {
    var s :| s in speech && IsPiece(p, s, cap);
    PieceBounds(p, s, cap);
    assert Holds(s, p.start);
  }

  lemma PieceEnds(p: Span, speech: seq<Span>, cap: real)
    requires PieceOf(p, speech, cap)
    ensures CutOrEnd(speech, cap, p.end)
  {
    var s :| s in speech && IsPiece(p, s, cap);
    var k: nat :| CutAt(s, cap, k) < s.end && p == PieceAt(s, cap, k);
    assert EndsPieceOf(s, cap, p.end);
  }

  // ----- Resuming -----

  /** Some group that survives holds the instant. */
  ghost predicate Survived(groups: seq<Span>, boundary: real, t: real) {
    exists g | g in groups :: Survives(g, boundary) && Holds(g, t)
  }

  /** The chunks are the groups from `dropped` on, clipped; those before it are dropped. */
  ghost predicate IsRest(chunks: seq<AudioChunk>, groups: seq<Span>, boundary: real, dropped: nat) {
    && |chunks| + dropped == |groups|
    && (forall i | 0 <= i < dropped :: !Survives(groups[i], boundary))
    && (forall i | 0 <= i < |chunks| :: RestAt(chunks[i], groups, boundary, dropped + i))
  }

  predicate RestAt(c: AudioChunk, groups: seq<Span>, boundary: real, i: nat) {
    i < |groups| && Survives(groups[i], boundary) && c == Clip(groups[i], boundary)
  }

  lemma {:induction false} NothingSurvives(groups: seq<Span>, boundary: real)
    requires forall i | 0 <= i < |groups| :: !Survives(groups[i], boundary)
    ensures Resume(groups, boundary) == []
  {
    if groups != [] { NothingSurvives(groups[..|groups| - 1], boundary); }
  }

  lemma RestAppend(chunks: seq<AudioChunk>, before: seq<Span>, group: Span, boundary: real, dropped: nat)
    requires IsRest(chunks, before, boundary, dropped) && Survives(group, boundary)
    ensures IsRest(chunks + [Clip(group, boundary)], before + [group], boundary, dropped)
  {
    forall i | 0 <= i < |chunks| ensures RestAt(chunks[i], before + [group], boundary, dropped + i) {
      assert RestAt(chunks[i], before, boundary, dropped + i);
    }
  }

  lemma NoneSurviveBefore(groups: seq<Span>, n: nat, boundary: real)
    requires Ordered(groups) && n < |groups| && !Survives(groups[n], boundary)
    ensures forall i | 0 <= i <= n :: !Survives(groups[i], boundary)
  {
    forall i | 0 <= i < n ensures !Survives(groups[i], boundary) {
      assert groups[i].end <= groups[n].start < groups[n].end;
    }
  }

  /** What is dropped is a prefix of the groups. */
  lemma {:induction false} ResumeIsRest(groups: seq<Span>, boundary: real) returns (dropped: nat)
    requires Ordered(groups)
    ensures IsRest(Resume(groups, boundary), groups, boundary, dropped)
  {
    if groups == [] {
      dropped := 0;
    } else {
      var n := |groups| - 1;
      assert groups == groups[..n] + [groups[n]];
      if Survives(groups[n], boundary) {
        dropped := ResumeIsRest(groups[..n], boundary);
        RestAppend(Resume(groups[..n], boundary), groups[..n], groups[n], boundary, dropped);
      } else {
        NoneSurviveBefore(groups, n, boundary);
        NothingSurvives(groups, boundary);
        dropped := |groups|;
      }
    }
  }

  lemma ClippedSpan(group: Span, boundary: real)
    requires Survives(group, boundary) && group.start < group.end
    ensures var s := SpanOf(Clip(group, boundary));
      && s == Span(Max(group.start, boundary), group.end) && s.start < s.end
      && forall t :: Holds(s, t) <==> t >= boundary && Holds(group, t)
  {
  }

  lemma RestIsOrdered(chunks: seq<AudioChunk>, groups: seq<Span>, cap: real, boundary: real, dropped: nat)
    requires Ordered(groups) && Capped(groups, cap) && IsRest(chunks, groups, boundary, dropped)
    ensures Ordered(Spans(chunks)) && Capped(Spans(chunks), cap)
  {
    var spans := Spans(chunks);
    forall i | 0 <= i < |chunks|
      ensures spans[i] == Span(Max(groups[dropped + i].start, boundary), groups[dropped + i].end) && spans[i].start < spans[i].end
    {
      assert RestAt(chunks[i], groups, boundary, dropped + i);
      ClippedSpan(groups[dropped + i], boundary);
    }
    forall i, j | 0 <= i < j < |chunks| ensures spans[i].end <= spans[j].start {
      assert groups[dropped + i].end <= groups[dropped + j].start;
    }
  }

  lemma RestHolds(chunks: seq<AudioChunk>, groups: seq<Span>, boundary: real, dropped: nat, t: real)
    requires Ordered(groups) && IsRest(chunks, groups, boundary, dropped)
    ensures In(Spans(chunks), t) <==> t >= boundary && Survived(groups, boundary, t)
  {
    var spans := Spans(chunks);
    if In(spans, t) {
      var s :| s in spans && Holds(s, t);
      var i :| 0 <= i < |spans| && spans[i] == s;
      assert RestAt(chunks[i], groups, boundary, dropped + i);
      ClippedSpan(groups[dropped + i], boundary);
      assert groups[dropped + i] in groups;
    }
    if t >= boundary && Survived(groups, boundary, t) {
      var g :| g in groups && Survives(g, boundary) && Holds(g, t);
      var j :| 0 <= j < |groups| && groups[j] == g;
      assert j >= dropped;
      assert RestAt(chunks[j - dropped], groups, boundary, j);
      ClippedSpan(g, boundary);
      assert spans[j - dropped] in spans;
    }
  }

  ghost predicate Edges(c: AudioChunk, speech: seq<Span>, cap: real, boundary: real) {
    && (c.offset == boundary || In(speech, c.offset))
    && CutOrEnd(speech, cap, c.offset + c.duration)
  }

  /**
   * Chunks in time order, none longer than the cap and none before the boundary. They begin in speech or at the boundary
   * and end where speech ends or is cut; one that was not clipped could not have taken the first piece of the next.
   * They hold exactly what is held, from the boundary on, by the groups that survive.
   */
  ghost predicate IsSplit(chunks: seq<AudioChunk>, speech: seq<Span>, cap: real, boundary: real)
    requires cap > 0.0
  {
    && Ordered(Spans(chunks)) && Capped(Spans(chunks), cap)
    && (forall i | 0 <= i < |chunks| :: chunks[i].offset >= boundary && Edges(chunks[i], speech, cap, boundary))
    && (forall i, j | 0 <= i && j == i + 1 < |chunks| ::
      chunks[i].offset == boundary || Overflows(Pieces(speech, cap), chunks[i].offset, chunks[j].offset, cap))
    && (forall t :: In(Spans(chunks), t) <==> t >= boundary && Survived(GroupsOf(speech, cap), boundary, t))
  }

  lemma RestAreGreedy(chunks: seq<AudioChunk>, groups: seq<Span>, pieces: seq<Span>, cap: real, boundary: real, dropped: nat)
    requires Ordered(groups) && AreGreedy(groups, pieces, cap) && IsRest(chunks, groups, boundary, dropped)
    ensures forall i, j | 0 <= i && j == i + 1 < |chunks| ::
      chunks[i].offset == boundary || Overflows(pieces, chunks[i].offset, chunks[j].offset, cap)
  {
    forall i, j | 0 <= i && j == i + 1 < |chunks|
      ensures chunks[i].offset == boundary || Overflows(pieces, chunks[i].offset, chunks[j].offset, cap)
    {
      assert RestAt(chunks[i], groups, boundary, dropped + i) && RestAt(chunks[j], groups, boundary, dropped + j);
      assert Overflows(pieces, groups[dropped + i].start, groups[dropped + j].start, cap);
      assert groups[dropped + i].end <= groups[dropped + j].start;
    }
  }

  lemma SplitIsSplit(speech: seq<Span>, cap: real, boundary: real)
    requires cap > 0.0 && Ordered(speech)
    ensures IsSplit(Split(speech, cap, boundary), speech, cap, boundary)
  {
    var groups, chunks := GroupsOf(speech, cap), Split(speech, cap, boundary);
    GroupsHoldTheSpeech(speech, cap);
    var dropped := ResumeIsRest(groups, boundary);
    RestIsOrdered(chunks, groups, cap, boundary, dropped);
    RestAreGreedy(chunks, groups, Pieces(speech, cap), cap, boundary, dropped);
    forall t ensures In(Spans(chunks), t) <==> t >= boundary && Survived(groups, boundary, t) {
      RestHolds(chunks, groups, boundary, dropped, t);
    }
    forall i | 0 <= i < |chunks| ensures chunks[i].offset >= boundary && Edges(chunks[i], speech, cap, boundary) {
      RestEdges(chunks, speech, cap, boundary, dropped, i);
    }
  }

  lemma RestEdges(chunks: seq<AudioChunk>, speech: seq<Span>, cap: real, boundary: real, dropped: nat, i: nat)
    requires cap > 0.0 && Ordered(speech) && IsRest(chunks, GroupsOf(speech, cap), boundary, dropped) && i < |chunks|
    ensures chunks[i].offset >= boundary && Edges(chunks[i], speech, cap, boundary)
  {
    assert RestAt(chunks[i], GroupsOf(speech, cap), boundary, dropped + i);
    GroupEdges(speech, cap, dropped + i);
  }

  /** Speech from a millisecond after the boundary on is always held. */
  lemma SplitHoldsPastSlack(speech: seq<Span>, cap: real, boundary: real, t: real)
    requires cap > 0.0 && Ordered(speech) && In(speech, t) && t >= boundary + 0.001
    ensures In(Spans(Split(speech, cap, boundary)), t)
  {
    SplitIsSplit(speech, cap, boundary);
    GroupsHoldTheSpeech(speech, cap);
    var g :| g in GroupsOf(speech, cap) && Holds(g, t);
    assert Survives(g, boundary);
  }

  /** A group ends just past the boundary, in the slack. */
  ghost predicate Drops(speech: seq<Span>, cap: real, boundary: real)
    requires cap > 0.0
  {
    exists g | g in GroupsOf(speech, cap) :: boundary < g.end <= boundary + RESUME_SLACK_S
  }

  /** Speech from the boundary on is lost if and only if a group ends in the slack after it. */
  lemma SpeechIsLostIffDrops(speech: seq<Span>, cap: real, boundary: real)
    requires cap > 0.0 && Ordered(speech)
    ensures Drops(speech, cap, boundary) <==>
      exists t :: t >= boundary && In(speech, t) && !In(Spans(Split(speech, cap, boundary)), t)
  {
    if Drops(speech, cap, boundary) {
      var t := LostInstant(speech, cap, boundary);
    }
    if t :| t >= boundary && In(speech, t) && !In(Spans(Split(speech, cap, boundary)), t) {
      LossMeansDrop(speech, cap, boundary, t);
    }
  }

  lemma LossMeansDrop(speech: seq<Span>, cap: real, boundary: real, t: real)
    requires cap > 0.0 && Ordered(speech) && t >= boundary && In(speech, t) && !In(Spans(Split(speech, cap, boundary)), t)
    ensures Drops(speech, cap, boundary)
  {
    SplitIsSplit(speech, cap, boundary);
    GroupsHoldTheSpeech(speech, cap);
    var g :| g in GroupsOf(speech, cap) && Holds(g, t);
    assert !Survives(g, boundary);
  }

  lemma LostInstant(speech: seq<Span>, cap: real, boundary: real) returns (t: real)
    requires cap > 0.0 && Ordered(speech) && Drops(speech, cap, boundary)
    ensures t >= boundary && In(speech, t) && forall c | c in Split(speech, cap, boundary) :: t < c.offset
    ensures !In(Spans(Split(speech, cap, boundary)), t)
  {
    var groups := GroupsOf(speech, cap);
    GroupsHoldTheSpeech(speech, cap);
    var g :| g in groups && boundary < g.end <= boundary + RESUME_SLACK_S;
    var i :| 0 <= i < |groups| && groups[i] == g;
    t := LastSpeech(speech, cap, i, boundary);
    ChunksComeLater(groups, boundary, i, t);
  }

  lemma ChunksComeLater(groups: seq<Span>, boundary: real, i: nat, t: real)
    requires Ordered(groups) && i < |groups| && !Survives(groups[i], boundary) && t < groups[i].end
    ensures forall c | c in Resume(groups, boundary) :: t < c.offset
    ensures !In(Spans(Resume(groups, boundary)), t)
  {
    var chunks := Resume(groups, boundary);
    var dropped := ResumeIsRest(groups, boundary);
    assert forall j | 0 <= j < i :: groups[j].end <= groups[i].start < groups[i].end;
    forall k | 0 <= k < |chunks| ensures t < chunks[k].offset {
      var j := dropped + k;
      assert RestAt(chunks[k], groups, boundary, j);
      assert groups[i].end <= groups[j].start;
    }
  }

  /** There is speech in a group right before its end. */
  lemma LastSpeech(speech: seq<Span>, cap: real, i: nat, boundary: real) returns (t: real)
    requires cap > 0.0 && Ordered(speech) && i < |GroupsOf(speech, cap)| && GroupsOf(speech, cap)[i].end > boundary
    ensures boundary <= t < GroupsOf(speech, cap)[i].end && In(speech, t)
  {
    var pieces, group := Pieces(speech, cap), GroupsOf(speech, cap)[i];
    GroupsHoldTheSpeech(speech, cap);
    PiecesHoldTheSpeech(speech, cap);
    assert EndsPiece(pieces, group.end);
    var p :| p in pieces && p.end == group.end;
    assert p.start < p.end;
    t := Max(p.start, boundary);
    assert Holds(p, t);
    assert In(pieces, t);
  }

  /** It happens: half a millisecond of speech at the very start gives no chunk at all. */
  lemma ShortOpeningIsDropped()
    ensures var speech := [Span(0.0, 0.0005)]; Split(speech, 100.0, 0.0) == [] && In(speech, 0.0) && Drops(speech, 100.0, 0.0)
  {
    var seg := Span(0.0, 0.0005);
    assert [seg][..0] == [];
    assert Pieces([], 100.0) == [] && Pieces([seg], 100.0) == [seg];
    assert Groups([], 100.0) == [] && Groups([seg], 100.0) == [seg];
    assert Resume([], 0.0) == [] && Resume([seg], 0.0) == [];
    assert seg in [seg] && Holds(seg, 0.0);
  }
}
