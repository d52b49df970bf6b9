/** The backoff over the VAD chunker: when a normal return has transcribed all detected speech. */
module VadBackoff {
  import opened Common
  import opened OomBackoff
  import opened VadChunker

  /** The chunker of one audio file with this speech. */
  function ChunkerOf(speech: seq<Span>): Splitter {
    (cap: real, boundary: real) => if cap > 0.0 then Split(speech, cap, boundary) else []
  }

  lemma ChunkerFitsAt(speech: seq<Span>, cap: real, boundary: real)
    requires cap > 0.0 && Ordered(speech)
    ensures FitsAt(ChunkerOf(speech), speech, cap, boundary)
  {
    SplitIsSplit(speech, cap, boundary);
    forall t | In(speech, t) && t >= boundary + RESUME_SLACK_S ensures In(Spans(Split(speech, cap, boundary)), t) {
      SplitHoldsPastSlack(speech, cap, boundary, t);
    }
  }

  /** The chunker keeps the promises the backoff relies on. */
  lemma ChunkerFits(speech: seq<Span>)
    requires Ordered(speech)
    ensures Fits(ChunkerOf(speech), speech)
  {
    forall cap, boundary | cap > 0.0 ensures FitsAt(ChunkerOf(speech), speech, cap, boundary) {
      ChunkerFitsAt(speech, cap, boundary);
    }
  }

  /** A group ends in the slack after the boundary that the last pass of the path resumes from. */
  ghost predicate DropsAtEnd(speech: seq<Span>, maxChunk: real, bs: seq<real>)
    requires maxChunk > 0.0 && bs != []
  {
    Drops(speech, CapAt(maxChunk, |bs| - 1), bs[|bs| - 1])
  }

  /** No pass can find such a group: a condition on the speech and the cap alone, over paths of bounded length (`PathsAreShort`). */
  ghost predicate NeverDrops(split: Splitter, speech: seq<Span>, maxChunk: real)
    requires maxChunk > 0.0
  {
    forall bs | IsPath(split, maxChunk, bs) :: !DropsAtEnd(speech, maxChunk, bs)
  }

  ghost predicate LosesIffDrops(split: Splitter, speech: seq<Span>) {
    forall cap, boundary | cap > 0.0 :: Loses(split, speech, cap, boundary) <==> Drops(speech, cap, boundary)
  }

  lemma ChunkerLosesIffDrops(speech: seq<Span>)
    requires Ordered(speech)
    ensures LosesIffDrops(ChunkerOf(speech), speech)
  {
    forall cap, boundary | cap > 0.0 ensures Loses(ChunkerOf(speech), speech, cap, boundary) <==> Drops(speech, cap, boundary) {
      SpeechIsLostIffDrops(speech, cap, boundary);
    }
  }

  lemma NeverLosesIffNeverDrops(split: Splitter, speech: seq<Span>, maxChunk: real)
    requires maxChunk > 0.0 && LosesIffDrops(split, speech)
    ensures NeverLoses(split, speech, maxChunk) <==> NeverDrops(split, speech, maxChunk)
  {
    forall bs | IsPath(split, maxChunk, bs)
      ensures LosesAtEnd(split, speech, maxChunk, bs) <==> DropsAtEnd(speech, maxChunk, bs)
    {
      assert Loses(split, speech, CapAt(maxChunk, |bs| - 1), bs[|bs| - 1]) <==> Drops(speech, CapAt(maxChunk, |bs| - 1), bs[|bs| - 1]);
    }
  }

  /** Every normal return has transcribed all detected speech if and only if no pass can find a group that ends in its slack. */
  lemma LosslessIffNeverDrops(speech: seq<Span>, maxChunk: real)
    requires maxChunk > 0.0 && Ordered(speech)
    ensures Lossless(ChunkerOf(speech), speech, maxChunk) <==> NeverDrops(ChunkerOf(speech), speech, maxChunk)
  {
    ChunkerFits(speech);
    ChunkerLosesIffDrops(speech);
    LosslessIffNeverLoses(ChunkerOf(speech), speech, maxChunk);
    NeverLosesIffNeverDrops(ChunkerOf(speech), speech, maxChunk);
  }

  // ----- Ordinary speech loses nothing -----

  /** Segments from time zero on, longer than the slack, and never cut because they fit under every cap. */
  ghost predicate Ordinary(speech: seq<Span>, maxChunk: real) {
    forall s | s in speech :: s.start >= 0.0 && RESUME_SLACK_S < s.end - s.start <= Min(maxChunk, MIN_CHUNK_FLOOR_S)
  }

  lemma {:induction false} CapsStayAbove(maxChunk: real, n: nat)
    requires maxChunk > 0.0
    ensures CapAt(maxChunk, n) >= Min(maxChunk, MIN_CHUNK_FLOOR_S)
  {
    if n > 0 { CapsStayAbove(maxChunk, n - 1); }
  }

  lemma {:induction false} NothingIsCut(speech: seq<Span>, cap: real)
    requires cap > 0.0 && forall s | s in speech :: s.end - s.start <= cap
    ensures Pieces(speech, cap) == speech
  {
    if speech != [] {
      var n := |speech| - 1;
      NothingIsCut(speech[..n], cap);
      assert speech == speech[..n] + [speech[n]];
    }
  }

  ghost predicate StartsSegment(speech: seq<Span>, b: real) {
    b == 0.0 || exists s | s in speech :: s.start == b
  }

  lemma ChunkStartsSegment(speech: seq<Span>, cap: real, start: real, b: real)
    requires cap > 0.0 && Ordered(speech) && Pieces(speech, cap) == speech && Offset(Split(speech, cap, start), b)
    requires StartsSegment(speech, start)
    ensures StartsSegment(speech, b)
  {
    var groups, chunks := GroupsOf(speech, cap), Split(speech, cap, start);
    GroupsHoldTheSpeech(speech, cap);
    var dropped := ResumeIsRest(groups, start);
    var c :| c in chunks && c.offset == b;
    var i :| 0 <= i < |chunks| && chunks[i] == c;
    assert RestAt(chunks[i], groups, start, dropped + i);
    assert StartsPiece(speech, groups[dropped + i].start);
  }

  /** Resuming from time zero or a segment's start, a pass makes chunks that start there or at segments' starts again. */
  ghost predicate KeepsToSegments(split: Splitter, speech: seq<Span>, maxChunk: real) {
    forall cap, start, b | cap >= Min(maxChunk, MIN_CHUNK_FLOOR_S) && StartsSegment(speech, start) && Offset(split(cap, start), b) ::
      StartsSegment(speech, b)
  }

  lemma ChunkerKeepsToSegments(speech: seq<Span>, maxChunk: real)
    requires maxChunk > 0.0 && Ordered(speech) && Ordinary(speech, maxChunk)
    ensures KeepsToSegments(ChunkerOf(speech), speech, maxChunk)
  {
    forall cap, start, b |
      cap >= Min(maxChunk, MIN_CHUNK_FLOOR_S) && StartsSegment(speech, start) && Offset(ChunkerOf(speech)(cap, start), b)
      ensures StartsSegment(speech, b)
    {
      NothingIsCut(speech, cap);
      ChunkStartsSegment(speech, cap, start, b);
    }
  }

  lemma {:induction false} PathsResumeAtSegments(split: Splitter, speech: seq<Span>, maxChunk: real, bs: seq<real>)
    requires maxChunk > 0.0 && KeepsToSegments(split, speech, maxChunk) && IsPath(split, maxChunk, bs)
    ensures StartsSegment(speech, bs[|bs| - 1])
    decreases |bs|
  {
    var n := |bs| - 1;
    if n > 0 {
      PathsResumeAtSegments(split, speech, maxChunk, bs[..n]);
      CapsStayAbove(maxChunk, n - 1);
      assert Continues(split, maxChunk, bs, n);
    }
  }

  lemma SegmentClearsBoundary(speech: seq<Span>, s: Span, b: real)
    requires Ordered(speech) && s in speech && s.start >= 0.0 && s.end - s.start > RESUME_SLACK_S && StartsSegment(speech, b)
    ensures !(b < s.end <= b + RESUME_SLACK_S)
  {
    if b != 0.0 {
      var u :| u in speech && u.start == b;
      var i :| 0 <= i < |speech| && speech[i] == s;
      var j :| 0 <= j < |speech| && speech[j] == u;
      assert i < j ==> speech[i].end <= speech[j].start;
      assert j < i ==> speech[j].end <= speech[i].start;
    }
  }

  lemma NoGroupEndsThere(speech: seq<Span>, maxChunk: real, cap: real, b: real)
    requires cap > 0.0 && Ordered(speech) && Ordinary(speech, maxChunk) && Pieces(speech, cap) == speech && StartsSegment(speech, b)
    ensures !Drops(speech, cap, b)
  {
    GroupsHoldTheSpeech(speech, cap);
    var groups := GroupsOf(speech, cap);
    forall g | g in groups ensures !(b < g.end <= b + RESUME_SLACK_S) {
      var i :| 0 <= i < |groups| && groups[i] == g;
      assert EndsPiece(speech, groups[i].end);
      var s :| s in speech && s.end == g.end;
      SegmentClearsBoundary(speech, s, b);
    }
  }

  lemma OrdinaryNeverDrops(split: Splitter, speech: seq<Span>, maxChunk: real)
    requires maxChunk > 0.0 && Ordered(speech) && Ordinary(speech, maxChunk) && KeepsToSegments(split, speech, maxChunk)
    ensures NeverDrops(split, speech, maxChunk)
  {
    forall bs | IsPath(split, maxChunk, bs) ensures !DropsAtEnd(speech, maxChunk, bs) {
      PathsResumeAtSegments(split, speech, maxChunk, bs);
      CapsStayAbove(maxChunk, |bs| - 1);
      NothingIsCut(speech, CapAt(maxChunk, |bs| - 1));
      NoGroupEndsThere(speech, maxChunk, CapAt(maxChunk, |bs| - 1), bs[|bs| - 1]);
    }
  }

  /** Such speech is transcribed in full on every normal return. */
  lemma OrdinarySpeechIsLossless(speech: seq<Span>, maxChunk: real)
    requires maxChunk > 0.0 && Ordered(speech) && Ordinary(speech, maxChunk)
    ensures Lossless(ChunkerOf(speech), speech, maxChunk)
  {
    ChunkerKeepsToSegments(speech, maxChunk);
    OrdinaryNeverDrops(ChunkerOf(speech), speech, maxChunk);
    LosslessIffNeverDrops(speech, maxChunk);
  }

  /** If already the first pass drops a group, some run returns normally without it. */
  lemma FirstPassCanLose(speech: seq<Span>, maxChunk: real)
    requires maxChunk > 0.0 && Ordered(speech) && Drops(speech, maxChunk, 0.0)
    ensures !Lossless(ChunkerOf(speech), speech, maxChunk)
  {
    assert IsPath(ChunkerOf(speech), maxChunk, [0.0]) && DropsAtEnd(speech, maxChunk, [0.0]);
    LosslessIffNeverDrops(speech, maxChunk);
  }

  /** It can happen: half a millisecond of speech at the start is detected and never transcribed. */
  lemma ShortOpeningIsLost()
    ensures var speech := [Span(0.0, 0.0005)]; Ordered(speech) && !Lossless(ChunkerOf(speech), speech, 100.0)
  {
    ShortOpeningIsDropped();
    FirstPassCanLose([Span(0.0, 0.0005)], 100.0);
  }
}
