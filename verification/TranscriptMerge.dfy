/** `_merge_chunk_transcripts`: the chunks' transcripts become one, on the clock of the source. */
module TranscriptMerge {
  import opened Common
  import opened Text

  datatype TimedWord = TimedWord(text: string, start: real, end: real)
  datatype Segment = Segment(start: real, end: real, text: string, words: Option<seq<TimedWord>>)
  datatype Transcript = Transcript(text: string, segments: seq<Segment>, warnings: seq<string>)

  /** A chunk's transcript, timed from the start of the chunk, and where the chunk starts. */
  datatype Placed = Placed(transcript: Transcript, offset: real)

  /** Stands for the warning that explains an empty transcript. */
  const NO_SPEECH_WARNING := "no speech detected"

  function RoundEven(y: real): (r: int)
    ensures -0.5 <= r as real - y <= 0.5
    ensures r as real - y == 0.5 || y - r as real == 0.5 ==> r % 2 == 0
  {
    var rest := y - y.Floor as real;
    if rest < 0.5 || (rest == 0.5 && y.Floor % 2 == 0) then y.Floor else y.Floor + 1
  }

  /** To whole milliseconds, half to even. */
  function Milli(x: real): real {
    RoundEven(x * 1000.0) as real / 1000.0
  }

  lemma MilliKeepsOrder(x: real, y: real)
    ensures x <= y ==> Milli(x) <= Milli(y)
  {
    var a, b := x * 1000.0, y * 1000.0;
    if x <= y {
      assert a.Floor <= b.Floor;
      assert RoundEven(a) <= RoundEven(b);
    }
  }

  function ShiftWord(w: TimedWord, offset: real): TimedWord {
    w.(start := Milli(w.start + offset), end := Milli(w.end + offset))
  }

  function ShiftWords(words: seq<TimedWord>, offset: real): (r: seq<TimedWord>)
    ensures |r| == |words| && forall i | 0 <= i < |r| :: r[i] == ShiftWord(words[i], offset)
  {
    seq(|words|, i requires 0 <= i < |words| => ShiftWord(words[i], offset))
  }

  function ShiftSegment(s: Segment, offset: real): Segment {
    Segment(Milli(s.start + offset), Milli(s.end + offset), s.text, if s.words.None? then None else Some(ShiftWords(s.words.value, offset)))
  }

  function ShiftAll(segments: seq<Segment>, offset: real): (r: seq<Segment>)
    ensures |r| == |segments| && forall i | 0 <= i < |r| :: r[i] == ShiftSegment(segments[i], offset)
  {
    seq(|segments|, i requires 0 <= i < |segments| => ShiftSegment(segments[i], offset))
  }

  /** All segments on the source's clock, chunk by chunk. */
  function MergedSegments(results: seq<Placed>): seq<Segment> {
    if results == [] then []
    else
      var last := results[|results| - 1];
      MergedSegments(results[..|results| - 1]) + ShiftAll(last.transcript.segments, last.offset)
  }

  /** The stripped texts of the transcripts that have one. */
  function MergedTexts(results: seq<Placed>): seq<string> {
    if results == [] then []
    else
      var text := results[|results| - 1].transcript.text;
      MergedTexts(results[..|results| - 1]) + if text != "" then [Strip(text)] else []
  }

  function AddNew(seen: seq<string>, more: seq<string>): seq<string> {
    if more == [] then seen
    else
      var before := AddNew(seen, more[..|more| - 1]);
      var w := more[|more| - 1];
      before + if w in before then [] else [w]
  }

  function MergedWarnings(results: seq<Placed>): seq<string> {
    if results == [] then []
    else AddNew(MergedWarnings(results[..|results| - 1]), results[|results| - 1].transcript.warnings)
  }

  function Merge(results: seq<Placed>): Transcript {
    if results == [] then Transcript("", [], [NO_SPEECH_WARNING])
    else Transcript(Strip(Join(MergedTexts(results))), MergedSegments(results), MergedWarnings(results))
  }

  method ShiftedSegment(seg: Segment, offset: real) returns (r: Segment)
    ensures r == ShiftSegment(seg, offset)
  {
    var shiftedWords: Option<seq<TimedWord>> := None;
    if seg.words.Some? {
      var words: seq<TimedWord> := [];
      for i := 0 to |seg.words.value|
        invariant |words| == i && forall j | 0 <= j < i :: words[j] == ShiftWord(seg.words.value[j], offset)
      {
        var w := seg.words.value[i];
        words := words + [TimedWord(w.text, Milli(w.start + offset), Milli(w.end + offset))];
      }
      assert words == ShiftWords(seg.words.value, offset);
      shiftedWords := Some(words);
    }
    r := Segment(Milli(seg.start + offset), Milli(seg.end + offset), seg.text, shiftedWords);
  }

  method ShiftedSegments(segments: seq<Segment>, offset: real) returns (r: seq<Segment>)
    ensures r == ShiftAll(segments, offset)
  {
    r := [];
    for i := 0 to |segments|
      invariant |r| == i && forall j | 0 <= j < i :: r[j] == ShiftSegment(segments[j], offset)
    {
      var seg := ShiftedSegment(segments[i], offset);
      r := r + [seg];
    }
  }

  method AddWarnings(warnings: seq<string>, more: seq<string>) returns (r: seq<string>)
    ensures r == AddNew(warnings, more)
  {
    r := warnings;
    for i := 0 to |more|
      invariant r == AddNew(warnings, more[..i])
    {
      assert more[..i + 1][..i] == more[..i];
      if more[i] !in r {
        r := r + [more[i]];
      }
    }
    assert more[..|more|] == more;
  }

  method MergeChunkTranscripts(results: seq<Placed>) returns (merged: Transcript)
    ensures merged == Merge(results)
  {
    if results == [] {
      return Transcript("", [], [NO_SPEECH_WARNING]);
    }
    var allSegments: seq<Segment> := [];
    var allText: seq<string> := [];
    var allWarnings: seq<string> := [];
    for i := 0 to |results|
      invariant allSegments == MergedSegments(results[..i])
      invariant allText == MergedTexts(results[..i])
      invariant allWarnings == MergedWarnings(results[..i])
    {
      assert results[..i + 1][..i] == results[..i];
      var transcript, offset := results[i].transcript, results[i].offset;
      if transcript.text != "" { allText := allText + [Strip(transcript.text)]; }
      allWarnings := AddWarnings(allWarnings, transcript.warnings);
      var segments := ShiftedSegments(transcript.segments, offset);
      allSegments := allSegments + segments;
    }
    assert results[..|results|] == results;
    merged := Transcript(Strip(Join(allText)), allSegments, allWarnings);
  }

  // ----- What the merge keeps -----

  function TextsOf(results: seq<Placed>): (r: seq<string>)
    ensures |r| == |results| && forall i | 0 <= i < |r| :: r[i] == results[i].transcript.text
  {
    seq(|results|, i requires 0 <= i < |results| => results[i].transcript.text)
  }

  lemma {:induction false} MergedTextsKeepTokens(results: seq<Placed>)
    ensures Tokens(MergedTexts(results)) == Tokens(TextsOf(results))
  {
    if results != [] {
      var n := |results| - 1;
      var text := results[n].transcript.text;
      MergedTextsKeepTokens(results[..n]);
      assert TextsOf(results) == TextsOf(results[..n]) + [text];
      TokensConcat(TextsOf(results[..n]), [text]);
      TokensOne(text);
      if text != "" {
        TokensConcat(MergedTexts(results[..n]), [Strip(text)]);
        TokensOne(Strip(text));
        SplitStrip(text);
      } else {
        assert MergedTexts(results) == MergedTexts(results[..n]);
      }
    }
  }

  /** The merged text has the tokens of the chunks' texts, in order. */
  lemma MergeKeepsTokens(results: seq<Placed>)
    ensures Split(Merge(results).text) == Tokens(TextsOf(results))
  {
    if results != [] {
      SplitStrip(Join(MergedTexts(results)));
      SplitOfJoin(MergedTexts(results));
      MergedTextsKeepTokens(results);
    }
  }

  ghost predicate Distinct(ws: seq<string>) {
    forall i, j | 0 <= i < j < |ws| :: ws[i] != ws[j]
  }

  lemma {:induction false} AddNewKeepsDistinct(seen: seq<string>, more: seq<string>)
    requires Distinct(seen)
    ensures Distinct(AddNew(seen, more)) && forall w :: w in AddNew(seen, more) <==> w in seen || w in more
    decreases |more|
  {
    if more != [] {
      AddNewKeepsDistinct(seen, more[..|more| - 1]);
      assert more == more[..|more| - 1] + [more[|more| - 1]];
    }
  }

  /** Every warning is kept, and none twice. */
  lemma {:induction false} WarningsAreKeptOnce(results: seq<Placed>)
    ensures Distinct(MergedWarnings(results))
    ensures forall w :: w in MergedWarnings(results) <==> exists p | p in results :: w in p.transcript.warnings
  {
    if results != [] {
      var n := |results| - 1;
      WarningsAreKeptOnce(results[..n]);
      AddNewKeepsDistinct(MergedWarnings(results[..n]), results[n].transcript.warnings);
      assert results == results[..n] + [results[n]];
      forall w ensures w in MergedWarnings(results) <==> exists p | p in results :: w in p.transcript.warnings {
        if w in results[n].transcript.warnings { assert results[n] in results; }
      }
    }
  }

  predicate Whole(x: real) {
    Milli(x) == x
  }

  predicate WholeWord(w: TimedWord) {
    Whole(w.start) && Whole(w.end)
  }

  predicate WholeWords(words: seq<TimedWord>) {
    forall i | 0 <= i < |words| :: WholeWord(words[i])
  }

  /** All times of the segment and its words are whole milliseconds. */
  predicate AllWhole(s: Segment) {
    Whole(s.start) && Whole(s.end) && (s.words.Some? ==> WholeWords(s.words.value))
  }

  predicate Near(x: real, y: real) {
    y - 0.0005 <= x <= y + 0.0005
  }

  /** The same word later by the offset, give or take half a millisecond. */
  predicate MovedWord(v: TimedWord, w: TimedWord, offset: real) {
    v.text == w.text && Near(v.start, w.start + offset) && Near(v.end, w.end + offset)
  }

  predicate MovedSegment(r: Segment, s: Segment, offset: real) {
    && r.text == s.text && Near(r.start, s.start + offset) && Near(r.end, s.end + offset)
    && r.words.Some? == s.words.Some?
    && (r.words.Some? ==>
      var v, w := r.words.value, s.words.value;
      |v| == |w| && forall i | 0 <= i < |v| :: MovedWord(v[i], w[i], offset))
  }

  lemma WholeShift(t: real, offset: real)
    requires Whole(offset)
    ensures Milli(Milli(t + offset) - offset) == t <==> Whole(t)
  {
    var k, m := RoundEven((t + offset) * 1000.0), RoundEven(offset * 1000.0);
    assert Milli(t + offset) - offset == (k - m) as real / 1000.0;
    assert Milli(t + offset) - offset == Milli(Milli(t + offset) - offset) by { WholeIsFixed(k - m); }
    if Whole(t) {
      var j := RoundEven(t * 1000.0);
      assert t + offset == (j + m) as real / 1000.0;
      WholeIsFixed(j + m);
    }
  }

  lemma WholeIsFixed(k: int)
    ensures Whole(k as real / 1000.0)
  {
    assert k as real / 1000.0 * 1000.0 == k as real;
  }

  lemma WordUndone(w: TimedWord, offset: real)
    requires Whole(offset)
    ensures ShiftWord(ShiftWord(w, offset), -offset) == w <==> WholeWord(w)
  {
    WholeShift(w.start, offset);
    WholeShift(w.end, offset);
  }

  lemma WordsUndone(words: seq<TimedWord>, offset: real)
    requires Whole(offset)
    ensures ShiftWords(ShiftWords(words, offset), -offset) == words <==> WholeWords(words)
  {
    var again := ShiftWords(ShiftWords(words, offset), -offset);
    assert forall i | 0 <= i < |words| :: again[i] == ShiftWord(ShiftWord(words[i], offset), -offset);
    forall i | 0 <= i < |words| ensures again[i] == words[i] <==> WholeWord(words[i]) {
      WordUndone(words[i], offset);
    }
  }

  /** Shifting back by a whole offset recovers the segment with its words if and only if its times are whole. */
  lemma ShiftUndone(s: Segment, offset: real)
    requires Whole(offset)
    ensures ShiftSegment(ShiftSegment(s, offset), -offset) == s <==> AllWhole(s)
  {
    WholeShift(s.start, offset);
    WholeShift(s.end, offset);
    if s.words.Some? { WordsUndone(s.words.value, offset); }
  }

  lemma ShiftMoves(s: Segment, offset: real)
    ensures MovedSegment(ShiftSegment(s, offset), s, offset)
  {
  }

  /** What becomes of a segment: it moves by the offset, and shifting back recovers it if its times are whole. */
  ghost predicate Moved(r: Segment, s: Segment, offset: real) {
    MovedSegment(r, s, offset) && (Whole(offset) ==> (ShiftSegment(r, -offset) == s <==> AllWhole(s)))
  }

  ghost predicate StretchMoved(stretch: seq<Segment>, segments: seq<Segment>, offset: real) {
    |stretch| == |segments| && forall k | 0 <= k < |segments| :: Moved(stretch[k], segments[k], offset)
  }

  lemma ShiftAllMoves(segments: seq<Segment>, offset: real)
    ensures StretchMoved(ShiftAll(segments, offset), segments, offset)
  {
    forall k | 0 <= k < |segments| ensures Moved(ShiftSegment(segments[k], offset), segments[k], offset) {
      ShiftMoves(segments[k], offset);
      if Whole(offset) { ShiftUndone(segments[k], offset); }
    }
  }

  /**
   * Each chunk's segments are in the merged transcript as one stretch, later by the offset and rounded; for a whole
   * offset shifting back recovers exactly those on whole milliseconds.
   */
  lemma {:induction false} SegmentsAreRecovered(results: seq<Placed>, i: nat) returns (at: nat)
    requires i < |results|
    ensures var segments := results[i].transcript.segments; var merged := MergedSegments(results);
      at + |segments| <= |merged| && StretchMoved(merged[at..at + |segments|], segments, results[i].offset)
    decreases |results|
  {
    var n := |results| - 1;
    var before := MergedSegments(results[..n]);
    if i < n {
      at := SegmentsAreRecovered(results[..n], i);
      assert MergedSegments(results)[at..at + |results[i].transcript.segments|] == before[at..at + |results[i].transcript.segments|];
    } else {
      at := |before|;
      var segments := results[n].transcript.segments;
      assert MergedSegments(results)[at..at + |segments|] == ShiftAll(segments, results[n].offset);
      ShiftAllMoves(segments, results[n].offset);
    }
  }

  /** Warnings keep the order of their first appearance: those known stay in front, and new ones follow as they come. */
  lemma {:induction false} NewInOrder(seen: seq<string>, more: seq<string>)
    ensures seen <= AddNew(seen, more)
    ensures Distinct(seen + more) ==> AddNew(seen, more) == seen + more
    decreases |more|
  {
    if more != [] {
      var n := |more| - 1;
      NewInOrder(seen, more[..n]);
      AddNewMembers(seen, more[..n]);
      if Distinct(seen + more) {
        var all := seen + more;
        assert forall i | 0 <= i < |seen + more[..n]| :: (seen + more[..n])[i] == all[i];
        assert all[|seen| + n] == more[n];
        assert AddNew(seen, more) == seen + more[..n] + [more[n]];
        assert seen + more == seen + more[..n] + [more[n]];
      }
    }
  }

  lemma {:induction false} AddNewMembers(seen: seq<string>, more: seq<string>)
    ensures forall w :: w in AddNew(seen, more) <==> w in seen || w in more
    decreases |more|
  {
    if more != [] {
      AddNewMembers(seen, more[..|more| - 1]);
      assert more == more[..|more| - 1] + [more[|more| - 1]];
    }
  }

  lemma WarningsGrow(results: seq<Placed>, k: nat)
    requires k < |results|
    ensures MergedWarnings(results[..k]) <= MergedWarnings(results[..k + 1])
  {
    assert results[..k + 1][..k] == results[..k];
    NewInOrder(MergedWarnings(results[..k]), results[k].transcript.warnings);
  }

  lemma {:induction false} WarningsStayInFront(results: seq<Placed>, k: nat)
    requires k <= |results|
    ensures MergedWarnings(results[..k]) <= MergedWarnings(results)
    decreases |results| - k
  {
    if k < |results| {
      WarningsGrow(results, k);
      WarningsStayInFront(results, k + 1);
    } else {
      assert results[..k] == results;
    }
  }
}
