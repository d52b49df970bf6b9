/** `_split_segment_by_diarization`: a transcript segment becomes one part per speaker window. */
module SegmentSplit {
  import opened Common
  import opened Sorting
  import opened SpeakerTurns
  import opened SpeakerWindows
  import opened Text
  import opened SegmentText
  import opened WordSplit
  import opened ShortSplits
  import opened WordPath
  import opened PartGroups

  const MIN_SEGMENT_WORDS := 2

  /** The speaker a window is given: its own, or the turn nearest to its middle. */
  ghost function Fill(w: Window, turns: seq<Turn>): Option<string> {
    if w.speaker.Some? then w.speaker else NearestSpeaker((w.start + w.end) / 2.0, turns)
  }

  /** Some window of `resolved` contains `w` and names the speaker that fills it. */
  ghost predicate FilledIn(w: Window, resolved: seq<Window>, turns: seq<Turn>) {
    exists r | r in resolved :: r.start <= w.start && w.end <= r.end && r.speaker == Fill(w, turns)
  }

  /** `resolved` is the coarsest tiling that names a speaker for every window. */
  ghost predicate IsResolved(resolved: seq<Window>, windows: seq<Window>, lo: real, hi: real, turns: seq<Turn>) {
    && Tiles(resolved, lo, hi) && Alternates(resolved)
    && (forall r | r in resolved :: r.speaker.Some?)
    && (forall i | 0 <= i < |windows| :: FilledIn(windows[i], resolved, turns))
  }

  /** The windows below `k` are resolved. */
  ghost predicate ResolvedTo(resolved: seq<Window>, windows: seq<Window>, k: nat, lo: real, turns: seq<Turn>)
    requires k <= |windows|
  {
    if k == 0 then resolved == [] else IsResolved(resolved, windows[..k], lo, windows[k - 1].end, turns)
  }

  lemma ResolveOneMore(resolved: seq<Window>, windows: seq<Window>, k: nat, lo: real, hi: real, turns: seq<Turn>)
    requires turns != [] && k < |windows| && Tiles(windows, lo, hi)
    requires ResolvedTo(resolved, windows, k, lo, turns)
    ensures ResolvedTo(AppendWindow(resolved, windows[k].(speaker := Fill(windows[k], turns))), windows, k + 1, lo, turns)
  {
    var w := windows[k];
    var filled := w.(speaker := Fill(w, turns));
    var next := AppendWindow(resolved, filled);
    AppendTiles(resolved, filled, lo);
    var last := next[|next| - 1];
    assert last in next && last.end == w.end && last.start <= w.start && last.speaker == filled.speaker;
    var handled := windows[..k + 1];
    forall i | 0 <= i < |handled| ensures FilledIn(handled[i], next, turns) {
      if i < k {
        assert windows[..k][i] == windows[i];
        StaysFilled(windows[i], resolved, filled, turns);
      }
    }
  }

  lemma StaysFilled(w: Window, resolved: seq<Window>, filled: Window, turns: seq<Turn>)
    requires FilledIn(w, resolved, turns) && resolved[|resolved| - 1].end <= filled.end
    ensures FilledIn(w, AppendWindow(resolved, filled), turns)
  {
    var r :| r in resolved && r.start <= w.start && w.end <= r.end && r.speaker == Fill(w, turns);
    var i :| 0 <= i < |resolved| && resolved[i] == r;
    assert AppendWindow(resolved, filled)[i] in AppendWindow(resolved, filled);
  }

  method ResolveWindows(windows: seq<Window>, turns: seq<Turn>, ghost lo: real, ghost hi: real)
    returns (resolved: seq<Window>)
    requires turns != [] && Tiles(windows, lo, hi)
    ensures IsResolved(resolved, windows, lo, hi, turns)
  {
    resolved := [];
    for k := 0 to |windows|
      invariant ResolvedTo(resolved, windows, k, lo, turns)
    {
      var w := windows[k];
      var speaker := w.speaker;
      if speaker.None? {
        speaker := FindNearestTurnSpeaker((w.start + w.end) / 2.0, turns);
      }
      assert Window(w.start, w.end, speaker) == w.(speaker := Fill(w, turns));
      ResolveOneMore(resolved, windows, k, lo, hi, turns);
      resolved := AppendTo(resolved, Window(w.start, w.end, speaker));
    }
    assert windows[..|windows|] == windows;
  }

  /** Speaker and span of each part. */
  ghost function WindowsOf(parts: seq<Part>): seq<Window> {
    seq(|parts|, i requires 0 <= i < |parts| => Window(parts[i].start, parts[i].end, parts[i].speaker))
  }

  /** The tokens are dealt out to the parts in order, to several parts by their midpoints. */
  ghost predicate TokensAreDealt(parts: seq<Part>, text: string, lo: real, hi: real, cuts: seq<nat>) {
    && IsDealt(Texts(parts), Split(text), cuts)
    && (|parts| > 1 ==> ByMidpoint(cuts, WindowsOf(parts), |Split(text)|, lo, hi))
  }

  /** The split of a segment without words: the resolved windows, with the tokens dealt out to them. */
  ghost predicate IsTextSplit(parts: seq<Part>, text: string, lo: real, hi: real, windows: seq<Window>, turns: seq<Turn>) {
    && IsResolved(WindowsOf(parts), windows, lo, hi, turns)
    && (exists cuts :: TokensAreDealt(parts, text, lo, hi, cuts))
    && (forall p | p in parts :: p.words.None?)
  }

  /** How a segment is split that `windows` encode the speakers of. */
  ghost predicate IsSplitBy(windows: seq<Window>, parts: seq<Part>, lo: real, hi: real, text: string, words: Option<seq<Word>>, turns: seq<Turn>) {
    && IsSpeakerWindows(windows, lo, hi, turns)
    && if |windows| == 1 then parts == [Part(lo, hi, text, windows[0].speaker, words)]
       else if words.Some? && SplitByWords(words.value, turns) != [] then
         parts == MergeShort(SplitByWords(words.value, turns), MIN_SEGMENT_WORDS)
       else IsTextSplit(parts, text, lo, hi, windows, turns)
  }

  /** How any segment is split, by the branch that applies. */
  ghost predicate IsSplit(parts: seq<Part>, lo: real, hi: real, text: string, words: Option<seq<Word>>, turns: seq<Turn>) {
    if turns == [] then parts == [Part(lo, hi, text, None, words)]
    else if hi <= lo then parts == [Part(lo, hi, text, SpeakerByOverlap(lo, hi, turns), words)]
    else exists windows :: IsSplitBy(windows, parts, lo, hi, text, words, turns)
  }

  method SplitSegmentByDiarization(lo: real, hi: real, text: string, words: Option<seq<Word>>, turns: seq<Turn>) returns (parts: seq<Part>)
    ensures IsSplit(parts, lo, hi, text, words, turns)
  {
    if turns == [] {
      return [Part(lo, hi, text, None, words)];
    }
    var windows := BuildSpeakerWindows(lo, hi, turns);
    if windows == [] {
      var speaker := FindSpeakerByOverlap(lo, hi, turns);
      return [Part(lo, hi, text, speaker, words)];
    }
    if |windows| == 1 {
      parts := [Part(lo, hi, text, windows[0].speaker, words)];
      assert IsSplitBy(windows, parts, lo, hi, text, words, turns);
      return;
    }
    if words.Some? && words.value != [] {
      var split := SplitWordsBySpeaker(words.value, turns);
      if split != [] {
        parts := MergeShortSplits(split, MIN_SEGMENT_WORDS);
        assert IsSplitBy(windows, parts, lo, hi, text, words, turns);
        return;
      }
    }
    parts := SplitWithoutWords(lo, hi, text, turns, windows);
    assert IsSplitBy(windows, parts, lo, hi, text, words, turns);
  }

  method SplitWithoutWords(lo: real, hi: real, text: string, turns: seq<Turn>, windows: seq<Window>) returns (parts: seq<Part>)
    requires turns != [] && Tiles(windows, lo, hi)
    ensures IsTextSplit(parts, text, lo, hi, windows, turns)
  {
    var resolved := ResolveWindows(windows, turns, lo, hi);
    var texts, cuts := SplitTextAcrossWindows(text, lo, hi, resolved);
    parts := [];
    for i := 0 to |resolved|
      invariant |parts| == i
      invariant forall j | 0 <= j < i :: parts[j] == Part(resolved[j].start, resolved[j].end, texts[j], resolved[j].speaker, None)
    {
      parts := parts + [Part(resolved[i].start, resolved[i].end, texts[i], resolved[i].speaker, None)];
    }
    assert WindowsOf(parts) == resolved && Texts(parts) == texts;
    assert TokensAreDealt(parts, text, lo, hi, cuts);
  }

  /** The split without words is a lossless partition of the segment between known, alternating speakers. */
  lemma TextSplitIsLossless(parts: seq<Part>, text: string, lo: real, hi: real, windows: seq<Window>, turns: seq<Turn>)
    requires IsTextSplit(parts, text, lo, hi, windows, turns)
    ensures Tiles(WindowsOf(parts), lo, hi) && Alternates(WindowsOf(parts))
    ensures forall p | p in parts :: p.speaker.Some?
    ensures PartTokens(parts) == Split(text)
  {
    var ws, texts := WindowsOf(parts), Texts(parts);
    forall p | p in parts ensures p.speaker.Some? {
      var i :| 0 <= i < |parts| && parts[i] == p;
      assert ws[i] in ws;
    }
    var cuts :| TokensAreDealt(parts, text, lo, hi, cuts);
    DealtTokens(texts, Split(text), cuts, |texts|);
    assert texts[..|texts|] == texts && Split(text)[..|Split(text)|] == Split(text);
  }

  /** Where a turn covers an instant, the part holding that instant speaks for the first such turn. */
  lemma TextSplitSpeaksAsTurns(parts: seq<Part>, text: string, lo: real, hi: real, windows: seq<Window>, turns: seq<Turn>,
                               x: real, k: nat)
    requires IsTextSplit(parts, text, lo, hi, windows, turns) && IsSpeakerWindows(windows, lo, hi, turns)
    requires k < |parts| && parts[k].start <= x < parts[k].end && SpeakerAt(turns, x).Some?
    ensures parts[k].speaker == SpeakerAt(turns, x)
  {
    var ws := WindowsOf(parts);
    TilesAdvance(ws, lo, hi, k);
    var i := WindowHolding(windows, lo, hi, x);
    assert windows[i] in windows && windows[i].speaker == SpeakerAt(turns, x);
    PartFillsWindow(ws, windows, lo, hi, turns, x, k, i);
  }

  lemma {:induction false} WindowHolding(ws: seq<Window>, lo: real, hi: real, x: real) returns (i: nat)
    requires Tiles(ws, lo, hi) && lo <= x < hi
    ensures i < |ws| && ws[i].start <= x < ws[i].end
    decreases |ws|
  {
    if x < ws[0].end {
      i := 0;
    } else {
      i := WindowHolding(ws[1..], ws[0].end, hi, x);
      i := i + 1;
    }
  }

  lemma {:induction false} WindowsInOrder(ws: seq<Window>, lo: real, hi: real, j: nat, k: nat)
    requires Tiles(ws, lo, hi) && j < k < |ws|
    ensures ws[j].end <= ws[k].start
    decreases k
  {
    if j + 1 < k { WindowsInOrder(ws, lo, hi, j, k - 1); }
  }

  lemma OneHolder(ws: seq<Window>, lo: real, hi: real, j: nat, k: nat, x: real)
    requires Tiles(ws, lo, hi) && j < |ws| && k < |ws|
    requires ws[j].start <= x < ws[j].end && ws[k].start <= x < ws[k].end
    ensures j == k
  {
    if j < k { WindowsInOrder(ws, lo, hi, j, k); }
    if k < j { WindowsInOrder(ws, lo, hi, k, j); }
  }

  /**
   * Splitting by words and absorbing short parts keeps all tokens in time order, and all words exactly if no run of one
   * speaker is blank. The parts are in time order, and one is left or all have enough words.
   */
  lemma WordSplitIsLossless(words: seq<Word>, turns: seq<Turn>)
    ensures var sorted := Valid(StableSort(words, WordLe));
      var parts := MergeShort(SplitByWords(words, turns), MIN_SEGMENT_WORDS);
      && (PartWords(parts) == sorted <==> NoneBlank(Runs(sorted, Assigner(turns))))
      && PartTokens(parts) == Tokens(WordTexts(sorted))
      && AllTimed(parts) && (|parts| <= 1 || forall p | p in parts :: WordCount(p) >= MIN_SEGMENT_WORDS)
  {
    SplitConservesWords(words, turns);
    WordSplitKeepsTokens(words, turns);
    WordSplitIsTimed(words, turns);
    MergeShortKeeps(SplitByWords(words, turns), MIN_SEGMENT_WORDS);
    MergeShortEnds(SplitByWords(words, turns), MIN_SEGMENT_WORDS);
    MergeShortKeepsTimes(SplitByWords(words, turns), MIN_SEGMENT_WORDS);
  }

  lemma PartFillsWindow(ws: seq<Window>, windows: seq<Window>, lo: real, hi: real, turns: seq<Turn>, x: real, k: nat, i: nat)
    requires IsResolved(ws, windows, lo, hi, turns) && i < |windows| && windows[i].start <= x < windows[i].end
    requires k < |ws| && ws[k].start <= x < ws[k].end
    ensures ws[k].speaker == Fill(windows[i], turns)
  {
    var w := windows[i];
    assert FilledIn(w, ws, turns);
    var r :| r in ws && r.start <= w.start && w.end <= r.end && r.speaker == Fill(w, turns);
    var m :| 0 <= m < |ws| && ws[m] == r;
    OneHolder(ws, lo, hi, m, k, x);
  }

  /** In a window that no turn covers the part speaks for the first turn nearest to the middle of that window. */
  lemma TextSplitFillsByNearest(parts: seq<Part>, text: string, lo: real, hi: real, windows: seq<Window>, turns: seq<Turn>,
                                x: real, k: nat, i: nat, j: nat)
    requires IsTextSplit(parts, text, lo, hi, windows, turns) && IsSpeakerWindows(windows, lo, hi, turns)
    requires i < |windows| && windows[i].speaker == None && windows[i].start <= x < windows[i].end
    requires IsNearest((windows[i].start + windows[i].end) / 2.0, turns, j)
    requires k < |parts| && parts[k].start <= x < parts[k].end
    ensures parts[k].speaker == Some(turns[j].speaker)
  {
    var at := (windows[i].start + windows[i].end) / 2.0;
    PartFillsWindow(WindowsOf(parts), windows, lo, hi, turns, x, k, i);
    NearestSpeakerIsUnique(at, turns, NearestSpeaker(at, turns), Some(turns[j].speaker));
  }

  /** Such a window is a longest stretch of the segment that no turn covers. */
  lemma UnfilledWindowIsAGap(windows: seq<Window>, lo: real, hi: real, turns: seq<Turn>, i: nat)
    requires IsSpeakerWindows(windows, lo, hi, turns) && i < |windows| && windows[i].speaker == None
    ensures forall x | windows[i].start <= x < windows[i].end :: SpeakerAt(turns, x) == None
    ensures i > 0 ==> windows[i - 1].start < windows[i].start
    ensures i > 0 ==> forall y | windows[i - 1].start <= y < windows[i].start :: SpeakerAt(turns, y) != None
    ensures i + 1 < |windows| ==> SpeakerAt(turns, windows[i].end) != None
  {
    assert windows[i] in windows;
    if i > 0 {
      var before := windows[i - 1];
      assert before in windows && before.speaker != windows[i].speaker && before.end == windows[i].start;
    }
    if i + 1 < |windows| {
      var after := windows[i + 1];
      assert after in windows && windows[i].speaker != after.speaker && windows[i].end == after.start < after.end;
    }
  }

  /** With several parts, token `i` of `n` is in the part that holds the point (2i + 1) / 2n of the way through the segment. */
  lemma TokensGoByPosition(parts: seq<Part>, text: string, lo: real, hi: real, cuts: seq<nat>, j: nat, i: nat)
    requires |parts| > 1 && TokensAreDealt(parts, text, lo, hi, cuts) && InShare(cuts, j, i)
    ensures j < |parts| && i < |Split(text)| && HoldsPosition(lo, hi, i, |Split(text)|, parts[j].start, parts[j].end)
  {
    var n, ws := |Split(text)|, WindowsOf(parts);
    assert i < n && ws[j].start <= Midpoint(lo, hi, i, n) < ws[j].end;
    MidpointHoldsPosition(lo, hi, i, n, parts[j].start, parts[j].end);
  }

  /** A run of at least two words of one speaker that the split makes keeps its speaker through the absorption. */
  lemma TwoWordsKeepTheirSpeaker(words: seq<Word>, turns: seq<Turn>, j: nat) returns (p: Part, before: seq<Word>, after: seq<Word>)
    requires j < |SplitByWords(words, turns)| && |WordsIn(SplitByWords(words, turns)[j])| >= 2
    ensures var run := SplitByWords(words, turns)[j];
      && p in MergeShort(SplitByWords(words, turns), MIN_SEGMENT_WORDS)
      && p.speaker == run.speaker && WordsIn(p) == before + WordsIn(run) + after
  {
    WordSplitIsWorded(words, turns);
    p, before, after := LongPartKeepsItsSpeaker(SplitByWords(words, turns), MIN_SEGMENT_WORDS, j);
  }

  /** A segment throughout which the same speaker is heard first, or nobody is, stays whole. */
  lemma UndividedSegmentStaysWhole(parts: seq<Part>, lo: real, hi: real, text: string, words: Option<seq<Word>>, turns: seq<Turn>, who: Option<string>)
    requires IsSplit(parts, lo, hi, text, words, turns) && lo < hi && forall x | lo <= x < hi :: SpeakerAt(turns, x) == who
    ensures parts == [Part(lo, hi, text, if turns == [] then None else who, words)]
  {
    if turns != [] {
      var windows :| IsSplitBy(windows, parts, lo, hi, text, words, turns);
      var whole := [Window(lo, hi, who)];
      assert IsSpeakerWindows(whole, lo, hi, turns);
      SpeakerWindowsAreUnique(windows, whole, lo, hi, turns);
    }
  }

  /** One in which that changes is split: by its words, if that yields a part, and by its text otherwise. */
  lemma DividedSegmentIsSplit(parts: seq<Part>, lo: real, hi: real, text: string, words: Option<seq<Word>>, turns: seq<Turn>, x: real, y: real)
    requires IsSplit(parts, lo, hi, text, words, turns) && lo <= x < hi && lo <= y < hi && SpeakerAt(turns, x) != SpeakerAt(turns, y)
    ensures words.Some? && SplitByWords(words.value, turns) != [] ==> parts == MergeShort(SplitByWords(words.value, turns), MIN_SEGMENT_WORDS)
    ensures words.None? || SplitByWords(words.value, turns) == [] ==>
      exists windows :: IsSpeakerWindows(windows, lo, hi, turns) && IsTextSplit(parts, text, lo, hi, windows, turns)
  {
    var windows :| IsSplitBy(windows, parts, lo, hi, text, words, turns);
    if |windows| == 1 { OneWindowIsOneSpeaker(windows, lo, hi, turns); }
  }

  lemma OneWindowIsOneSpeaker(windows: seq<Window>, lo: real, hi: real, turns: seq<Turn>)
    requires IsSpeakerWindows(windows, lo, hi, turns) && |windows| == 1
    ensures forall x | lo <= x < hi :: SpeakerAt(turns, x) == windows[0].speaker
  {
    assert windows[0] in windows;
  }
}
