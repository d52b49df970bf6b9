/** Words are given a speaker each and cut into runs of one speaker. */
module WordSplit {
  import opened Common
  import opened Sorting
  import opened SpeakerTurns
  import opened SpeakerWindows
  import opened Text

  datatype Word = Word(text: string, start: real, end: real, confidence: Option<real>)

  /** One piece of a transcript segment. */
  datatype Part = Part(start: real, end: real, text: string, speaker: Option<string>, words: Option<seq<Word>>)

  predicate WordLe(a: Word, b: Word) {
    a.start < b.start || (a.start == b.start && a.end <= b.end)
  }

  // ----- The speaker of a word -----

  predicate IsSentenceEnding(text: string) {
    var t := RightStrip(text);
    t != "" && t[|t| - 1] in ".!?"
  }

  /** Speaker of the first turn whose closed span holds the instant. */
  ghost function StartTurnSpeaker(at: real, turns: seq<Turn>): Option<string> {
    if turns == [] then None
    else if turns[0].start <= at <= turns[0].end then Some(turns[0].speaker)
    else StartTurnSpeaker(at, turns[1..])
  }

  method FindStartTurnSpeaker(at: real, turns: seq<Turn>) returns (r: Option<string>)
    ensures r == StartTurnSpeaker(at, turns)
  {
    for i := 0 to |turns|
      invariant StartTurnSpeaker(at, turns) == StartTurnSpeaker(at, turns[i..])
    {
      if turns[i].start <= at <= turns[i].end {
        return Some(turns[i].speaker);
      }
    }
    return None;
  }

  ghost function AssignedSpeaker(word: Word, turns: seq<Turn>): Option<string> {
    if turns == [] || word.end < word.start then None
    else if word.end == word.start then NearestSpeaker(word.start, turns)
    else if IsSentenceEnding(word.text) && StartTurnSpeaker(word.start, turns).Some? then
      StartTurnSpeaker(word.start, turns)
    else if SpeakerByOverlap(word.start, word.end, turns).Some? then
      SpeakerByOverlap(word.start, word.end, turns)
    else NearestSpeaker((word.start + word.end) / 2.0, turns)
  }

  method AssignSpeakerToWord(word: Word, turns: seq<Turn>) returns (r: Option<string>)
    ensures r == AssignedSpeaker(word, turns)
  {
    if turns == [] {
      return None;
    }
    if word.end < word.start {
      return None;
    }
    if word.end == word.start {
      r := FindNearestTurnSpeaker(word.start, turns);
      return;
    }
    if IsSentenceEnding(word.text) {
      var startSpeaker := FindStartTurnSpeaker(word.start, turns);
      if startSpeaker.Some? {
        return startSpeaker;
      }
    }
    r := FindSpeakerByOverlap(word.start, word.end, turns);
    if r.Some? {
      return;
    }
    r := FindNearestTurnSpeaker((word.start + word.end) / 2.0, turns);
  }

  lemma {:induction false} StartTurnSpeakerIsATurns(at: real, turns: seq<Turn>)
    ensures var r := StartTurnSpeaker(at, turns); r.Some? ==> exists t | t in turns :: t.speaker == r.value && t.start <= at <= t.end
  {
    if turns != [] && !(turns[0].start <= at <= turns[0].end) { StartTurnSpeakerIsATurns(at, turns[1..]); }
    else if turns != [] { assert turns[0] in turns; }
  }

  /** Every well-formed word gets the speaker of some turn. */
  lemma EveryWordIsAssigned(word: Word, turns: seq<Turn>)
    requires turns != [] && word.start <= word.end
    ensures var r := AssignedSpeaker(word, turns); r.Some? && exists t | t in turns :: t.speaker == r.value
  {
    StartTurnSpeakerIsATurns(word.start, turns);
    var at := if word.start == word.end then word.start else (word.start + word.end) / 2.0;
    var near := NearestSpeaker(at, turns);
    var k: nat :| IsNearest(at, turns, k) && turns[k].speaker == near.value;
    assert turns[k] in turns;
    var best := SpeakerByOverlap(word.start, word.end, turns);
    if best.Some? {
      var j: nat :| IsBestOverlap(word.start, word.end, turns, j) && turns[j].speaker == best.value;
      assert turns[j] in turns;
    }
  }

  /** The closed spans of word and turn share an instant. */
  predicate Touches(t: Turn, word: Word) {
    t.start <= word.end && word.start <= t.end && t.start <= t.end
  }

  lemma BestOverlapTouches(word: Word, turns: seq<Turn>) returns (j: nat)
    requires SpeakerByOverlap(word.start, word.end, turns).Some? && forall t | t in turns :: t.start <= t.end
    ensures j < |turns| && Touches(turns[j], word) && SpeakerByOverlap(word.start, word.end, turns) == Some(turns[j].speaker)
  {
    var best := SpeakerByOverlap(word.start, word.end, turns);
    j :| IsBestOverlap(word.start, word.end, turns, j) && turns[j].speaker == best.value;
    assert turns[j] in turns;
  }

  lemma NearestTouches(word: Word, turns: seq<Turn>, at: real, k: nat) returns (j: nat)
    requires word.start <= word.end && at == (word.start + word.end) / 2.0
    requires k < |turns| && Touches(turns[k], word) && forall t | t in turns :: t.start <= t.end
    ensures j < |turns| && Touches(turns[j], word) && NearestSpeaker(at, turns) == Some(turns[j].speaker)
  {
    var near := NearestSpeaker(at, turns);
    j :| IsNearest(at, turns, j) && turns[j].speaker == near.value;
    assert turns[j] in turns && turns[k] in turns;
    assert Distance(at, turns[j]) <= Distance(at, turns[k]);
  }

  lemma StartTurnTouches(word: Word, turns: seq<Turn>) returns (j: nat)
    requires word.start <= word.end && StartTurnSpeaker(word.start, turns).Some?
    ensures j < |turns| && Touches(turns[j], word) && StartTurnSpeaker(word.start, turns) == Some(turns[j].speaker)
  {
    StartTurnSpeakerIsATurns(word.start, turns);
    var t :| t in turns && Some(t.speaker) == StartTurnSpeaker(word.start, turns) && t.start <= word.start <= t.end;
    j :| 0 <= j < |turns| && turns[j] == t;
  }

  /** A word that only turns of one speaker touch is that speaker's, whichever rule decides. */
  lemma UnambiguousWord(word: Word, turns: seq<Turn>, speaker: string, k: nat)
    requires word.start <= word.end && k < |turns| && Touches(turns[k], word)
    requires forall t | t in turns && Touches(t, word) :: t.speaker == speaker
    requires forall t | t in turns :: t.start <= t.end
    ensures AssignedSpeaker(word, turns) == Some(speaker)
  {
    var mid := (word.start + word.end) / 2.0;
    var j: nat;
    if word.start == word.end {
      assert mid == word.start && AssignedSpeaker(word, turns) == NearestSpeaker(word.start, turns);
      j := NearestTouches(word, turns, mid, k);
    } else if IsSentenceEnding(word.text) && StartTurnSpeaker(word.start, turns).Some? {
      j := StartTurnTouches(word, turns);
    } else if SpeakerByOverlap(word.start, word.end, turns).Some? {
      j := BestOverlapTouches(word, turns);
    } else {
      j := NearestTouches(word, turns, mid, k);
    }
    assert turns[j] in turns;
  }

  // ----- Runs of one speaker -----

  function StrippedTexts(words: seq<Word>): (r: seq<string>)
    ensures forall t | t in r :: t != ""
  {
    if words == [] then []
    else
      var t := Strip(words[|words| - 1].text);
      StrippedTexts(words[..|words| - 1]) + if t != "" then [t] else []
  }

  /** The words' texts, stripped, without blanks, joined by spaces. */
  function TextOf(words: seq<Word>): string {
    Join(StrippedTexts(words))
  }

  predicate Blank(words: seq<Word>) {
    forall w | w in words :: Strip(w.text) == ""
  }

  lemma {:induction false} TextOfBlank(words: seq<Word>)
    ensures TextOf(words) == "" <==> Blank(words)
    ensures StrippedTexts(words) == [] <==> Blank(words)
  {
    if words != [] {
      TextOfBlank(words[..|words| - 1]);
      assert words == words[..|words| - 1] + [words[|words| - 1]];
      var ts := StrippedTexts(words);
      if ts != [] { assert ts[0] in ts; }
    }
  }

  ghost predicate NonEmpty(runs: seq<seq<Word>>) {
    forall i | 0 <= i < |runs| :: runs[i] != []
  }

  /** Consecutive words of one speaker, as long as possible. */
  ghost function Runs(words: seq<Word>, who: Word -> Option<string>): (r: seq<seq<Word>>)
    ensures NonEmpty(r) && (words == [] <==> r == [])
  {
    if words == [] then []
    else AppendToRuns(Runs(words[..|words| - 1], who), words[|words| - 1], who)
  }

  ghost function AppendToRuns(runs: seq<seq<Word>>, w: Word, who: Word -> Option<string>): (r: seq<seq<Word>>)
    requires NonEmpty(runs)
    ensures NonEmpty(r) && r != []
  {
    var n := |runs| - 1;
    if n >= 0 && who(runs[n][0]) == who(w)
    then runs[..n] + [runs[n] + [w]]
    else runs + [[w]]
  }

  ghost function Flatten<T>(xss: seq<seq<T>>): seq<T> {
    if xss == [] then [] else Flatten(xss[..|xss| - 1]) + xss[|xss| - 1]
  }

  lemma FlattenSnoc<T>(xss: seq<seq<T>>, xs: seq<T>)
    ensures Flatten(xss + [xs]) == Flatten(xss) + xs
  {
    assert (xss + [xs])[..|xss|] == xss;
  }

  /** Runs lose no word. */
  lemma {:induction false} RunsKeepWords(words: seq<Word>, who: Word -> Option<string>)
    ensures Flatten(Runs(words, who)) == words
  {
    if words != [] {
      var n := |words| - 1;
      RunsKeepWords(words[..n], who);
      assert words == words[..n] + [words[n]];
    }
  }

  ghost predicate OneSpeaker(run: seq<Word>, who: Word -> Option<string>)
    requires run != []
  {
    forall k | 0 <= k < |run| :: who(run[k]) == who(run[0])
  }

  ghost predicate Maximal(runs: seq<seq<Word>>, who: Word -> Option<string>)
    requires NonEmpty(runs)
  {
    && (forall i | 0 <= i < |runs| :: OneSpeaker(runs[i], who))
    && (forall i | 0 < i < |runs| :: who(runs[i - 1][0]) != who(runs[i][0]))
  }

  lemma AppendKeepsMaximal(runs: seq<seq<Word>>, w: Word, who: Word -> Option<string>)
    requires NonEmpty(runs) && Maximal(runs, who)
    ensures Maximal(AppendToRuns(runs, w, who), who)
  {
    var n := |runs| - 1;
    var next := AppendToRuns(runs, w, who);
    if n >= 0 && who(runs[n][0]) == who(w) {
      var run := runs[n] + [w];
      assert OneSpeaker(runs[n], who) && run[0] == runs[n][0];
      forall k | 0 <= k < |run| ensures who(run[k]) == who(run[0]) {
        if k < |runs[n]| { assert run[k] == runs[n][k]; }
      }
      assert next[n] == run && forall i | 0 <= i < n :: next[i] == runs[i];
    }
  }

  /** Each run has one speaker, and no two neighbouring runs share theirs. */
  lemma {:induction false} RunsAreMaximal(words: seq<Word>, who: Word -> Option<string>)
    ensures Maximal(Runs(words, who), who)
  {
    if words != [] {
      RunsAreMaximal(words[..|words| - 1], who);
      AppendKeepsMaximal(Runs(words[..|words| - 1], who), words[|words| - 1], who);
    }
  }

  ghost function PartOf(run: seq<Word>, who: Word -> Option<string>): Part
    requires run != []
  {
    var last := run[|run| - 1];
    Part(run[0].start, Max(last.end, last.start), TextOf(run), who(run[0]), Some(run))
  }

  /** A part per run that has text. */
  ghost function PartsOf(runs: seq<seq<Word>>, who: Word -> Option<string>): (r: seq<Part>)
    requires NonEmpty(runs)
  {
    if runs == [] then []
    else
      var n := |runs| - 1;
      PartsOf(runs[..n], who) + if TextOf(runs[n]) != "" then [PartOf(runs[n], who)] else []
  }

  /** Words whose end is not before their start. */
  function Valid(words: seq<Word>): seq<Word> {
    if words == [] then []
    else
      var w := words[|words| - 1];
      Valid(words[..|words| - 1]) + if w.end < w.start then [] else [w]
  }

  /** Who says a word, given the turns. */
  ghost function Assigner(turns: seq<Turn>): Word -> Option<string> {
    w => AssignedSpeaker(w, turns)
  }

  ghost function SplitByWords(words: seq<Word>, turns: seq<Turn>): (r: seq<Part>) {
    PartsOf(Runs(Valid(StableSort(words, WordLe)), Assigner(turns)), Assigner(turns))
  }

  /** Emits the part of a finished run. */
  method CloseRun(parts: seq<Part>, run: seq<Word>, speaker: Option<string>, ghost who: Word -> Option<string>) returns (r: seq<Part>)
    requires run != [] && speaker == who(run[0])
    ensures r == parts + if TextOf(run) != "" then [PartOf(run, who)] else []
  {
    r := parts;
    var text := TextOf(run);
    if text != "" {
      var last := run[|run| - 1];
      r := parts + [Part(run[0].start, Max(last.end, last.start), text, speaker, Some(run))];
    }
  }

  /** Adds a word to the open run, closing the run first when the speaker changes. */
  method TakeWord(ghost runs: seq<seq<Word>>, ghost who: Word -> Option<string>, parts0: seq<Part>, current0: seq<Word>,
                  currentSpeaker: Option<string>, word: Word, speaker: Option<string>)
    returns (parts: seq<Part>, current: seq<Word>)
    requires NonEmpty(runs) && Grouping(runs, who, current0, currentSpeaker, parts0)
    requires speaker == who(word)
    ensures Grouping(AppendToRuns(runs, word, who), who, current, speaker, parts)
  {
    parts, current := parts0, current0;
    ghost var next, n := AppendToRuns(runs, word, who), |runs| - 1;
    if current != [] && speaker != currentSpeaker {
      parts := CloseRun(parts, current, currentSpeaker, who);
      current := [];
      assert next[..n + 1] == runs;
    } else if runs != [] {
      assert next[..n] == runs[..n] && (current + [word])[0] == current[0];
    }
    current := current + [word];
  }

  method SplitWordsBySpeaker(words: seq<Word>, turns: seq<Turn>) returns (parts: seq<Part>)
    ensures parts == SplitByWords(words, turns)
  {
    if words == [] {
      return [];
    }
    ghost var who := Assigner(turns);
    var sorted := StableSort(words, WordLe);
    parts := [];
    var currentSpeaker: Option<string> := None;
    var currentWords: seq<Word> := [];
    for i := 0 to |sorted|
      invariant Grouping(Runs(Valid(sorted[..i]), who), who, currentWords, currentSpeaker, parts)
    {
      var word := sorted[i];
      assert sorted[..i + 1][..i] == sorted[..i];
      ghost var valid := Valid(sorted[..i]);
      if word.end < word.start {
        assert Valid(sorted[..i + 1]) == valid;
        continue;
      }
      assert Valid(sorted[..i + 1]) == valid + [word] && (valid + [word])[..|valid|] == valid;
      var speaker := AssignSpeakerToWord(word, turns);
      parts, currentWords := TakeWord(Runs(valid, who), who, parts, currentWords, currentSpeaker, word, speaker);
      currentSpeaker := speaker;
    }
    assert sorted[..|sorted|] == sorted;
    if currentWords != [] {
      parts := CloseRun(parts, currentWords, currentSpeaker, who);
    }
  }

  /** The loop's state: the last run is still open, the parts of the others are out. */
  ghost predicate Grouping(runs: seq<seq<Word>>, who: Word -> Option<string>, current: seq<Word>, speaker: Option<string>, parts: seq<Part>)
    requires NonEmpty(runs)
  {
    var n := |runs| - 1;
    if runs == [] then current == [] && parts == []
    else runs[n] == current && speaker == who(current[0]) && parts == PartsOf(runs[..n], who)
  }

  // ----- Conservation -----

  ghost predicate NoneBlank(runs: seq<seq<Word>>) {
    forall i | 0 <= i < |runs| :: !Blank(runs[i])
  }

  function WordsIn(p: Part): seq<Word> {
    if p.words.Some? then p.words.value else []
  }

  /** All words of a list of parts, in order. */
  function PartWords(parts: seq<Part>): seq<Word> {
    if parts == [] then [] else PartWords(parts[..|parts| - 1]) + WordsIn(parts[|parts| - 1])
  }

  lemma {:induction false} PartWordsConcat(a: seq<Part>, b: seq<Part>)
    ensures PartWords(a + b) == PartWords(a) + PartWords(b)
    decreases |b|
  {
    if b == [] {
      assert a + b == a;
    } else {
      PartWordsConcat(a, b[..|b| - 1]);
      assert (a + b)[..|a + b| - 1] == a + b[..|b| - 1];
    }
  }

  /** Parts carry exactly the words of the runs that are not blank. */
  lemma {:induction false} PartsKeepWords(runs: seq<seq<Word>>, who: Word -> Option<string>)
    requires NonEmpty(runs)
    ensures |PartWords(PartsOf(runs, who))| <= |Flatten(runs)|
    ensures |PartWords(PartsOf(runs, who))| == |Flatten(runs)| ==> NoneBlank(runs)
    ensures NoneBlank(runs) ==> PartWords(PartsOf(runs, who)) == Flatten(runs)
  {
    if runs != [] {
      var before, run := runs[..|runs| - 1], runs[|runs| - 1];
      assert runs == before + [run] && NonEmpty(before);
      PartsKeepWords(before, who);
      PartsOneMore(before, run, who);
      FlattenSnoc(before, run);
      NoneBlankSplit(before, run);
    }
  }

  lemma PartsOfSnoc(before: seq<seq<Word>>, run: seq<Word>, who: Word -> Option<string>)
    requires NonEmpty(before) && run != []
    ensures PartsOf(before + [run], who) == PartsOf(before, who) + if TextOf(run) != "" then [PartOf(run, who)] else []
  {
    assert (before + [run])[..|before|] == before;
  }

  lemma PartsOneMore(before: seq<seq<Word>>, run: seq<Word>, who: Word -> Option<string>)
    requires NonEmpty(before) && run != []
    ensures PartWords(PartsOf(before + [run], who)) == PartWords(PartsOf(before, who)) + if Blank(run) then [] else run
  {
    TextOfBlank(run);
    PartsOfSnoc(before, run, who);
    var parts := PartsOf(before, who);
    if Blank(run) {
      assert parts + [] == parts;
    } else {
      var p := PartOf(run, who);
      PartWordsConcat(parts, [p]);
      assert WordsIn(p) == run;
    }
  }

  lemma NoneBlankSplit(before: seq<seq<Word>>, run: seq<Word>)
    ensures NoneBlank(before + [run]) <==> NoneBlank(before) && !Blank(run)
  {
    var runs := before + [run];
    assert forall i | 0 <= i < |before| :: runs[i] == before[i];
    assert runs[|before|] == run;
  }

  /** The split conserves the words exactly when no run of one speaker is made of blank words only. */
  lemma SplitConservesWords(words: seq<Word>, turns: seq<Turn>)
    ensures var sorted := Valid(StableSort(words, WordLe));
      PartWords(SplitByWords(words, turns)) == sorted <==> NoneBlank(Runs(sorted, Assigner(turns)))
    ensures (forall w | w in words :: Strip(w.text) != "") ==>
      PartWords(SplitByWords(words, turns)) == Valid(StableSort(words, WordLe))
  {
    var sorted := Valid(StableSort(words, WordLe));
    var who := Assigner(turns);
    var runs := Runs(sorted, who);
    RunsKeepWords(sorted, who);
    PartsKeepWords(runs, who);
    if forall w | w in words :: Strip(w.text) != "" {
      SortMembers(words, WordLe);
      forall i | 0 <= i < |runs| ensures !Blank(runs[i]) {
        FlattenMember(runs, i);
        ValidMembers(StableSort(words, WordLe), runs[i][0]);
        assert runs[i][0] in runs[i];
      }
    }
  }

  lemma LoneWordIsKept(w: Word)
    requires w.start <= w.end
    ensures Valid(StableSort([w], WordLe)) == [w]
  {
    assert StableSort([w], WordLe) == [w] && [w][..0] == [];
    assert Valid([]) == [];
  }

  /** The condition can fail: a blank word that makes a run of its own is lost, whatever the turns. */
  lemma BlankRunIsLost(w: Word, turns: seq<Turn>)
    requires Strip(w.text) == "" && w.start <= w.end
    ensures Valid(StableSort([w], WordLe)) == [w] && PartWords(SplitByWords([w], turns)) == []
  {
    LoneWordIsKept(w);
    var who := Assigner(turns);
    var runs := Runs([w], who);
    RunsKeepWords([w], who);
    PartsKeepWords(runs, who);
    FlattenMember(runs, 0);
    assert forall v | v in runs[0] :: v in [w];
    assert Blank(runs[0]);
  }

  lemma {:induction false} FlattenMember(xss: seq<seq<Word>>, i: nat)
    requires i < |xss|
    ensures forall x | x in xss[i] :: x in Flatten(xss)
  {
    if i < |xss| - 1 { FlattenMember(xss[..|xss| - 1], i); }
  }

  lemma {:induction false} ValidMembers(words: seq<Word>, w: Word)
    ensures w in Valid(words) <==> w in words && w.end >= w.start
    decreases |words|
  {
    if words != [] {
      ValidMembers(words[..|words| - 1], w);
      assert words == words[..|words| - 1] + [words[|words| - 1]];
    }
  }
}
