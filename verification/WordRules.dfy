/** Which rule gives a word its speaker, said of the turns and not of the rules; and whose parts the split makes. */
module WordRules {
  import opened Common
  import opened Sorting
  import opened SpeakerTurns
  import opened SpeakerWindows
  import opened Text
  import opened WordSplit
  import opened WordPath

  /** The last character that is not white space is a full stop, an exclamation mark or a question mark. */
  ghost predicate EndsSentence(text: string) {
    exists i | 0 <= i < |text| :: IsLastMark(text, i)
  }

  ghost predicate IsLastMark(text: string, i: nat)
    requires i < |text|
  {
    (text[i] == '.' || text[i] == '!' || text[i] == '?') && forall j | i < j < |text| :: IsSpace(text[j])
  }

  lemma SentenceEndIsLastMark(text: string)
    ensures IsSentenceEnding(text) <==> EndsSentence(text)
  {
    var t := RightStrip(text);
    RightStripTrims(text);
    if IsSentenceEnding(text) { assert IsLastMark(text, |t| - 1); }
    if i :| 0 <= i < |text| && IsLastMark(text, i) {
      assert !IsSpace(text[i]);
      assert i == |t| - 1;
    }
  }

  /** The turn's closed span holds the start of the word. */
  predicate HoldsStart(t: Turn, word: Word) {
    t.start <= word.start <= t.end
  }

  lemma {:induction false} FirstStartTurn(word: Word, turns: seq<Turn>, k: nat)
    requires k < |turns| && HoldsStart(turns[k], word) && forall i | 0 <= i < k :: !HoldsStart(turns[i], word)
    ensures StartTurnSpeaker(word.start, turns) == Some(turns[k].speaker)
  {
    if k > 0 {
      assert turns[1..][k - 1] == turns[k];
      assert !HoldsStart(turns[0], word);
      FirstStartTurn(word, turns[1..], k - 1);
    }
  }

  lemma {:induction false} NoStartTurn(word: Word, turns: seq<Turn>)
    requires forall t | t in turns :: !HoldsStart(t, word)
    ensures StartTurnSpeaker(word.start, turns) == None
  {
    if turns != [] {
      assert turns[0] in turns;
      NoStartTurn(word, turns[1..]);
    }
  }

  lemma BestOverlapDecides(lo: real, hi: real, turns: seq<Turn>, k: nat)
    requires IsBestOverlap(lo, hi, turns, k)
    ensures SpeakerByOverlap(lo, hi, turns) == Some(turns[k].speaker)
  {
    var r := SpeakerByOverlap(lo, hi, turns);
    if r.Some? {
      var j: nat :| IsBestOverlap(lo, hi, turns, j) && turns[j].speaker == r.value;
    }
  }

  lemma NoOverlap(lo: real, hi: real, turns: seq<Turn>)
    requires forall i | 0 <= i < |turns| :: OverlapWith(lo, hi, turns[i]) == 0.0
    ensures SpeakerByOverlap(lo, hi, turns) == None
  {
  }

  lemma NearestDecides(at: real, turns: seq<Turn>, k: nat)
    requires IsNearest(at, turns, k)
    ensures NearestSpeaker(at, turns) == Some(turns[k].speaker)
  {
    NearestSpeakerIsUnique(at, turns, NearestSpeaker(at, turns), Some(turns[k].speaker));
  }

  /** The overlap rule is the one for a word that does not end a sentence, or starts in no turn. */
  ghost predicate NotByStart(word: Word, turns: seq<Turn>) {
    !EndsSentence(word.text) || forall t | t in turns :: !HoldsStart(t, word)
  }

  lemma StartRuleIsOut(word: Word, turns: seq<Turn>)
    requires NotByStart(word, turns)
    ensures !(IsSentenceEnding(word.text) && StartTurnSpeaker(word.start, turns).Some?)
  {
    SentenceEndIsLastMark(word.text);
    if forall t | t in turns :: !HoldsStart(t, word) { NoStartTurn(word, turns); }
  }

  /** Then the first turn with the largest overlap, if that is positive, is the one. */
  lemma WordGoesByOverlap(word: Word, turns: seq<Turn>, k: nat)
    requires word.start < word.end && NotByStart(word, turns) && IsBestOverlap(word.start, word.end, turns, k)
    ensures AssignedSpeaker(word, turns) == Some(turns[k].speaker)
  {
    StartRuleIsOut(word, turns);
    BestOverlapDecides(word.start, word.end, turns, k);
  }

  /** A word that ends a sentence goes by the first turn that holds its start. */
  lemma SentenceEndGoesByStart(word: Word, turns: seq<Turn>, k: nat)
    requires word.start < word.end && EndsSentence(word.text)
    requires k < |turns| && HoldsStart(turns[k], word) && forall i | 0 <= i < k :: !HoldsStart(turns[i], word)
    ensures AssignedSpeaker(word, turns) == Some(turns[k].speaker)
  {
    SentenceEndIsLastMark(word.text);
    FirstStartTurn(word, turns, k);
  }

  /** Without such a turn and without any overlap, the first turn nearest to the middle is the one. */
  lemma WordGoesByNearest(word: Word, turns: seq<Turn>, k: nat)
    requires word.start < word.end && NotByStart(word, turns) && IsNearest((word.start + word.end) / 2.0, turns, k)
    requires forall t | t in turns :: Min(word.end, t.end) <= Max(word.start, t.start)
    ensures AssignedSpeaker(word, turns) == Some(turns[k].speaker)
  {
    StartRuleIsOut(word, turns);
    forall i | 0 <= i < |turns| ensures OverlapWith(word.start, word.end, turns[i]) == 0.0 {
      assert turns[i] in turns;
    }
    NoOverlap(word.start, word.end, turns);
    NearestDecides((word.start + word.end) / 2.0, turns, k);
  }

  /** A word of no length goes by the first turn nearest to it; one that ends before it starts by none. */
  lemma PointWordGoesByNearest(word: Word, turns: seq<Turn>, k: nat)
    requires word.end <= word.start && IsNearest(word.start, turns, k)
    ensures AssignedSpeaker(word, turns) == if word.end == word.start then Some(turns[k].speaker) else None
  {
    NearestDecides(word.start, turns, k);
  }

  // ----- Whose parts -----

  lemma {:induction false} PartsFromRuns(runs: seq<seq<Word>>, who: Word -> Option<string>, p: Part) returns (i: nat)
    requires NonEmpty(runs) && p in PartsOf(runs, who)
    ensures i < |runs| && p == PartOf(runs[i], who)
    decreases |runs|
  {
    var n := |runs| - 1;
    if p in PartsOf(runs[..n], who) { i := PartsFromRuns(runs[..n], who, p); } else { i := n; }
  }

  /** A part speaks for all of its words, starts and ends with them, and has the tokens of their texts. */
  lemma PartSpeaksForItsWords(words: seq<Word>, turns: seq<Turn>, p: Part)
    requires p in SplitByWords(words, turns)
    ensures p.words.Some? && p.words.value != []
    ensures var ws := p.words.value; var last := ws[|ws| - 1];
      && p.start == ws[0].start && p.end == Max(last.end, last.start) && Split(p.text) == Tokens(WordTexts(ws))
      && forall w | w in ws :: AssignedSpeaker(w, turns) == p.speaker
  {
    var valid, who := Valid(StableSort(words, WordLe)), Assigner(turns);
    var i := PartsFromRuns(Runs(valid, who), who, p);
    var run: seq<Word> := Runs(valid, who)[i];
    RunsAreMaximal(valid, who);
    RunTokens(run);
    assert OneSpeaker(run, who);
    forall w | w in run ensures who(w) == who(run[0]) {
      var k :| 0 <= k < |run| && run[k] == w;
    }
  }
}
