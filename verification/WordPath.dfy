/** The parts that the split by words makes: their times and their tokens. */
module WordPath {
  import opened Common
  import opened Sorting
  import opened SpeakerTurns
  import opened Text
  import opened WordSplit
  import opened ShortSplits

  ghost predicate StartsInOrder(words: seq<Word>) {
    forall i, j | 0 <= i < j < |words| :: words[i].start <= words[j].start
  }

  lemma {:induction false} ValidInOrder(words: seq<Word>)
    requires SortedBy(words, WordLe)
    ensures StartsInOrder(Valid(words))
  {
    if words != [] {
      var n := |words| - 1;
      ValidInOrder(words[..n]);
      var before := Valid(words[..n]);
      forall i | 0 <= i < |before| ensures before[i].start <= words[n].start {
        ValidMembers(words[..n], before[i]);
        var j :| 0 <= j < n && words[..n][j] == before[i];
        assert WordLe(words[j], words[n]);
      }
    }
  }

  ghost predicate RunsInOrder(runs: seq<seq<Word>>)
    requires NonEmpty(runs)
  {
    forall i, j | 0 <= i < j < |runs| :: runs[i][0].start <= runs[j][0].start
  }

  lemma AppendInOrder(runs: seq<seq<Word>>, w: Word, who: Word -> Option<string>)
    requires NonEmpty(runs) && RunsInOrder(runs) && forall i | 0 <= i < |runs| :: runs[i][0].start <= w.start
    ensures RunsInOrder(AppendToRuns(runs, w, who))
  {
    var n, next := |runs| - 1, AppendToRuns(runs, w, who);
    if n >= 0 && who(runs[n][0]) == who(w) {
      assert forall i | 0 <= i <= n :: next[i][0] == runs[i][0];
    }
  }

  lemma {:induction false} RunsStartInOrder(words: seq<Word>, who: Word -> Option<string>)
    requires StartsInOrder(words)
    ensures RunsInOrder(Runs(words, who))
  {
    if words != [] {
      var n := |words| - 1;
      var before: seq<seq<Word>> := Runs(words[..n], who);
      RunsStartInOrder(words[..n], who);
      RunsKeepWords(words[..n], who);
      forall i | 0 <= i < |before| ensures before[i][0].start <= words[n].start {
        FlattenMember(before, i);
        assert before[i][0] in before[i] && before[i][0] in words[..n];
        var j :| 0 <= j < n && words[..n][j] == before[i][0];
      }
      AppendInOrder(before, words[n], who);
    }
  }

  /** The part starts as one of the runs does, and is timed by its words. */
  ghost predicate StartsAsRun(p: Part, runs: seq<seq<Word>>)
    requires NonEmpty(runs)
  {
    Timed(p) && exists run: seq<Word> | run in runs :: run != [] && p.start == run[0].start
  }

  lemma {:induction false} PartsStartAsRuns(runs: seq<seq<Word>>, who: Word -> Option<string>)
    requires NonEmpty(runs)
    ensures forall p | p in PartsOf(runs, who) :: StartsAsRun(p, runs)
  {
    if runs != [] {
      var n := |runs| - 1;
      var before := runs[..n];
      assert runs == before + [runs[n]] && NonEmpty(before);
      PartsStartAsRuns(before, who);
      forall p | p in PartsOf(runs, who) ensures StartsAsRun(p, runs) {
        if p in PartsOf(before, who) {
          var run: seq<Word> :| run in before && run != [] && p.start == run[0].start;
          assert run in runs;
        } else {
          assert runs[n] in runs;
        }
      }
    }
  }

  lemma {:induction false} PartsAreTimed(runs: seq<seq<Word>>, who: Word -> Option<string>)
    requires NonEmpty(runs) && RunsInOrder(runs)
    ensures AllTimed(PartsOf(runs, who))
  {
    if runs != [] {
      var n := |runs| - 1;
      var before := runs[..n];
      assert NonEmpty(before) && RunsInOrder(before);
      PartsAreTimed(before, who);
      PartsStartAsRuns(before, who);
      LatestStart(PartsOf(before, who), before, runs[n]);
    }
  }

  lemma LatestStart(parts: seq<Part>, before: seq<seq<Word>>, run: seq<Word>)
    requires NonEmpty(before) && run != [] && RunsInOrder(before + [run]) && forall p | p in parts :: StartsAsRun(p, before)
    ensures forall i | 0 <= i < |parts| :: parts[i].start <= run[0].start
  {
    forall i | 0 <= i < |parts| ensures parts[i].start <= run[0].start {
      assert StartsAsRun(parts[i], before);
      var r: seq<Word> :| r in before && r != [] && parts[i].start == r[0].start;
      var j :| 0 <= j < |before| && before[j] == r;
      assert (before + [run])[j] == r && (before + [run])[|before|] == run;
    }
  }

  /** The parts of the split by words are in time order and timed by their words. */
  lemma WordSplitIsTimed(words: seq<Word>, turns: seq<Turn>)
    ensures AllTimed(SplitByWords(words, turns))
  {
    var sorted := StableSort(words, WordLe);
    SortSorts(words, WordLe);
    ValidInOrder(sorted);
    RunsStartInOrder(Valid(sorted), Assigner(turns));
    PartsAreTimed(Runs(Valid(sorted), Assigner(turns)), Assigner(turns));
  }

  function WordTexts(words: seq<Word>): (r: seq<string>)
    ensures |r| == |words| && forall i | 0 <= i < |r| :: r[i] == words[i].text
  {
    seq(|words|, i requires 0 <= i < |words| => words[i].text)
  }

  lemma {:induction false} StrippedKeepTokens(words: seq<Word>)
    ensures Tokens(StrippedTexts(words)) == Tokens(WordTexts(words))
  {
    if words != [] {
      var n := |words| - 1;
      var text := words[n].text;
      StrippedKeepTokens(words[..n]);
      assert WordTexts(words) == WordTexts(words[..n]) + [text];
      TokensConcat(WordTexts(words[..n]), [text]);
      TokensOne(text);
      SplitStrip(text);
      TokensOne(Strip(text));
      TokensConcat(StrippedTexts(words[..n]), [Strip(text)]);
      if Strip(text) == "" { assert StrippedTexts(words) == StrippedTexts(words[..n]) && Split("") == []; }
    }
  }

  lemma RunTokens(run: seq<Word>)
    ensures Split(TextOf(run)) == Tokens(WordTexts(run))
  {
    SplitOfJoin(StrippedTexts(run));
    StrippedKeepTokens(run);
  }

  lemma {:induction false} PartsKeepTokens(runs: seq<seq<Word>>, who: Word -> Option<string>)
    requires NonEmpty(runs)
    ensures PartTokens(PartsOf(runs, who)) == Tokens(WordTexts(Flatten(runs)))
  {
    if runs != [] {
      var n := |runs| - 1;
      var before, run := runs[..n], runs[n];
      assert runs == before + [run] && NonEmpty(before);
      PartsKeepTokens(before, who);
      FlattenSnoc(before, run);
      WordTokensConcat(Flatten(before), run);
      RunKeepsTokens(before, run, who);
    }
  }

  lemma WordTokensConcat(a: seq<Word>, b: seq<Word>)
    ensures Tokens(WordTexts(a + b)) == Tokens(WordTexts(a)) + Tokens(WordTexts(b))
  {
    assert WordTexts(a + b) == WordTexts(a) + WordTexts(b);
    TokensConcat(WordTexts(a), WordTexts(b));
  }

  lemma RunKeepsTokens(before: seq<seq<Word>>, run: seq<Word>, who: Word -> Option<string>)
    requires NonEmpty(before) && run != []
    ensures PartTokens(PartsOf(before + [run], who)) == PartTokens(PartsOf(before, who)) + Tokens(WordTexts(run))
  {
    RunTokens(run);
    PartsOfSnoc(before, run, who);
    var parts := PartsOf(before, who);
    if TextOf(run) != "" {
      PartTokensConcat(parts, [PartOf(run, who)]);
      One(PartOf(run, who));
    } else {
      assert parts + [] == parts && Split("") == [];
    }
  }

  /** The split by words keeps every token of the sorted valid words, blank runs or not: those have none. */
  lemma WordSplitKeepsTokens(words: seq<Word>, turns: seq<Turn>)
    ensures PartTokens(SplitByWords(words, turns)) == Tokens(WordTexts(Valid(StableSort(words, WordLe))))
  {
    var sorted := Valid(StableSort(words, WordLe));
    PartsKeepTokens(Runs(sorted, Assigner(turns)), Assigner(turns));
    RunsKeepWords(sorted, Assigner(turns));
  }
}
