/** `_merge_short_splits`: parts with too few words are absorbed by a neighbour until none is left. */
module ShortSplits {
  import opened Common
  import opened Text
  import opened WordSplit

  function WordCount(p: Part): nat {
    if p.words.Some? && p.words.value != [] then |p.words.value| else |Split(p.text)|
  }

  /** Index of the first part with fewer than `minWords` words, or the length. */
  function FirstShort(parts: seq<Part>, minWords: int): (i: nat)
    ensures i <= |parts| && forall k | 0 <= k < i :: WordCount(parts[k]) >= minWords
    ensures i < |parts| ==> WordCount(parts[i]) < minWords
  {
    if parts == [] || WordCount(parts[0]) < minWords then 0 else 1 + FirstShort(parts[1..], minWords)
  }

  /** The neighbour with more words takes part `i`; the earlier one on a tie. */
  function Taker(parts: seq<Part>, i: nat): (k: nat)
    requires i < |parts| && |parts| > 1
    ensures k < |parts| && (k == i + 1 || k + 1 == i)
    ensures 0 < i < |parts| - 1 ==>
      var other := if k < i then i + 1 else i - 1;
      WordCount(parts[k]) >= WordCount(parts[other]) && (k > i ==> WordCount(parts[k]) > WordCount(parts[other]))
  {
    if i == 0 then 1
    else if i == |parts| - 1 then i - 1
    else if WordCount(parts[i - 1]) >= WordCount(parts[i + 1]) then i - 1 else i + 1
  }

  function Unless<T>(words: seq<T>): Option<seq<T>> {
    if words == [] then None else Some(words)
  }

  /** Target `t` with the short part `s` appended or prepended; `t` names the speaker. */
  function Combine(t: Part, s: Part, sFirst: bool): Part {
    if sFirst
    then Part(Min(s.start, t.start), t.end, Strip(s.text + " " + t.text), t.speaker, Unless(WordsIn(s) + WordsIn(t)))
    else Part(t.start, Max(s.end, t.end), Strip(t.text + " " + s.text), t.speaker, Unless(WordsIn(t) + WordsIn(s)))
  }

  /** The list with part `i` absorbed by its taker. */
  function Absorb(parts: seq<Part>, i: nat): (r: seq<Part>)
    requires i < |parts| && |parts| > 1
    ensures |r| == |parts| - 1
  {
    var k := Taker(parts, i);
    var lo := if k < i then k else i;
    parts[..lo] + [Combine(parts[k], parts[i], i < k)] + parts[lo + 2..]
  }

  function MergeShort(parts: seq<Part>, minWords: int): (r: seq<Part>)
    decreases |parts|
  {
    var i := FirstShort(parts, minWords);
    if |parts| <= 1 || i == |parts| then parts else MergeShort(Absorb(parts, i), minWords)
  }

  method MergeShortSplits(parts: seq<Part>, minWords: int) returns (merged: seq<Part>)
    ensures merged == if minWords <= 1 then parts else MergeShort(parts, minWords)
  {
    if |parts| <= 1 || minWords <= 1 {
      return parts;
    }
    merged := parts;
    var changed := true;
    while changed
      invariant merged != []
      invariant MergeShort(parts, minWords) == MergeShort(merged, minWords)
      invariant !changed ==> |merged| == 1 || FirstShort(merged, minWords) == |merged|
      decreases |merged|, changed
    {
      merged, changed := AbsorbOneShort(merged, minWords);
    }
  }

  /** Replacing the taker and popping the short part is absorption. */
  lemma PopIsAbsorb(parts: seq<Part>, i: nat)
    requires i < |parts| && |parts| > 1
    ensures var k := Taker(parts, i);
      var replaced := parts[k := Combine(parts[k], parts[i], i < k)];
      replaced[..i] + replaced[i + 1..] == Absorb(parts, i)
  {
  }

  lemma ScanStops(parts: seq<Part>, minWords: int, i: nat)
    requires i < |parts| && WordCount(parts[i]) < minWords && forall k | 0 <= k < i :: WordCount(parts[k]) >= minWords
    ensures FirstShort(parts, minWords) == i
  {
  }

  /** One scan: absorbs the first short part that has a neighbour, if there is one. */
  method AbsorbOneShort(parts: seq<Part>, minWords: int) returns (merged: seq<Part>, changed: bool)
    requires parts != []
    ensures changed <==> |parts| > 1 && FirstShort(parts, minWords) < |parts|
    ensures merged == if changed then Absorb(parts, FirstShort(parts, minWords)) else parts
  {
    for i := 0 to |parts|
      invariant |parts| > 1 ==> forall k | 0 <= k < i :: WordCount(parts[k]) >= minWords
    {
      var wordCount := WordCount(parts[i]);
      if wordCount >= minWords || |parts| == 1 {
        continue;
      }
      ScanStops(parts, minWords, i);
      PopIsAbsorb(parts, i);
      var target: nat := if i == 0 then 1 else i - 1;
      if 0 < i < |parts| - 1 {
        target := if WordCount(parts[i - 1]) >= WordCount(parts[i + 1]) then i - 1 else i + 1;
      }
      merged := parts[target := Combine(parts[target], parts[i], i < target)];
      merged := merged[..i] + merged[i + 1..];
      return merged, true;
    }
    return parts, false;
  }

  /** Absorption ends with one part, or with every part long enough. */
  lemma {:induction false} MergeShortEnds(parts: seq<Part>, minWords: int)
    ensures var r := MergeShort(parts, minWords);
      && (|r| <= 1 || forall p | p in r :: WordCount(p) >= minWords)
      && |r| <= |parts| && (r == [] <==> parts == [])
    decreases |parts|
  {
    var i := FirstShort(parts, minWords);
    if |parts| > 1 && i < |parts| { MergeShortEnds(Absorb(parts, i), minWords); }
  }

  function Texts(parts: seq<Part>): (r: seq<string>)
    ensures |r| == |parts| && forall i | 0 <= i < |parts| :: r[i] == parts[i].text
  {
    seq(|parts|, i requires 0 <= i < |parts| => parts[i].text)
  }

  /** The tokens of the parts' texts, in order. */
  function PartTokens(parts: seq<Part>): seq<string> {
    Tokens(Texts(parts))
  }

  lemma PartTokensConcat(a: seq<Part>, b: seq<Part>)
    ensures PartTokens(a + b) == PartTokens(a) + PartTokens(b)
  {
    TokensConcat(Texts(a), Texts(b));
    assert Texts(a + b) == Texts(a) + Texts(b);
  }

  lemma One(p: Part)
    ensures PartWords([p]) == WordsIn(p) && PartTokens([p]) == Split(p.text)
  {
    assert [p][..0] == [];
    TokensOne(p.text);
    assert Texts([p]) == [p.text];
  }

  lemma Pair(a: Part, b: Part)
    ensures PartWords([a, b]) == WordsIn(a) + WordsIn(b)
    ensures PartTokens([a, b]) == Split(a.text) + Split(b.text)
  {
    One(a);
    One(b);
    PartWordsConcat([a], [b]);
    PartTokensConcat([a], [b]);
    assert [a, b] == [a] + [b];
  }

  /** Combining two neighbours keeps their words and tokens in time order. */
  lemma CombineKeeps(a: Part, b: Part, t: Part, s: Part, sFirst: bool)
    requires (a, b) == if sFirst then (s, t) else (t, s)
    ensures WordsIn(Combine(t, s, sFirst)) == WordsIn(a) + WordsIn(b)
    ensures Split(Combine(t, s, sFirst).text) == Split(a.text) + Split(b.text)
  {
    var joined := a.text + " " + b.text;
    SplitStrip(joined);
    SplitAround(a.text, ' ', b.text);
    assert joined == a.text + [' '] + b.text;
  }

  /** What a rearrangement of parts must keep: the words and the tokens, each in order. */
  ghost predicate SameContent(a: seq<Part>, b: seq<Part>) {
    PartWords(a) == PartWords(b) && PartTokens(a) == PartTokens(b)
  }

  lemma CombineIsPair(a: Part, b: Part, t: Part, s: Part, sFirst: bool)
    requires (a, b) == if sFirst then (s, t) else (t, s)
    ensures SameContent([Combine(t, s, sFirst)], [a, b])
  {
    CombineKeeps(a, b, t, s, sFirst);
    One(Combine(t, s, sFirst));
    Pair(a, b);
  }

  lemma AbsorbKeeps(parts: seq<Part>, i: nat)
    requires i < |parts| && |parts| > 1
    ensures SameContent(Absorb(parts, i), parts)
  {
    var k := Taker(parts, i);
    var lo := if k < i then k else i;
    var c := Combine(parts[k], parts[i], i < k);
    assert SameContent([c], [parts[lo], parts[lo + 1]]) by {
      CombineIsPair(parts[lo], parts[lo + 1], parts[k], parts[i], i < k);
    }
    assert Absorb(parts, i) == parts[..lo] + [c] + parts[lo + 2..];
    ReplacePair(parts, lo, c);
  }

  lemma ReplacePair(parts: seq<Part>, lo: nat, c: Part)
    requires lo + 1 < |parts| && SameContent([c], [parts[lo], parts[lo + 1]])
    ensures SameContent(parts[..lo] + [c] + parts[lo + 2..], parts)
  {
    SameInContext(parts[..lo], [c], [parts[lo], parts[lo + 1]], parts[lo + 2..]);
    assert parts == parts[..lo] + [parts[lo], parts[lo + 1]] + parts[lo + 2..];
  }

  lemma SameInContext(pre: seq<Part>, a: seq<Part>, b: seq<Part>, post: seq<Part>)
    requires SameContent(a, b)
    ensures SameContent(pre + a + post, pre + b + post)
  {
    PartWordsConcat(pre, a);
    PartWordsConcat(pre + a, post);
    PartWordsConcat(pre, b);
    PartWordsConcat(pre + b, post);
    PartTokensConcat(pre, a);
    PartTokensConcat(pre + a, post);
    PartTokensConcat(pre, b);
    PartTokensConcat(pre + b, post);
  }

  /** Absorption loses no word and no token and keeps their order. */
  lemma {:induction false} MergeShortKeeps(parts: seq<Part>, minWords: int)
    ensures SameContent(MergeShort(parts, minWords), parts)
    decreases |parts|
  {
    var i := FirstShort(parts, minWords);
    if |parts| > 1 && i < |parts| {
      AbsorbKeeps(parts, i);
      MergeShortKeeps(Absorb(parts, i), minWords);
    }
  }

  ghost predicate Speaks(parts: seq<Part>, speaker: Option<string>) {
    exists q | q in parts :: q.speaker == speaker
  }

  lemma AbsorbSpeakers(parts: seq<Part>, i: nat, speaker: Option<string>)
    requires i < |parts| && |parts| > 1 && Speaks(Absorb(parts, i), speaker)
    ensures Speaks(parts, speaker)
  {
    var q :| q in Absorb(parts, i) && q.speaker == speaker;
    var k := Taker(parts, i);
    if q !in parts { assert parts[k] in parts && parts[k].speaker == q.speaker; }
  }

  lemma {:induction false} MergeShortSpeaks(parts: seq<Part>, minWords: int, speaker: Option<string>)
    requires Speaks(MergeShort(parts, minWords), speaker)
    ensures Speaks(parts, speaker)
    decreases |parts|
  {
    var i := FirstShort(parts, minWords);
    if |parts| > 1 && i < |parts| {
      MergeShortSpeaks(Absorb(parts, i), minWords, speaker);
      AbsorbSpeakers(parts, i, speaker);
    }
  }

  /** Every surviving part speaks for one of the original speakers. */
  lemma MergeShortSpeakers(parts: seq<Part>, minWords: int, p: Part)
    requires p in MergeShort(parts, minWords)
    ensures exists q | q in parts :: q.speaker == p.speaker
  {
    assert Speaks(MergeShort(parts, minWords), p.speaker);
    MergeShortSpeaks(parts, minWords, p.speaker);
  }

  /** A part starts where its first word starts and does not end before its last one does. */
  ghost predicate Timed(p: Part) {
    var ws := WordsIn(p);
    ws != [] && p.start == ws[0].start && p.end >= ws[|ws| - 1].end
  }

  ghost predicate AllTimed(parts: seq<Part>) {
    && (forall i | 0 <= i < |parts| :: Timed(parts[i]))
    && (forall i, j | 0 <= i < j < |parts| :: parts[i].start <= parts[j].start)
  }

  lemma CombineIsTimed(parts: seq<Part>, i: nat, k: nat)
    requires i < |parts| && k < |parts| && (k == i + 1 || i == k + 1) && AllTimed(parts)
    ensures var c := Combine(parts[k], parts[i], i < k); Timed(c) && c.start == parts[if k < i then k else i].start
  {
    var lo := if k < i then k else i;
    assert parts[lo].start <= parts[lo + 1].start;
  }

  lemma AbsorbKeepsTimes(parts: seq<Part>, i: nat)
    requires i < |parts| && |parts| > 1 && AllTimed(parts)
    ensures AllTimed(Absorb(parts, i))
  {
    var k := Taker(parts, i);
    var lo := if k < i then k else i;
    var c := Combine(parts[k], parts[i], i < k);
    assert Timed(c) && c.start == parts[lo].start by { CombineIsTimed(parts, i, k); }
    assert Absorb(parts, i) == parts[..lo] + [c] + parts[lo + 2..];
    ReplacePairTimed(parts, lo, c);
  }

  lemma ReplacePairTimed(parts: seq<Part>, lo: nat, c: Part)
    requires lo + 1 < |parts| && AllTimed(parts) && Timed(c) && c.start == parts[lo].start
    ensures AllTimed(parts[..lo] + [c] + parts[lo + 2..])
  {
    var r := parts[..lo] + [c] + parts[lo + 2..];
    assert forall j | 0 <= j < lo :: r[j] == parts[j];
    assert forall j | lo < j < |r| :: r[j] == parts[j + 1];
    assert r[lo] == c;
  }

  /** Absorption keeps the parts in time order and timed by their words. */
  lemma {:induction false} MergeShortKeepsTimes(parts: seq<Part>, minWords: int)
    requires AllTimed(parts)
    ensures AllTimed(MergeShort(parts, minWords))
    decreases |parts|
  {
    var i := FirstShort(parts, minWords);
    if |parts| > 1 && i < |parts| {
      AbsorbKeepsTimes(parts, i);
      MergeShortKeepsTimes(Absorb(parts, i), minWords);
    }
  }
}
