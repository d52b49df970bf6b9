/** What absorbing short parts does to the speakers: who absorbs whom, and which speaker a group of parts ends up with. */
module PartGroups {
  import opened Common
  import opened SpeakerTurns
  import opened Text
  import opened WordSplit
  import opened ShortSplits
  import opened WordPath
  import opened WordRules

  // ----- One absorption -----

  /** Part `k` next to `i` has at least as many words as the part on the other side, and more if it is the later one. */
  ghost predicate HasMoreWords(parts: seq<Part>, i: nat, k: nat)
    requires i < |parts| && k < |parts|
  {
    && (k == i + 1 || i == k + 1)
    && (k < i && i + 1 < |parts| ==> WordCount(parts[k]) >= WordCount(parts[i + 1]))
    && (i < k && 0 < i ==> WordCount(parts[k]) > WordCount(parts[i - 1]))
  }

  /** `c` is `k` with `i` taken in: the speaker of `k`, the words and tokens of both in order, the times of both. */
  ghost predicate TakesIn(c: Part, parts: seq<Part>, i: nat, k: nat)
    requires i < |parts| && k < |parts|
  {
    var first, second := parts[if k < i then k else i], parts[if k < i then i else k];
    && c.speaker == parts[k].speaker
    && WordsIn(c) == WordsIn(first) + WordsIn(second) && (c.words.None? <==> WordsIn(first) + WordsIn(second) == [])
    && Split(c.text) == Split(first.text) + Split(second.text)
    && c.start == (if i < k then Min(parts[i].start, parts[k].start) else parts[k].start)
    && c.end == (if k < i then Max(parts[i].end, parts[k].end) else parts[k].end)
  }

  /** The first part with too few words is taken in by a neighbour; the others stay. */
  ghost predicate AbsorbsFirst(parts: seq<Part>, next: seq<Part>, minWords: int, i: nat, k: nat) {
    && i < |parts| && k < |parts| && |next| == |parts| - 1
    && WordCount(parts[i]) < minWords && (forall j | 0 <= j < i :: WordCount(parts[j]) >= minWords)
    && HasMoreWords(parts, i, k)
    && var lo := if k < i then k else i;
      && (forall j | 0 <= j < lo :: next[j] == parts[j]) && (forall j | lo < j < |next| :: next[j] == parts[j + 1])
      && TakesIn(next[lo], parts, i, k)
  }

  lemma CombineTakesIn(parts: seq<Part>, i: nat, k: nat)
    requires i < |parts| && k < |parts| && (k == i + 1 || i == k + 1)
    ensures TakesIn(Combine(parts[k], parts[i], i < k), parts, i, k)
  {
    var lo := if k < i then k else i;
    CombineKeeps(parts[lo], parts[lo + 1], parts[k], parts[i], i < k);
  }

  lemma AbsorbShape(parts: seq<Part>, i: nat)
    requires i < |parts| && |parts| > 1
    ensures var k, next := Taker(parts, i), Absorb(parts, i);
      var lo := if k < i then k else i;
      && next[lo] == Combine(parts[k], parts[i], i < k)
      && (forall j | 0 <= j < lo :: next[j] == parts[j]) && (forall j | lo < j < |next| :: next[j] == parts[j + 1])
  {
  }

  lemma AbsorbIsThis(parts: seq<Part>, minWords: int)
    requires |parts| > 1 && FirstShort(parts, minWords) < |parts|
    ensures var i := FirstShort(parts, minWords); AbsorbsFirst(parts, Absorb(parts, i), minWords, i, Taker(parts, i))
  {
    var i := FirstShort(parts, minWords);
    CombineTakesIn(parts, i, Taker(parts, i));
    AbsorbShape(parts, i);
  }

  ghost predicate NoneShort(parts: seq<Part>, minWords: int) {
    forall p | p in parts :: WordCount(p) >= minWords
  }

  lemma NoneShortIff(parts: seq<Part>, minWords: int)
    ensures NoneShort(parts, minWords) <==> FirstShort(parts, minWords) == |parts|
  {
    var i := FirstShort(parts, minWords);
    if i < |parts| {
      assert parts[i] in parts;
    } else {
      forall p | p in parts ensures WordCount(p) >= minWords {
        var j :| 0 <= j < |parts| && parts[j] == p;
      }
    }
  }

  /** While some part is too short and not alone, the first such part is taken in; otherwise nothing changes. */
  lemma MergeShortStep(parts: seq<Part>, minWords: int)
    ensures |parts| <= 1 || NoneShort(parts, minWords) ==> MergeShort(parts, minWords) == parts
    ensures |parts| > 1 && !NoneShort(parts, minWords) ==>
      var i := FirstShort(parts, minWords);
      && i < |parts| && AbsorbsFirst(parts, Absorb(parts, i), minWords, i, Taker(parts, i))
      && MergeShort(parts, minWords) == MergeShort(Absorb(parts, i), minWords)
  {
    NoneShortIff(parts, minWords);
    if |parts| > 1 && !NoneShort(parts, minWords) { AbsorbIsThis(parts, minWords); }
  }

  // ----- Groups -----

  /** Parts `lo` to `hi` became one, which speaks for the speaker of part `keeper`. */
  datatype Group = Group(lo: nat, hi: nat, keeper: nat)

  /** The groups follow one another and together are the `n` parts. */
  ghost predicate Tile(gs: seq<Group>, n: nat) {
    && (gs == [] <==> n == 0)
    && (forall g | 0 <= g < |gs| :: gs[g].lo <= gs[g].keeper < gs[g].hi <= n)
    && (gs != [] ==> gs[0].lo == 0 && gs[|gs| - 1].hi == n)
    && (forall g, h | 0 <= g && h == g + 1 < |gs| :: gs[g].hi == gs[h].lo)
  }

  ghost predicate Represents(p: Part, g: Group, parts: seq<Part>) {
    g.lo <= g.keeper < g.hi <= |parts| && p.speaker == parts[g.keeper].speaker && WordsIn(p) == PartWords(parts[g.lo..g.hi])
  }

  ghost predicate Grouped(merged: seq<Part>, gs: seq<Group>, parts: seq<Part>) {
    |gs| == |merged| && Tile(gs, |parts|) && forall g | 0 <= g < |gs| :: Represents(merged[g], gs[g], parts)
  }

  function JoinGroups(gs: seq<Group>, lo: nat, keeper: nat): (r: seq<Group>)
    requires lo + 1 < |gs|
    ensures |r| == |gs| - 1 && r[lo] == Group(gs[lo].lo, gs[lo + 1].hi, keeper)
    ensures (forall g | 0 <= g < lo :: r[g] == gs[g]) && forall g | lo < g < |r| :: r[g] == gs[g + 1]
  {
    gs[..lo] + [Group(gs[lo].lo, gs[lo + 1].hi, keeper)] + gs[lo + 2..]
  }

  lemma JoinedTile(gs: seq<Group>, n: nat, lo: nat, keeper: nat)
    requires Tile(gs, n) && lo + 1 < |gs| && gs[lo].lo <= keeper < gs[lo + 1].hi
    ensures Tile(JoinGroups(gs, lo, keeper), n)
  {
    var r := JoinGroups(gs, lo, keeper);
    assert gs[lo].hi == gs[lo + 1].lo;
    forall g, h | 0 <= g && h == g + 1 < |r| ensures r[g].hi == r[h].lo {
      if g < lo { assert gs[g].hi == gs[g + 1].lo; } else { assert gs[g + 1].hi == gs[h + 1].lo; }
    }
  }

  lemma WordsOfSlice(parts: seq<Part>, lo: nat, mid: nat, hi: nat)
    requires lo <= mid <= hi <= |parts|
    ensures PartWords(parts[lo..hi]) == PartWords(parts[lo..mid]) + PartWords(parts[mid..hi])
  {
    PartWordsConcat(parts[lo..mid], parts[mid..hi]);
    assert parts[lo..hi] == parts[lo..mid] + parts[mid..hi];
  }

  lemma JoinedRepresents(c: Part, merged: seq<Part>, gs: seq<Group>, parts: seq<Part>, i: nat, k: nat)
    requires Grouped(merged, gs, parts) && i < |merged| && k < |merged| && (k == i + 1 || i == k + 1) && TakesIn(c, merged, i, k)
    ensures var lo := if k < i then k else i;
      Represents(c, Group(gs[lo].lo, gs[lo + 1].hi, gs[k].keeper), parts)
  {
    var lo := if k < i then k else i;
    var a, b := gs[lo], gs[lo + 1];
    assert a.hi == b.lo && Represents(merged[lo], a, parts) && Represents(merged[lo + 1], b, parts);
    WordsOfSlice(parts, a.lo, a.hi, b.hi);
  }

  lemma AbsorbGroups(merged: seq<Part>, next: seq<Part>, gs: seq<Group>, parts: seq<Part>, minWords: int, i: nat, k: nat)
    requires Grouped(merged, gs, parts) && AbsorbsFirst(merged, next, minWords, i, k)
    ensures Grouped(next, JoinGroups(gs, if k < i then k else i, gs[k].keeper), parts)
  {
    var lo := if k < i then k else i;
    var r := JoinGroups(gs, lo, gs[k].keeper);
    assert gs[lo].hi == gs[lo + 1].lo;
    JoinedTile(gs, |parts|, lo, gs[k].keeper);
    JoinedRepresents(next[lo], merged, gs, parts, i, k);
    forall g | 0 <= g < |r| ensures Represents(next[g], r[g], parts) {
      if g < lo { assert Represents(merged[g], gs[g], parts); }
      if g > lo { assert Represents(merged[g + 1], gs[g + 1], parts); }
    }
  }

  lemma SingleGroups(parts: seq<Part>) returns (gs: seq<Group>)
    ensures Grouped(parts, gs, parts) && forall g | 0 <= g < |gs| :: gs[g] == Group(g, g + 1, g)
  {
    gs := seq(|parts|, g requires 0 <= g < |parts| => Group(g, g + 1, g));
    forall g | 0 <= g < |gs| ensures Represents(parts[g], gs[g], parts) {
      One(parts[g]);
      assert parts[g..g + 1] == [parts[g]];
    }
  }

  // ----- Parts with enough words -----

  ghost predicate AllWorded(parts: seq<Part>) {
    forall i | 0 <= i < |parts| :: WordsIn(parts[i]) != []
  }

  /** A member with enough words is the one that the group speaks for. */
  ghost predicate LongOneKeeps(gs: seq<Group>, parts: seq<Part>, minWords: int) {
    forall g, j | 0 <= g < |gs| && gs[g].lo <= j < gs[g].hi && j < |parts| && |WordsIn(parts[j])| >= minWords :: j == gs[g].keeper
  }

  lemma {:induction false} MemberWords(parts: seq<Part>, j: nat)
    requires j < |parts|
    ensures |WordsIn(parts[j])| <= |PartWords(parts)|
  {
    var n := |parts| - 1;
    if j < n { MemberWords(parts[..n], j); }
  }

  lemma ShortHasNoLong(p: Part, g: Group, parts: seq<Part>, minWords: int, j: nat)
    requires Represents(p, g, parts) && WordsIn(p) != [] && WordCount(p) < minWords && g.lo <= j < g.hi
    ensures |WordsIn(parts[j])| < minWords
  {
    MemberWords(parts[g.lo..g.hi], j - g.lo);
  }

  lemma JoinedMember(gs: seq<Group>, parts: seq<Part>, minWords: int, i: nat, k: nat, g: nat, j: nat)
    requires LongOneKeeps(gs, parts, minWords) && i < |gs| && k < |gs| && (k == i + 1 || i == k + 1)
    requires gs[if k < i then k else i].hi == gs[if k < i then i else k].lo
    requires forall m: nat | gs[i].lo <= m < gs[i].hi && m < |parts| :: |WordsIn(parts[m])| < minWords
    requires var r := JoinGroups(gs, if k < i then k else i, gs[k].keeper);
      g < |r| && r[g].lo <= j < r[g].hi && j < |parts| && |WordsIn(parts[j])| >= minWords
    ensures j == JoinGroups(gs, if k < i then k else i, gs[k].keeper)[g].keeper
  {
    var lo := if k < i then k else i;
    if g == lo {
      assert !(gs[i].lo <= j < gs[i].hi) && gs[k].lo <= j < gs[k].hi;
    } else {
      assert JoinGroups(gs, lo, gs[k].keeper)[g] == gs[if g < lo then g else g + 1];
    }
  }

  lemma JoinKeepsLong(merged: seq<Part>, gs: seq<Group>, parts: seq<Part>, minWords: int, i: nat, k: nat)
    requires Grouped(merged, gs, parts) && LongOneKeeps(gs, parts, minWords) && i < |merged| && k < |merged|
    requires (k == i + 1 || i == k + 1) && WordsIn(merged[i]) != [] && WordCount(merged[i]) < minWords
    ensures LongOneKeeps(JoinGroups(gs, if k < i then k else i, gs[k].keeper), parts, minWords)
  {
    var lo := if k < i then k else i;
    var r := JoinGroups(gs, lo, gs[k].keeper);
    assert gs[lo].hi == gs[lo + 1].lo;
    assert Represents(merged[i], gs[i], parts);
    forall j: nat | gs[i].lo <= j < gs[i].hi ensures |WordsIn(parts[j])| < minWords {
      ShortHasNoLong(merged[i], gs[i], parts, minWords, j);
    }
    forall g, j | 0 <= g < |r| && r[g].lo <= j < r[g].hi && j < |parts| && |WordsIn(parts[j])| >= minWords ensures j == r[g].keeper {
      JoinedMember(gs, parts, minWords, i, k, g, j);
    }
  }

  lemma StaysWorded(merged: seq<Part>, next: seq<Part>, minWords: int, i: nat, k: nat)
    requires AllWorded(merged) && AbsorbsFirst(merged, next, minWords, i, k)
    ensures AllWorded(next)
  {
    var lo := if k < i then k else i;
    forall j | 0 <= j < |next| ensures WordsIn(next[j]) != [] {
      if j == lo { assert WordsIn(merged[lo]) != []; }
    }
  }

  lemma {:induction false} GroupsFrom(merged: seq<Part>, gs: seq<Group>, parts: seq<Part>, minWords: int) returns (r: seq<Group>)
    requires Grouped(merged, gs, parts)
    ensures Grouped(MergeShort(merged, minWords), r, parts)
    ensures AllWorded(merged) && LongOneKeeps(gs, parts, minWords) ==> LongOneKeeps(r, parts, minWords)
    decreases |merged|
  {
    var i := FirstShort(merged, minWords);
    if |merged| <= 1 || i == |merged| {
      r := gs;
    } else {
      var k, next := Taker(merged, i), Absorb(merged, i);
      AbsorbIsThis(merged, minWords);
      AbsorbGroups(merged, next, gs, parts, minWords, i, k);
      if AllWorded(merged) {
        StaysWorded(merged, next, minWords, i, k);
        if LongOneKeeps(gs, parts, minWords) { JoinKeepsLong(merged, gs, parts, minWords, i, k); }
      }
      r := GroupsFrom(next, JoinGroups(gs, if k < i then k else i, gs[k].keeper), parts, minWords);
    }
  }

  /**
   * Each output part is a contiguous group of input parts, with their words, and speaks for one of them, its keeper. If
   * all parts have words, a part with enough of them is always the keeper of its group.
   */
  lemma OutputsAreGroups(parts: seq<Part>, minWords: int) returns (gs: seq<Group>)
    ensures Grouped(MergeShort(parts, minWords), gs, parts)
    ensures AllWorded(parts) ==> LongOneKeeps(gs, parts, minWords)
  {
    var single := SingleGroups(parts);
    gs := GroupsFrom(parts, single, parts, minWords);
  }

  /** The split by words makes such parts. */
  lemma WordSplitIsWorded(words: seq<Word>, turns: seq<Turn>)
    ensures AllWorded(SplitByWords(words, turns))
  {
    var parts := SplitByWords(words, turns);
    forall i | 0 <= i < |parts| ensures WordsIn(parts[i]) != [] {
      PartSpeaksForItsWords(words, turns, parts[i]);
    }
  }

  lemma {:induction false} GroupOf(gs: seq<Group>, n: nat, j: nat, m: nat) returns (g: nat)
    requires Tile(gs, n) && m < |gs| && j < gs[m].hi
    ensures g < |gs| && gs[g].lo <= j < gs[g].hi
  {
    if m == 0 || gs[m].lo <= j {
      g := m;
    } else {
      assert gs[m - 1].hi == gs[m].lo;
      g := GroupOf(gs, n, j, m - 1);
    }
  }

  lemma WordsOfFirst(parts: seq<Part>, j: nat, hi: nat)
    requires j < hi <= |parts|
    ensures PartWords(parts[j..hi]) == WordsIn(parts[j]) + PartWords(parts[j + 1..hi])
  {
    WordsOfSlice(parts, j, j + 1, hi);
    One(parts[j]);
    assert parts[j..j + 1] == [parts[j]];
  }

  lemma Regroup<T>(a: seq<T>, b: seq<T>, c: seq<T>)
    ensures a + (b + c) == a + b + c
  {
  }

  lemma WordsStayTogether(parts: seq<Part>, lo: nat, j: nat, hi: nat) returns (before: seq<Word>, after: seq<Word>)
    requires lo <= j < hi <= |parts|
    ensures PartWords(parts[lo..hi]) == before + WordsIn(parts[j]) + after
  {
    before, after := PartWords(parts[lo..j]), PartWords(parts[j + 1..hi]);
    WordsOfSlice(parts, lo, j, hi);
    WordsOfFirst(parts, j, hi);
    Regroup(before, WordsIn(parts[j]), after);
  }

  /** A part with enough words keeps its speaker: its words stay together inside an output part of that speaker. */
  lemma LongPartKeepsItsSpeaker(parts: seq<Part>, minWords: int, j: nat) returns (p: Part, before: seq<Word>, after: seq<Word>)
    requires AllWorded(parts) && j < |parts| && |WordsIn(parts[j])| >= minWords
    ensures p in MergeShort(parts, minWords) && p.speaker == parts[j].speaker && WordsIn(p) == before + WordsIn(parts[j]) + after
  {
    var merged := MergeShort(parts, minWords);
    var gs := OutputsAreGroups(parts, minWords);
    var g := GroupOf(gs, |parts|, j, |gs| - 1);
    p := merged[g];
    assert Represents(merged[g], gs[g], parts);
    before, after := WordsStayTogether(parts, gs[g].lo, j, gs[g].hi);
  }
}
