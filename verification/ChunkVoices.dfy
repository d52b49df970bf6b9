/** Whose turns the merge of chunks yields: names, times, and each speaker by itself. */
module ChunkVoices {
  import opened Common
  import opened Sorting
  import opened SpeakerTurns
  import opened OverlapSweep
  import opened ChunkMerge

  /** The chunk's map names the speaker so; one it does not list keeps its name. */
  ghost predicate IsNamed(name: string, speaker: string, index: int, labelMaps: LabelMaps) {
    if index in labelMaps && speaker in labelMaps[index] then name == labelMaps[index][speaker] else name == speaker
  }

  /** The turn `t` is `u` of the chunk on the clock of the audio, kept from `start` to `end`. */
  ghost predicate ComesFrom(t: MsTurn, u: MsTurn, spec: ChunkSpec, labelMaps: LabelMaps, start: int, end: int) {
    && t.start == start && t.end == end && spec.start + u.start <= start && end <= spec.start + u.end
    && IsNamed(t.speaker, u.speaker, spec.index, labelMaps)
    && t.confidence == u.confidence && t.overlappingSpeakers.None?
  }

  /** Trimmed to the chunk's range, in which the turn has its midpoint, and not empty. */
  ghost predicate TrimmedFrom(t: MsTurn, u: MsTurn, spec: ChunkSpec, labelMaps: LabelMaps, r: Range) {
    && ComesFrom(t, u, spec, labelMaps, MaxInt(spec.start + u.start, r.start), MinInt(spec.start + u.end, r.end))
    && t.start < t.end && 2 * r.start <= 2 * spec.start + u.start + u.end <= 2 * r.end
  }

  /** Every merged turn is a turn of some chunk, under the name its map gives the speaker, moved by the chunk's start and trimmed. */
  lemma MergedTurnComesFrom(chunks: seq<ChunkResult>, labelMaps: LabelMaps, overlap: int, t: MsTurn) returns (i: nat, j: nat)
    requires InOrder(chunks) && t in Merged(chunks, labelMaps, overlap)
    ensures i < |chunks| && j < |chunks[i].turns|
    ensures var c := chunks[i]; var u := c.turns[j];
      if |chunks| > 1 && overlap > 0 then TrimmedFrom(t, u, c.spec, labelMaps, RangeOf(chunks, overlap, i))
      else ComesFrom(t, u, c.spec, labelMaps, c.spec.start + u.start, c.spec.start + u.end)
  {
    if |chunks| > 1 && overlap > 0 {
      i, j := MergedTurnHasOneOwner(chunks, labelMaps, overlap, t);
    } else {
      var tagged := TagAll(chunks, labelMaps);
      MsOrderIsTotal();
      SortMembers(Untag(tagged), MsTurnLe);
      var k :| 0 <= k < |tagged| && Untag(tagged)[k] == t;
      i, j := TaggedFrom(chunks, labelMaps, tagged[k]);
    }
  }

  /** The seam between two chunks is the middle of their overlap, to half a millisecond; an odd one goes to the even side. */
  lemma SeamIsTheMiddle(chunks: seq<ChunkResult>, overlap: int, i: nat)
    requires i + 1 < |chunks|
    ensures var lo := chunks[i + 1].spec.start; var hi := MinInt(chunks[i].spec.end, lo + overlap);
      var seam := RangeOf(chunks, overlap, i).end;
      && seam == RangeOf(chunks, overlap, i + 1).start
      && lo + hi - 1 <= 2 * seam <= lo + hi + 1 && ((lo + hi) % 2 != 0 ==> seam % 2 == 0)
  {
  }

  // ----- One speaker -----

  ghost function Voice(turns: seq<MsTurn>, name: string): seq<MsTurn> {
    Filter((t: MsTurn) => t.speaker == name, turns)
  }

  ghost function TaggedVoice(tagged: seq<TaggedTurn>, name: string): seq<TaggedTurn> {
    Filter((tt: TaggedTurn) => tt.turn.speaker == name, tagged)
  }

  /** The chunk's turns of those it knows under the name. */
  ghost function ChunkVoice(turns: seq<MsTurn>, index: int, labelMaps: LabelMaps, name: string): seq<MsTurn> {
    Filter((u: MsTurn) => IsNamed(name, u.speaker, index, labelMaps), turns)
  }

  ghost function Voices(chunks: seq<ChunkResult>, labelMaps: LabelMaps, name: string): (r: seq<ChunkResult>)
    ensures |r| == |chunks| && forall i | 0 <= i < |r| ::
      r[i] == ChunkResult(chunks[i].spec, ChunkVoice(chunks[i].turns, chunks[i].spec.index, labelMaps, name))
  {
    seq(|chunks|, i requires 0 <= i < |chunks| =>
      ChunkResult(chunks[i].spec, ChunkVoice(chunks[i].turns, chunks[i].spec.index, labelMaps, name)))
  }

  lemma {:induction false} UntagVoice(tagged: seq<TaggedTurn>, name: string)
    ensures Untag(TaggedVoice(tagged, name)) == Voice(Untag(tagged), name)
  {
    if tagged != [] {
      UntagVoice(tagged[1..], name);
      assert Untag(tagged)[1..] == Untag(tagged[1..]);
      UntagConcat(if tagged[0].turn.speaker == name then [tagged[0]] else [], TaggedVoice(tagged[1..], name));
    }
  }

  lemma TaggedVoiceSnoc(tagged: seq<TaggedTurn>, name: string)
    requires tagged != []
    ensures var n := |tagged| - 1;
      TaggedVoice(tagged, name) == TaggedVoice(tagged[..n], name) + if tagged[n].turn.speaker == name then [tagged[n]] else []
  {
    var n := |tagged| - 1;
    assert tagged == tagged[..n] + [tagged[n]];
    FilterSnoc((tt: TaggedTurn) => tt.turn.speaker == name, tagged[..n], tagged[n]);
  }

  lemma TrimTagVoice(tt: TaggedTurn, ranges: map<int, Range>, name: string)
    ensures TaggedVoice(TrimTag(tt, ranges), name) == if tt.turn.speaker == name then TrimTag(tt, ranges) else []
  {
    var kept := TrimTag(tt, ranges);
    if kept != [] {
      assert kept == [kept[0]] && kept[1..] == [] && kept[0].turn.speaker == tt.turn.speaker;
      assert Filter((tt: TaggedTurn) => tt.turn.speaker == name, kept[1..]) == [];
      assert [kept[0]] + [] == kept;
    }
  }

  lemma {:induction false} TrimVoice(tagged: seq<TaggedTurn>, ranges: map<int, Range>, name: string)
    ensures TrimAll(TaggedVoice(tagged, name), ranges) == TaggedVoice(TrimAll(tagged, ranges), name)
    decreases |tagged|
  {
    if tagged != [] {
      var n := |tagged| - 1;
      var before := TaggedVoice(tagged[..n], name);
      TrimVoice(tagged[..n], ranges, name);
      TaggedVoiceSnoc(tagged, name);
      TrimTagVoice(tagged[n], ranges, name);
      FilterConcat((tt: TaggedTurn) => tt.turn.speaker == name, TrimAll(tagged[..n], ranges), TrimTag(tagged[n], ranges));
      if tagged[n].turn.speaker == name {
        assert (before + [tagged[n]])[..|before|] == before;
      } else {
        assert before + [] == before;
        assert TaggedVoice(TrimAll(tagged[..n], ranges), name) + [] == TaggedVoice(TrimAll(tagged[..n], ranges), name);
      }
    }
  }

  lemma ChunkVoiceSnoc(turns: seq<MsTurn>, index: int, labelMaps: LabelMaps, name: string)
    requires turns != []
    ensures var n := |turns| - 1; var before := ChunkVoice(turns[..n], index, labelMaps, name);
      ChunkVoice(turns, index, labelMaps, name) == if IsNamed(name, turns[n].speaker, index, labelMaps) then before + [turns[n]] else before
  {
    var n := |turns| - 1;
    assert turns == turns[..n] + [turns[n]];
    FilterSnoc((u: MsTurn) => IsNamed(name, u.speaker, index, labelMaps), turns[..n], turns[n]);
  }

  lemma TagLast(turns: seq<MsTurn>, spec: ChunkSpec, labelMaps: LabelMaps, name: string)
    requires turns != []
    ensures var n := |turns| - 1; var before := TaggedVoice(Tag(turns[..n], spec, labelMaps), name);
      TaggedVoice(Tag(turns, spec, labelMaps), name) == if IsNamed(name, turns[n].speaker, spec.index, labelMaps)
        then before + [TaggedTurn(Globalize(turns[n], spec, labelMaps), spec.index)] else before
  {
    var n := |turns| - 1;
    var tagged := Tag(turns, spec, labelMaps);
    assert tagged[..|tagged| - 1] == Tag(turns[..n], spec, labelMaps);
    TaggedVoiceSnoc(tagged, name);
  }

  lemma {:induction false} TagVoice(turns: seq<MsTurn>, spec: ChunkSpec, labelMaps: LabelMaps, name: string)
    ensures Tag(ChunkVoice(turns, spec.index, labelMaps, name), spec, labelMaps) == TaggedVoice(Tag(turns, spec, labelMaps), name)
    decreases |turns|
  {
    if turns != [] {
      var n := |turns| - 1;
      var before := ChunkVoice(turns[..n], spec.index, labelMaps, name);
      TagVoice(turns[..n], spec, labelMaps, name);
      ChunkVoiceSnoc(turns, spec.index, labelMaps, name);
      TagLast(turns, spec, labelMaps, name);
      if IsNamed(name, turns[n].speaker, spec.index, labelMaps) {
        TagSnoc(before, turns[n], spec, labelMaps);
      }
    }
  }

  lemma {:induction false} TagAllVoice(chunks: seq<ChunkResult>, labelMaps: LabelMaps, name: string)
    ensures TagAll(Voices(chunks, labelMaps, name), labelMaps) == TaggedVoice(TagAll(chunks, labelMaps), name)
    decreases |chunks|
  {
    if chunks != [] {
      var n := |chunks| - 1;
      var c := chunks[n];
      TagAllVoice(chunks[..n], labelMaps, name);
      assert Voices(chunks, labelMaps, name)[..n] == Voices(chunks[..n], labelMaps, name);
      TagVoice(c.turns, c.spec, labelMaps, name);
      FilterConcat((tt: TaggedTurn) => tt.turn.speaker == name, TagAll(chunks[..n], labelMaps), Tag(c.turns, c.spec, labelMaps));
    }
  }

  lemma {:induction false} SameRanges(a: seq<ChunkResult>, b: seq<ChunkResult>, overlap: int, n: nat)
    requires n <= |a| == |b| && forall i | 0 <= i < |a| :: a[i].spec == b[i].spec
    ensures Ranges(a, overlap, n) == Ranges(b, overlap, n)
  {
    if n > 0 { SameRanges(a, b, overlap, n - 1); }
  }

  /** A speaker's merged turns are the merge of just the turns that the chunks' maps give to that speaker. */
  lemma SpeakersMergeApart(chunks: seq<ChunkResult>, labelMaps: LabelMaps, overlap: int, name: string)
    ensures Voice(Merged(chunks, labelMaps, overlap), name) == Merged(Voices(chunks, labelMaps, name), labelMaps, overlap)
  {
    var voices, tagged := Voices(chunks, labelMaps, name), TagAll(chunks, labelMaps);
    TagAllVoice(chunks, labelMaps, name);
    SameRanges(chunks, voices, overlap, |chunks|);
    TrimVoice(tagged, Ranges(chunks, overlap, |chunks|), name);
    UntagVoice(Resolved(chunks, labelMaps, overlap), name);
    MsOrderIsTotal();
    SortFilters(Untag(Resolved(chunks, labelMaps, overlap)), MsTurnLe, (t: MsTurn) => t.speaker == name);
  }

  /** How often the owner's turns that are named so, and have their midpoint in its range, cover an instant. */
  ghost function NamedCover(turns: seq<MsTurn>, spec: ChunkSpec, labelMaps: LabelMaps, r: Range, name: string, x: int): nat {
    if turns == [] then 0
    else
      var u := turns[|turns| - 1];
      NamedCover(turns[..|turns| - 1], spec, labelMaps, r, name, x)
        + if IsNamed(name, u.speaker, spec.index, labelMaps) && spec.start + u.start <= x < spec.start + u.end
            && 2 * r.start <= 2 * spec.start + u.start + u.end <= 2 * r.end then 1 else 0
  }

  lemma {:induction false} HeardVoice(turns: seq<MsTurn>, spec: ChunkSpec, labelMaps: LabelMaps, r: Range, name: string, x: int)
    ensures Heard(ChunkVoice(turns, spec.index, labelMaps, name), spec, labelMaps, r, x - spec.start)
      == NamedCover(turns, spec, labelMaps, r, name, x)
    decreases |turns|
  {
    if turns != [] {
      var n := |turns| - 1;
      var before := ChunkVoice(turns[..n], spec.index, labelMaps, name);
      HeardVoice(turns[..n], spec, labelMaps, r, name, x);
      ChunkVoiceSnoc(turns, spec.index, labelMaps, name);
      if IsNamed(name, turns[n].speaker, spec.index, labelMaps) {
        assert (before + [turns[n]])[..|before|] == before;
      }
    }
  }

  /** At every instant each speaker is covered exactly as often as the owning chunk's centered turns of that speaker cover it. */
  lemma SpeakerCoverIsTheOwners(chunks: seq<ChunkResult>, labelMaps: LabelMaps, overlap: int, name: string, x: int, owner: nat)
    requires InOrder(chunks) && overlap > 0 && |chunks| > 1 && Owns(chunks, overlap, owner, x)
    ensures Cover(Voice(Merged(chunks, labelMaps, overlap), name), x) == if owner < |chunks|
      then NamedCover(chunks[owner].turns, chunks[owner].spec, labelMaps, RangeOf(chunks, overlap, owner), name, x) else 0
  {
    var voices := Voices(chunks, labelMaps, name);
    SpeakersMergeApart(chunks, labelMaps, overlap, name);
    SameOwner(chunks, voices, overlap, owner, x);
    MergedCoverIsTheOwners(voices, labelMaps, overlap, x, owner);
    if owner < |chunks| { OwnerVoice(chunks, labelMaps, overlap, name, x, owner); }
  }

  lemma OwnerVoice(chunks: seq<ChunkResult>, labelMaps: LabelMaps, overlap: int, name: string, x: int, i: nat)
    requires i < |chunks| && RangeOf(Voices(chunks, labelMaps, name), overlap, i) == RangeOf(chunks, overlap, i)
    ensures OwnCover(Voices(chunks, labelMaps, name), labelMaps, overlap, i, x)
      == NamedCover(chunks[i].turns, chunks[i].spec, labelMaps, RangeOf(chunks, overlap, i), name, x)
  {
    var c, r := chunks[i], RangeOf(chunks, overlap, i);
    var voice := ChunkVoice(c.turns, c.spec.index, labelMaps, name);
    HeardIsCover(voice, c.spec, labelMaps, r, x - c.spec.start);
    HeardVoice(c.turns, c.spec, labelMaps, r, name, x);
  }

  lemma SameOwner(a: seq<ChunkResult>, b: seq<ChunkResult>, overlap: int, owner: nat, x: int)
    requires |a| == |b| && (forall i | 0 <= i < |a| :: a[i].spec == b[i].spec) && InOrder(a) && Owns(a, overlap, owner, x)
    ensures InOrder(b) && Owns(b, overlap, owner, x) && forall i | 0 <= i < |a| :: RangeOf(a, overlap, i) == RangeOf(b, overlap, i)
  {
    assert forall i | 0 <= i < |a| :: RangeOf(a, overlap, i) == RangeOf(b, overlap, i);
  }
}
