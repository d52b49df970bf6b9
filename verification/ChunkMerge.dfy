/** `merge_chunks`: per-chunk turns become one timeline; each chunk owns the time between two seams. */
module ChunkMerge {
  import opened Common
  import opened Sorting
  import opened SpeakerTurns
  import opened Measure
  import opened OverlapSweep
  import ChunkBoundaries

  datatype ChunkSpec = ChunkSpec(index: int, start: int, end: int)
  datatype ChunkResult = ChunkResult(spec: ChunkSpec, turns: seq<MsTurn>)
  datatype TaggedTurn = TaggedTurn(turn: MsTurn, chunkIdx: int)

  /** The time a chunk may speak for. */
  datatype Range = Range(start: int, end: int)

  type LabelMaps = map<int, map<string, string>>

  predicate MsTurnLe(a: MsTurn, b: MsTurn) {
    a.start < b.start || (a.start == b.start && a.end <= b.end)
  }

  // ----- Seams and ranges -----

  /** Half of `n`, ties to even: rounding a midpoint to whole milliseconds. */
  function RoundHalf(n: int): int {
    if n % 2 == 0 then n / 2 else if n / 2 % 2 == 0 then n / 2 else n / 2 + 1
  }

  /** Middle of the overlap of two neighbouring chunks. */
  function Seam(a: ChunkSpec, b: ChunkSpec, overlap: int): int {
    RoundHalf(b.start + MinInt(a.end, b.start + overlap))
  }

  function SeamAfter(chunks: seq<ChunkResult>, overlap: int, i: nat): int
    requires i + 1 < |chunks|
  {
    Seam(chunks[i].spec, chunks[i + 1].spec, overlap)
  }

  function RangeOf(chunks: seq<ChunkResult>, overlap: int, i: nat): Range
    requires i < |chunks|
  {
    Range(
      if i > 0 then SeamAfter(chunks, overlap, i - 1) else chunks[i].spec.start,
      if i + 1 < |chunks| then SeamAfter(chunks, overlap, i) else chunks[i].spec.end)
  }

  /** Chunks in time order, as the chunker makes them. */
  ghost predicate InOrder(chunks: seq<ChunkResult>) {
    && (forall i | 0 <= i < |chunks| :: chunks[i].spec.start <= chunks[i].spec.end)
    && (forall i, j | 0 <= i < j < |chunks| ::
      chunks[i].spec.start <= chunks[j].spec.start && chunks[i].spec.end <= chunks[j].spec.end
      && chunks[i].spec.index != chunks[j].spec.index)
  }

  /** The chunks that survived diarization, each with its boundaries. */
  ghost predicate AreSurvivors(chunks: seq<ChunkResult>, bs: seq<ChunkBoundaries.Chunk>) {
    && (forall i | 0 <= i < |chunks| ::
      var s := chunks[i].spec; 0 <= s.index < |bs| && s.start == bs[s.index].start && s.end == bs[s.index].end)
    && (forall i, j | 0 <= i < j < |chunks| :: chunks[i].spec.index < chunks[j].spec.index)
  }

  /** Whatever chunks fail, the survivors of a chunking are in order. */
  lemma SurvivorsAreInOrder(chunks: seq<ChunkResult>, bs: seq<ChunkBoundaries.Chunk>, duration: int, maxChunk: int, overlap: int, minChunk: int)
    requires 0 <= overlap && 0 <= minChunk && 0 <= duration
    requires ChunkBoundaries.IsChunking(bs, duration, maxChunk, overlap, minChunk) && AreSurvivors(chunks, bs)
    ensures InOrder(chunks)
  {
    forall i, j | 0 <= i < j < |chunks|
      ensures chunks[i].spec.start <= chunks[j].spec.start && chunks[i].spec.end <= chunks[j].spec.end
    {
      ChunkBoundaries.ChunksAdvance(bs, duration, maxChunk, overlap, minChunk, chunks[i].spec.index, chunks[j].spec.index);
    }
    forall i | 0 <= i < |chunks| ensures chunks[i].spec.start <= chunks[i].spec.end {
      ChunkBoundaries.ChunkLengths(bs, duration, maxChunk, overlap, minChunk, chunks[i].spec.index);
    }
  }

  lemma SeamsAdvance(chunks: seq<ChunkResult>, overlap: int, i: nat)
    requires InOrder(chunks) && overlap >= 0 && i < |chunks|
    ensures var r := RangeOf(chunks, overlap, i);
      && r.start <= r.end
      && (i == 0 ==> r.start == chunks[0].spec.start)
      && (i + 1 < |chunks| ==> r.end == RangeOf(chunks, overlap, i + 1).start)
      && (i + 1 == |chunks| ==> r.end == chunks[i].spec.end)
  {
  }

  /** The ranges tile the time from the first chunk's start to the last one's end, in order. */
  lemma {:induction false} RangesTile(chunks: seq<ChunkResult>, overlap: int, i: nat, j: nat)
    requires InOrder(chunks) && overlap >= 0 && i < j < |chunks|
    ensures RangeOf(chunks, overlap, i).end <= RangeOf(chunks, overlap, j).start
    decreases j
  {
    var before := RangeOf(chunks, overlap, j - 1);
    assert before.start <= before.end == RangeOf(chunks, overlap, j).start by { SeamsAdvance(chunks, overlap, j - 1); }
    if i < j - 1 { RangesTile(chunks, overlap, i, j - 1); }
  }

  /** Each instant between the first start and the last end has an owner. */
  lemma {:induction false} OwnerExists(chunks: seq<ChunkResult>, overlap: int, x: int, n: nat) returns (i: nat)
    requires InOrder(chunks) && overlap >= 0 && n < |chunks|
    requires chunks[0].spec.start <= x < RangeOf(chunks, overlap, n).end
    ensures i < |chunks| && InRange(RangeOf(chunks, overlap, i), x)
  {
    SeamsAdvance(chunks, overlap, n);
    if n == 0 || x >= RangeOf(chunks, overlap, n).start {
      i := n;
    } else {
      SeamsAdvance(chunks, overlap, n - 1);
      i := OwnerExists(chunks, overlap, x, n - 1);
    }
  }

  predicate InRange(r: Range, x: int) {
    r.start <= x < r.end
  }

  // ----- What becomes of a turn -----

  /** A chunk's turn on the global clock, under its global speaker. */
  function Globalize(turn: MsTurn, spec: ChunkSpec, labelMaps: LabelMaps): MsTurn {
    var labels := if spec.index in labelMaps then labelMaps[spec.index] else map[];
    SpeakerTurn(
      turn.start + spec.start,
      turn.end + spec.start,
      if turn.speaker in labels then labels[turn.speaker] else turn.speaker,
      turn.confidence,
      None)
  }

  /** The turn's midpoint is in the range, ends included. */
  predicate IsCentered(turn: MsTurn, r: Range) {
    2 * r.start <= turn.start + turn.end <= 2 * r.end
  }

  /** Nothing if the turn's midpoint is outside the range or no time is left after trimming. */
  function Trim(turn: MsTurn, r: Range): Option<MsTurn> {
    var start, end := MaxInt(turn.start, r.start), MinInt(turn.end, r.end);
    if IsCentered(turn, r) && end > start
    then Some(SpeakerTurn(start, end, turn.speaker, turn.confidence, None))
    else None
  }

  function Tag(turns: seq<MsTurn>, spec: ChunkSpec, labelMaps: LabelMaps): seq<TaggedTurn> {
    if turns == [] then []
    else
      var n := |turns| - 1;
      Tag(turns[..n], spec, labelMaps) + [TaggedTurn(Globalize(turns[n], spec, labelMaps), spec.index)]
  }

  function TagAll(chunks: seq<ChunkResult>, labelMaps: LabelMaps): seq<TaggedTurn> {
    if chunks == [] then []
    else
      var n := |chunks| - 1;
      TagAll(chunks[..n], labelMaps) + Tag(chunks[n].turns, chunks[n].spec, labelMaps)
  }

  function TrimTag(tt: TaggedTurn, ranges: map<int, Range>): seq<TaggedTurn> {
    if tt.chunkIdx !in ranges then [tt]
    else match Trim(tt.turn, ranges[tt.chunkIdx])
      case Some(t) => [TaggedTurn(t, tt.chunkIdx)]
      case None => []
  }

  function TrimAll(tagged: seq<TaggedTurn>, ranges: map<int, Range>): seq<TaggedTurn> {
    if tagged == [] then [] else TrimAll(tagged[..|tagged| - 1], ranges) + TrimTag(tagged[|tagged| - 1], ranges)
  }

  function Untag(tagged: seq<TaggedTurn>): (r: seq<MsTurn>)
    ensures |r| == |tagged| && forall i | 0 <= i < |r| :: r[i] == tagged[i].turn
  {
    seq(|tagged|, i requires 0 <= i < |tagged| => tagged[i].turn)
  }

  ghost function Ranges(chunks: seq<ChunkResult>, overlap: int, n: nat): map<int, Range>
    requires n <= |chunks|
  {
    if n == 0 then map[] else Ranges(chunks, overlap, n - 1)[chunks[n - 1].spec.index := RangeOf(chunks, overlap, n - 1)]
  }

  ghost function Resolved(chunks: seq<ChunkResult>, labelMaps: LabelMaps, overlap: int): seq<TaggedTurn> {
    var tagged := TagAll(chunks, labelMaps);
    if |chunks| > 1 && overlap > 0 then TrimAll(tagged, Ranges(chunks, overlap, |chunks|)) else tagged
  }

  method TagTurns(chunks: seq<ChunkResult>, labelMaps: LabelMaps) returns (tagged: seq<TaggedTurn>)
    ensures tagged == TagAll(chunks, labelMaps)
  {
    tagged := [];
    for i := 0 to |chunks|
      invariant tagged == TagAll(chunks[..i], labelMaps)
    {
      assert chunks[..i + 1][..i] == chunks[..i];
      var more := TagChunk(chunks[i], labelMaps);
      tagged := tagged + more;
    }
    assert chunks[..|chunks|] == chunks;
  }

  method TagChunk(chunk: ChunkResult, labelMaps: LabelMaps) returns (tagged: seq<TaggedTurn>)
    ensures tagged == Tag(chunk.turns, chunk.spec, labelMaps)
  {
    var offset := chunk.spec.start;
    var labelMap := if chunk.spec.index in labelMaps then labelMaps[chunk.spec.index] else map[];
    tagged := [];
    for j := 0 to |chunk.turns|
      invariant tagged == Tag(chunk.turns[..j], chunk.spec, labelMaps)
    {
      var turn := chunk.turns[j];
      assert chunk.turns[..j + 1][..j] == chunk.turns[..j];
      var speaker := if turn.speaker in labelMap then labelMap[turn.speaker] else turn.speaker;
      tagged := tagged + [TaggedTurn(
        SpeakerTurn(turn.start + offset, turn.end + offset, speaker, turn.confidence, None), chunk.spec.index)];
    }
    assert chunk.turns[..|chunk.turns|] == chunk.turns;
  }

  method ResolveOverlaps(chunks: seq<ChunkResult>, tagged: seq<TaggedTurn>, overlap: int) returns (kept: seq<TaggedTurn>)
    ensures kept == TrimAll(tagged, Ranges(chunks, overlap, |chunks|))
  {
    var seams: seq<int> := [];
    for i := 0 to MaxInt(0, |chunks| - 1)
      invariant |seams| == i
      invariant forall j: nat | j < i :: seams[j] == SeamAfter(chunks, overlap, j)
    {
      var overlapStart := chunks[i + 1].spec.start;
      var overlapEnd := MinInt(chunks[i].spec.end, chunks[i + 1].spec.start + overlap);
      seams := seams + [RoundHalf(overlapStart + overlapEnd)];
    }
    var ranges: map<int, Range> := map[];
    for i := 0 to |chunks|
      invariant ranges == Ranges(chunks, overlap, i)
    {
      var rangeStart := if i > 0 then seams[i - 1] else chunks[i].spec.start;
      var rangeEnd := if i < |seams| then seams[i] else chunks[i].spec.end;
      ranges := ranges[chunks[i].spec.index := Range(rangeStart, rangeEnd)];
    }
    kept := [];
    for i := 0 to |tagged|
      invariant kept == TrimAll(tagged[..i], ranges)
    {
      var tt := tagged[i];
      assert tagged[..i + 1][..i] == tagged[..i];
      if tt.chunkIdx !in ranges {
        kept := kept + [tt];
        continue;
      }
      var r := ranges[tt.chunkIdx];
      if 2 * r.start <= tt.turn.start + tt.turn.end <= 2 * r.end {
        var trimmedStart, trimmedEnd := MaxInt(tt.turn.start, r.start), MinInt(tt.turn.end, r.end);
        if trimmedEnd > trimmedStart {
          kept := kept + [TaggedTurn(
            SpeakerTurn(trimmedStart, trimmedEnd, tt.turn.speaker, tt.turn.confidence, None), tt.chunkIdx)];
        }
      }
    }
    assert tagged[..|tagged|] == tagged;
  }

  ghost function Merged(chunks: seq<ChunkResult>, labelMaps: LabelMaps, overlap: int): seq<MsTurn> {
    StableSort(Untag(Resolved(chunks, labelMaps, overlap)), MsTurnLe)
  }

  /** Python's order of strings, by code points. */
  predicate StringLe(a: string, b: string) {
    a == "" || (b != "" && (a[0] < b[0] || (a[0] == b[0] && StringLe(a[1..], b[1..]))))
  }

  lemma {:induction false} StringsCompare(a: string, b: string)
    ensures StringLe(a, b) || StringLe(b, a)
    ensures StringLe(a, b) && StringLe(b, a) ==> a == b
    decreases |a|
  {
    if a != "" && b != "" {
      StringsCompare(a[1..], b[1..]);
      assert a == [a[0]] + a[1..] && b == [b[0]] + b[1..];
    }
  }

  lemma {:induction false} StringsChain(a: string, b: string, c: string)
    requires StringLe(a, b) && StringLe(b, c)
    ensures StringLe(a, c)
    decreases |a|
  {
    if a != "" && a[0] == b[0] == c[0] { StringsChain(a[1..], b[1..], c[1..]); }
  }

  lemma StringOrder()
    ensures TotalPreorder(StringLe) && Antisymmetric(StringLe)
  {
    forall a, b ensures (StringLe(a, b) || StringLe(b, a)) && (StringLe(a, b) && StringLe(b, a) ==> a == b) {
      StringsCompare(a, b);
    }
    forall a, b, c | StringLe(a, b) && StringLe(b, c) ensures StringLe(a, c) {
      StringsChain(a, b, c);
    }
  }

  /** The speakers that occur in the turns, in order and each once. */
  ghost predicate AreSpeakers(speakers: seq<string>, turns: seq<MsTurn>) {
    SortedOnce(speakers, StringLe) && forall s :: s in speakers <==> exists t | t in turns :: t.speaker == s
  }

  lemma SpeakersAreUnique(a: seq<string>, b: seq<string>, turns: seq<MsTurn>)
    requires AreSpeakers(a, turns) && AreSpeakers(b, turns)
    ensures a == b
  {
    StringOrder();
    SortedOnceIsUnique(a, b, StringLe);
  }

  method MergeChunks(chunks: seq<ChunkResult>, labelMaps: LabelMaps, overlap: int)
    returns (speakers: seq<string>, turns: seq<MsTurn>)
    ensures turns == Merged(chunks, labelMaps, overlap)
    ensures AreSpeakers(speakers, turns)
  {
    var tagged := TagTurns(chunks, labelMaps);
    if |chunks| > 1 && overlap > 0 {
      tagged := ResolveOverlaps(chunks, tagged, overlap);
    }
    turns := StableSort(Untag(tagged), MsTurnLe);
    StringOrder();
    speakers := SortedSet(set t | t in turns :: t.speaker, StringLe);
  }

  // ----- Ownership -----

  lemma {:induction false} CoverConcat(a: seq<MsTurn>, b: seq<MsTurn>, x: int)
    ensures Cover(a + b, x) == Cover(a, x) + Cover(b, x)
  {
    if a == [] {
      assert a + b == b;
    } else {
      CoverConcat(a[1..], b, x);
      assert (a + b)[1..] == a[1..] + b;
    }
  }

  lemma {:induction false} CoverOfInsert(t: MsTurn, turns: seq<MsTurn>, x: int)
    ensures Cover(Insert(t, turns, MsTurnLe), x) == Cover([t] + turns, x)
  {
    assert ([t] + turns)[1..] == turns;
    if turns != [] && !MsTurnLe(t, turns[0]) {
      CoverOfInsert(t, turns[1..], x);
      assert ([t] + turns[1..])[1..] == turns[1..];
      assert Insert(t, turns, MsTurnLe)[1..] == Insert(t, turns[1..], MsTurnLe);
    }
  }

  /** The order of the turns does not matter to their coverage. */
  lemma {:induction false} CoverOfSorted(turns: seq<MsTurn>, x: int)
    ensures Cover(StableSort(turns, MsTurnLe), x) == Cover(turns, x)
  {
    if turns != [] {
      var rest := StableSort(turns[1..], MsTurnLe);
      CoverOfSorted(turns[1..], x);
      CoverOfInsert(turns[0], rest, x);
      assert ([turns[0]] + rest)[1..] == rest;
    }
  }

  lemma CoverOne(t: MsTurn, x: int)
    ensures Cover([t], x) == if t.start <= x < t.end then 1 else 0
  {
    assert [t][1..] == [] && Cover([], x) == 0;
  }

  lemma UntagConcat(a: seq<TaggedTurn>, b: seq<TaggedTurn>)
    ensures Untag(a + b) == Untag(a) + Untag(b)
  {
  }

  /** What a tagged turn leaves at an instant once it is trimmed. */
  ghost function Leaves(tt: TaggedTurn, ranges: map<int, Range>, x: int): nat {
    if tt.turn.start <= x < tt.turn.end
      && (tt.chunkIdx in ranges ==> InRange(ranges[tt.chunkIdx], x) && IsCentered(tt.turn, ranges[tt.chunkIdx]))
    then 1 else 0
  }

  /** How often the trimmed turns cover an instant. */
  ghost function KeptCover(tagged: seq<TaggedTurn>, ranges: map<int, Range>, x: int): nat {
    if tagged == [] then 0
    else KeptCover(tagged[..|tagged| - 1], ranges, x) + Leaves(tagged[|tagged| - 1], ranges, x)
  }

  lemma KeptCoverSnoc(before: seq<TaggedTurn>, tt: TaggedTurn, ranges: map<int, Range>, x: int)
    ensures KeptCover(before + [tt], ranges, x) == KeptCover(before, ranges, x) + Leaves(tt, ranges, x)
  {
    assert (before + [tt])[..|before|] == before;
  }

  lemma {:induction false} KeptCoverConcat(a: seq<TaggedTurn>, b: seq<TaggedTurn>, ranges: map<int, Range>, x: int)
    ensures KeptCover(a + b, ranges, x) == KeptCover(a, ranges, x) + KeptCover(b, ranges, x)
    decreases |b|
  {
    if b == [] {
      assert a + b == a;
    } else {
      var n := |b| - 1;
      KeptCoverConcat(a, b[..n], ranges, x);
      assert a + b == (a + b[..n]) + [b[n]];
      KeptCoverSnoc(a + b[..n], b[n], ranges, x);
    }
  }

  lemma LeavesTrimmed(tt: TaggedTurn, ranges: map<int, Range>, x: int)
    ensures Cover(Untag(TrimTag(tt, ranges)), x) == Leaves(tt, ranges, x)
  {
    var kept := TrimTag(tt, ranges);
    if kept != [] {
      assert Untag(kept) == [kept[0].turn];
      CoverOne(kept[0].turn, x);
    } else {
      assert Untag(kept) == [] && Cover([], x) == 0;
    }
  }

  lemma {:induction false} KeptCoverIsCover(tagged: seq<TaggedTurn>, ranges: map<int, Range>, x: int)
    ensures KeptCover(tagged, ranges, x) == Cover(Untag(TrimAll(tagged, ranges)), x)
  {
    if tagged == [] {
      assert Untag([]) == [];
    } else {
      var n := |tagged| - 1;
      var before, kept := TrimAll(tagged[..n], ranges), TrimTag(tagged[n], ranges);
      KeptCoverIsCover(tagged[..n], ranges, x);
      UntagConcat(before, kept);
      CoverConcat(Untag(before), Untag(kept), x);
      LeavesTrimmed(tagged[n], ranges, x);
    }
  }

  lemma TagSnoc(before: seq<MsTurn>, turn: MsTurn, spec: ChunkSpec, labelMaps: LabelMaps)
    ensures Tag(before + [turn], spec, labelMaps) ==
      Tag(before, spec, labelMaps) + [TaggedTurn(Globalize(turn, spec, labelMaps), spec.index)]
  {
    assert (before + [turn])[..|before|] == before;
  }

  lemma CoverSnoc(before: seq<MsTurn>, turn: MsTurn, x: int)
    ensures Cover(before + [turn], x) == Cover(before, x) + if turn.start <= x < turn.end then 1 else 0
  {
    CoverConcat(before, [turn], x);
    CoverOne(turn, x);
  }

  /** The turns of a chunk, on its own clock, that have their midpoint in its range. */
  function Centered(turns: seq<MsTurn>, spec: ChunkSpec, labelMaps: LabelMaps, r: Range): seq<MsTurn> {
    if turns == [] then []
    else
      var n := |turns| - 1;
      Centered(turns[..n], spec, labelMaps, r) + if IsCentered(Globalize(turns[n], spec, labelMaps), r) then [turns[n]] else []
  }

  /** What a turn adds to the coverage of an instant on the chunk's clock, if it is centered. */
  ghost function Adds(turn: MsTurn, spec: ChunkSpec, labelMaps: LabelMaps, r: Range, x: int): nat {
    if IsCentered(Globalize(turn, spec, labelMaps), r) && turn.start <= x < turn.end then 1 else 0
  }

  lemma CenteredSnoc(before: seq<MsTurn>, turn: MsTurn, spec: ChunkSpec, labelMaps: LabelMaps, r: Range, x: int)
    ensures Cover(Centered(before + [turn], spec, labelMaps, r), x) ==
      Cover(Centered(before, spec, labelMaps, r), x) + Adds(turn, spec, labelMaps, r, x)
  {
    assert (before + [turn])[..|before|] == before;
    var some := Centered(before, spec, labelMaps, r);
    if IsCentered(Globalize(turn, spec, labelMaps), r) { CoverSnoc(some, turn, x); } else { assert some + [] == some; }
  }

  lemma {:induction false} CenteredCoversLess(turns: seq<MsTurn>, spec: ChunkSpec, labelMaps: LabelMaps, r: Range, x: int)
    ensures Cover(Centered(turns, spec, labelMaps, r), x) <= Cover(turns, x)
  {
    if turns != [] {
      var before, turn := turns[..|turns| - 1], turns[|turns| - 1];
      assert turns == before + [turn];
      CenteredCoversLess(before, spec, labelMaps, r, x);
      CenteredSnoc(before, turn, spec, labelMaps, r, x);
      CoverSnoc(before, turn, x);
    }
  }

  /** How often the turns centered in the range cover an instant on the chunk's clock. */
  ghost function Heard(turns: seq<MsTurn>, spec: ChunkSpec, labelMaps: LabelMaps, r: Range, x: int): nat {
    if turns == [] then 0
    else Heard(turns[..|turns| - 1], spec, labelMaps, r, x) + Adds(turns[|turns| - 1], spec, labelMaps, r, x)
  }

  lemma CenteredLast(turns: seq<MsTurn>, spec: ChunkSpec, labelMaps: LabelMaps, r: Range, x: int)
    requires turns != []
    ensures var n := |turns| - 1;
      Cover(Centered(turns, spec, labelMaps, r), x) ==
      Cover(Centered(turns[..n], spec, labelMaps, r), x) + Adds(turns[n], spec, labelMaps, r, x)
  {
    var n := |turns| - 1;
    assert turns == turns[..n] + [turns[n]];
    CenteredSnoc(turns[..n], turns[n], spec, labelMaps, r, x);
  }

  lemma {:induction false} HeardIsCover(turns: seq<MsTurn>, spec: ChunkSpec, labelMaps: LabelMaps, r: Range, x: int)
    ensures Heard(turns, spec, labelMaps, r, x) == Cover(Centered(turns, spec, labelMaps, r), x)
  {
    if turns != [] {
      var n := |turns| - 1;
      HeardIsCover(turns[..n], spec, labelMaps, r, x);
      CenteredLast(turns, spec, labelMaps, r, x);
    }
  }

  /** One chunk's turns after trimming: inside the range the coverage of those centered in it, none outside. */
  lemma {:induction false} TrimmedCover(turns: seq<MsTurn>, spec: ChunkSpec, labelMaps: LabelMaps, ranges: map<int, Range>, x: int)
    requires spec.index in ranges
    ensures KeptCover(Tag(turns, spec, labelMaps), ranges, x) ==
      if InRange(ranges[spec.index], x) then Heard(turns, spec, labelMaps, ranges[spec.index], x - spec.start) else 0
  {
    if turns != [] {
      var n := |turns| - 1;
      TrimmedCover(turns[..n], spec, labelMaps, ranges, x);
      KeptCoverSnoc(
        Tag(turns[..n], spec, labelMaps), TaggedTurn(Globalize(turns[n], spec, labelMaps), spec.index), ranges, x);
    }
  }

  /** Moving turns to the global clock shifts their coverage. */
  lemma {:induction false} TaggedCover(turns: seq<MsTurn>, spec: ChunkSpec, labelMaps: LabelMaps, x: int)
    ensures Cover(Untag(Tag(turns, spec, labelMaps)), x) == Cover(turns, x - spec.start)
  {
    if turns == [] {
      assert Untag([]) == [];
    } else {
      var before, turn := turns[..|turns| - 1], turns[|turns| - 1];
      assert turns == before + [turn];
      TaggedCover(before, spec, labelMaps, x);
      var tt := TaggedTurn(Globalize(turn, spec, labelMaps), spec.index);
      TagSnoc(before, turn, spec, labelMaps);
      UntagConcat(Tag(before, spec, labelMaps), [tt]);
      assert Untag([tt]) == [tt.turn];
      CoverSnoc(Untag(Tag(before, spec, labelMaps)), tt.turn, x);
      CoverSnoc(before, turn, x - spec.start);
    }
  }

  lemma {:induction false} RangesHold(chunks: seq<ChunkResult>, overlap: int, n: nat, i: nat)
    requires InOrder(chunks) && i < n <= |chunks|
    ensures chunks[i].spec.index in Ranges(chunks, overlap, n)
    ensures Ranges(chunks, overlap, n)[chunks[i].spec.index] == RangeOf(chunks, overlap, i)
  {
    if i < n - 1 { RangesHold(chunks, overlap, n - 1, i); }
  }

  /** `owner` is the chunk in whose range the instant is, or the number of chunks if there is none. */
  ghost predicate Owns(chunks: seq<ChunkResult>, overlap: int, owner: nat, x: int) {
    && owner <= |chunks|
    && (owner < |chunks| ==> InRange(RangeOf(chunks, overlap, owner), x))
    && (owner == |chunks| ==> forall i | 0 <= i < |chunks| :: !InRange(RangeOf(chunks, overlap, i), x))
  }

  /** How often chunk `i` covers an instant with the turns centered in its range. */
  ghost function OwnCover(chunks: seq<ChunkResult>, labelMaps: LabelMaps, overlap: int, i: nat, x: int): nat
    requires i < |chunks|
  {
    Cover(Centered(chunks[i].turns, chunks[i].spec, labelMaps, RangeOf(chunks, overlap, i)), x - chunks[i].spec.start)
  }

  lemma TagAllSnoc(chunks: seq<ChunkResult>, labelMaps: LabelMaps, k: nat)
    requires k < |chunks|
    ensures TagAll(chunks[..k + 1], labelMaps) == TagAll(chunks[..k], labelMaps) + Tag(chunks[k].turns, chunks[k].spec, labelMaps)
  {
    assert chunks[..k + 1][..k] == chunks[..k];
  }

  lemma OneOwner(chunks: seq<ChunkResult>, overlap: int, i: nat, j: nat, x: int)
    requires InOrder(chunks) && overlap >= 0 && i < |chunks| && j < |chunks| && i != j
    requires InRange(RangeOf(chunks, overlap, i), x)
    ensures !InRange(RangeOf(chunks, overlap, j), x)
  {
    if i < j { RangesTile(chunks, overlap, i, j); } else { RangesTile(chunks, overlap, j, i); }
  }

  /** How often a chunk's trimmed turns cover an instant. */
  ghost function Share(c: ChunkResult, labelMaps: LabelMaps, ranges: map<int, Range>, x: int): nat {
    KeptCover(Tag(c.turns, c.spec, labelMaps), ranges, x)
  }

  lemma OwnCoverIsLess(chunks: seq<ChunkResult>, labelMaps: LabelMaps, overlap: int, x: int, i: nat)
    requires i < |chunks|
    ensures OwnCover(chunks, labelMaps, overlap, i, x) <= Cover(chunks[i].turns, x - chunks[i].spec.start)
  {
    var c, r := chunks[i], RangeOf(chunks, overlap, i);
    CenteredCoversLess(c.turns, c.spec, labelMaps, r, x - c.spec.start);
  }

  lemma ShareIsOwn(chunks: seq<ChunkResult>, labelMaps: LabelMaps, overlap: int, x: int, k: nat)
    requires InOrder(chunks) && k < |chunks|
    ensures Share(chunks[k], labelMaps, Ranges(chunks, overlap, |chunks|), x) ==
      if InRange(RangeOf(chunks, overlap, k), x) then OwnCover(chunks, labelMaps, overlap, k, x) else 0
  {
    var c, r, ranges := chunks[k], RangeOf(chunks, overlap, k), Ranges(chunks, overlap, |chunks|);
    RangesHold(chunks, overlap, |chunks|, k);
    TrimmedCover(c.turns, c.spec, labelMaps, ranges, x);
    HeardIsCover(c.turns, c.spec, labelMaps, r, x - c.spec.start);
  }

  lemma ChunkCover(chunks: seq<ChunkResult>, labelMaps: LabelMaps, overlap: int, x: int, owner: nat, k: nat)
    requires InOrder(chunks) && overlap > 0 && k < |chunks| && Owns(chunks, overlap, owner, x)
    ensures Share(chunks[k], labelMaps, Ranges(chunks, overlap, |chunks|), x) ==
      if owner == k then OwnCover(chunks, labelMaps, overlap, k, x) else 0
  {
    ShareIsOwn(chunks, labelMaps, overlap, x, k);
    if owner < |chunks| && owner != k { OneOwner(chunks, overlap, owner, k, x); }
  }

  lemma OneMoreChunk(chunks: seq<ChunkResult>, labelMaps: LabelMaps, ranges: map<int, Range>, x: int, k: nat)
    requires k < |chunks|
    ensures KeptCover(TagAll(chunks[..k + 1], labelMaps), ranges, x) ==
      KeptCover(TagAll(chunks[..k], labelMaps), ranges, x) + Share(chunks[k], labelMaps, ranges, x)
  {
    TagAllSnoc(chunks, labelMaps, k);
    KeptCoverConcat(TagAll(chunks[..k], labelMaps), Tag(chunks[k].turns, chunks[k].spec, labelMaps), ranges, x);
  }

  /** If only one of the chunks has a share, the first `n` together have it once they include that one. */
  lemma {:induction false} CoverUpTo(chunks: seq<ChunkResult>, labelMaps: LabelMaps, ranges: map<int, Range>, x: int, owner: nat, own: nat, n: nat)
    requires n <= |chunks|
    requires forall k | 0 <= k < |chunks| :: Share(chunks[k], labelMaps, ranges, x) == if owner == k then own else 0
    ensures KeptCover(TagAll(chunks[..n], labelMaps), ranges, x) == if owner < n then own else 0
  {
    if n > 0 {
      CoverUpTo(chunks, labelMaps, ranges, x, owner, own, n - 1);
      OneMoreChunk(chunks, labelMaps, ranges, x, n - 1);
    }
  }

  /**
   * At every instant the merged timeline is covered as often as the owning chunk covers it with the turns centered in
   * its range; so never more often than that chunk's own turns do, and not at all where no chunk is the owner.
   */
  lemma MergedCoverIsTheOwners(chunks: seq<ChunkResult>, labelMaps: LabelMaps, overlap: int, x: int, owner: nat)
    requires InOrder(chunks) && overlap > 0 && |chunks| > 1 && Owns(chunks, overlap, owner, x)
    ensures Cover(Merged(chunks, labelMaps, overlap), x) == if owner < |chunks| then OwnCover(chunks, labelMaps, overlap, owner, x) else 0
    ensures owner < |chunks| ==> OwnCover(chunks, labelMaps, overlap, owner, x) <= Cover(chunks[owner].turns, x - chunks[owner].spec.start)
  {
    var ranges := Ranges(chunks, overlap, |chunks|);
    var own := if owner < |chunks| then OwnCover(chunks, labelMaps, overlap, owner, x) else 0;
    if owner < |chunks| { OwnCoverIsLess(chunks, labelMaps, overlap, x, owner); }
    forall k | 0 <= k < |chunks| ensures Share(chunks[k], labelMaps, ranges, x) == if owner == k then own else 0 {
      ChunkCover(chunks, labelMaps, overlap, x, owner, k);
    }
    CoverUpTo(chunks, labelMaps, ranges, x, owner, own, |chunks|);
    assert chunks[..|chunks|] == chunks;
    KeptCoverIsCover(TagAll(chunks, labelMaps), ranges, x);
    CoverOfSorted(Untag(Resolved(chunks, labelMaps, overlap)), x);
  }

  /** Every turn of the chunk that covers the instant, on the chunk's clock, is centered in the range. */
  ghost predicate AllCentered(turns: seq<MsTurn>, spec: ChunkSpec, labelMaps: LabelMaps, r: Range, x: int) {
    forall t | t in turns && t.start <= x < t.end :: IsCentered(Globalize(t, spec, labelMaps), r)
  }

  lemma {:induction false} CenteredCoversAllIff(turns: seq<MsTurn>, spec: ChunkSpec, labelMaps: LabelMaps, r: Range, x: int)
    ensures Cover(Centered(turns, spec, labelMaps, r), x) == Cover(turns, x) <==> AllCentered(turns, spec, labelMaps, r, x)
  {
    if turns != [] {
      var before, turn := turns[..|turns| - 1], turns[|turns| - 1];
      assert turns == before + [turn];
      CenteredCoversAllIff(before, spec, labelMaps, r, x);
      CenteredCoversLess(before, spec, labelMaps, r, x);
      CenteredSnoc(before, turn, spec, labelMaps, r, x);
      CoverSnoc(before, turn, x);
    }
  }

  lemma OwnCoverIsAllIff(chunks: seq<ChunkResult>, labelMaps: LabelMaps, overlap: int, x: int, i: nat)
    requires i < |chunks|
    ensures var c := chunks[i];
      OwnCover(chunks, labelMaps, overlap, i, x) == Cover(c.turns, x - c.spec.start) <==>
      AllCentered(c.turns, c.spec, labelMaps, RangeOf(chunks, overlap, i), x - c.spec.start)
  {
    var c, r := chunks[i], RangeOf(chunks, overlap, i);
    CenteredCoversAllIff(c.turns, c.spec, labelMaps, r, x - c.spec.start);
    assert OwnCover(chunks, labelMaps, overlap, i, x) == Cover(Centered(c.turns, c.spec, labelMaps, r), x - c.spec.start);
  }

  /** The owner loses none of its coverage at an instant if and only if all its turns there are centered in its range. */
  lemma OwnerIsHeardIffCentered(chunks: seq<ChunkResult>, labelMaps: LabelMaps, overlap: int, x: int, i: nat)
    requires InOrder(chunks) && overlap > 0 && |chunks| > 1 && i < |chunks| && InRange(RangeOf(chunks, overlap, i), x)
    ensures var c := chunks[i];
      Cover(Merged(chunks, labelMaps, overlap), x) == Cover(c.turns, x - c.spec.start) <==>
      AllCentered(c.turns, c.spec, labelMaps, RangeOf(chunks, overlap, i), x - c.spec.start)
  {
    MergedCoverIsTheOwners(chunks, labelMaps, overlap, x, i);
    OwnCoverIsAllIff(chunks, labelMaps, overlap, x, i);
  }

  /** It can: a turn that lies mostly past the seam is dropped, although its chunk owns the beginning. */
  lemma OffCenterTurnIsDropped(speaker: string)
    ensures var t := SpeakerTurn(90, 120, speaker, None, None);
      var chunks := [ChunkResult(ChunkSpec(0, 0, 120), [t]), ChunkResult(ChunkSpec(1, 80, 200), [])];
      && InRange(RangeOf(chunks, 40, 0), 90) && Cover(chunks[0].turns, 90) == 1
      && Cover(Merged(chunks, map[], 40), 90) == 0
  {
    var t: MsTurn := SpeakerTurn(90, 120, speaker, None, None);
    var chunks := [ChunkResult(ChunkSpec(0, 0, 120), [t]), ChunkResult(ChunkSpec(1, 80, 200), [])];
    CoverOne(t, 90);
    MergedCoverIsTheOwners(chunks, map[], 40, 90, 0);
    OwnerIsHeardIffCentered(chunks, map[], 40, 90, 0);
    assert t in [t] && !IsCentered(Globalize(t, chunks[0].spec, map[]), RangeOf(chunks, 40, 0));
  }

  /** A merged turn is a turn of some chunk, on the global clock and trimmed to that chunk's range. */
  lemma MergedTurnHasOneOwner(chunks: seq<ChunkResult>, labelMaps: LabelMaps, overlap: int, t: MsTurn) returns (i: nat, j: nat)
    requires InOrder(chunks) && overlap > 0 && |chunks| > 1 && t in Merged(chunks, labelMaps, overlap)
    ensures i < |chunks| && j < |chunks[i].turns|
    ensures Trim(Globalize(chunks[i].turns[j], chunks[i].spec, labelMaps), RangeOf(chunks, overlap, i)) == Some(t)
    ensures forall x | t.start <= x < t.end :: InRange(RangeOf(chunks, overlap, i), x)
  {
    var tt := MergedFrom(TagAll(chunks, labelMaps), Ranges(chunks, overlap, |chunks|), t);
    i, j := TaggedFrom(chunks, labelMaps, tt);
    RangesHold(chunks, overlap, |chunks|, i);
  }

  lemma MsOrderIsTotal()
    ensures TotalPreorder(MsTurnLe)
  {
  }

  lemma {:induction false} TrimmedFrom(tagged: seq<TaggedTurn>, ranges: map<int, Range>, kept: TaggedTurn) returns (tt: TaggedTurn)
    requires kept in TrimAll(tagged, ranges)
    ensures tt in tagged && kept in TrimTag(tt, ranges)
    decreases |tagged|
  {
    var n := |tagged| - 1;
    if kept in TrimTag(tagged[n], ranges) {
      tt := tagged[n];
    } else {
      tt := TrimmedFrom(tagged[..n], ranges, kept);
    }
  }

  /** Where a merged turn comes from. */
  lemma MergedFrom(tagged: seq<TaggedTurn>, ranges: map<int, Range>, t: MsTurn) returns (tt: TaggedTurn)
    requires t in StableSort(Untag(TrimAll(tagged, ranges)), MsTurnLe)
    ensures tt in tagged && (tt.chunkIdx in ranges ==> Trim(tt.turn, ranges[tt.chunkIdx]) == Some(t))
  {
    var kept := TrimAll(tagged, ranges);
    MsOrderIsTotal();
    SortMembers(Untag(kept), MsTurnLe);
    var k :| 0 <= k < |kept| && Untag(kept)[k] == t;
    tt := TrimmedFrom(tagged, ranges, kept[k]);
  }

  lemma {:induction false} TaggedFrom(chunks: seq<ChunkResult>, labelMaps: LabelMaps, tt: TaggedTurn) returns (i: nat, j: nat)
    requires tt in TagAll(chunks, labelMaps)
    ensures i < |chunks| && j < |chunks[i].turns|
    ensures tt == TaggedTurn(Globalize(chunks[i].turns[j], chunks[i].spec, labelMaps), chunks[i].spec.index)
    decreases |chunks|
  {
    var n := |chunks| - 1;
    if tt in TagAll(chunks[..n], labelMaps) {
      i, j := TaggedFrom(chunks[..n], labelMaps, tt);
    } else {
      i := n;
      j := TagFrom(chunks[n].turns, chunks[n].spec, labelMaps, tt);
    }
  }

  lemma {:induction false} TagFrom(turns: seq<MsTurn>, spec: ChunkSpec, labelMaps: LabelMaps, tt: TaggedTurn) returns (j: nat)
    requires tt in Tag(turns, spec, labelMaps)
    ensures j < |turns| && tt == TaggedTurn(Globalize(turns[j], spec, labelMaps), spec.index)
    decreases |turns|
  {
    var n := |turns| - 1;
    if tt == TaggedTurn(Globalize(turns[n], spec, labelMaps), spec.index) {
      j := n;
    } else {
      j := TagFrom(turns[..n], spec, labelMaps, tt);
    }
  }

  lemma {:induction false} TagReaches(chunks: seq<ChunkResult>, labelMaps: LabelMaps, i: nat, j: nat)
    requires i < |chunks| && j < |chunks[i].turns|
    ensures TaggedTurn(Globalize(chunks[i].turns[j], chunks[i].spec, labelMaps), chunks[i].spec.index) in TagAll(chunks, labelMaps)
    decreases |chunks|
  {
    var n := |chunks| - 1;
    if i < n { TagReaches(chunks[..n], labelMaps, i, j); } else { TagReachesTurn(chunks[n].turns, chunks[n].spec, labelMaps, j); }
  }

  lemma {:induction false} TagReachesTurn(turns: seq<MsTurn>, spec: ChunkSpec, labelMaps: LabelMaps, j: nat)
    requires j < |turns|
    ensures TaggedTurn(Globalize(turns[j], spec, labelMaps), spec.index) in Tag(turns, spec, labelMaps)
    decreases |turns|
  {
    if j < |turns| - 1 { TagReachesTurn(turns[..|turns| - 1], spec, labelMaps, j); }
  }

  lemma {:induction false} TrimReaches(tagged: seq<TaggedTurn>, ranges: map<int, Range>, tt: TaggedTurn, kept: TaggedTurn)
    requires tt in tagged && kept in TrimTag(tt, ranges)
    ensures kept in TrimAll(tagged, ranges)
    decreases |tagged|
  {
    var n := |tagged| - 1;
    if tt != tagged[n] { TrimReaches(tagged[..n], ranges, tt, kept); }
  }

  /** Each turn that survives trimming is merged; a non-empty turn inside its chunk's range survives unchanged. */
  lemma TurnsSurvive(chunks: seq<ChunkResult>, labelMaps: LabelMaps, overlap: int, i: nat, j: nat)
    requires InOrder(chunks) && overlap > 0 && |chunks| > 1 && i < |chunks| && j < |chunks[i].turns|
    ensures var t := Globalize(chunks[i].turns[j], chunks[i].spec, labelMaps);
      var r := RangeOf(chunks, overlap, i);
      && (Trim(t, r).Some? ==> Trim(t, r).value in Merged(chunks, labelMaps, overlap))
      && (r.start <= t.start < t.end <= r.end ==> t in Merged(chunks, labelMaps, overlap))
  {
    var spec := chunks[i].spec;
    var t, r := Globalize(chunks[i].turns[j], spec, labelMaps), RangeOf(chunks, overlap, i);
    if Trim(t, r).Some? {
      var tagged, ranges := TagAll(chunks, labelMaps), Ranges(chunks, overlap, |chunks|);
      var kept := TaggedTurn(Trim(t, r).value, spec.index);
      RangesHold(chunks, overlap, |chunks|, i);
      TagReaches(chunks, labelMaps, i, j);
      TrimReaches(tagged, ranges, TaggedTurn(t, spec.index), kept);
      var k :| 0 <= k < |TrimAll(tagged, ranges)| && TrimAll(tagged, ranges)[k] == kept;
      assert Untag(TrimAll(tagged, ranges))[k] == kept.turn;
      MsOrderIsTotal();
      SortMembers(Untag(TrimAll(tagged, ranges)), MsTurnLe);
    }
  }

  /** No chunk's own turns overlap. */
  ghost predicate Exclusive(chunks: seq<ChunkResult>) {
    forall i, x | 0 <= i < |chunks| :: Cover(chunks[i].turns, x) <= 1
  }

  lemma LoneChunk(chunk: ChunkResult, labelMaps: LabelMaps, overlap: int, x: int)
    ensures Cover(Merged([chunk], labelMaps, overlap), x) == Cover(chunk.turns, x - chunk.spec.start)
  {
    TaggedCover(chunk.turns, chunk.spec, labelMaps, x);
    TagAllSnoc([chunk], labelMaps, 0);
    var tags := Tag(chunk.turns, chunk.spec, labelMaps);
    assert [chunk][..1] == [chunk] && [chunk][..0] == [] && TagAll([], labelMaps) == [];
    assert TagAll([chunk], labelMaps) == [] + tags == tags;
    CoverOfSorted(Untag(Resolved([chunk], labelMaps, overlap)), x);
  }

  /** If no chunk's own turns overlap, no instant of the merged timeline is covered twice. */
  lemma ExclusiveChunksMergeWithoutOverlap(chunks: seq<ChunkResult>, labelMaps: LabelMaps, overlap: int, x: int)
    requires InOrder(chunks) && overlap > 0 && chunks != [] && Exclusive(chunks)
    ensures Cover(Merged(chunks, labelMaps, overlap), x) <= 1
  {
    if |chunks| == 1 {
      LoneChunk(chunks[0], labelMaps, overlap, x);
      assert chunks == [chunks[0]];
    } else {
      var owner: nat := |chunks|;
      if i: nat :| i < |chunks| && InRange(RangeOf(chunks, overlap, i), x) { owner := i; }
      MergedCoverIsTheOwners(chunks, labelMaps, overlap, x, owner);
    }
  }

  lemma TaggedIsProper(chunks: seq<ChunkResult>, labelMaps: LabelMaps, tt: TaggedTurn)
    requires tt in TagAll(chunks, labelMaps) && forall i | 0 <= i < |chunks| :: Proper(chunks[i].turns)
    ensures tt.turn.start <= tt.turn.end
  {
    var i, j := TaggedFrom(chunks, labelMaps, tt);
    assert chunks[i].turns[j] in chunks[i].turns;
  }

  lemma ResolvedIsProper(chunks: seq<ChunkResult>, labelMaps: LabelMaps, overlap: int, tt: TaggedTurn)
    requires tt in Resolved(chunks, labelMaps, overlap) && forall i | 0 <= i < |chunks| :: Proper(chunks[i].turns)
    ensures tt.turn.start <= tt.turn.end
  {
    if |chunks| > 1 && overlap > 0 {
      var ranges := Ranges(chunks, overlap, |chunks|);
      var whole := TrimmedFrom(TagAll(chunks, labelMaps), ranges, tt);
      TaggedIsProper(chunks, labelMaps, whole);
    } else {
      TaggedIsProper(chunks, labelMaps, tt);
    }
  }

  lemma MergedIsProper(chunks: seq<ChunkResult>, labelMaps: LabelMaps, overlap: int)
    requires forall i | 0 <= i < |chunks| :: Proper(chunks[i].turns)
    ensures Proper(Merged(chunks, labelMaps, overlap))
  {
    var resolved := Resolved(chunks, labelMaps, overlap);
    MsOrderIsTotal();
    SortMembers(Untag(resolved), MsTurnLe);
    forall t | t in Merged(chunks, labelMaps, overlap) ensures t.start <= t.end {
      var k :| 0 <= k < |resolved| && Untag(resolved)[k] == t;
      ResolvedIsProper(chunks, labelMaps, overlap, resolved[k]);
    }
  }

  /** In exclusive mode the sweep of the merged timeline finds nothing: it gets proper turns and measures overlap zero. */
  lemma ExclusiveMergeMeasuresNoOverlap(chunks: seq<ChunkResult>, labelMaps: LabelMaps, overlap: int, lo: int, hi: int)
    requires InOrder(chunks) && overlap > 0 && chunks != [] && Exclusive(chunks)
    requires forall i | 0 <= i < |chunks| :: Proper(chunks[i].turns)
    ensures var turns := Merged(chunks, labelMaps, overlap);
      Proper(turns) && Length(x => Cover(turns, x) >= 2, lo, hi) == 0
  {
    var turns := Merged(chunks, labelMaps, overlap);
    MergedIsProper(chunks, labelMaps, overlap);
    forall x ensures Cover(turns, x) <= 1 {
      ExclusiveChunksMergeWithoutOverlap(chunks, labelMaps, overlap, x);
    }
    LengthOfConstantOrEmpty(x => Cover(turns, x) >= 2, lo, hi);
  }
}
