/** `compute_chunk_boundaries`: long audio is cut into overlapping chunks. Times are whole milliseconds. */
module ChunkBoundaries {
  import opened Common

  datatype Chunk = Chunk(start: int, end: int)

  function Length(c: Chunk): int {
    c.end - c.start
  }

  /** A chunk starting here can end the audio: it reaches the end, or the rest would be too short for a chunk of its own. */
  predicate IsLast(start: int, duration: int, maxChunk: int, overlap: int, minChunk: int) {
    start + maxChunk >= duration || duration - (start + maxChunk - overlap) < minChunk
  }

  /** Where the loop stands after `k` rounds. */
  function StartAt(k: nat, maxChunk: int, overlap: int): int {
    k * (maxChunk - overlap)
  }

  lemma {:induction false} StartsMove(k: nat, maxChunk: int, overlap: int)
    ensures overlap < maxChunk ==> StartAt(k, maxChunk, overlap) >= k
    ensures overlap >= maxChunk ==> StartAt(k, maxChunk, overlap) <= 0
  {
    if k > 0 {
      StartsMove(k - 1, maxChunk, overlap);
      assert StartAt(k, maxChunk, overlap) == StartAt(k - 1, maxChunk, overlap) + (maxChunk - overlap);
    }
  }

  /** A chunk starting here reaches the end, or is extended to it because the rest is too short and not too far. */
  predicate Reaches(start: int, duration: int, maxChunk: int, overlap: int, minChunk: int) {
    var rest := duration - (start + maxChunk - overlap);
    start + maxChunk >= duration || (0 < rest < minChunk && duration - start <= maxChunk + minChunk)
  }

  /** The loop ends here: nothing is left, or this chunk takes the rest. */
  predicate Stops(start: int, duration: int, maxChunk: int, overlap: int, minChunk: int) {
    start >= duration || Reaches(start, duration, maxChunk, overlap, minChunk)
  }

  /** When the loop ends: the starts advance, or it ends in the first round. */
  predicate Finishes(duration: int, maxChunk: int, overlap: int, minChunk: int) {
    overlap < maxChunk || Stops(0, duration, maxChunk, overlap, minChunk)
  }

  /** Some round ends the loop exactly under that condition; otherwise it goes on for ever. */
  lemma FinishesIff(duration: int, maxChunk: int, overlap: int, minChunk: int)
    ensures Finishes(duration, maxChunk, overlap, minChunk)
       <==> exists k: nat :: Stops(StartAt(k, maxChunk, overlap), duration, maxChunk, overlap, minChunk)
  {
    if overlap < maxChunk {
      var k := MaxInt(0, duration);
      StartsMove(k, maxChunk, overlap);
      assert Stops(StartAt(k, maxChunk, overlap), duration, maxChunk, overlap, minChunk);
    } else {
      assert StartAt(0, maxChunk, overlap) == 0;
      forall k: nat ensures StartAt(k, maxChunk, overlap) <= 0 {
        StartsMove(k, maxChunk, overlap);
      }
    }
  }

  /**
   * What the loop yields, whatever the parameters: full chunks a stride apart, and at the end one that takes the rest.
   * With a negative overlap, which leaves room between the chunks, the audio can also end in such room.
   */
  ghost predicate IsChunkList(bs: seq<Chunk>, duration: int, maxChunk: int, overlap: int, minChunk: int) {
    var n := |bs| - 1;
    if duration <= maxChunk then bs == [Chunk(0, duration)]
    else if n < 0 then duration <= 0
    else
      && AreFull(bs[..n], duration, maxChunk, overlap, minChunk)
      && StartAt(n, maxChunk, overlap) < duration
      && if Reaches(StartAt(n, maxChunk, overlap), duration, maxChunk, overlap, minChunk)
         then bs[n] == Chunk(StartAt(n, maxChunk, overlap), duration)
         else bs[n] == FullAt(n, maxChunk, overlap) && StartAt(n + 1, maxChunk, overlap) >= duration
  }

  function FullAt(k: nat, maxChunk: int, overlap: int): Chunk {
    Chunk(StartAt(k, maxChunk, overlap), StartAt(k, maxChunk, overlap) + maxChunk)
  }

  /** Full chunks, none of which ends the loop. */
  ghost predicate AreFull(bs: seq<Chunk>, duration: int, maxChunk: int, overlap: int, minChunk: int) {
    forall i | 0 <= i < |bs| :: bs[i] == FullAt(i, maxChunk, overlap) && !Stops(bs[i].start, duration, maxChunk, overlap, minChunk)
  }

  /** The chunks cover [0, duration], each but the last of full length and overlapping the next by `overlap`. */
  ghost predicate IsChunking(bs: seq<Chunk>, duration: int, maxChunk: int, overlap: int, minChunk: int) {
    var n := |bs| - 1;
    && n >= 0 && bs[0].start == 0 && bs[n].end == duration
    && (forall i | 0 <= i < n :: Length(bs[i]) == maxChunk && bs[i].end < duration)
    && (forall i | 0 <= i < n :: bs[i].end - bs[i + 1].start == overlap)
    && (forall i | 0 <= i < n :: !IsLast(bs[i].start, duration, maxChunk, overlap, minChunk))
    && IsLast(bs[n].start, duration, maxChunk, overlap, minChunk)
  }

  /** The cap on an extended chunk never decides: a short rest always fits under it. */
  lemma ExtensionCapIsRedundant(start: int, duration: int, maxChunk: int, overlap: int, minChunk: int)
    requires 0 <= overlap && duration - (start + maxChunk - overlap) < minChunk
    ensures duration - start <= maxChunk + minChunk
  {
  }

  lemma NextStart(k: nat, maxChunk: int, overlap: int)
    ensures StartAt(0, maxChunk, overlap) == 0
    ensures StartAt(k + 1, maxChunk, overlap) == StartAt(k, maxChunk, overlap) + (maxChunk - overlap)
  {
  }

  /** Sensible parameters: the chunks overlap and cover the audio. */
  lemma ChunkListIsChunking(bs: seq<Chunk>, duration: int, maxChunk: int, overlap: int, minChunk: int)
    requires 0 <= overlap && 0 <= maxChunk && IsChunkList(bs, duration, maxChunk, overlap, minChunk)
    ensures IsChunking(bs, duration, maxChunk, overlap, minChunk)
  {
    NextStart(0, maxChunk, overlap);
    if duration > maxChunk {
      var n := |bs| - 1;
      NextStart(n, maxChunk, overlap);
      forall i | 0 <= i < n ensures bs[i] == FullAt(i, maxChunk, overlap) && bs[i].end - bs[i + 1].start == overlap {
        assert bs[i] == bs[..n][i] && (i + 1 < n ==> bs[i + 1] == bs[..n][i + 1]);
        NextStart(i, maxChunk, overlap);
      }
    }
  }

  method ComputeChunkBoundaries(duration: int, maxChunk: int, overlap: int, minChunk: int) returns (bs: seq<Chunk>)
    requires Finishes(duration, maxChunk, overlap, minChunk)
    ensures IsChunkList(bs, duration, maxChunk, overlap, minChunk)
    ensures 0 <= overlap && 0 <= maxChunk ==> IsChunking(bs, duration, maxChunk, overlap, minChunk)
  {
    if duration <= maxChunk {
      bs := [Chunk(0, duration)];
    } else {
      bs := ChunkLoop(duration, maxChunk, overlap, minChunk);
    }
    if 0 <= overlap && 0 <= maxChunk { ChunkListIsChunking(bs, duration, maxChunk, overlap, minChunk); }
  }

  method ChunkLoop(duration: int, maxChunk: int, overlap: int, minChunk: int) returns (bs: seq<Chunk>)
    requires duration > maxChunk && Finishes(duration, maxChunk, overlap, minChunk)
    ensures IsChunkList(bs, duration, maxChunk, overlap, minChunk)
  {
    var step := maxChunk - overlap;
    bs := [];
    var start := 0;
    while start < duration
      invariant start == StartAt(|bs|, maxChunk, overlap) && AreFull(bs, duration, maxChunk, overlap, minChunk)
      invariant overlap < maxChunk || bs == []
      invariant bs != [] ==> StartAt(|bs| - 1, maxChunk, overlap) < duration
      decreases duration - start
    {
      var end := MinInt(start + maxChunk, duration);
      var nextStart := start + step;
      var nextChunkLen := duration - nextStart;
      var extendedLen := duration - start;
      if end < duration && 0 < nextChunkLen < minChunk && extendedLen <= maxChunk + minChunk {
        end := duration;
      }
      ghost var before := bs;
      bs := bs + [Chunk(start, end)];
      assert bs[..|bs| - 1] == before;
      NextStart(|before|, maxChunk, overlap);
      if end >= duration {
        return;
      }
      start := start + step;
    }
    if bs != [] { assert AreFull(bs[..|bs| - 1], duration, maxChunk, overlap, minChunk); }
  }

  lemma {:induction false} StartsAreMultiples(bs: seq<Chunk>, duration: int, maxChunk: int, overlap: int, minChunk: int, i: nat)
    requires IsChunking(bs, duration, maxChunk, overlap, minChunk) && i < |bs|
    ensures bs[i].start == StartAt(i, maxChunk, overlap)
  {
    if i > 0 { StartsAreMultiples(bs, duration, maxChunk, overlap, minChunk, i - 1); }
  }

  /** With more than one chunk the starts advance. */
  lemma SeveralChunksAdvance(bs: seq<Chunk>, duration: int, maxChunk: int, overlap: int, minChunk: int)
    requires IsChunking(bs, duration, maxChunk, overlap, minChunk) && |bs| > 1
    ensures overlap < maxChunk
  {
    var n := |bs| - 1;
    StartsAreMultiples(bs, duration, maxChunk, overlap, minChunk, n);
    StartsMove(n, maxChunk, overlap);
    assert !IsLast(bs[0].start, duration, maxChunk, overlap, minChunk);
  }

  /** There is at most one chunking. */
  lemma ChunkingIsUnique(bs: seq<Chunk>, cs: seq<Chunk>, duration: int, maxChunk: int, overlap: int, minChunk: int)
    requires IsChunking(bs, duration, maxChunk, overlap, minChunk) && IsChunking(cs, duration, maxChunk, overlap, minChunk)
    ensures bs == cs
  {
    var k := if |bs| < |cs| then |bs| - 1 else |cs| - 1;
    StartsAreMultiples(bs, duration, maxChunk, overlap, minChunk, k);
    StartsAreMultiples(cs, duration, maxChunk, overlap, minChunk, k);
    forall i | 0 <= i < |bs| ensures bs[i] == cs[i] {
      StartsAreMultiples(bs, duration, maxChunk, overlap, minChunk, i);
      StartsAreMultiples(cs, duration, maxChunk, overlap, minChunk, i);
    }
  }

  /** Bounds on every chunk's length. */
  lemma ChunkLengths(bs: seq<Chunk>, duration: int, maxChunk: int, overlap: int, minChunk: int, i: nat)
    requires 0 <= overlap && 0 <= minChunk
    requires IsChunking(bs, duration, maxChunk, overlap, minChunk) && i < |bs|
    ensures Length(bs[i]) <= MaxInt(maxChunk, maxChunk + minChunk - overlap)
    ensures |bs| > 1 ==> Length(bs[i]) >= MinInt(minChunk, maxChunk) && Length(bs[i]) > 0
  {
    var n := |bs| - 1;
    if n > 0 { SeveralChunksAdvance(bs, duration, maxChunk, overlap, minChunk); }
    if i == n && n > 0 {
      assert !IsLast(bs[n - 1].start, duration, maxChunk, overlap, minChunk);
      assert bs[n - 1].end - bs[n - 1 + 1].start == overlap;
    }
  }

  /** Later chunks start and end later. */
  lemma {:induction false} ChunksAdvance(bs: seq<Chunk>, duration: int, maxChunk: int, overlap: int, minChunk: int, i: nat, j: nat)
    requires 0 <= overlap && 0 <= minChunk
    requires IsChunking(bs, duration, maxChunk, overlap, minChunk) && i < j < |bs|
    ensures bs[i].start < bs[j].start && bs[i].end < bs[j].end
  {
    SeveralChunksAdvance(bs, duration, maxChunk, overlap, minChunk);
    assert bs[j - 1].end - bs[j - 1 + 1].start == overlap;
    if i < j - 1 { ChunksAdvance(bs, duration, maxChunk, overlap, minChunk, i, j - 1); }
  }

  /** Every instant of the audio is in some chunk. */
  lemma {:induction false} ChunksCover(bs: seq<Chunk>, duration: int, maxChunk: int, overlap: int, minChunk: int, t: int, n: nat)
    returns (i: nat)
    requires 0 <= overlap && IsChunking(bs, duration, maxChunk, overlap, minChunk)
    requires n < |bs| && 0 <= t < bs[n].end
    ensures i < |bs| && bs[i].start <= t < bs[i].end
  {
    if n == 0 || t >= bs[n].start {
      i := n;
    } else {
      assert bs[n - 1].end - bs[n - 1 + 1].start == overlap;
      i := ChunksCover(bs, duration, maxChunk, overlap, minChunk, t, n - 1);
    }
  }
}
