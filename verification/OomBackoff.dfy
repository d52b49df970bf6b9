/** `_transcribe_chunks_with_backoff`: chunks are transcribed in order; running out of memory halves the chunk cap and resumes. */
module OomBackoff {
  import opened Common
  import opened TranscriptMerge
  import opened VadChunker

  const MIN_CHUNK_FLOOR_S := 60.0

  /** What transcribing a chunk does, pass by pass. */
  datatype Fate = Transcribed(transcript: Transcript) | OutOfMemory | OtherError
  type Fates = (nat, AudioChunk) -> Fate

  /** The chunks that the chunker makes of the audio, given a cap and a resume boundary. */
  type Splitter = (real, real) -> seq<AudioChunk>

  /** A transcribed chunk. */
  datatype Completed = Completed(chunk: AudioChunk, transcript: Transcript)

  datatype RunResult =
    | Finished(completed: seq<Completed>, finalMax: real)
    | OomAtFloor
    | Failed

  function ChunksOf(done: seq<Completed>): (r: seq<AudioChunk>)
    ensures |r| == |done| && forall i | 0 <= i < |r| :: r[i] == done[i].chunk
  {
    seq(|done|, i requires 0 <= i < |done| => done[i].chunk)
  }

  ghost function SpansOf(done: seq<Completed>): seq<Span> {
    Spans(ChunksOf(done))
  }

  // ----- A run, pass by pass -----

  function NextCap(cap: real): real {
    Max(cap / 2.0, MIN_CHUNK_FLOOR_S)
  }

  /** The cap after `n` reductions. */
  function CapAt(maxChunk: real, n: nat): (cap: real)
    requires maxChunk > 0.0
    ensures cap > 0.0
  {
    if n == 0 then maxChunk else NextCap(CapAt(maxChunk, n - 1))
  }

  /** Index of the first chunk that a pass does not transcribe, or the number of chunks. */
  function Stop(chunks: seq<AudioChunk>, pass: nat, fate: Fates): (k: nat)
    ensures k <= |chunks| && forall i | 0 <= i < k :: fate(pass, chunks[i]).Transcribed?
    ensures k < |chunks| ==> !fate(pass, chunks[k]).Transcribed?
  {
    if chunks == [] || !fate(pass, chunks[0]).Transcribed? then 0 else 1 + Stop(chunks[1..], pass, fate)
  }

  function DoneBy(chunks: seq<AudioChunk>, pass: nat, fate: Fates): (done: seq<Completed>)
    ensures ChunksOf(done) == chunks[..Stop(chunks, pass, fate)]
  {
    var k := Stop(chunks, pass, fate);
    seq(k, i requires 0 <= i < k => Completed(chunks[i], fate(pass, chunks[i]).transcript))
  }

  /** What a pass starts from: its cap, its resume boundary, and what earlier passes transcribed. */
  datatype Start = Start(cap: real, boundary: real, done: seq<Completed>)

  /** What the next pass starts from, if this one runs out of memory and the cap can be reduced. */
  function NextStart(split: Splitter, s: Start, pass: nat, fate: Fates): Option<Start>
  {
    var chunks := split(s.cap, s.boundary);
    var k := Stop(chunks, pass, fate);
    if k < |chunks| && fate(pass, chunks[k]).OutOfMemory? && NextCap(s.cap) < s.cap
    then Some(Start(NextCap(s.cap), chunks[k].offset, s.done + DoneBy(chunks, pass, fate)))
    else None
  }

  /** What the run returns if this pass is the last. */
  function LastPass(split: Splitter, s: Start, pass: nat, fate: Fates): RunResult
  {
    var chunks := split(s.cap, s.boundary);
    var k := Stop(chunks, pass, fate);
    if k == |chunks| then Finished(s.done + DoneBy(chunks, pass, fate), s.cap)
    else if fate(pass, chunks[k]).OutOfMemory? then OomAtFloor
    else Failed
  }

  /** The start of pass `n + 1`, if `n` passes ran out of memory and could reduce the cap. */
  function Before(split: Splitter, maxChunk: real, fate: Fates, n: nat): (r: Option<Start>)
    requires maxChunk > 0.0
    ensures r.Some? ==> r.value.cap == CapAt(maxChunk, n)
  {
    if n == 0 then Some(Start(maxChunk, 0.0, []))
    else match Before(split, maxChunk, fate, n - 1)
      case None => None
      case Some(s) => NextStart(split, s, n, fate)
  }

  /** Pass `n + 1` is made and is the last one. */
  predicate EndsAfter(split: Splitter, maxChunk: real, fate: Fates, n: nat)
    requires maxChunk > 0.0
  {
    Before(split, maxChunk, fate, n).Some? && Before(split, maxChunk, fate, n + 1).None?
  }

  function Outcome(split: Splitter, maxChunk: real, fate: Fates, n: nat): RunResult
    requires maxChunk > 0.0 && EndsAfter(split, maxChunk, fate, n)
  {
    LastPass(split, Before(split, maxChunk, fate, n).value, n + 1, fate)
  }

  /** The boundaries that the first `n + 1` passes resume from. */
  function Boundaries(split: Splitter, maxChunk: real, fate: Fates, n: nat): seq<real>
    requires maxChunk > 0.0 && Before(split, maxChunk, fate, n).Some?
  {
    if n == 0 then [0.0] else Boundaries(split, maxChunk, fate, n - 1) + [Before(split, maxChunk, fate, n).value.boundary]
  }

  /** The first `n` reduced caps. */
  function ReducedCaps(maxChunk: real, n: nat): (r: seq<real>)
    requires maxChunk > 0.0
    ensures |r| == n && forall i | 0 <= i < n :: r[i] == CapAt(maxChunk, i + 1)
  {
    seq(n, i requires 0 <= i < n => CapAt(maxChunk, i + 1))
  }

  lemma OneMoreCap(before: seq<real>, maxChunk: real, n: nat)
    requires maxChunk > 0.0
    ensures before + ReducedCaps(maxChunk, n) + [CapAt(maxChunk, n + 1)] == before + ReducedCaps(maxChunk, n + 1)
  {
  }

  /** No more passes than one and the halvings that take the cap down to the floor. */
  ghost predicate FewPasses(maxChunk: real, passes: nat) {
    forall n: nat | maxChunk <= MIN_CHUNK_FLOOR_S * Pow2(n) as real :: passes <= n + 1
  }

  // ----- The engine -----

  /** How a pass over its chunks ended: at the end, out of memory at a chunk, or with another error. */
  datatype PassEnd = AllDone | OomAt(index: nat) | Error

  /** Caps remembered one after another: each at least the floor, and at most half the one before unless the floor is more. */
  ghost predicate Falling(writes: seq<real>) {
    && (forall i | 0 <= i < |writes| :: writes[i] >= MIN_CHUNK_FLOOR_S)
    && (forall i, j | 0 <= i && j == i + 1 < |writes| :: Falls(writes[i], writes[j]))
  }

  class TranscribeEngine {
    /** Largest cap that is known to be safe after running out of memory. */
    var chunkedOomCap: Option<real>
    /** Every cap remembered so far. */
    ghost var writes: seq<real>

    constructor ()
      ensures Valid() && chunkedOomCap == None && writes == []
    {
      chunkedOomCap, writes := None, [];
    }

    /** The remembered cap is the last of the falling ones. */
    ghost predicate Valid()
      reads this
    {
      Falling(writes) && chunkedOomCap == if writes == [] then None else Some(writes[|writes| - 1])
    }

    function EffectiveChunkCap(requested: real): (r: real)
      reads this
      ensures r <= requested && (chunkedOomCap.Some? ==> r <= chunkedOomCap.value)
      ensures r == requested || (chunkedOomCap.Some? && r == chunkedOomCap.value)
    {
      if chunkedOomCap.Some? && chunkedOomCap.value < requested then chunkedOomCap.value else requested
    }

    method RunPass(chunks: seq<AudioChunk>, pass: nat, fate: Fates) returns (done: seq<Completed>, end: PassEnd)
      ensures done == DoneBy(chunks, pass, fate)
      ensures var k := Stop(chunks, pass, fate);
        end == if k == |chunks| then AllDone else if fate(pass, chunks[k]).OutOfMemory? then OomAt(k) else Error
    {
      done := [];
      for i := 0 to |chunks|
        invariant |done| == i && Stop(chunks, pass, fate) == i + Stop(chunks[i..], pass, fate)
        invariant forall k | 0 <= k < i :: done[k] == Completed(chunks[k], fate(pass, chunks[k]).transcript)
      {
        match fate(pass, chunks[i])
        case Transcribed(transcript) =>
          assert chunks[i..][1..] == chunks[i + 1..];
          done := done + [Completed(chunks[i], transcript)];
        case OutOfMemory =>
          return done, OomAt(i);
        case OtherError =>
          return done, Error;
      }
      return done, AllDone;
    }

    /** Splits the audio from the boundary on, and transcribes until a chunk fails. */
    method OnePass(split: Splitter, s: Start, pass: nat, fate: Fates) returns (completed: seq<Completed>, end: PassEnd, resumeAt: real)
      ensures match end
        case AllDone => NextStart(split, s, pass, fate) == None && LastPass(split, s, pass, fate) == Finished(completed, s.cap)
        case Error => NextStart(split, s, pass, fate) == None && LastPass(split, s, pass, fate) == Failed
        case OomAt(_) =>
          if NextCap(s.cap) < s.cap then NextStart(split, s, pass, fate) == Some(Start(NextCap(s.cap), resumeAt, completed))
          else NextStart(split, s, pass, fate) == None && LastPass(split, s, pass, fate) == OomAtFloor
    {
      resumeAt := s.boundary;
      var chunks := split(s.cap, s.boundary);
      if chunks == [] {
        assert s.done + DoneBy(chunks, pass, fate) == s.done;
        return s.done, AllDone, resumeAt;
      }
      var done;
      done, end := RunPass(chunks, pass, fate);
      completed := s.done + done;
      if end.OomAt? {
        resumeAt := chunks[end.index].offset;
      }
    }

    /** One round of the loop: the outcome of the last pass, or the start of the next one with its reduced cap remembered. */
    method PassOrReturn(split: Splitter, s: Start, pass: nat, fate: Fates, ghost maxChunk: real)
      returns (next: Option<Start>, result: RunResult)
      requires maxChunk > 0.0 && pass > 0 && Before(split, maxChunk, fate, pass - 1) == Some(s)
      modifies this
      ensures next == Before(split, maxChunk, fate, pass) && next == NextStart(split, s, pass, fate)
      ensures next.None? ==> writes == old(writes) && chunkedOomCap == old(chunkedOomCap)
      ensures next.None? ==> result == LastPass(split, s, pass, fate) == Outcome(split, maxChunk, fate, pass - 1)
      ensures next.Some? ==> writes == old(writes) + [CapAt(maxChunk, pass)] && chunkedOomCap == Some(CapAt(maxChunk, pass))
    {
      var completed, end, resumeAt := OnePass(split, s, pass, fate);
      result := Failed;
      if end.Error? {
        return None, Failed;
      }
      if end.AllDone? {
        return None, Finished(completed, s.cap);
      }
      var newMax := Max(s.cap / 2.0, MIN_CHUNK_FLOOR_S);
      if newMax >= s.cap {
        return None, OomAtFloor;
      }
      CacheChunkCap(newMax);
      next := Some(Start(newMax, resumeAt, completed));
    }

    /** `passes` counts the passes made; each but the last remembers a reduced cap. */
    method TranscribeChunksWithBackoff(split: Splitter, maxChunk: real, fate: Fates) returns (result: RunResult, passes: nat)
      requires maxChunk > 0.0
      modifies this
      ensures passes >= 1 && FewPasses(maxChunk, passes)
      ensures EndsAfter(split, maxChunk, fate, passes - 1) && result == Outcome(split, maxChunk, fate, passes - 1)
      ensures writes == old(writes) + ReducedCaps(maxChunk, passes - 1)
      ensures chunkedOomCap == if passes == 1 then old(chunkedOomCap) else Some(CapAt(maxChunk, passes - 1))
    {
      var current := Start(maxChunk, 0.0, []);
      passes := 0;
      ghost var enough := HalvingsSuffice(maxChunk);
      while true
        invariant Before(split, maxChunk, fate, passes) == Some(current)
        invariant writes == old(writes) + ReducedCaps(maxChunk, passes)
        invariant chunkedOomCap == if passes == 0 then old(chunkedOomCap) else Some(current.cap)
        decreases enough - passes
      {
        PassesAreFew(split, maxChunk, fate, passes);
        passes := passes + 1;
        var next;
        next, result := PassOrReturn(split, current, passes, fate, maxChunk);
        if next.None? {
          return;
        }
        OneMoreCap(old(writes), maxChunk, passes - 1);
        current := next.value;
      }
    }

    method CacheChunkCap(newMax: real)
      modifies this
      ensures chunkedOomCap == Some(newMax) && writes == old(writes) + [newMax]
    {
      chunkedOomCap := Some(newMax);
      writes := writes + [newMax];
    }

    /** The caps remembered by a run that starts no higher than the last one continue the fall. */
    method RunTask(split: Splitter, cap: real, fate: Fates) returns (result: RunResult)
      requires Valid() && cap > 0.0 && (chunkedOomCap.Some? ==> cap <= chunkedOomCap.value)
      modifies this
      ensures Valid() && IsTask(split, cap, fate, result, old(writes), writes)
    {
      var passes;
      result, passes := TranscribeChunksWithBackoff(split, cap, fate);
      TaskKeepsFalling(split, old(writes), cap, fate, passes - 1);
      assert RanFor(split, cap, fate, result, old(writes), writes, passes - 1);
    }

    /** One task. Whatever tasks come one after another, the caps remembered along the way keep falling. */
    method ProcessChunked(split: Splitter, requested: real, fate: Fates) returns (result: RunResult, transcript: Option<Transcript>)
      requires Valid() && requested > 0.0
      modifies this
      ensures old(EffectiveChunkCap(requested)) > 0.0
      ensures Valid() && IsTask(split, old(EffectiveChunkCap(requested)), fate, result, old(writes), writes)
      ensures transcript == if result.Finished? then Some(Merge(PlacedOf(result.completed))) else None
    {
      result := RunTask(split, EffectiveChunkCap(requested), fate);
      transcript := None;
      if result.Finished? {
        var merged := MergeChunkTranscripts(PlacedOf(result.completed));
        transcript := Some(merged);
      }
    }
  }

  /** A task that ran with the cap, and made one pass more than it remembered caps. */
  ghost predicate IsTask(split: Splitter, cap: real, fate: Fates, result: RunResult, before: seq<real>, after: seq<real>)
    requires cap > 0.0
  {
    exists n: nat :: RanFor(split, cap, fate, result, before, after, n)
  }

  ghost predicate RanFor(split: Splitter, cap: real, fate: Fates, result: RunResult, before: seq<real>, after: seq<real>, n: nat)
    requires cap > 0.0
  {
    EndsAfter(split, cap, fate, n) && result == Outcome(split, cap, fate, n) && after == before + ReducedCaps(cap, n)
  }

  // ----- How far a run gets -----

  function Pow2(n: nat): (r: nat)
    ensures r > 0
  {
    if n == 0 then 1 else 2 * Pow2(n - 1)
  }

  lemma {:induction false} Pow2Grows(n: nat)
    ensures Pow2(n) > n
  {
    if n > 0 { Pow2Grows(n - 1); }
  }

  lemma {:induction false} Pow2Monotone(m: nat, n: nat)
    requires m <= n
    ensures Pow2(m) <= Pow2(n)
    decreases n
  {
    if m < n { Pow2Monotone(m, n - 1); }
  }

  /** Some number of halvings takes any cap down to the floor. */
  lemma HalvingsSuffice(cap: real) returns (n: nat)
    ensures cap <= 60.0 * Pow2(n) as real
  {
    n := if cap <= 0.0 then 0 else cap.Floor + 1;
    Pow2Grows(n);
  }

  /** Speech that a resume boundary may have cost: it follows one within the chunker's slack. */
  ghost predicate NearResume(resumes: seq<real>, t: real) {
    exists b | b in resumes :: b <= t < b + RESUME_SLACK_S
  }

  /** Speech in [0, upTo) is transcribed, but for slivers at resume boundaries. */
  ghost predicate CoveredUpTo(speech: seq<Span>, done: seq<Completed>, resumes: seq<real>, upTo: real) {
    forall t | In(speech, t) && 0.0 <= t < upTo :: In(SpansOf(done), t) || NearResume(resumes, t)
  }

  /** The transcribed chunks in time order, all before `upTo`. */
  ghost predicate InOrderUpTo(done: seq<Completed>, upTo: real) {
    Ordered(SpansOf(done)) && forall i | 0 <= i < |done| :: SpansOf(done)[i].end <= upTo
  }

  /** Some pass transcribed the chunk, with this outcome. */
  ghost predicate WasTranscribed(c: Completed, fate: Fates) {
    exists pass: nat :: fate(pass, c.chunk) == Transcribed(c.transcript)
  }

  ghost predicate AllTranscribed(done: seq<Completed>, fate: Fates) {
    forall i | 0 <= i < |done| :: WasTranscribed(done[i], fate)
  }

  /** What has been done when the next pass starts at `remaining`. */
  ghost predicate Progress(speech: seq<Span>, done: seq<Completed>, resumes: seq<real>, remaining: real,
                           maxChunk: real, fate: Fates) {
    && InOrderUpTo(done, remaining) && Capped(SpansOf(done), maxChunk)
    && CoveredUpTo(speech, done, resumes, remaining) && AllTranscribed(done, fate)
  }

  /** The cap after `halvings` halvings. */
  ghost predicate CapAfter(current: real, maxChunk: real, halvings: nat) {
    && 0.0 < current <= maxChunk
    && (halvings == 0 ==> current == maxChunk)
    && (halvings > 0 ==> MIN_CHUNK_FLOOR_S <= current < maxChunk && maxChunk > MIN_CHUNK_FLOOR_S * Pow2(halvings - 1) as real)
    && (current > MIN_CHUNK_FLOOR_S ==> current * Pow2(halvings) as real <= maxChunk)
  }

  /** Everything was transcribed, once, in order. */
  ghost predicate Complete(speech: seq<Span>, done: seq<Completed>, resumes: seq<real>, maxChunk: real, fate: Fates) {
    && Ordered(SpansOf(done)) && Capped(SpansOf(done), maxChunk) && AllTranscribed(done, fate)
    && forall t | In(speech, t) && t >= 0.0 :: In(SpansOf(done), t) || NearResume(resumes, t)
  }

  /** Another pass is within the bound. */
  lemma PassesBound(current: real, maxChunk: real, halvings: nat)
    requires CapAfter(current, maxChunk, halvings)
    ensures forall n: nat | maxChunk <= MIN_CHUNK_FLOOR_S * Pow2(n) as real :: halvings <= n
  {
    forall n: nat | maxChunk <= MIN_CHUNK_FLOOR_S * Pow2(n) as real ensures halvings <= n {
      if halvings > n { Pow2Monotone(n, halvings - 1); }
    }
  }

  lemma HalfTimesDouble(c: real, p: real)
    ensures c / 2.0 * (2.0 * p) == c * p
  {
  }

  lemma TimesAtLeastOne(a: real, b: real, p: real)
    requires a < b && p >= 1.0
    ensures a * p < b * p
  {
  }

  lemma Pow2Step(n: nat)
    ensures Pow2(n + 1) as real == 2.0 * Pow2(n) as real && Pow2(n) as real >= 1.0
  {
    Pow2Grows(n);
  }

  lemma FloorTimes(current: real, p: real, max: real)
    requires current > MIN_CHUNK_FLOOR_S && p >= 1.0 && current * p <= max
    ensures MIN_CHUNK_FLOOR_S * p < max
  {
    TimesAtLeastOne(MIN_CHUNK_FLOOR_S, current, p);
  }

  lemma FloorIsBelow(current: real, maxChunk: real, halvings: nat)
    requires current > MIN_CHUNK_FLOOR_S && CapAfter(current, maxChunk, halvings)
    ensures MIN_CHUNK_FLOOR_S * Pow2(halvings) as real < maxChunk
  {
    Pow2Grows(halvings);
    FloorTimes(current, Pow2(halvings) as real, maxChunk);
  }

  lemma HalfBelow(current: real, passes: nat)
    requires passes > 0
    ensures current / 2.0 * Pow2(passes) as real == current * Pow2(passes - 1) as real
  {
    Pow2Step(passes - 1);
    HalfTimesDouble(current, Pow2(passes - 1) as real);
  }

  /** Halving a cap above the floor. */
  lemma Halved(current: real, maxChunk: real, passes: nat)
    requires passes > 0 && current > MIN_CHUNK_FLOOR_S && CapAfter(current, maxChunk, passes - 1)
    ensures CapAfter(NextCap(current), maxChunk, passes)
  {
    FloorIsBelow(current, maxChunk, passes - 1);
    HalfBelow(current, passes);
  }

  lemma ReducedIsAboveFloor(current: real)
    requires NextCap(current) < current
    ensures current > MIN_CHUNK_FLOOR_S
  {
  }

  lemma {:induction false} CapsHalve(maxChunk: real, n: nat)
    requires maxChunk > 0.0 && forall i: nat | i < n :: Reduces(maxChunk, i)
    ensures CapAfter(CapAt(maxChunk, n), maxChunk, n)
  {
    if n > 0 {
      CapsHalve(maxChunk, n - 1);
      assert Reduces(maxChunk, n - 1);
      ReducedIsAboveFloor(CapAt(maxChunk, n - 1));
      Halved(CapAt(maxChunk, n - 1), maxChunk, n);
    }
  }

  /** A run makes at most one pass more than the cap can be halved before it is down to the floor. */
  lemma PassesAreFew(split: Splitter, maxChunk: real, fate: Fates, n: nat)
    requires maxChunk > 0.0 && Before(split, maxChunk, fate, n).Some?
    ensures FewPasses(maxChunk, n + 1)
  {
    ReducedCapsFall(split, maxChunk, fate, n);
    CapsHalve(maxChunk, n);
    PassesBound(CapAt(maxChunk, n), maxChunk, n);
  }

  lemma ResumesGrow(speech: seq<Span>, done: seq<Completed>, resumes: seq<real>, b: real, upTo: real)
    requires CoveredUpTo(speech, done, resumes, upTo)
    ensures CoveredUpTo(speech, done, resumes + [b], upTo)
  {
    forall t | In(speech, t) && 0.0 <= t < upTo && NearResume(resumes, t) ensures NearResume(resumes + [b], t) {
      var r :| r in resumes && r <= t < r + RESUME_SLACK_S;
      assert r in resumes + [b];
    }
  }

  lemma SpansOfConcat(a: seq<Completed>, b: seq<Completed>)
    ensures SpansOf(a + b) == SpansOf(a) + SpansOf(b)
  {
  }

  /** What a chunker must promise for one cap and boundary: order, bounds, and all speech past the slack. */
  ghost predicate FitsAt(split: Splitter, speech: seq<Span>, cap: real, boundary: real) {
    var chunks := split(cap, boundary);
    && Ordered(Spans(chunks)) && Capped(Spans(chunks), cap) && (forall i | 0 <= i < |chunks| :: chunks[i].offset >= boundary)
    && forall t | In(speech, t) && t >= boundary + RESUME_SLACK_S :: In(Spans(chunks), t)
  }

  ghost predicate Fits(split: Splitter, speech: seq<Span>) {
    forall cap, boundary | cap > 0.0 :: FitsAt(split, speech, cap, boundary)
  }

  lemma PassStaysOrdered(before: seq<Completed>, done: seq<Completed>, chunks: seq<AudioChunk>, cap: real, maxChunk: real, boundary: real)
    requires Ordered(Spans(chunks)) && Capped(Spans(chunks), cap) && cap <= maxChunk
    requires forall i | 0 <= i < |chunks| :: chunks[i].offset >= boundary
    requires |done| <= |chunks| && ChunksOf(done) == chunks[..|done|]
    requires InOrderUpTo(before, boundary) && Capped(SpansOf(before), maxChunk)
    ensures Ordered(SpansOf(before + done)) && Capped(SpansOf(before + done), maxChunk)
  {
    var a, b, spans := SpansOf(before), SpansOf(done), Spans(chunks);
    SpansOfConcat(before, done);
    assert forall i | 0 <= i < |done| :: ChunksOf(done)[i] == chunks[i] && b[i] == spans[i];
    assert a != [] ==> a[|a| - 1].end <= boundary;
    OrderedConcat(a, b);
  }

  lemma PassTranscribed(before: seq<Completed>, chunks: seq<AudioChunk>, fate: Fates, pass: nat)
    requires AllTranscribed(before, fate)
    ensures AllTranscribed(before + DoneBy(chunks, pass, fate), fate)
  {
    var done := DoneBy(chunks, pass, fate);
    forall i | 0 <= i < |done| ensures WasTranscribed(done[i], fate) {
      assert fate(pass, done[i].chunk) == Transcribed(done[i].transcript);
    }
  }

  lemma InPrefix(spans: seq<Span>, k: nat, t: real)
    requires Ordered(spans) && k < |spans| && In(spans, t) && t < spans[k].start
    ensures In(spans[..k], t)
  {
    var s :| s in spans && Holds(s, t);
    var j :| 0 <= j < |spans| && spans[j] == s;
    assert spans[..k][j] in spans[..k];
  }

  /** Up to the chunk a pass stops at, or throughout if it does not stop. */
  predicate Reached(chunks: seq<AudioChunk>, k: nat, t: real)
    requires k <= |chunks|
  {
    k < |chunks| ==> t < chunks[k].offset
  }

  /** What the chunks of a pass hold, and it reached, is transcribed after it. */
  lemma PassHolds(before: seq<Completed>, chunks: seq<AudioChunk>, fate: Fates, pass: nat, t: real)
    requires Ordered(Spans(chunks)) && Reached(chunks, Stop(chunks, pass, fate), t)
    requires In(Spans(chunks), t) || In(SpansOf(before), t)
    ensures In(SpansOf(before + DoneBy(chunks, pass, fate)), t)
  {
    var done, k := DoneBy(chunks, pass, fate), Stop(chunks, pass, fate);
    SpansOfConcat(before, done);
    InConcat(SpansOf(before), SpansOf(done), t);
    assert SpansOf(done) == Spans(chunks)[..k];
    if In(Spans(chunks), t) {
      if k < |chunks| { InPrefix(Spans(chunks), k, t); } else { assert Spans(chunks)[..k] == Spans(chunks); }
    }
  }

  /** A pass continues those before it in order. */
  lemma PassInOrder(split: Splitter, speech: seq<Span>, s: Start, maxChunk: real, fate: Fates, pass: nat)
    requires FitsAt(split, speech, s.cap, s.boundary) && s.cap <= maxChunk
    requires InOrderUpTo(s.done, s.boundary) && Capped(SpansOf(s.done), maxChunk) && AllTranscribed(s.done, fate)
    ensures var chunks := split(s.cap, s.boundary); var k := Stop(chunks, pass, fate); var done := s.done + DoneBy(chunks, pass, fate);
      && Ordered(SpansOf(done)) && Capped(SpansOf(done), maxChunk) && AllTranscribed(done, fate)
      && (k < |chunks| ==> InOrderUpTo(done, chunks[k].offset))
  {
    var chunks := split(s.cap, s.boundary);
    var k, done := Stop(chunks, pass, fate), DoneBy(chunks, pass, fate);
    PassStaysOrdered(s.done, done, chunks, s.cap, maxChunk, s.boundary);
    PassTranscribed(s.done, chunks, fate, pass);
    if k < |chunks| { EndsBeforeStop(s.done, done, chunks, s.boundary, k); }
  }

  lemma EndsBeforeStop(before: seq<Completed>, done: seq<Completed>, chunks: seq<AudioChunk>, boundary: real, k: nat)
    requires Ordered(Spans(chunks)) && k < |chunks| && ChunksOf(done) == chunks[..k] && chunks[k].offset >= boundary
    requires InOrderUpTo(before, boundary) && Ordered(SpansOf(before + done))
    ensures InOrderUpTo(before + done, chunks[k].offset)
  {
    SpansOfConcat(before, done);
    assert SpansOf(done) == Spans(chunks)[..k] && Spans(chunks)[k].start == chunks[k].offset;
    forall i | 0 <= i < |before + done| ensures SpansOf(before + done)[i].end <= chunks[k].offset {
      if i >= |before| { assert SpansOf(before + done)[i] == Spans(chunks)[i - |before|]; }
    }
  }

  lemma BoundaryIsListed(split: Splitter, maxChunk: real, fate: Fates, n: nat)
    requires maxChunk > 0.0 && Before(split, maxChunk, fate, n).Some?
    ensures Before(split, maxChunk, fate, n).value.boundary in Boundaries(split, maxChunk, fate, n)
  {
  }

  lemma PassCovers(split: Splitter, speech: seq<Span>, s: Start, resumes: seq<real>, fate: Fates, pass: nat)
    requires FitsAt(split, speech, s.cap, s.boundary) && s.boundary in resumes && CoveredUpTo(speech, s.done, resumes, s.boundary)
    ensures var chunks := split(s.cap, s.boundary); var k := Stop(chunks, pass, fate);
      forall t | In(speech, t) && t >= 0.0 && Reached(chunks, k, t) ::
        In(SpansOf(s.done + DoneBy(chunks, pass, fate)), t) || NearResume(resumes, t)
  {
    var chunks := split(s.cap, s.boundary);
    var k := Stop(chunks, pass, fate);
    forall t | In(speech, t) && t >= 0.0 && Reached(chunks, k, t)
      ensures In(SpansOf(s.done + DoneBy(chunks, pass, fate)), t) || NearResume(resumes, t)
    {
      if !NearResume(resumes, t) { PassHolds(s.done, chunks, fate, pass, t); }
    }
  }

  lemma PassMakesProgress(split: Splitter, speech: seq<Span>, s: Start, resumes: seq<real>, maxChunk: real, fate: Fates, pass: nat)
    requires FitsAt(split, speech, s.cap, s.boundary) && s.cap <= maxChunk && s.boundary in resumes
    requires Progress(speech, s.done, resumes, s.boundary, maxChunk, fate)
    ensures var r := NextStart(split, s, pass, fate);
      r.Some? ==>
        r.value.cap <= maxChunk && Progress(speech, r.value.done, resumes + [r.value.boundary], r.value.boundary, maxChunk, fate)
    ensures var r := LastPass(split, s, pass, fate); r.Finished? ==> Complete(speech, r.completed, resumes, maxChunk, fate)
  {
    var chunks := split(s.cap, s.boundary);
    var k, done := Stop(chunks, pass, fate), s.done + DoneBy(chunks, pass, fate);
    PassInOrder(split, speech, s, maxChunk, fate, pass);
    PassCovers(split, speech, s, resumes, fate, pass);
    if k < |chunks| { ResumesGrow(speech, done, resumes, chunks[k].offset, chunks[k].offset); }
  }

  /** Before every pass: in order, under the cap, and covering the speech so far but for slivers at resume boundaries. */
  lemma {:induction false} StartIsProgress(split: Splitter, speech: seq<Span>, maxChunk: real, fate: Fates, n: nat)
    requires maxChunk > 0.0 && Fits(split, speech) && Before(split, maxChunk, fate, n).Some?
    ensures var s := Before(split, maxChunk, fate, n).value;
      s.cap <= maxChunk && Progress(speech, s.done, Boundaries(split, maxChunk, fate, n), s.boundary, maxChunk, fate)
  {
    if n > 0 {
      var s, resumes := Before(split, maxChunk, fate, n - 1).value, Boundaries(split, maxChunk, fate, n - 1);
      StartIsProgress(split, speech, maxChunk, fate, n - 1);
      BoundaryIsListed(split, maxChunk, fate, n - 1);
      assert FitsAt(split, speech, s.cap, s.boundary);
      PassMakesProgress(split, speech, s, resumes, maxChunk, fate, n);
    }
  }

  /** A normal return has transcribed all speech once and in order, but for the slack after the boundaries resumed from. */
  lemma FinishedIsComplete(split: Splitter, speech: seq<Span>, maxChunk: real, fate: Fates, n: nat)
    requires maxChunk > 0.0 && Fits(split, speech)
    requires EndsAfter(split, maxChunk, fate, n) && Outcome(split, maxChunk, fate, n).Finished?
    ensures Complete(speech, Outcome(split, maxChunk, fate, n).completed, Boundaries(split, maxChunk, fate, n), maxChunk, fate)
  {
    var s := Before(split, maxChunk, fate, n).value;
    StartIsProgress(split, speech, maxChunk, fate, n);
    BoundaryIsListed(split, maxChunk, fate, n);
    assert FitsAt(split, speech, s.cap, s.boundary);
    PassMakesProgress(split, speech, s, Boundaries(split, maxChunk, fate, n), maxChunk, fate, n + 1);
  }

  // ----- When nothing is lost at all -----

  ghost predicate Offset(chunks: seq<AudioChunk>, b: real) {
    exists c | c in chunks :: c.offset == b
  }

  /** Boundaries that passes can resume from one after another: each is the start of a chunk of the pass before. */
  ghost predicate IsPath(split: Splitter, maxChunk: real, bs: seq<real>)
    requires maxChunk > 0.0
    decreases |bs|
  {
    var n := |bs| - 1;
    && n >= 0
    && if n == 0 then bs[0] == 0.0 else IsPath(split, maxChunk, bs[..n]) && Continues(split, maxChunk, bs, n)
  }

  ghost predicate Continues(split: Splitter, maxChunk: real, bs: seq<real>, n: nat)
    requires maxChunk > 0.0 && 0 < n < |bs|
  {
    CapAt(maxChunk, n) < CapAt(maxChunk, n - 1) && Offset(split(CapAt(maxChunk, n - 1), bs[n - 1]), bs[n])
  }

  /** The chunker leaves out speech past the boundary. */
  ghost predicate Loses(split: Splitter, speech: seq<Span>, cap: real, boundary: real) {
    exists t :: t >= boundary && In(speech, t) && !In(Spans(split(cap, boundary)), t)
  }

  ghost predicate LosesAtEnd(split: Splitter, speech: seq<Span>, maxChunk: real, bs: seq<real>)
    requires maxChunk > 0.0 && bs != []
  {
    Loses(split, speech, CapAt(maxChunk, |bs| - 1), bs[|bs| - 1])
  }

  /** The chunker leaves out nothing wherever a pass can resume. */
  ghost predicate NeverLoses(split: Splitter, speech: seq<Span>, maxChunk: real)
    requires maxChunk > 0.0
  {
    forall bs | IsPath(split, maxChunk, bs) :: !LosesAtEnd(split, speech, maxChunk, bs)
  }

  ghost predicate HoldsAll(speech: seq<Span>, done: seq<Completed>) {
    forall t | In(speech, t) && t >= 0.0 :: In(SpansOf(done), t)
  }

  /** Whatever the chunks' fates, a normal return has transcribed all speech. */
  ghost predicate Lossless(split: Splitter, speech: seq<Span>, maxChunk: real)
    requires maxChunk > 0.0
  {
    forall fate: Fates, n: nat | EndsAfter(split, maxChunk, fate, n) && Outcome(split, maxChunk, fate, n).Finished? ::
      HoldsAll(speech, Outcome(split, maxChunk, fate, n).completed)
  }

  lemma StopIsOffset(chunks: seq<AudioChunk>, k: nat)
    requires k < |chunks|
    ensures Offset(chunks, chunks[k].offset)
  {
    assert chunks[k] in chunks;
  }

  /** The boundaries of every run are a path. */
  lemma {:induction false} RunsFollowPaths(split: Splitter, maxChunk: real, fate: Fates, n: nat)
    requires maxChunk > 0.0 && Before(split, maxChunk, fate, n).Some?
    ensures var bs := Boundaries(split, maxChunk, fate, n);
      |bs| == n + 1 && bs[n] == Before(split, maxChunk, fate, n).value.boundary && IsPath(split, maxChunk, bs)
  {
    if n > 0 {
      RunsFollowPaths(split, maxChunk, fate, n - 1);
      PathGrows(split, maxChunk, Boundaries(split, maxChunk, fate, n - 1), Before(split, maxChunk, fate, n - 1).value, fate, n);
    }
  }

  lemma PathGrows(split: Splitter, maxChunk: real, bs: seq<real>, s: Start, fate: Fates, n: nat)
    requires maxChunk > 0.0 && n > 0 && |bs| == n && IsPath(split, maxChunk, bs)
    requires bs[n - 1] == s.boundary && s.cap == CapAt(maxChunk, n - 1) && NextStart(split, s, n, fate).Some?
    ensures IsPath(split, maxChunk, bs + [NextStart(split, s, n, fate).value.boundary])
  {
    var chunks := split(s.cap, s.boundary);
    var next := bs + [chunks[Stop(chunks, n, fate)].offset];
    assert next[..n] == bs;
    StopIsOffset(chunks, Stop(chunks, n, fate));
    assert Continues(split, maxChunk, next, n);
  }

  lemma {:induction false} PathsReduce(split: Splitter, maxChunk: real, bs: seq<real>)
    requires maxChunk > 0.0 && IsPath(split, maxChunk, bs)
    ensures forall i: nat | i < |bs| - 1 :: Reduces(maxChunk, i)
    decreases |bs|
  {
    var n := |bs| - 1;
    if n > 0 {
      PathsReduce(split, maxChunk, bs[..n]);
      assert Continues(split, maxChunk, bs, n);
      assert Reduces(maxChunk, n - 1);
    }
  }

  /** No path is longer than the passes of a run can be; each step on it is to one of the finitely many chunks of a pass. */
  lemma PathsAreShort(split: Splitter, maxChunk: real, bs: seq<real>)
    requires maxChunk > 0.0 && IsPath(split, maxChunk, bs)
    ensures FewPasses(maxChunk, |bs|)
  {
    var n := |bs| - 1;
    PathsReduce(split, maxChunk, bs);
    CapsHalve(maxChunk, n);
    PassesBound(CapAt(maxChunk, n), maxChunk, n);
  }

  ghost predicate HoldsUpTo(speech: seq<Span>, done: seq<Completed>, upTo: real) {
    forall t | In(speech, t) && 0.0 <= t < upTo :: In(SpansOf(done), t)
  }

  lemma SafePassHolds(split: Splitter, speech: seq<Span>, s: Start, fate: Fates, pass: nat)
    requires FitsAt(split, speech, s.cap, s.boundary) && !Loses(split, speech, s.cap, s.boundary)
    requires HoldsUpTo(speech, s.done, s.boundary)
    ensures var r := NextStart(split, s, pass, fate); r.Some? ==> HoldsUpTo(speech, r.value.done, r.value.boundary)
    ensures var r := LastPass(split, s, pass, fate); r.Finished? ==> HoldsAll(speech, r.completed)
  {
    var chunks := split(s.cap, s.boundary);
    forall t | In(speech, t) && t >= 0.0 && Reached(chunks, Stop(chunks, pass, fate), t)
      ensures In(SpansOf(s.done + DoneBy(chunks, pass, fate)), t)
    {
      PassHolds(s.done, chunks, fate, pass, t);
    }
  }

  lemma StartDoesNotLose(split: Splitter, speech: seq<Span>, maxChunk: real, fate: Fates, n: nat)
    requires maxChunk > 0.0 && NeverLoses(split, speech, maxChunk) && Before(split, maxChunk, fate, n).Some?
    ensures var s := Before(split, maxChunk, fate, n).value; !Loses(split, speech, s.cap, s.boundary)
  {
    RunsFollowPaths(split, maxChunk, fate, n);
    assert !LosesAtEnd(split, speech, maxChunk, Boundaries(split, maxChunk, fate, n));
  }

  lemma {:induction false} SafeStartHolds(split: Splitter, speech: seq<Span>, maxChunk: real, fate: Fates, n: nat)
    requires maxChunk > 0.0 && Fits(split, speech) && NeverLoses(split, speech, maxChunk) && Before(split, maxChunk, fate, n).Some?
    ensures var s := Before(split, maxChunk, fate, n).value; HoldsUpTo(speech, s.done, s.boundary)
  {
    if n > 0 {
      var s := Before(split, maxChunk, fate, n - 1).value;
      SafeStartHolds(split, speech, maxChunk, fate, n - 1);
      StartDoesNotLose(split, speech, maxChunk, fate, n - 1);
      assert FitsAt(split, speech, s.cap, s.boundary);
      SafePassHolds(split, speech, s, fate, n);
    }
  }

  lemma SafeIsLossless(split: Splitter, speech: seq<Span>, maxChunk: real, fate: Fates, n: nat)
    requires maxChunk > 0.0 && Fits(split, speech) && NeverLoses(split, speech, maxChunk)
    requires EndsAfter(split, maxChunk, fate, n) && Outcome(split, maxChunk, fate, n).Finished?
    ensures HoldsAll(speech, Outcome(split, maxChunk, fate, n).completed)
  {
    var s := Before(split, maxChunk, fate, n).value;
    SafeStartHolds(split, speech, maxChunk, fate, n);
    StartDoesNotLose(split, speech, maxChunk, fate, n);
    assert FitsAt(split, speech, s.cap, s.boundary);
    SafePassHolds(split, speech, s, fate, n + 1);
  }

  // ----- And when something is -----

  /** From pass `n + 1` on everything is transcribed. */
  ghost predicate GoodFrom(fate: Fates, n: nat) {
    forall pass: nat, c | pass > n :: fate(pass, c).Transcribed?
  }

  ghost predicate AgreeUpTo(f: Fates, g: Fates, n: nat) {
    forall pass: nat, c | pass <= n :: f(pass, c) == g(pass, c)
  }

  lemma {:induction false} StopAgrees(chunks: seq<AudioChunk>, pass: nat, f: Fates, g: Fates)
    requires forall c :: f(pass, c) == g(pass, c)
    ensures Stop(chunks, pass, f) == Stop(chunks, pass, g) && DoneBy(chunks, pass, f) == DoneBy(chunks, pass, g)
  {
    if chunks != [] { StopAgrees(chunks[1..], pass, f, g); }
  }

  lemma NextAgrees(split: Splitter, s: Start, pass: nat, f: Fates, g: Fates)
    requires forall c :: f(pass, c) == g(pass, c)
    ensures NextStart(split, s, pass, f) == NextStart(split, s, pass, g)
  {
    StopAgrees(split(s.cap, s.boundary), pass, f, g);
  }

  /** The passes made so far do not depend on later fates. */
  lemma {:induction false} BeforeAgrees(split: Splitter, maxChunk: real, f: Fates, g: Fates, n: nat)
    requires maxChunk > 0.0 && AgreeUpTo(f, g, n)
    ensures Before(split, maxChunk, f, n) == Before(split, maxChunk, g, n)
  {
    if n > 0 {
      BeforeAgrees(split, maxChunk, f, g, n - 1);
      if Before(split, maxChunk, f, n - 1).Some? {
        NextAgrees(split, Before(split, maxChunk, f, n - 1).value, n, f, g);
      }
    }
  }

  /** In pass `n` just one chunk runs out of memory. */
  function StopAtChunk(f: Fates, n: nat, c: AudioChunk): Fates {
    (pass: nat, d: AudioChunk) => if pass != n then f(pass, d) else if d == c then OutOfMemory else Transcribed(Transcript("", [], []))
  }

  lemma {:induction false} StopsThere(chunks: seq<AudioChunk>, f: Fates, n: nat, k: nat)
    requires k < |chunks| && forall i | 0 <= i < k :: chunks[i] != chunks[k]
    ensures Stop(chunks, n, StopAtChunk(f, n, chunks[k])) == k
  {
    if k > 0 { StopsThere(chunks[1..], f, n, k - 1); }
  }

  lemma OneMorePass(split: Splitter, speech: seq<Span>, maxChunk: real, earlier: Fates, n: nat, c: AudioChunk)
    requires maxChunk > 0.0 && Fits(split, speech) && n > 0 && CapAt(maxChunk, n) < CapAt(maxChunk, n - 1)
    requires var r := Before(split, maxChunk, StopAtChunk(earlier, n, c), n - 1); r.Some? && c in split(r.value.cap, r.value.boundary)
    ensures var r := Before(split, maxChunk, StopAtChunk(earlier, n, c), n); r.Some? && r.value.boundary == c.offset
  {
    var s := Before(split, maxChunk, StopAtChunk(earlier, n, c), n - 1).value;
    assert FitsAt(split, speech, s.cap, s.boundary);
    StopsAtOnly(split(s.cap, s.boundary), earlier, n, c);
  }

  lemma StopsAtOnly(chunks: seq<AudioChunk>, f: Fates, n: nat, c: AudioChunk)
    requires Ordered(Spans(chunks)) && c in chunks
    ensures var k := Stop(chunks, n, StopAtChunk(f, n, c)); k < |chunks| && chunks[k] == c
  {
    var k :| 0 <= k < |chunks| && chunks[k] == c;
    forall i | 0 <= i < k ensures chunks[i] != chunks[k] {
      assert Spans(chunks)[i].end <= Spans(chunks)[k].start;
    }
    StopsThere(chunks, f, n, k);
  }

  /** Every path is followed by some run, all of whose later chunks are transcribed. */
  lemma {:induction false} FatesThatFollow(split: Splitter, speech: seq<Span>, maxChunk: real, bs: seq<real>) returns (fate: Fates)
    requires maxChunk > 0.0 && Fits(split, speech) && IsPath(split, maxChunk, bs)
    ensures var n := |bs| - 1;
      && GoodFrom(fate, n)
      && Before(split, maxChunk, fate, n).Some? && Before(split, maxChunk, fate, n).value.boundary == bs[n]
    decreases |bs|
  {
    var n := |bs| - 1;
    if n == 0 {
      fate := (pass: nat, c: AudioChunk) => Transcribed(Transcript("", [], []));
    } else {
      var earlier := FatesThatFollow(split, speech, maxChunk, bs[..n]);
      var c :| c in split(CapAt(maxChunk, n - 1), bs[n - 1]) && c.offset == bs[n];
      fate := StopAtChunk(earlier, n, c);
      BeforeAgrees(split, maxChunk, fate, earlier, n - 1);
      OneMorePass(split, speech, maxChunk, earlier, n, c);
    }
  }

  lemma {:induction false} GoodPassFinishes(chunks: seq<AudioChunk>, pass: nat, fate: Fates)
    requires forall c :: fate(pass, c).Transcribed?
    ensures Stop(chunks, pass, fate) == |chunks|
  {
    if chunks != [] { GoodPassFinishes(chunks[1..], pass, fate); }
  }

  /** If the last pass of a path leaves out speech, the run that ends with it returns normally without that speech. */
  lemma UnsafeLoses(split: Splitter, speech: seq<Span>, maxChunk: real, bs: seq<real>) returns (fate: Fates, t: real)
    requires maxChunk > 0.0 && Fits(split, speech) && IsPath(split, maxChunk, bs) && LosesAtEnd(split, speech, maxChunk, bs)
    ensures EndsAfter(split, maxChunk, fate, |bs| - 1) && Outcome(split, maxChunk, fate, |bs| - 1).Finished?
    ensures In(speech, t) && t >= 0.0 && !In(SpansOf(Outcome(split, maxChunk, fate, |bs| - 1).completed), t)
  {
    var n := |bs| - 1;
    fate := FatesThatFollow(split, speech, maxChunk, bs);
    var s := Before(split, maxChunk, fate, n).value;
    var chunks := split(s.cap, s.boundary);
    GoodPassFinishes(chunks, n + 1, fate);
    t :| t >= s.boundary && In(speech, t) && !In(Spans(chunks), t);
    PathsAreNotNegative(split, speech, maxChunk, bs);
    StartIsProgress(split, speech, maxChunk, fate, n);
    LostForGood(s.done, chunks, fate, n + 1, bs[n], t);
  }

  lemma {:induction false} PathsAreNotNegative(split: Splitter, speech: seq<Span>, maxChunk: real, bs: seq<real>)
    requires maxChunk > 0.0 && Fits(split, speech) && IsPath(split, maxChunk, bs)
    ensures bs[|bs| - 1] >= 0.0
    decreases |bs|
  {
    var n := |bs| - 1;
    if n > 0 {
      PathsAreNotNegative(split, speech, maxChunk, bs[..n]);
      assert FitsAt(split, speech, CapAt(maxChunk, n - 1), bs[n - 1]);
    }
  }

  lemma LostForGood(before: seq<Completed>, chunks: seq<AudioChunk>, fate: Fates, pass: nat, b: real, t: real)
    requires InOrderUpTo(before, b) && t >= b && Stop(chunks, pass, fate) == |chunks| && !In(Spans(chunks), t)
    ensures !In(SpansOf(before + DoneBy(chunks, pass, fate)), t)
  {
    var done := DoneBy(chunks, pass, fate);
    SpansOfConcat(before, done);
    InConcat(SpansOf(before), SpansOf(done), t);
    assert ChunksOf(done) == chunks;
  }

  /** All speech is transcribed on every normal return if and only if the chunker leaves out nothing wherever a pass can resume. */
  lemma LosslessIffNeverLoses(split: Splitter, speech: seq<Span>, maxChunk: real)
    requires maxChunk > 0.0 && Fits(split, speech)
    ensures Lossless(split, speech, maxChunk) <==> NeverLoses(split, speech, maxChunk)
  {
    if NeverLoses(split, speech, maxChunk) {
      forall fate: Fates, n: nat | EndsAfter(split, maxChunk, fate, n) && Outcome(split, maxChunk, fate, n).Finished?
        ensures HoldsAll(speech, Outcome(split, maxChunk, fate, n).completed)
      {
        SafeIsLossless(split, speech, maxChunk, fate, n);
      }
    } else {
      var bs :| IsPath(split, maxChunk, bs) && LosesAtEnd(split, speech, maxChunk, bs);
      var fate, t := UnsafeLoses(split, speech, maxChunk, bs);
      assert !HoldsAll(speech, Outcome(split, maxChunk, fate, |bs| - 1).completed);
    }
  }

  // ----- The remembered cap -----

  /** The reduction after `i` others does reduce the cap. */
  predicate Reduces(maxChunk: real, i: nat)
    requires maxChunk > 0.0
  {
    CapAt(maxChunk, i + 1) < CapAt(maxChunk, i)
  }

  lemma {:induction false} ReducedCapsFall(split: Splitter, maxChunk: real, fate: Fates, n: nat)
    requires maxChunk > 0.0 && Before(split, maxChunk, fate, n).Some?
    ensures forall i: nat | i < n :: Reduces(maxChunk, i)
  {
    if n > 0 { ReducedCapsFall(split, maxChunk, fate, n - 1); }
  }

  lemma TaskKeepsFalling(split: Splitter, before: seq<real>, cap: real, fate: Fates, n: nat)
    requires cap > 0.0 && Falling(before) && (before != [] ==> cap <= before[|before| - 1]) && EndsAfter(split, cap, fate, n)
    ensures Falling(before + ReducedCaps(cap, n))
  {
    ReducedCapsFall(split, cap, fate, n);
    ReducedCapsFalling(cap, n);
    FallingConcat(before, ReducedCaps(cap, n));
  }

  lemma ReducedCapAt(cap: real, n: nat, i: nat)
    requires cap > 0.0 && i < n
    ensures var c := ReducedCaps(cap, n)[i]; c == CapAt(cap, i + 1) == NextCap(CapAt(cap, i)) && c >= MIN_CHUNK_FLOOR_S
  {
  }

  lemma ReducedCapsFalling(cap: real, n: nat)
    requires cap > 0.0 && forall i: nat | i < n :: Reduces(cap, i)
    ensures Falling(ReducedCaps(cap, n)) && (n > 0 ==> ReducedCaps(cap, n)[0] == NextCap(cap) < cap)
  {
    var caps := ReducedCaps(cap, n);
    forall i: nat | i < n ensures caps[i] >= MIN_CHUNK_FLOOR_S {
      ReducedCapAt(cap, n, i);
    }
    forall i, j | 0 <= i && j == i + 1 < n ensures caps[j] < caps[i] && caps[j] <= NextCap(caps[i]) {
      ReducedCapAt(cap, n, i);
      ReducedCapAt(cap, n, j);
      assert Reduces(cap, j);
    }
    if n > 0 {
      ReducedCapAt(cap, n, 0);
      assert Reduces(cap, 0);
    }
  }

  /** One cap and the next remembered after it: less, and at most half unless the floor is more. */
  ghost predicate Falls(high: real, low: real) {
    low < high && low <= NextCap(high)
  }

  lemma PairInConcat(a: seq<real>, b: seq<real>, i: nat)
    requires i + 1 < |a + b|
    ensures i + 1 < |a| ==> (a + b)[i] == a[i] && (a + b)[i + 1] == a[i + 1]
    ensures i + 1 == |a| ==> (a + b)[i] == a[|a| - 1] && (a + b)[i + 1] == b[0]
    ensures i >= |a| ==> (a + b)[i] == b[i - |a|] && (a + b)[i + 1] == b[i - |a| + 1]
  {
  }

  /** Two falls in a row are one, if the second starts below the end of the first. */
  lemma FallingConcat(before: seq<real>, more: seq<real>)
    requires Falling(before) && Falling(more)
    requires before != [] && more != [] ==> Falls(before[|before| - 1], more[0])
    ensures Falling(before + more)
  {
    var all := before + more;
    forall i, j | 0 <= i && j == i + 1 < |all| ensures Falls(all[i], all[j]) {
      PairInConcat(before, more, i);
      if i >= |before| { assert Falls(more[i - |before|], more[i - |before| + 1]); }
    }
  }

  /** Over the engine's lifetime only few caps are remembered: as many as the first one can be halved down to the floor, and one. */
  lemma {:induction false} LifetimeWritesAreFew(writes: seq<real>, n: nat)
    requires Falling(writes) && writes != [] && writes[0] <= MIN_CHUNK_FLOOR_S * Pow2(n) as real
    ensures |writes| <= n + 1
    decreases n
  {
    if |writes| > 1 {
      assert writes[1] < writes[0] && writes[1] <= NextCap(writes[0]) && writes[1] >= MIN_CHUNK_FLOOR_S;
      if n > 0 {
        assert Pow2(n) == 2 * Pow2(n - 1) && Pow2(n - 1) >= 1 by { Pow2Grows(n - 1); }
        var rest := writes[1..];
        assert forall i, j | 0 <= i && j == i + 1 < |rest| :: rest[i] == writes[i + 1] && rest[j] == writes[j + 1];
        LifetimeWritesAreFew(rest, n - 1);
      }
    }
  }

  // ----- The merged transcript -----

  function PlacedOf(done: seq<Completed>): (r: seq<Placed>)
    ensures |r| == |done| && forall i | 0 <= i < |r| :: r[i] == Placed(done[i].transcript, done[i].chunk.offset)
  {
    seq(|done|, i requires 0 <= i < |done| => Placed(done[i].transcript, done[i].chunk.offset))
  }

  ghost predicate TimeOrdered(segments: seq<Segment>) {
    forall i, j | 0 <= i < j < |segments| :: segments[i].start <= segments[j].start
  }

  predicate Within(w: TimedWord, lo: real, hi: real) {
    lo <= w.start <= w.end <= hi
  }

  /** A segment lies in the stretch of time, and its words lie in the segment. */
  ghost predicate Inside(s: Segment, lo: real, hi: real) {
    lo <= s.start <= s.end <= hi && (s.words.Some? ==> forall w | w in s.words.value :: Within(w, s.start, s.end))
  }

  /** A chunk's transcript is timed within the chunk and in order. */
  ghost predicate WellTimed(c: Completed) {
    TimeOrdered(c.transcript.segments) && forall s | s in c.transcript.segments :: Inside(s, 0.0, c.chunk.duration)
  }

  lemma StretchShifts(lo: real, start: real, end: real, hi: real, offset: real)
    requires lo <= start <= end <= hi
    ensures Milli(lo + offset) <= Milli(start + offset) <= Milli(end + offset) <= Milli(hi + offset)
  {
    MilliKeepsOrder(lo + offset, start + offset);
    MilliKeepsOrder(start + offset, end + offset);
    MilliKeepsOrder(end + offset, hi + offset);
  }

  lemma ShiftedInside(s: Segment, lo: real, hi: real, offset: real)
    requires Inside(s, lo, hi)
    ensures Inside(ShiftSegment(s, offset), Milli(lo + offset), Milli(hi + offset))
  {
    StretchShifts(lo, s.start, s.end, hi, offset);
    if s.words.Some? {
      var words := s.words.value;
      forall w | w in words ensures Within(ShiftWord(w, offset), Milli(s.start + offset), Milli(s.end + offset)) {
        assert Within(w, s.start, s.end);
        StretchShifts(s.start, w.start, w.end, s.end, offset);
      }
      forall w | w in ShiftWords(words, offset) ensures Within(w, Milli(s.start + offset), Milli(s.end + offset)) {
        var i :| 0 <= i < |words| && ShiftWords(words, offset)[i] == w;
        assert words[i] in words;
      }
    }
  }

  /** The segment lies in the chunk's time, to the millisecond. */
  ghost predicate InChunk(s: Segment, c: AudioChunk) {
    Inside(s, Milli(c.offset), Milli(SpanOf(c).end))
  }

  lemma ShiftKeepsTimeOrder(segments: seq<Segment>, offset: real)
    requires TimeOrdered(segments)
    ensures TimeOrdered(ShiftAll(segments, offset))
  {
    var more := ShiftAll(segments, offset);
    forall i, j | 0 <= i < j < |more| ensures more[i].start <= more[j].start {
      MilliKeepsOrder(segments[i].start + offset, segments[j].start + offset);
    }
  }

  lemma ChunkSegmentsInside(c: Completed)
    requires WellTimed(c)
    ensures var more := ShiftAll(c.transcript.segments, c.chunk.offset);
      TimeOrdered(more) && forall s | s in more :: InChunk(s, c.chunk)
  {
    var segments, offset := c.transcript.segments, c.chunk.offset;
    ShiftKeepsTimeOrder(segments, offset);
    var more := ShiftAll(segments, offset);
    forall s | s in more ensures InChunk(s, c.chunk) {
      var i :| 0 <= i < |segments| && more[i] == s;
      assert segments[i] in segments;
      assert 0.0 + offset == c.chunk.offset && c.chunk.duration + offset == SpanOf(c.chunk).end;
      ShiftedInside(segments[i], 0.0, c.chunk.duration, offset);
    }
  }

  lemma OrderedBefore(done: seq<Completed>, upTo: real)
    requires InOrderUpTo(done, upTo) && done != []
    ensures var n := |done| - 1; InOrderUpTo(done[..n], done[n].chunk.offset) && SpanOf(done[n].chunk).end <= upTo
  {
    var n := |done| - 1;
    assert SpansOf(done[..n]) == SpansOf(done)[..n] && SpansOf(done)[n] == SpanOf(done[n].chunk);
  }

  ghost predicate InItsChunk(s: Segment, done: seq<Completed>) {
    exists c | c in done :: InChunk(s, c.chunk)
  }

  lemma StaysInItsChunk(s: Segment, done: seq<Completed>, c: Completed)
    ensures InItsChunk(s, done) || InChunk(s, c.chunk) ==> InItsChunk(s, done + [c])
  {
    if InItsChunk(s, done) {
      var d :| d in done && InChunk(s, d.chunk);
      assert d in done + [c];
    } else {
      assert c in done + [c];
    }
  }

  lemma TimeOrderedConcat(a: seq<Segment>, b: seq<Segment>, mid: real)
    requires TimeOrdered(a) && TimeOrdered(b)
    requires (forall s | s in a :: s.start <= mid) && forall s | s in b :: mid <= s.start
    ensures TimeOrdered(a + b)
  {
    assert forall i | 0 <= i < |a| :: a[i] in a;
    assert forall i | 0 <= i < |b| :: b[i] in b;
  }

  ghost predicate InPlace(segments: seq<Segment>, done: seq<Completed>, upTo: real) {
    TimeOrdered(segments) && forall s | s in segments :: s.start <= s.end <= Milli(upTo) && InItsChunk(s, done)
  }

  lemma ChunkMergesInPlace(segments: seq<Segment>, done: seq<Completed>, c: Completed, upTo: real)
    requires InPlace(segments, done, c.chunk.offset) && WellTimed(c) && SpanOf(c.chunk).end <= upTo && c.chunk.duration >= 0.0
    ensures InPlace(segments + ShiftAll(c.transcript.segments, c.chunk.offset), done + [c], upTo)
  {
    var more := ShiftAll(c.transcript.segments, c.chunk.offset);
    ChunkSegmentsInside(c);
    TimeOrderedConcat(segments, more, Milli(c.chunk.offset));
    MilliKeepsOrder(c.chunk.offset, SpanOf(c.chunk).end);
    MilliKeepsOrder(SpanOf(c.chunk).end, upTo);
    forall s | s in segments + more ensures s.start <= s.end <= Milli(upTo) && InItsChunk(s, done + [c]) {
      StaysInItsChunk(s, done, c);
    }
  }

  /** Of a normal return the merged segments are in time order, each in its chunk's time to the millisecond and with its words inside it. */
  lemma {:induction false} MergedSegmentsAreOrdered(done: seq<Completed>, upTo: real)
    requires InOrderUpTo(done, upTo) && forall c | c in done :: WellTimed(c)
    ensures InPlace(MergedSegments(PlacedOf(done)), done, upTo)
  {
    if done != [] {
      var n := |done| - 1;
      OrderedBefore(done, upTo);
      MergedSegmentsAreOrdered(done[..n], done[n].chunk.offset);
      assert done == done[..n] + [done[n]] && SpansOf(done)[n] == SpanOf(done[n].chunk);
      assert PlacedOf(done)[..n] == PlacedOf(done[..n]);
      ChunkMergesInPlace(MergedSegments(PlacedOf(done[..n])), done[..n], done[n], upTo);
    }
  }

  // ----- What the caps are and why a run fails -----

  lemma HalfOfFloored(x: real)
    ensures Max(Max(x, MIN_CHUNK_FLOOR_S) / 2.0, MIN_CHUNK_FLOOR_S) == Max(x / 2.0, MIN_CHUNK_FLOOR_S)
  {
  }

  lemma HalfOfQuotient(x: real, n: nat)
    ensures x / Pow2(n) as real / 2.0 == x / Pow2(n + 1) as real
  {
    var p := Pow2(n) as real;
    Pow2Step(n);
    assert x / p / 2.0 * (2.0 * p) == x;
    QuotientIs(x, 2.0 * p, x / p / 2.0);
  }

  lemma QuotientIs(x: real, d: real, q: real)
    requires d > 0.0 && q * d == x
    ensures x / d == q
  {
    assert x / d * d == x;
    Cancels(x / d, q, d);
  }

  lemma Cancels(a: real, b: real, d: real)
    requires d > 0.0 && a * d == b * d
    ensures a == b
  {
    if a < b { TimesLess(a, b, d); } else if b < a { TimesLess(b, a, d); }
  }

  lemma TimesLess(a: real, b: real, d: real)
    requires d > 0.0 && a < b
    ensures a * d < b * d
  {
  }

  /** After `n` reductions the cap is the first one halved `n` times, or a minute if that is more. */
  lemma {:induction false} CapIsHalved(maxChunk: real, n: nat)
    requires maxChunk > 0.0 && n > 0
    ensures CapAt(maxChunk, n) == Max(maxChunk / Pow2(n) as real, 60.0)
  {
    HalfOfQuotient(maxChunk, n - 1);
    if n > 1 {
      CapIsHalved(maxChunk, n - 1);
      HalfOfFloored(maxChunk / Pow2(n - 1) as real);
    }
  }

  /** A run reports the cap of its last pass; it gives up on memory only at the floor, and fails only where a chunk did. */
  lemma OutcomesAreReal(split: Splitter, maxChunk: real, fate: Fates, n: nat) returns (failed: AudioChunk)
    requires maxChunk > 0.0 && EndsAfter(split, maxChunk, fate, n)
    ensures var r := Outcome(split, maxChunk, fate, n); var s := Before(split, maxChunk, fate, n).value;
      match r
      case Finished(_, finalMax) => finalMax == CapAt(maxChunk, n)
      case OomAtFloor => CapAt(maxChunk, n) <= MIN_CHUNK_FLOOR_S && failed in split(s.cap, s.boundary) && fate(n + 1, failed).OutOfMemory?
      case Failed => failed in split(s.cap, s.boundary) && fate(n + 1, failed).OtherError?
  {
    var s := Before(split, maxChunk, fate, n).value;
    var chunks := split(s.cap, s.boundary);
    var k := Stop(chunks, n + 1, fate);
    failed := if k < |chunks| then chunks[k] else AudioChunk(0.0, 0.0);
  }
}
