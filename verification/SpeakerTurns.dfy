/** Diarization turns, generic in the clock: seconds (`real`) or whole milliseconds (`int`). */
module SpeakerTurns {
  import opened Common

  datatype SpeakerTurn<+T> = SpeakerTurn(
    start: T,
    end: T,
    speaker: string,
    confidence: Option<real>,
    overlappingSpeakers: Option<seq<string>>)

  type Turn = SpeakerTurn<real>

  predicate TurnLe(a: Turn, b: Turn) {
    a.start < b.start || (a.start == b.start && a.end <= b.end)
  }

  function Duration(t: Turn): real {
    t.end - t.start
  }

  function Overlap(a: Turn, b: Turn): real {
    Max(0.0, Min(a.end, b.end) - Max(a.start, b.start))
  }

  /** The overlap is the length of the stretch that the two share. */
  lemma OverlapIsShared(a: Turn, b: Turn, x: real)
    ensures var lo := Max(a.start, b.start);
      (a.start <= x < a.end && b.start <= x < b.end) <==> lo <= x < lo + Overlap(a, b)
  {
  }

  /** The span of `t` lies inside that of `u`. */
  predicate Within(t: Turn, u: Turn) {
    u.start <= t.start && t.end <= u.end
  }

  /** `u` is `t` with a wider span and everything else unchanged. */
  predicate Extends(u: Turn, t: Turn) {
    Within(t, u) && u == t.(start := u.start, end := u.end)
  }
}
