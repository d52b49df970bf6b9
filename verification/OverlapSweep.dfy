/** `overlap_stats_from_turns`: a line sweep over turn starts and ends, on a clock of whole milliseconds. */
module OverlapSweep {
  import opened Common
  import opened Sorting
  import opened SpeakerTurns
  import opened Measure
  import IntervalUnion

  type MsTurn = SpeakerTurn<int>

  /** How many turns cover the instant. */
  ghost function Cover(turns: seq<MsTurn>, x: int): nat {
    if turns == [] then 0
    else Cover(turns[1..], x) + if turns[0].start <= x < turns[0].end then 1 else 0
  }

  ghost predicate Proper(turns: seq<MsTurn>) {
    forall t | t in turns :: t.start <= t.end
  }

  ghost predicate Bounds(turns: seq<MsTurn>, lo: int, hi: int) {
    forall t | t in turns :: lo <= t.start <= hi && lo <= t.end <= hi
  }

  /** A turn's start (+1) or end (-1). */
  datatype Event = Event(time: int, delta: int)

  predicate EventLe(a: Event, b: Event) {
    a.time < b.time || (a.time == b.time && a.delta <= b.delta)
  }

  function Events(turns: seq<MsTurn>): seq<Event> {
    if turns == [] then []
    else [Event(turns[0].start, 1), Event(turns[0].end, -1)] + Events(turns[1..])
  }

  /** Sum of the deltas up to and including an instant. */
  ghost function Level(events: seq<Event>, x: int): int {
    if events == [] then 0 else Contribution(events[0], x) + Level(events[1..], x)
  }

  ghost function Contribution(e: Event, x: int): int {
    if e.time <= x then e.delta else 0
  }

  lemma {:induction false} LevelOfInsert(e: Event, events: seq<Event>, x: int)
    ensures Level(Insert(e, events, EventLe), x) == Contribution(e, x) + Level(events, x)
  {
    if events != [] && !EventLe(e, events[0]) {
      LevelOfInsert(e, events[1..], x);
      assert Insert(e, events, EventLe)[1..] == Insert(e, events[1..], EventLe);
    } else {
      assert ([e] + events)[1..] == events;
    }
  }

  /** Sorting the events does not change the level at any instant. */
  lemma {:induction false} LevelOfSorted(events: seq<Event>, x: int)
    ensures Level(StableSort(events, EventLe), x) == Level(events, x)
  {
    if events != [] {
      LevelOfSorted(events[1..], x);
      LevelOfInsert(events[0], StableSort(events[1..], EventLe), x);
    }
  }

  lemma LevelOfFirst(turns: seq<MsTurn>, x: int)
    requires turns != []
    ensures Level(Events(turns), x) ==
      (if turns[0].start <= x then 1 else 0) - (if turns[0].end <= x then 1 else 0) + Level(Events(turns[1..]), x)
  {
    var rest := Events(turns[1..]);
    var start, end := Event(turns[0].start, 1), Event(turns[0].end, -1);
    assert ([start, end] + rest)[1..] == [end] + rest && ([end] + rest)[1..] == rest;
  }

  /** The level of the events is the number of covering turns, if no turn ends before it starts. */
  lemma {:induction false} LevelIsCover(turns: seq<MsTurn>, x: int)
    requires Proper(turns)
    ensures Level(Events(turns), x) == Cover(turns, x)
  {
    if turns != [] {
      LevelIsCover(turns[1..], x);
      LevelOfFirst(turns, x);
      assert turns[0] in turns;
    }
  }

  ghost function DeltaSum(events: seq<Event>, n: nat): int
    requires n <= |events|
  {
    if n == 0 then 0 else DeltaSum(events, n - 1) + events[n - 1].delta
  }

  /** Between two neighbouring events the level is the sum of the deltas so far. */
  lemma {:induction false} LevelBetween(events: seq<Event>, n: nat, x: int)
    requires n <= |events|
    requires forall i | 0 <= i < n :: events[i].time <= x
    requires forall i | n <= i < |events| :: x < events[i].time
    ensures Level(events, x) == DeltaSum(events, n)
  {
    if events != [] {
      var k := if n > 0 then n - 1 else 0;
      LevelBetween(events[1..], k, x);
      DeltaSumTail(events, n);
    }
  }

  lemma {:induction false} DeltaSumTail(events: seq<Event>, n: nat)
    requires events != [] && n <= |events|
    ensures n > 0 ==> DeltaSum(events, n) == events[0].delta + DeltaSum(events[1..], n - 1)
  {
    if n > 1 { DeltaSumTail(events, n - 1); }
  }

  lemma {:induction false} EventTimes(turns: seq<MsTurn>, lo: int, hi: int)
    requires Bounds(turns, lo, hi)
    ensures forall e | e in Events(turns) :: lo <= e.time <= hi
    ensures turns != [] ==> Events(turns) != []
  {
    if turns != [] {
      assert turns[0] in turns;
      EventTimes(turns[1..], lo, hi);
    }
  }

  ghost predicate AtLeast(events: seq<Event>, depth: int, x: int) {
    Level(events, x) >= depth
  }

  /** Over one step of the sweep the level is constant. */
  lemma StepLength(events: seq<Event>, n: nat, lo: int, at: int, next: int, depth: int)
    requires SortedBy(events, EventLe) && n <= |events| && lo <= at <= next
    requires n > 0 ==> events[n - 1].time == at
    requires n < |events| ==> events[n].time == next
    ensures var p := x => AtLeast(events, depth, x);
      Length(p, lo, next) == Length(p, lo, at) + if DeltaSum(events, n) >= depth then next - at else 0
  {
    var p := x => AtLeast(events, depth, x);
    forall x | at <= x < next ensures p(x) == (DeltaSum(events, n) >= depth) {
      forall i | 0 <= i < n ensures events[i].time <= x {
        assert i < n - 1 ==> EventLe(events[i], events[n - 1]);
      }
      forall i | n <= i < |events| ensures x < events[i].time {
        assert i > n ==> EventLe(events[n], events[i]);
      }
      LevelBetween(events, n, x);
    }
    LengthSplits(p, lo, at, next);
    LengthOfConstant(p, at, next, DeltaSum(events, n) >= depth);
  }

  method Sweep(events: seq<Event>, ghost lo: int, ghost hi: int) returns (overlap: int, total: int)
    requires SortedBy(events, EventLe) && events != [] && forall e | e in events :: lo <= e.time <= hi
    requires DeltaSum(events, |events|) == 0
    ensures overlap == Length(x => AtLeast(events, 2, x), lo, hi)
    ensures total == Length(x => AtLeast(events, 1, x), lo, hi)
  {
    var active := 0;
    overlap, total := 0, 0;
    var prevTime := 0;
    ghost var at := lo;
    for i := 0 to |events|
      invariant active == DeltaSum(events, i)
      invariant i > 0 ==> prevTime == at == events[i - 1].time
      invariant i == 0 ==> at == lo
      invariant lo <= at <= hi && (i < |events| ==> at <= events[i].time)
      invariant overlap == Length(x => AtLeast(events, 2, x), lo, at)
      invariant total == Length(x => AtLeast(events, 1, x), lo, at)
    {
      var time, delta := events[i].time, events[i].delta;
      assert events[i] in events;
      assert i + 1 < |events| ==> EventLe(events[i], events[i + 1]);
      StepLength(events, i, lo, at, time, 2);
      StepLength(events, i, lo, at, time, 1);
      if time > prevTime {
        var dt := time - prevTime;
        if active >= 2 { overlap := overlap + dt; }
        if active >= 1 { total := total + dt; }
      }
      active := active + delta;
      prevTime := time;
      at := time;
    }
    StepLength(events, |events|, lo, at, hi, 2);
    StepLength(events, |events|, lo, at, hi, 1);
  }

  lemma {:induction false} DeltasCancel(turns: seq<MsTurn>, hi: int)
    requires forall t | t in turns :: t.start <= hi && t.end <= hi
    ensures Level(Events(turns), hi) == 0
  {
    if turns != [] {
      LevelOfFirst(turns, hi);
      assert turns[0] in turns;
      DeltasCancel(turns[1..], hi);
    }
  }

  /** Starts minus ends passed by an instant. */
  ghost function SignedCover(turns: seq<MsTurn>, x: int): int {
    Level(Events(turns), x)
  }

  /**
   * Overlapped time, and its share of the time anyone speaks: for turns that do not end before they start, the exact
   * lengths of the instants covered at least twice and at least once.
   */
  method OverlapStats(turns: seq<MsTurn>, ghost lo: int, ghost hi: int) returns (overlap: int, ratio: real)
    requires Bounds(turns, lo, hi)
    ensures overlap == Length(x => SignedCover(turns, x) >= 2, lo, hi)
    ensures var total := Length(x => SignedCover(turns, x) >= 1, lo, hi);
      ratio == if total > 0 then overlap as real / total as real else 0.0
    ensures Proper(turns) ==> overlap == Length(x => Cover(turns, x) >= 2, lo, hi)
    ensures Proper(turns) ==> var total := Length(x => Cover(turns, x) >= 1, lo, hi);
      ratio == if total > 0 then overlap as real / total as real else 0.0
    ensures 0.0 <= ratio <= 1.0
  {
    LevelLengths(turns, lo, hi);
    if turns == [] {
      LengthOfConstantOrEmpty(x => SignedCover(turns, x) >= 2, lo, hi);
      LengthOfConstantOrEmpty(x => SignedCover(turns, x) >= 1, lo, hi);
      return 0, 0.0;
    }
    var events := StableSort(Events(turns), EventLe);
    SortedEvents(turns, lo, hi);
    var total;
    overlap, total := Sweep(events, lo, hi);
    if total > 0 { ShareIsRatio(overlap, total); }
    ratio := if total > 0 then overlap as real / total as real else 0.0;
  }

  lemma SortedEvents(turns: seq<MsTurn>, lo: int, hi: int)
    requires turns != [] && Bounds(turns, lo, hi)
    ensures var events := StableSort(Events(turns), EventLe);
      && SortedBy(events, EventLe) && events != []
      && (forall e | e in events :: lo <= e.time <= hi)
      && DeltaSum(events, |events|) == 0
  {
    var unsorted := Events(turns);
    var events := StableSort(unsorted, EventLe);
    assert TotalPreorder(EventLe);
    SortSorts(unsorted, EventLe);
    SortMembers(unsorted, EventLe);
    EventTimes(turns, lo, hi);
    DeltasCancel(turns, hi);
    LevelOfSorted(unsorted, hi);
    forall i | 0 <= i < |events| ensures events[i].time <= hi {
      assert events[i] in events;
    }
    LevelBetween(events, |events|, hi);
  }

  lemma LevelLengths(turns: seq<MsTurn>, lo: int, hi: int)
    ensures var events := StableSort(Events(turns), EventLe);
      && Length(x => AtLeast(events, 2, x), lo, hi) == Length(x => SignedCover(turns, x) >= 2, lo, hi)
      && Length(x => AtLeast(events, 1, x), lo, hi) == Length(x => SignedCover(turns, x) >= 1, lo, hi)
      && Length(x => SignedCover(turns, x) >= 2, lo, hi) <= Length(x => SignedCover(turns, x) >= 1, lo, hi)
    ensures Proper(turns) ==>
      && Length(x => SignedCover(turns, x) >= 2, lo, hi) == Length(x => Cover(turns, x) >= 2, lo, hi)
      && Length(x => SignedCover(turns, x) >= 1, lo, hi) == Length(x => Cover(turns, x) >= 1, lo, hi)
  {
    var events := StableSort(Events(turns), EventLe);
    forall x ensures Level(events, x) == SignedCover(turns, x) {
      LevelOfSorted(Events(turns), x);
    }
    LengthDepends(x => AtLeast(events, 2, x), x => SignedCover(turns, x) >= 2, lo, hi);
    LengthDepends(x => AtLeast(events, 1, x), x => SignedCover(turns, x) >= 1, lo, hi);
    LengthIsMonotone(x => SignedCover(turns, x) >= 2, x => SignedCover(turns, x) >= 1, lo, hi);
    if Proper(turns) {
      forall x ensures SignedCover(turns, x) == Cover(turns, x) {
        LevelIsCover(turns, x);
      }
      LengthDepends(x => SignedCover(turns, x) >= 2, x => Cover(turns, x) >= 2, lo, hi);
      LengthDepends(x => SignedCover(turns, x) >= 1, x => Cover(turns, x) >= 1, lo, hi);
    }
  }

  /** A turn that ends before it starts pulls the level below the cover. */
  lemma {:induction false} LevelIsAtMostCover(turns: seq<MsTurn>, x: int)
    ensures SignedCover(turns, x) <= Cover(turns, x)
    ensures (exists t | t in turns :: t.end <= x < t.start) ==> SignedCover(turns, x) < Cover(turns, x)
  {
    if turns != [] {
      LevelIsAtMostCover(turns[1..], x);
      LevelOfFirst(turns, x);
      assert turns == [turns[0]] + turns[1..];
    }
  }

  /** The sweep counts covering turns at every instant exactly when no turn ends before it starts. */
  lemma SweepCountsCoverIffProper(turns: seq<MsTurn>)
    ensures (forall x :: SignedCover(turns, x) == Cover(turns, x)) <==> Proper(turns)
  {
    if Proper(turns) {
      forall x ensures SignedCover(turns, x) == Cover(turns, x) {
        LevelIsCover(turns, x);
      }
    } else {
      var t :| t in turns && t.start > t.end;
      LevelIsAtMostCover(turns, t.end);
    }
  }

  /** The turns' spans as the timestamps an interval union is computed from. */
  ghost function StampsOf(turns: seq<MsTurn>): seq<IntervalUnion.Stamps> {
    seq(|turns|, i requires 0 <= i < |turns| => (Some(turns[i].start), Some(turns[i].end)))
  }

  lemma {:induction false} CoverIsMembership(turns: seq<MsTurn>, x: int)
    ensures Cover(turns, x) >= 1 <==> exists t | t in turns :: t.start <= x < t.end
  {
    if turns != [] {
      CoverIsMembership(turns[1..], x);
      assert turns == [turns[0]] + turns[1..];
    }
  }

  /** The two sweeps agree: the interval union of the turns is the time at least one of them covers. */
  lemma UnionIsTotalSpeech(turns: seq<MsTurn>, lo: int, hi: int)
    ensures Length(t => IntervalUnion.InSome(StampsOf(turns), t), lo, hi) == Length(x => Cover(turns, x) >= 1, lo, hi)
  {
    var stamps := StampsOf(turns);
    forall x ensures IntervalUnion.InSome(stamps, x) <==> Cover(turns, x) >= 1 {
      CoverIsMembership(turns, x);
      if t :| t in turns && t.start <= x < t.end {
        var i :| 0 <= i < |turns| && turns[i] == t;
        assert stamps[i] in stamps;
      }
    }
    LengthDepends(t => IntervalUnion.InSome(stamps, t), x => Cover(turns, x) >= 1, lo, hi);
  }

  lemma LengthOfConstantOrEmpty(p: int -> bool, lo: int, hi: int)
    requires forall x :: !p(x)
    ensures Length(p, lo, hi) == 0
  {
    if lo <= hi { LengthOfConstant(p, lo, hi, false); }
  }

  lemma ShareIsRatio(part: int, whole: int)
    requires 0 <= part <= whole && whole > 0
    ensures 0.0 <= part as real / whole as real <= 1.0
  {
  }
}
