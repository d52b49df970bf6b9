/** `AdmissionController`: batch and realtime work share an engine, with slots reserved for realtime. */
module Admission {
  import opened Common

  datatype Config = Config(rtReservation: int, batchMaxInflight: int, totalCapacity: int)

  /** What the controller's lock protects. */
  datatype State = State(config: Config, batch: int, rt: int)

  datatype Op = AdmitBatch | AdmitRt | ReleaseBatch | ReleaseRt | Reconfigure(config: Config)

  // ----- The transition system -----

  predicate CanAcceptRt(s: State) {
    s.batch + s.rt < s.config.totalCapacity
  }

  /** A batch task must fit under its cap and leave the unfilled part of the reservation free. */
  predicate CanAcceptBatch(s: State) {
    && s.batch < s.config.batchMaxInflight
    && s.batch + s.rt < s.config.totalCapacity
    && (s.rt < s.config.rtReservation ==> s.batch + s.config.rtReservation < s.config.totalCapacity)
  }

  function Step(s: State, op: Op): State {
    match op
    case AdmitBatch => if CanAcceptBatch(s) then s.(batch := s.batch + 1) else s
    case AdmitRt => if CanAcceptRt(s) then s.(rt := s.rt + 1) else s
    case ReleaseBatch => s.(batch := MaxInt(0, s.batch - 1))
    case ReleaseRt => s.(rt := MaxInt(0, s.rt - 1))
    case Reconfigure(config) => s.(config := config)
  }

  function Run(s: State, ops: seq<Op>): State {
    if ops == [] then s else Step(Run(s, ops[..|ops| - 1]), ops[|ops| - 1])
  }

  function Initial(config: Config): State {
    State(config, 0, 0)
  }

  class AdmissionController {
    var config: Config
    var activeBatch: int
    var activeRt: int

    function Abstract(): State
      reads this
    {
      State(config, activeBatch, activeRt)
    }

    constructor (config: Config)
      ensures Abstract() == Initial(config)
    {
      this.config, activeBatch, activeRt := config, 0, 0;
    }

    method CanAcceptBatchUnlocked() returns (r: bool)
      ensures r == CanAcceptBatch(Abstract())
    {
      if activeBatch >= config.batchMaxInflight {
        return false;
      }
      var total := activeBatch + activeRt;
      var available := config.totalCapacity - total;
      if available <= 0 {
        return false;
      }
      if activeRt >= config.rtReservation {
        return true;
      }
      var rtShortfall := config.rtReservation - activeRt;
      return available > rtShortfall;
    }

    method CanAcceptRtUnlocked() returns (r: bool)
      ensures r == CanAcceptRt(Abstract())
    {
      var total := activeBatch + activeRt;
      return total < config.totalCapacity;
    }

    method AdmitBatchTask() returns (admitted: bool)
      modifies this
      ensures admitted == CanAcceptBatch(old(Abstract())) && Abstract() == Step(old(Abstract()), AdmitBatch)
    {
      admitted := CanAcceptBatchUnlocked();
      if admitted { activeBatch := activeBatch + 1; }
    }

    method AdmitRtSession() returns (admitted: bool)
      modifies this
      ensures admitted == CanAcceptRt(old(Abstract())) && Abstract() == Step(old(Abstract()), AdmitRt)
    {
      admitted := CanAcceptRtUnlocked();
      if admitted { activeRt := activeRt + 1; }
    }

    method ReleaseBatchTask()
      modifies this
      ensures Abstract() == Step(old(Abstract()), ReleaseBatch)
    {
      activeBatch := MaxInt(0, activeBatch - 1);
    }

    method ReleaseRtSession()
      modifies this
      ensures Abstract() == Step(old(Abstract()), ReleaseRt)
    {
      activeRt := MaxInt(0, activeRt - 1);
    }

    method ReconfigureLimits(config: Config)
      modifies this
      ensures Abstract() == Step(old(Abstract()), Reconfigure(config))
    {
      this.config := config;
    }
  }

  // ----- Guarantees -----

  ghost predicate FixedConfig(ops: seq<Op>) {
    forall i | 0 <= i < |ops| :: !ops[i].Reconfigure?
  }

  ghost predicate Sane(c: Config) {
    0 <= c.rtReservation <= c.totalCapacity
  }

  /** Within every limit: capacity, the batch cap, and the reservation batch must leave free. */
  ghost predicate WithinLimits(s: State) {
    && 0 <= s.batch && 0 <= s.rt
    && s.batch + s.rt <= s.config.totalCapacity
    && s.batch <= MaxInt(0, s.config.batchMaxInflight)
    && (s.batch == 0 || s.batch + s.config.rtReservation <= s.config.totalCapacity)
  }

  lemma {:induction false} RunsStayWithinLimits(s: State, ops: seq<Op>)
    requires Sane(s.config) && WithinLimits(s) && FixedConfig(ops)
    ensures WithinLimits(Run(s, ops)) && Run(s, ops).config == s.config
  {
    if ops != [] {
      RunsStayWithinLimits(s, ops[..|ops| - 1]);
    }
  }

  /** Realtime is never starved: in every reachable state a session below the reservation is admitted. */
  lemma RealtimeIsNeverStarved(config: Config, ops: seq<Op>)
    requires Sane(config) && FixedConfig(ops)
    ensures var s := Run(Initial(config), ops);
      s.rt < config.rtReservation ==> CanAcceptRt(s) && Step(s, AdmitRt).rt == s.rt + 1
  {
    RunsStayWithinLimits(Initial(config), ops);
  }

  /** How many more batch tasks fit: under the cap, beside realtime or its reservation, whichever is more. */
  function Headroom(s: State): int {
    MaxInt(0, MinInt(s.config.batchMaxInflight, s.config.totalCapacity - MaxInt(s.rt, s.config.rtReservation)) - s.batch)
  }

  function BatchBurst(n: nat): (ops: seq<Op>)
    ensures |ops| == n
  {
    seq(n, _ => AdmitBatch)
  }

  /**
   * The reservation is kept free for realtime and no more: of any number of batch requests in a row exactly as many are
   * admitted as there is headroom. Once realtime fills its reservation that is all the capacity it leaves.
   */
  lemma {:induction false} BatchTakesTheHeadroom(s: State, n: nat)
    ensures Run(s, BatchBurst(n)) == s.(batch := s.batch + MinInt(n, Headroom(s)))
  {
    if n > 0 {
      BatchTakesTheHeadroom(s, n - 1);
      assert BatchBurst(n)[..n - 1] == BatchBurst(n - 1);
    }
  }

  ghost predicate CountsNonNegative(s: State) {
    0 <= s.batch && 0 <= s.rt
  }

  /** How far a state is over each of its current limits. */
  ghost function Excess(s: State): (int, int, int) {
    ( MaxInt(0, s.batch + s.rt - s.config.totalCapacity),
      MaxInt(0, s.batch - s.config.batchMaxInflight),
      if s.batch == 0 then 0 else MaxInt(0, s.batch + s.config.rtReservation - s.config.totalCapacity) )
  }

  /** From any state, and so after any reconfiguration, no operation under the new limits takes a total further over one. */
  lemma ExcessNeverGrows(s: State, op: Op)
    requires Sane(s.config) && CountsNonNegative(s) && !op.Reconfigure?
    ensures var e, f := Excess(s), Excess(Step(s, op)); f.0 <= e.0 && f.1 <= e.1 && f.2 <= e.2
    ensures CountsNonNegative(Step(s, op))
  {
  }

  /** Between reconfigurations the excess only shrinks; once it is gone the limits hold again for good. */
  lemma {:induction false} LimitsAreRegained(s: State, before: seq<Op>, after: seq<Op>)
    requires Sane(s.config) && CountsNonNegative(s) && FixedConfig(before) && FixedConfig(after)
    requires Excess(Run(s, before)) == (0, 0, 0)
    ensures WithinLimits(Run(s, before + after))
  {
    NonNegativeRun(s, before);
    RunConcat(s, before, after);
    RunsStayWithinLimits(Run(s, before), after);
  }

  lemma {:induction false} NonNegativeRun(s: State, ops: seq<Op>)
    requires CountsNonNegative(s) && FixedConfig(ops)
    ensures CountsNonNegative(Run(s, ops)) && Run(s, ops).config == s.config
  {
    if ops != [] { NonNegativeRun(s, ops[..|ops| - 1]); }
  }

  lemma {:induction false} RunConcat(s: State, a: seq<Op>, b: seq<Op>)
    ensures Run(s, a + b) == Run(Run(s, a), b)
    decreases |b|
  {
    if b == [] {
      assert a + b == a;
    } else {
      RunConcat(s, a, b[..|b| - 1]);
      assert (a + b)[..|a + b| - 1] == a + b[..|b| - 1];
    }
  }

  /** An admission is only ever made within the limits of that moment, whatever the configuration was before. */
  lemma AdmissionsRespectCurrentLimits(s: State, op: Op)
    requires Step(s, op) != s && (op.AdmitBatch? || op.AdmitRt?)
    ensures var t := Step(s, op);
      && t.batch + t.rt <= t.config.totalCapacity
      && (op.AdmitBatch? ==>
        t.batch <= t.config.batchMaxInflight && t.batch + MaxInt(t.rt, t.config.rtReservation) <= t.config.totalCapacity)
  {
  }

  function RtBurst(n: nat): (ops: seq<Op>)
    ensures |ops| == n
  {
    seq(n, _ => AdmitRt)
  }

  /** From every state sessions are admitted until the capacity is used up, the reservation notwithstanding, and no further. */
  lemma {:induction false} SessionsTakeTheCapacity(s: State, n: nat)
    ensures Run(s, RtBurst(n)) == s.(rt := s.rt + MinInt(n, MaxInt(0, s.config.totalCapacity - s.batch - s.rt)))
  {
    if n > 0 {
      SessionsTakeTheCapacity(s, n - 1);
      assert RtBurst(n)[..n - 1] == RtBurst(n - 1);
    }
  }

  function Releases(op: Op, n: nat): (ops: seq<Op>)
    ensures |ops| == n
  {
    seq(n, _ => op)
  }

  /** Each release gives back one place, as long as any is taken; and it undoes an admission. */
  lemma {:induction false} ReleasesGiveBack(s: State, n: nat)
    requires s.batch >= 0 && s.rt >= 0
    ensures Run(s, Releases(ReleaseBatch, n)) == s.(batch := MaxInt(0, s.batch - n))
    ensures Run(s, Releases(ReleaseRt, n)) == s.(rt := MaxInt(0, s.rt - n))
  {
    if n > 0 {
      ReleasesGiveBack(s, n - 1);
      assert Releases(ReleaseBatch, n)[..n - 1] == Releases(ReleaseBatch, n - 1);
      assert Releases(ReleaseRt, n)[..n - 1] == Releases(ReleaseRt, n - 1);
    }
  }
}
