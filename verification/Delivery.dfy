/**
 * Task delivery with any number of runners: every command of `_poll_and_process` is a step of its own, and steps of
 * different runners, producers, crashes and heartbeat changes interleave freely.
 */
module Delivery {
  import opened Common
  import opened TaskStream

  /** Where a runner is in `_poll_and_process`. */
  datatype Pc =
    | Down
    | Idle
    | Scanning(rest: seq<PendingTask>)
    | Claiming(id: nat)
    | CheckingOwn
    | ReadingNew
    | Holding(id: nat)
    | Acking(id: nat)

  /**
   * `alive` are the consumers with a fresh heartbeat; `done` the messages some runner brought to a terminal outcome;
   * `expired` counts the idempotency keys that timed out.
   */
  datatype Sys = Sys(g: Group, pc: map<Consumer, Pc>, alive: set<Consumer>, now: int, done: set<nat>, expired: multiset<string>)

  datatype Action =
    | Enqueue(taskId: string)
    | EnqueueOnce(taskId: string, key: string)
    | KeyExpires(key: string)
    | Tick(now: int)
    | SetAlive(c: Consumer, up: bool)
    | Start(c: Consumer)
    | Crash(c: Consumer)
    | Poll(c: Consumer)
    | Inspect(c: Consumer)
    | ClaimIt(c: Consumer)
    | ReadOwn(c: Consumer)
    | ReadFresh(c: Consumer)
    | Finish(c: Consumer, outcome: Outcome)
    | Defer(c: Consumer)
    | Ack(c: Consumer)

  function PcOf(s: Sys, c: Consumer): Pc {
    if c in s.pc then s.pc[c] else Down
  }

  function Move(s: Sys, c: Consumer, pc: Pc): Sys {
    s.(pc := s.pc[c := pc])
  }

  /** What a runner does after a command that may have received a message. */
  function Received(s: Sys, c: Consumer, r: (Group, Option<nat>), otherwise: Pc): Sys {
    Move(s.(g := r.0), c, if r.1.Some? then Holding(r.1.value) else otherwise)
  }

  /** An action that is not enabled changes nothing, so any list of actions is a run. */
  function Step(s: Sys, a: Action): Sys {
    match a
    case Enqueue(taskId) => s.(g := AddTask(s.g, Task(taskId, None)))
    case EnqueueOnce(taskId, key) => s.(g := AddTaskOnce(s.g, taskId, key).0)
    case KeyExpires(key) =>
      if key in s.g.keys then s.(g := s.g.(keys := s.g.keys - {key}), expired := s.expired + multiset{key}) else s
    case Tick(now) => if now >= s.now then s.(now := now) else s
    case SetAlive(c, up) => s.(alive := if up then s.alive + {c} else s.alive - {c})
    case Start(c) => if PcOf(s, c).Down? then Move(s, c, Idle) else s
    case Crash(c) => Move(s, c, Down)
    case Poll(c) => if PcOf(s, c).Idle? then Move(s, c, Scanning(GetPending(s.g, s.now))) else s
    case Inspect(c) =>
      (match PcOf(s, c)
       case Scanning(rest) =>
         if rest == [] then Move(s, c, CheckingOwn)
         else if Stale(rest[0], s.alive) then Move(s, c, Claiming(rest[0].id))
         else Move(s, c, Scanning(rest[1..]))
       case _ => s)
    case ClaimIt(c) =>
      (match PcOf(s, c)
       case Claiming(id) => Received(s, c, Claim(s.g, c, id, s.now), CheckingOwn)
       case _ => s)
    case ReadOwn(c) => if PcOf(s, c).CheckingOwn? then Received(s, c, ReadOwnPending(s.g, c, s.now), ReadingNew) else s
    case ReadFresh(c) => if PcOf(s, c).ReadingNew? then Received(s, c, ReadTask(s.g, c, s.now), Idle) else s
    case Finish(c, outcome) =>
      (match PcOf(s, c)
       case Holding(id) => if outcome == Deferred then s else Move(s, c, Acking(id)).(done := s.done + {id})
       case _ => s)
    case Defer(c) => if PcOf(s, c).Holding? then Move(s, c, Idle) else s
    case Ack(c) =>
      (match PcOf(s, c)
       case Acking(id) => Move(s.(g := AckTask(s.g, id)), c, Idle)
       case _ => s)
  }

  function Run(s: Sys, actions: seq<Action>): Sys {
    if actions == [] then s else Step(Run(s, actions[..|actions| - 1]), actions[|actions| - 1])
  }

  function Start0(): Sys {
    Sys(Group([], 0, map[], {}, {}), map[], {}, 0, {}, multiset{})
  }

  // ----- Invariants -----

  /** Every enqueued message is undelivered, pending with one owner, or acknowledged: exactly one of the three. */
  ghost predicate Accounted(g: Group) {
    && g.cursor <= |g.entries|
    && (forall id | id in g.pel :: id < g.cursor)
    && (forall id | id in g.acked :: id < g.cursor && id !in g.pel)
    && (forall id: nat | id < g.cursor :: id in g.pel || id in g.acked)
  }

  /** What is acknowledged, or about to be, had a terminal outcome. */
  ghost predicate AckedIsDone(s: Sys) {
    && s.g.acked <= s.done
    && (forall c | c in s.pc && s.pc[c].Acking? :: s.pc[c].id in s.done)
  }

  ghost predicate OwnsNothing(g: Group, c: Consumer) {
    forall id | id in g.pel :: g.pel[id].owner != c
  }

  /** A runner about to read new work owns nothing; so it holds at most one unacknowledged message it read fresh. */
  ghost predicate NoHoarding(s: Sys) {
    && (forall c | c in s.pc && s.pc[c].ReadingNew? :: OwnsNothing(s.g, c))
    && OneFreshEach(s.g)
  }

  ghost predicate OneFreshEach(g: Group) {
    forall i, j | i in g.pel && j in g.pel && g.pel[i].origin.FreshRead? && g.pel[j].origin.FreshRead?
      && g.pel[i].owner == g.pel[j].owner :: i == j
  }

  ghost function WithKey(entries: seq<Task>, key: string): nat {
    if entries == [] then 0
    else WithKey(entries[..|entries| - 1], key) + if entries[|entries| - 1].key == Some(key) then 1 else 0
  }

  /** A key is enqueued once, and once more for each time it timed out. */
  ghost predicate Deduplicated(s: Sys) {
    forall key :: Counted(s.g.entries, s.g.keys, s.expired, key)
  }

  ghost predicate Counted(entries: seq<Task>, keys: set<string>, expired: multiset<string>, key: string) {
    WithKey(entries, key) == expired[key] + if key in keys then 1 else 0
  }

  ghost predicate Inv(s: Sys) {
    Accounted(s.g) && AckedIsDone(s) && NoHoarding(s) && Deduplicated(s)
  }

  lemma StepKeepsAccounted(s: Sys, a: Action)
    requires Accounted(s.g)
    ensures Accounted(Step(s, a).g)
  {
  }

  lemma StepKeepsAckedIsDone(s: Sys, a: Action)
    requires AckedIsDone(s)
    ensures AckedIsDone(Step(s, a))
  {
  }

  lemma ReadOwnFindsNothing(g: Group, c: Consumer, now: int)
    requires Accounted(g) && ReadOwnPending(g, c, now).1.None?
    ensures OwnsNothing(g, c)
  {
    forall id | id in g.pel ensures g.pel[id].owner != c {
      assert !Owned(g, c, id);
    }
  }

  lemma StepKeepsNoHoarding(s: Sys, a: Action)
    requires Accounted(s.g) && NoHoarding(s)
    ensures NoHoarding(Step(s, a))
  {
    match a {
      case ClaimIt(c) => ClaimKeepsNoHoarding(s, c);
      case ReadOwn(c) => ReadOwnKeepsNoHoarding(s, c);
      case ReadFresh(c) => ReadFreshKeepsNoHoarding(s, c);
      case _ =>
    }
  }

  lemma ClaimKeepsNoHoarding(s: Sys, c: Consumer)
    requires NoHoarding(s)
    ensures NoHoarding(Step(s, ClaimIt(c)))
  {
  }

  lemma ReadOwnKeepsNoHoarding(s: Sys, c: Consumer)
    requires Accounted(s.g) && NoHoarding(s)
    ensures NoHoarding(Step(s, ReadOwn(c)))
  {
    if PcOf(s, c).CheckingOwn? && ReadOwnPending(s.g, c, s.now).1.None? {
      ReadOwnFindsNothing(s.g, c, s.now);
    }
  }

  lemma ReadFreshKeepsNoHoarding(s: Sys, c: Consumer)
    requires Accounted(s.g) && NoHoarding(s)
    ensures NoHoarding(Step(s, ReadFresh(c)))
  {
  }

  lemma WithKeySnoc(entries: seq<Task>, t: Task, key: string)
    ensures WithKey(entries + [t], key) == WithKey(entries, key) + if t.key == Some(key) then 1 else 0
  {
    assert (entries + [t])[..|entries|] == entries;
  }

  lemma EnqueueKeepsCounts(entries: seq<Task>, keys: set<string>, expired: multiset<string>, t: Task, key: string)
    requires Counted(entries, keys, expired, key) && (t.key.Some? ==> t.key.value !in keys)
    ensures Counted(entries + [t], if t.key.Some? then keys + {t.key.value} else keys, expired, key)
  {
    WithKeySnoc(entries, t, key);
  }

  lemma ExpiryKeepsCounts(entries: seq<Task>, keys: set<string>, expired: multiset<string>, gone: string, key: string)
    requires Counted(entries, keys, expired, key) && gone in keys
    ensures Counted(entries, keys - {gone}, expired + multiset{gone}, key)
  {
  }

  /** Only producers and the clock of the keys touch what is counted. */
  lemma OthersKeepCounts(s: Sys, a: Action)
    requires !a.Enqueue? && !a.EnqueueOnce? && !a.KeyExpires?
    ensures var t := Step(s, a); t.g.entries == s.g.entries && t.g.keys == s.g.keys && t.expired == s.expired
  {
  }

  lemma StepKeepsDeduplicated(s: Sys, a: Action)
    requires Deduplicated(s)
    ensures Deduplicated(Step(s, a))
  {
    match a {
      case Enqueue(taskId) =>
        forall key ensures Counted(s.g.entries + [Task(taskId, None)], s.g.keys, s.expired, key) {
          EnqueueKeepsCounts(s.g.entries, s.g.keys, s.expired, Task(taskId, None), key);
        }
      case EnqueueOnce(taskId, k) =>
        if k !in s.g.keys {
          forall key ensures Counted(s.g.entries + [Task(taskId, Some(k))], s.g.keys + {k}, s.expired, key) {
            EnqueueKeepsCounts(s.g.entries, s.g.keys, s.expired, Task(taskId, Some(k)), key);
          }
        }
      case KeyExpires(k) =>
        if k in s.g.keys {
          forall key ensures Counted(s.g.entries, s.g.keys - {k}, s.expired + multiset{k}, key) {
            ExpiryKeepsCounts(s.g.entries, s.g.keys, s.expired, k, key);
          }
        }
      case _ => OthersKeepCounts(s, a);
    }
  }

  /** The invariants hold after every run, whatever interleaves. */
  lemma {:induction false} RunsKeepInv(s: Sys, actions: seq<Action>)
    requires Inv(s)
    ensures Inv(Run(s, actions))
  {
    if actions != [] {
      var before, a := Run(s, actions[..|actions| - 1]), actions[|actions| - 1];
      RunsKeepInv(s, actions[..|actions| - 1]);
      StepKeepsAccounted(before, a);
      StepKeepsAckedIsDone(before, a);
      StepKeepsNoHoarding(before, a);
      StepKeepsDeduplicated(before, a);
    }
  }

  // ----- No task is lost -----

  /** After every run from the start each message is in exactly one place, acknowledged only after a terminal outcome. */
  lemma NoTaskIsLost(actions: seq<Action>, id: nat)
    requires id < |Run(Start0(), actions).g.entries|
    ensures var s := Run(Start0(), actions);
      && (id >= s.g.cursor || id in s.g.pel || id in s.g.acked)
      && !(id in s.g.pel && id in s.g.acked)
      && (id >= s.g.cursor ==> id !in s.g.pel && id !in s.g.acked)
      && (id in s.g.acked ==> id in s.done)
  {
    RunsKeepInv(Start0(), actions);
  }

  lemma {:induction false} RunConcat(s: Sys, a: seq<Action>, b: seq<Action>)
    ensures Run(s, a + b) == Run(Run(s, a), b)
    decreases |b|
  {
    if b == [] {
      assert a + b == a;
    } else {
      RunConcat(s, a, b[..|b| - 1]);
      assert (a + b)[..|a + b| - 1] == a + b[..|b| - 1];
    }
  }

  lemma RunOne(s: Sys, a: Action)
    ensures Run(s, [a]) == Step(s, a)
  {
    assert [a][..0] == [];
  }

  /** The terminal outcome of a message: some runner held it and finished it otherwise than by deferral. */
  ghost predicate FinishedBy(s: Sys, actions: seq<Action>, id: nat) {
    exists i: nat | i < |actions| ::
      actions[i].Finish? && actions[i].outcome != Deferred && PcOf(Run(s, actions[..i]), actions[i].c) == Holding(id)
  }

  /** Only such an outcome makes a message done, and so, by `NoTaskIsLost`, only it leads to an acknowledgement. */
  lemma {:induction false} DoneMeansFinished(s: Sys, actions: seq<Action>, id: nat)
    requires id !in s.done && id in Run(s, actions).done
    ensures FinishedBy(s, actions, id)
  {
    var n := |actions| - 1;
    var before := actions[..n];
    if id in Run(s, before).done {
      DoneMeansFinished(s, before, id);
      var i: nat :| i < |before| && before[i].Finish? && before[i].outcome != Deferred && PcOf(Run(s, before[..i]), before[i].c) == Holding(id);
      assert before[..i] == actions[..i] && before[i] == actions[i];
    } else {
      assert PcOf(Run(s, actions[..n]), actions[n].c) == Holding(id);
    }
  }

  /** Once acknowledged, a message stays acknowledged and is never pending again. */
  lemma {:induction false} AckIsFinal(s: Sys, actions: seq<Action>, id: nat)
    requires Inv(s) && id in s.g.acked
    ensures id in Run(s, actions).g.acked && id !in Run(s, actions).g.pel
  {
    RunsKeepInv(s, actions);
    if actions != [] { AckIsFinal(s, actions[..|actions| - 1], id); }
  }

  /** A consumer never holds two unacknowledged messages that it read fresh. */
  lemma NoConsumerHoards(actions: seq<Action>, i: nat, j: nat)
    requires var g := Run(Start0(), actions).g;
      && i in g.pel && j in g.pel && g.pel[i].owner == g.pel[j].owner
      && g.pel[i].origin.FreshRead? && g.pel[j].origin.FreshRead?
    ensures i == j
  {
    RunsKeepInv(Start0(), actions);
  }

  // ----- An undisturbed poll -----

  /** The actions of a runner that scans this pending list. */
  ghost function ScanActions(c: Consumer, rest: seq<PendingTask>, alive: set<Consumer>): seq<Action> {
    if rest == [] || Stale(rest[0], alive) then [Inspect(c)]
    else [Inspect(c)] + ScanActions(c, rest[1..], alive)
  }

  lemma {:induction false} ScanFindsFirstStale(s: Sys, c: Consumer, rest: seq<PendingTask>)
    requires PcOf(s, c) == Scanning(rest)
    ensures Run(s, ScanActions(c, rest, s.alive)) ==
      Move(s, c, match FirstStale(rest, s.alive) case Some(id) => Claiming(id) case None => CheckingOwn)
    decreases |rest|
  {
    RunOne(s, Inspect(c));
    if rest != [] && !Stale(rest[0], s.alive) {
      var next := Move(s, c, Scanning(rest[1..]));
      ScanFindsFirstStale(next, c, rest[1..]);
      RunConcat(s, [Inspect(c)], ScanActions(c, rest[1..], s.alive));
      MoveTwice(s, c, Scanning(rest[1..]), match FirstStale(rest, s.alive) case Some(id) => Claiming(id) case None => CheckingOwn);
    }
  }

  lemma MoveTwice(s: Sys, c: Consumer, p: Pc, q: Pc)
    ensures Move(Move(s, c, p), c, q) == Move(s, c, q)
  {
    assert s.pc[c := p][c := q] == s.pc[c := q];
  }

  ghost function PollActions(s: Sys, c: Consumer): seq<Action> {
    [Poll(c)] + ScanActions(c, GetPending(s.g, s.now), s.alive) + [ClaimIt(c), ReadOwn(c), ReadFresh(c)]
  }

  /** A poll whose steps nobody interrupts does what the runner's sequential code does. */
  lemma UndisturbedPoll(s: Sys, c: Consumer)
    requires PcOf(s, c).Idle?
    ensures var r := Receive(s.g, c, s.alive, s.now);
      Run(s, PollActions(s, c)) == Move(s.(g := r.0), c, if r.1.Some? then Holding(r.1.value) else Idle)
  {
    var pending := GetPending(s.g, s.now);
    var scanning := Move(s, c, Scanning(pending));
    var scan := ScanActions(c, pending, s.alive);
    RunOne(s, Poll(c));
    ScanFindsFirstStale(scanning, c, pending);
    RunConcat(s, [Poll(c)], scan);
    RunConcat(s, [Poll(c)] + scan, [ClaimIt(c), ReadOwn(c), ReadFresh(c)]);
    var scanned := Run(s, [Poll(c)] + scan);
    ThreeSteps(scanned, ClaimIt(c), ReadOwn(c), ReadFresh(c));
    var target := match FirstStale(pending, s.alive) case Some(id) => Claiming(id) case None => CheckingOwn;
    MoveTwice(s, c, Scanning(pending), target);
    assert scanned == Move(s, c, target);
    PcMoves(s, c, target);
  }

  lemma ThreeSteps(s: Sys, a: Action, b: Action, d: Action)
    ensures Run(s, [a, b, d]) == Step(Step(Step(s, a), b), d)
  {
    assert [a, b, d] == [a] + [b] + [d];
    RunOne(s, a);
    RunConcat(s, [a], [b]);
    RunOne(Step(s, a), b);
    RunConcat(s, [a] + [b], [d]);
    RunOne(Step(Step(s, a), b), d);
  }

  lemma PcMoves(s: Sys, c: Consumer, target: Pc)
    requires target.Claiming? || target.CheckingOwn?
    requires target.Claiming? ==> target.id in s.g.pel
    ensures var r := if target.Claiming? then Claim(s.g, c, target.id, s.now) else
        var (own, id) := ReadOwnPending(s.g, c, s.now); if id.Some? then (own, id) else ReadTask(s.g, c, s.now);
      Step(Step(Step(Move(s, c, target), ClaimIt(c)), ReadOwn(c)), ReadFresh(c)) ==
        Move(s.(g := r.0), c, if r.1.Some? then Holding(r.1.value) else Idle)
  {
    MoveOnly(s, c);
  }

  lemma MoveOnly(s: Sys, c: Consumer)
    ensures forall p, q :: Move(Move(s, c, p), c, q) == Move(s, c, q)
  {
    forall p, q ensures Move(Move(s, c, p), c, q) == Move(s, c, q) {
      MoveTwice(s, c, p, q);
    }
  }

  // ----- No task gets stuck -----

  ghost function Unacked(g: Group): set<nat> {
    set id: nat | id < |g.entries| && id !in g.acked
  }

  /** An unacknowledged message gives its owner, or anyone if it was never delivered, something to receive. */
  lemma SomethingToReceive(g: Group, m: nat, c: Consumer, alive: set<Consumer>, now: int)
    requires Accounted(g) && m < |g.entries| && m !in g.acked
    requires m in g.pel ==> g.pel[m].owner == c
    ensures var r := Receive(g, c, alive, now);
      r.1.Some? && r.1.value in r.0.pel && r.1.value !in g.acked && r.0.acked == g.acked && r.0.entries == g.entries
  {
    if m in g.pel { assert Owned(g, c, m); }
  }

  ghost function CycleActions(s: Sys, c: Consumer): seq<Action> {
    [Crash(c), Start(c)] + PollActions(Move(s, c, Idle), c) + [Finish(c, Processed), Ack(c)]
  }

  lemma Restart(s: Sys, c: Consumer)
    ensures Run(s, [Crash(c), Start(c)]) == Move(s, c, Idle)
  {
    TwoSteps(s, Crash(c), Start(c));
    MoveTwice(s, c, Down, Idle);
  }

  lemma FinishAndAck(s: Sys, c: Consumer, id: nat)
    requires PcOf(s, c) == Holding(id)
    ensures Run(s, [Finish(c, Processed), Ack(c)]).g == AckTask(s.g, id)
  {
    TwoSteps(s, Finish(c, Processed), Ack(c));
  }

  /** A restarted runner that polls undisturbed and finishes what it receives. */
  lemma CycleResult(s: Sys, c: Consumer)
    ensures var r := Receive(s.g, c, s.alive, s.now);
      r.1.Some? ==> Run(s, CycleActions(s, c)).g == AckTask(r.0, r.1.value)
  {
    var idle := Move(s, c, Idle);
    var poll, finish := PollActions(idle, c), [Finish(c, Processed), Ack(c)];
    var r := Receive(s.g, c, s.alive, s.now);
    Restart(s, c);
    RunConcat(s, [Crash(c), Start(c)], poll);
    RunConcat(s, [Crash(c), Start(c)] + poll, finish);
    UndisturbedPoll(idle, c);
    if r.1.Some? { FinishAndAck(Run(idle, poll), c, r.1.value); }
  }

  /** Such a cycle acknowledges one message more. */
  lemma CycleAcks(s: Sys, m: nat, c: Consumer)
    requires Inv(s) && m in Unacked(s.g) && (m in s.g.pel ==> s.g.pel[m].owner == c)
    ensures var t := Run(s, CycleActions(s, c)); t.g.entries == s.g.entries && Unacked(t.g) < Unacked(s.g)
  {
    SomethingToReceive(s.g, m, c, s.alive, s.now);
    CycleResult(s, c);
    RunsKeepInv(s, CycleActions(s, c));
    var r := Receive(s.g, c, s.alive, s.now);
    var t := Run(s, CycleActions(s, c));
    assert t.g.acked == s.g.acked + {r.1.value};
    assert r.1.value in t.g.acked && r.1.value < |s.g.entries|;
    assert r.1.value in Unacked(s.g) && r.1.value !in Unacked(t.g);
  }

  lemma TwoSteps(s: Sys, a: Action, b: Action)
    ensures Run(s, [a, b]) == Step(Step(s, a), b)
  {
    assert [a, b] == [a] + [b];
    RunOne(s, a);
    RunConcat(s, [a], [b]);
    RunOne(Step(s, a), b);
  }

  /** From every reachable state every message can still be brought to acknowledgement. */
  lemma {:induction false} EveryTaskCanBeFinished(s: Sys, m: nat) returns (more: seq<Action>)
    requires Inv(s) && m < |s.g.entries|
    ensures m in Run(s, more).g.acked
    decreases Unacked(s.g)
  {
    if m in s.g.acked {
      more := [];
    } else {
      var c := if m in s.g.pel then s.g.pel[m].owner else "";
      var cycle := CycleActions(s, c);
      CycleAcks(s, m, c);
      RunsKeepInv(s, cycle);
      var rest := EveryTaskCanBeFinished(Run(s, cycle), m);
      RunConcat(s, cycle, rest);
      more := cycle + rest;
    }
  }

  // ----- What the protocol does not give -----

  lemma BothSeeIt(s: Sys, a: Consumer, b: Consumer, pending: seq<PendingTask>)
    requires a != b && PcOf(s, a).Idle? && PcOf(s, b).Idle?
    requires pending == GetPending(s.g, s.now) != [] && Stale(pending[0], s.alive)
    ensures var t := Run(s, [Poll(a), Poll(b), Inspect(a)]);
      t.g == s.g && t.alive == s.alive && t.now == s.now && PcOf(t, a) == Claiming(pending[0].id) && PcOf(t, b) == Scanning(pending)
  {
    ThreeSteps(s, Poll(a), Poll(b), Inspect(a));
  }

  lemma ClaimItHolds(s: Sys, c: Consumer, id: nat)
    requires id in s.g.pel && PcOf(s, c) == Claiming(id)
    ensures var t := Step(s, ClaimIt(c));
      && PcOf(t, c) == Holding(id) && id in t.g.pel && t.g.pel[id].owner == c
      && forall d | d != c :: PcOf(t, d) == PcOf(s, d)
  {
  }

  lemma BothClaimIt(s: Sys, a: Consumer, b: Consumer, pending: seq<PendingTask>)
    requires a != b && pending != [] && pending[0].id in s.g.pel && Stale(pending[0], s.alive)
    requires PcOf(s, a) == Claiming(pending[0].id) && PcOf(s, b) == Scanning(pending)
    ensures var id := pending[0].id; var t := Run(s, [Inspect(b), ClaimIt(a), ClaimIt(b)]);
      PcOf(t, a) == Holding(id) && PcOf(t, b) == Holding(id) && id in t.g.pel && t.g.pel[id].owner == b
  {
    var id := pending[0].id;
    var seen := Step(s, Inspect(b));
    assert seen == Move(s, b, Claiming(id));
    ClaimItHolds(seen, a, id);
    ClaimItHolds(Step(seen, ClaimIt(a)), b, id);
    ThreeSteps(s, Inspect(b), ClaimIt(a), ClaimIt(b));
  }

  /** Claiming is not atomic: two runners that both see a dead engine's task end up with it; only the second owns it. */
  lemma TwoRunnersCanHoldOneTask(s: Sys, a: Consumer, b: Consumer)
    requires a != b && PcOf(s, a).Idle? && PcOf(s, b).Idle?
    requires var pending := GetPending(s.g, s.now); pending != [] && Stale(pending[0], s.alive)
    ensures var id := GetPending(s.g, s.now)[0].id;
      var t := Run(s, [Poll(a), Poll(b), Inspect(a)] + [Inspect(b), ClaimIt(a), ClaimIt(b)]);
      PcOf(t, a) == Holding(id) && PcOf(t, b) == Holding(id) && id in t.g.pel && t.g.pel[id].owner == b
  {
    var pending := GetPending(s.g, s.now);
    assert pending[0] in pending;
    BothSeeIt(s, a, b, pending);
    BothClaimIt(Run(s, [Poll(a), Poll(b), Inspect(a)]), a, b, pending);
    RunConcat(s, [Poll(a), Poll(b), Inspect(a)], [Inspect(b), ClaimIt(a), ClaimIt(b)]);
  }

  /** Consumer `c` has the message in hand, processing or acknowledging it. */
  predicate Holder(s: Sys, c: Consumer, id: nat) {
    PcOf(s, c) == Holding(id) || PcOf(s, c) == Acking(id)
  }

  ghost predicate Exclusive(s: Sys) {
    forall a, b, id: nat | Holder(s, a, id) && Holder(s, b, id) :: a == b
  }

  /** The claim goes through although another consumer has the message in hand. */
  ghost predicate Steals(s: Sys, a: Action) {
    && a.ClaimIt? && PcOf(s, a.c).Claiming? && PcOf(s, a.c).id in s.g.pel
    && exists d | d != a.c :: Holder(s, d, PcOf(s, a.c).id)
  }

  ghost predicate HoldersOwn(s: Sys) {
    forall c, id: nat | Holder(s, c, id) :: Owned(s.g, c, id)
  }

  lemma OthersStay(s: Sys, a: Action, c: Consumer, id: nat)
    requires Accounted(s.g) && HoldersOwn(s) && !Steals(s, a) && Holder(Step(s, a), c, id) && Holder(s, c, id)
    ensures Owned(Step(s, a).g, c, id)
  {
    assert Owned(s.g, c, id);
    if a.Ack? && PcOf(s, a.c) == Acking(id) { assert Holder(s, a.c, id); }
  }

  lemma NewcomerOwns(s: Sys, a: Action, c: Consumer, id: nat)
    requires Accounted(s.g) && Holder(Step(s, a), c, id) && !Holder(s, c, id)
    ensures Owned(Step(s, a).g, c, id)
  {
  }

  lemma StepKeepsHoldersOwn(s: Sys, a: Action)
    requires Accounted(s.g) && HoldersOwn(s) && !Steals(s, a)
    ensures HoldersOwn(Step(s, a))
  {
    forall c, id: nat | Holder(Step(s, a), c, id) ensures Owned(Step(s, a).g, c, id) {
      if Holder(s, c, id) { OthersStay(s, a, c, id); } else { NewcomerOwns(s, a, c, id); }
    }
  }

  ghost predicate StealFree(actions: seq<Action>) {
    forall i: nat | i < |actions| :: !Steals(Run(Start0(), actions[..i]), actions[i])
  }

  ghost predicate AlwaysExclusive(actions: seq<Action>) {
    forall n: nat | n <= |actions| :: Exclusive(Run(Start0(), actions[..n]))
  }

  lemma RunSnoc(s: Sys, actions: seq<Action>, n: nat)
    requires n < |actions|
    ensures Run(s, actions[..n + 1]) == Step(Run(s, actions[..n]), actions[n])
  {
    assert actions[..n + 1][..n] == actions[..n];
  }

  lemma {:induction false} StealFreeRunsOwn(actions: seq<Action>, n: nat)
    requires StealFree(actions) && n <= |actions|
    ensures HoldersOwn(Run(Start0(), actions[..n]))
  {
    if n > 0 {
      StealFreeRunsOwn(actions, n - 1);
      RunsKeepInv(Start0(), actions[..n - 1]);
      StepKeepsHoldersOwn(Run(Start0(), actions[..n - 1]), actions[n - 1]);
      RunSnoc(Start0(), actions, n - 1);
    }
  }

  lemma StealMakesTwo(s: Sys, a: Action)
    requires Steals(s, a)
    ensures !Exclusive(Step(s, a))
  {
    var id := PcOf(s, a.c).id;
    var d :| d != a.c && Holder(s, d, id);
    assert Holder(Step(s, a), a.c, id) && Holder(Step(s, a), d, id);
  }

  /** A run has at most one holder per message throughout, if and only if no claim in it takes a message out of someone's hands. */
  lemma ExclusiveIffNoSteal(actions: seq<Action>)
    ensures AlwaysExclusive(actions) <==> StealFree(actions)
  {
    if StealFree(actions) {
      forall n: nat | n <= |actions| ensures Exclusive(Run(Start0(), actions[..n])) {
        StealFreeRunsOwn(actions, n);
      }
    }
    if i: nat :| i < |actions| && Steals(Run(Start0(), actions[..i]), actions[i]) {
      StealMakesTwo(Run(Start0(), actions[..i]), actions[i]);
      RunSnoc(Start0(), actions, i);
      assert !Exclusive(Run(Start0(), actions[..i + 1]));
    }
  }

  // ----- When nobody steals -----

  predicate Up(s: Sys, c: Consumer) {
    !PcOf(s, c).Down?
  }

  /** What is left of the runner's pending page names the message. */
  ghost predicate Lists(pc: Pc, id: nat) {
    pc == Claiming(id) || (pc.Scanning? && exists t | t in pc.rest :: t.id == id)
  }

  /**
   * What an operator can see to: no consumer name is used again after its process stopped; a consumer that is up has a
   * fresh heartbeat when a scan inspects a message of its own; nobody claims a message that another runner's page names.
   */
  ghost predicate Careful(s: Sys, a: Action) {
    && (a.Start? ==> a.c !in s.pc)
    && (a.Inspect? && PcOf(s, a.c).Scanning? && PcOf(s, a.c).rest != [] ==>
      var owner := PcOf(s, a.c).rest[0].owner; Up(s, owner) ==> owner in s.alive)
    && (a.ClaimIt? && PcOf(s, a.c).Claiming? ==> forall d | d != a.c :: !Lists(PcOf(s, d), PcOf(s, a.c).id))
  }

  ghost predicate CarefulRun(actions: seq<Action>) {
    forall i: nat | i < |actions| :: Careful(Run(Start0(), actions[..i]), actions[i])
  }

  /** The page is still right about the owner, if the message is still pending. */
  predicate UpToDate(g: Group, t: PendingTask) {
    t.id < g.cursor && (t.id in g.pel ==> g.pel[t.id].owner == t.owner)
  }

  /** The message, if pending, belongs to a consumer that stopped. */
  predicate OwnerStopped(s: Sys, id: nat) {
    id < s.g.cursor && (id in s.g.pel ==> s.g.pel[id].owner in s.pc && !Up(s, s.g.pel[id].owner))
  }

  ghost predicate Informed(s: Sys, pc: Pc) {
    && (pc.Scanning? ==> forall t | t in pc.rest :: UpToDate(s.g, t))
    && (pc.Claiming? ==> OwnerStopped(s, pc.id))
  }

  ghost predicate OwnersKnown(s: Sys) {
    forall id | id in s.g.pel :: s.g.pel[id].owner in s.pc
  }

  ghost predicate Orderly(s: Sys) {
    OwnersKnown(s) && forall c :: Informed(s, PcOf(s, c))
  }

  lemma StepKeepsOwnersKnown(s: Sys, a: Action)
    requires OwnersKnown(s)
    ensures OwnersKnown(Step(s, a))
  {
  }

  /** Only a claim changes the owner of a pending message. */
  lemma OwnerStays(s: Sys, a: Action, id: nat)
    requires id < s.g.cursor && id in Step(s, a).g.pel
    ensures id in s.g.pel
    ensures s.g.pel[id].owner == Step(s, a).g.pel[id].owner || (a.ClaimIt? && PcOf(s, a.c) == Claiming(id))
  {
  }

  lemma CursorAdvances(s: Sys, a: Action)
    ensures s.g.cursor <= Step(s, a).g.cursor
  {
  }

  lemma StaysStopped(s: Sys, a: Action, c: Consumer)
    requires c in s.pc && !Up(s, c) && (a.Start? ==> a.c !in s.pc)
    ensures c in Step(s, a).pc && !Up(Step(s, a), c)
  {
  }

  lemma OthersStayInformed(s: Sys, a: Action, c: Consumer)
    requires Orderly(s) && Careful(s, a) && PcOf(Step(s, a), c) == PcOf(s, c)
    ensures Informed(Step(s, a), PcOf(s, c))
  {
    var t, pc := Step(s, a), PcOf(s, c);
    CursorAdvances(s, a);
    assert Informed(s, pc);
    assert a.ClaimIt? && PcOf(s, a.c).Claiming? ==> !Lists(pc, PcOf(s, a.c).id);
    if pc.Scanning? {
      forall p | p in pc.rest ensures UpToDate(t.g, p) {
        assert UpToDate(s.g, p);
        if p.id in t.g.pel { OwnerStays(s, a, p.id); }
      }
    } else if pc.Claiming? && pc.id in t.g.pel {
      OwnerStays(s, a, pc.id);
      StaysStopped(s, a, s.g.pel[pc.id].owner);
    }
  }

  lemma ActorIsInformed(s: Sys, a: Action, c: Consumer)
    requires Accounted(s.g) && Orderly(s) && Careful(s, a) && PcOf(Step(s, a), c) != PcOf(s, c)
    ensures Informed(Step(s, a), PcOf(Step(s, a), c))
  {
    match a {
      case Inspect(d) =>
        var rest := PcOf(s, d).rest;
        assert Informed(s, PcOf(s, d));
        if rest != [] { assert UpToDate(s.g, rest[0]); }
      case _ =>
    }
  }

  lemma StepKeepsOrderly(s: Sys, a: Action)
    requires Accounted(s.g) && Orderly(s) && Careful(s, a)
    ensures Orderly(Step(s, a))
  {
    StepKeepsOwnersKnown(s, a);
    forall c ensures Informed(Step(s, a), PcOf(Step(s, a), c)) {
      if PcOf(Step(s, a), c) == PcOf(s, c) { OthersStayInformed(s, a, c); } else { ActorIsInformed(s, a, c); }
    }
  }

  /** Whoever has a claimed message in hand would own it, but its owner has stopped. */
  lemma CarefulClaimDoesNotSteal(s: Sys, a: Action)
    requires Orderly(s) && HoldersOwn(s)
    ensures !Steals(s, a)
  {
    if a.ClaimIt? { assert Informed(s, PcOf(s, a.c)); }
  }

  lemma {:induction false} CarefulRunsAreOrderly(actions: seq<Action>, n: nat)
    requires CarefulRun(actions) && n <= |actions|
    ensures Orderly(Run(Start0(), actions[..n])) && HoldersOwn(Run(Start0(), actions[..n]))
  {
    if n > 0 {
      var s := Run(Start0(), actions[..n - 1]);
      CarefulRunsAreOrderly(actions, n - 1);
      RunsKeepInv(Start0(), actions[..n - 1]);
      RunSnoc(Start0(), actions, n - 1);
      CarefulClaimDoesNotSteal(s, actions[n - 1]);
      StepKeepsOrderly(s, actions[n - 1]);
      StepKeepsHoldersOwn(s, actions[n - 1]);
    }
  }

  /** A careful run steals nothing, so it never has two holders of one message. */
  lemma CarefulRunsAreExclusive(actions: seq<Action>)
    requires CarefulRun(actions)
    ensures StealFree(actions) && AlwaysExclusive(actions)
  {
    forall i: nat | i < |actions| ensures !Steals(Run(Start0(), actions[..i]), actions[i]) {
      CarefulRunsAreOrderly(actions, i);
      CarefulClaimDoesNotSteal(Run(Start0(), actions[..i]), actions[i]);
    }
    ExclusiveIffNoSteal(actions);
  }

  /** A runner without heartbeat reads the only task. */
  lemma SilentRunnerHolds(a: Consumer) returns (actions: seq<Action>)
    ensures var t := Run(Start0(), actions);
      && t.g == Group([Task("t", None)], 1, map[0 := Pending(a, 0, 1, FreshRead)], {}, {})
      && t.now == 0 && t.alive == {} && t.pc.Keys == {a} && PcOf(t, a) == Holding(0)
  {
    var s := Step(Step(Start0(), Enqueue("t")), Start(a));
    TwoSteps(Start0(), Enqueue("t"), Start(a));
    assert GetPending(s.g, s.now) == [] && FirstOwned(s.g, a, 0) == None;
    UndisturbedPoll(s, a);
    RunConcat(Start0(), [Enqueue("t"), Start(a)], PollActions(s, a));
    actions := [Enqueue("t"), Start(a)] + PollActions(s, a);
  }

  lemma StaleTaskIsClaimed(s: Sys, a: Consumer, b: Consumer)
    requires a != b && s.g == Group([Task("t", None)], 1, map[0 := Pending(a, 0, 1, FreshRead)], {}, {})
    requires s.now == STALE_THRESHOLD_MS && s.alive == {} && PcOf(s, a) == Holding(0) && PcOf(s, b) == Idle
    ensures var t := Run(s, PollActions(s, b)); Holder(t, a, 0) && Holder(t, b, 0)
  {
    assert PendingFrom(s.g, s.now, 1, PAGE - 1) == [];
    assert GetPending(s.g, s.now) == [PendingTask(0, a, STALE_THRESHOLD_MS)];
    UndisturbedPoll(s, b);
  }

  /** It happens: ten minutes later another runner claims the task that the first one is still processing. */
  lemma TwoHoldersAreReachable(a: Consumer, b: Consumer) returns (actions: seq<Action>)
    requires a != b
    ensures var t := Run(Start0(), actions); Holder(t, a, 0) && Holder(t, b, 0)
    ensures !StealFree(actions)
  {
    var before := SilentRunnerHolds(a);
    var wait := [Tick(STALE_THRESHOLD_MS), Start(b)];
    TwoSteps(Run(Start0(), before), Tick(STALE_THRESHOLD_MS), Start(b));
    RunConcat(Start0(), before, wait);
    var ready := Run(Start0(), before + wait);
    StaleTaskIsClaimed(ready, a, b);
    RunConcat(Start0(), before + wait, PollActions(ready, b));
    actions := before + wait + PollActions(ready, b);
    TwoHoldersAreNotExclusive(actions, a, b);
  }

  lemma TwoHoldersAreNotExclusive(actions: seq<Action>, a: Consumer, b: Consumer)
    requires a != b && Holder(Run(Start0(), actions), a, 0) && Holder(Run(Start0(), actions), b, 0)
    ensures !StealFree(actions)
  {
    ExclusiveIffNoSteal(actions);
    assert actions[..|actions|] == actions;
    assert !Exclusive(Run(Start0(), actions[..|actions|]));
  }
}
