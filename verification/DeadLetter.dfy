/** Durable events: a failed event moves to the dead-letter stream by a write and then an acknowledgement. */
module DeadLetter {
  import opened Common

  datatype Envelope = Envelope(messageId: nat, eventType: Option<string>, payload: Option<string>, deliveries: nat)

  datatype DlqEntry = DlqEntry(sourceMessageId: nat, eventType: string, failureReason: string, error: string, payload: Option<string>, deliveries: nat)

  function BuildDlqEntry(e: Envelope, failureReason: string, error: Option<string>): DlqEntry {
    DlqEntry(
      e.messageId,
      if e.eventType.Some? && e.eventType.value != "" then e.eventType.value else "unknown",
      failureReason,
      if error.Some? then error.value else "",
      e.payload,
      e.deliveries)
  }

  /** Appending may trim the oldest entries, but only down to the maximum length. */
  predicate MayTrim(length: nat, maxLength: int, trimmed: nat) {
    trimmed == 0 || length - trimmed >= MaxInt(1, maxLength)
  }

  function Appended(dlq: seq<DlqEntry>, entry: DlqEntry, trimmed: nat): seq<DlqEntry>
    requires trimmed <= |dlq|
  {
    dlq[trimmed..] + [entry]
  }

  /** Pending list and dead-letter stream after so many of the two commands of a move. */
  function Moved(pel: set<nat>, dlq: seq<DlqEntry>, e: Envelope, failureReason: string, error: Option<string>, trimmed: nat, commands: nat)
    : (set<nat>, seq<DlqEntry>)
    requires trimmed <= |dlq|
  {
    ( if commands >= 2 then pel - {e.messageId} else pel,
      if commands >= 1 then Appended(dlq, BuildDlqEntry(e, failureReason, error), trimmed) else dlq )
  }

  ghost predicate InDlq(dlq: seq<DlqEntry>, id: nat) {
    exists e | e in dlq :: e.sourceMessageId == id
  }

  // ----- One process, stopped at any point -----

  class EventStreams {
    /** Delivered events not yet acknowledged. */
    var pel: set<nat>
    /** The dead-letter stream. */
    var dlq: seq<DlqEntry>

    /** `trimmed` is how many entries the stream drops in turn. */
    method AddEventToDlq(e: Envelope, failureReason: string, error: Option<string>, maxLength: int, trimmed: nat)
      requires MayTrim(|dlq| + 1, maxLength, trimmed)
      modifies this
      ensures dlq == Appended(old(dlq), BuildDlqEntry(e, failureReason, error), trimmed) && pel == old(pel)
    {
      dlq := dlq[trimmed..] + [BuildDlqEntry(e, failureReason, error)];
    }

    method AckEvent(id: nat)
      modifies this
      ensures pel == old(pel) - {id} && dlq == old(dlq)
    {
      pel := pel - {id};
    }

    /** `commands` is how many of the two commands go through before the process stops. */
    method MoveEventToDlq(e: Envelope, failureReason: string, error: Option<string>, maxLength: int, trimmed: nat, commands: nat)
      requires MayTrim(|dlq| + 1, maxLength, trimmed)
      modifies this
      ensures e.messageId in old(pel) ==> e.messageId in pel || InDlq(dlq, e.messageId)
      ensures commands >= 2 ==> e.messageId !in pel && BuildDlqEntry(e, failureReason, error) in dlq
      ensures (pel, dlq) == Moved(old(pel), old(dlq), e, failureReason, error, trimmed, commands)
    {
      if commands == 0 {
        return;
      }
      AddEventToDlq(e, failureReason, error, maxLength, trimmed);
      assert BuildDlqEntry(e, failureReason, error) in dlq;
      if commands == 1 {
        return;
      }
      AckEvent(e.messageId);
    }
  }

  // ----- Any number of workers, crashing and retrying -----

  type Worker = string

  /** A worker has an event in hand, has handled it, is about to write it to the dead-letter stream, or has written it. */
  datatype Pc = Idle | InHand(e: Envelope) | Handled(e: Envelope) | Writing(e: Envelope) | Written(e: Envelope)

  /** `dropped` are the entries that were trimmed off the dead-letter stream, oldest first. */
  datatype Sys = Sys(delivered: set<nat>, pel: set<nat>, dropped: seq<DlqEntry>, dlq: seq<DlqEntry>, handled: set<nat>, pc: map<Worker, Pc>)

  function Start(): Sys {
    Sys({}, {}, [], [], {}, map[])
  }

  datatype Action =
    | Deliver(w: Worker, e: Envelope)
    | Handle(w: Worker)
    | GiveUp(w: Worker)
    | Write(w: Worker, failureReason: string, error: Option<string>, trimmed: nat)
    | Ack(w: Worker)
    | Crash(w: Worker)

  function PcOf(s: Sys, w: Worker): Pc {
    if w in s.pc then s.pc[w] else Idle
  }

  /** A new event becomes pending when first delivered; a pending one may be claimed again by anyone; an acknowledged one never returns. */
  function Step(s: Sys, maxLength: int, a: Action): Sys {
    match a
    case Deliver(w, e) =>
      if e.messageId in s.delivered && e.messageId !in s.pel then s
      else s.(delivered := s.delivered + {e.messageId}, pel := s.pel + {e.messageId}, pc := s.pc[w := InHand(e)])
    case Handle(w) =>
      (match PcOf(s, w)
       case InHand(e) => s.(handled := s.handled + {e.messageId}, pc := s.pc[w := Handled(e)])
       case _ => s)
    case GiveUp(w) =>
      (match PcOf(s, w)
       case InHand(e) => s.(pc := s.pc[w := Writing(e)])
       case _ => s)
    case Write(w, failureReason, error, trimmed) =>
      (match PcOf(s, w)
       case Writing(e) =>
         if MayTrim(|s.dlq| + 1, maxLength, trimmed) then WriteEntry(s, BuildDlqEntry(e, failureReason, error), trimmed).(pc := s.pc[w := Written(e)])
         else s
       case _ => s)
    case Ack(w) =>
      (match PcOf(s, w)
       case Handled(e) => s.(pel := s.pel - {e.messageId}, pc := s.pc[w := Idle])
       case Written(e) => s.(pel := s.pel - {e.messageId}, pc := s.pc[w := Idle])
       case _ => s)
    case Crash(w) => s.(pc := s.pc[w := Idle])
  }

  function WriteEntry(s: Sys, entry: DlqEntry, trimmed: nat): Sys
    requires trimmed <= |s.dlq|
  {
    s.(dropped := s.dropped + s.dlq[..trimmed], dlq := Appended(s.dlq, entry, trimmed))
  }

  function Run(s: Sys, maxLength: int, actions: seq<Action>): Sys {
    if actions == [] then s else Step(Run(s, maxLength, actions[..|actions| - 1]), maxLength, actions[|actions| - 1])
  }

  /** An entry for the event was written. */
  ghost predicate WasWritten(s: Sys, id: nat) {
    InDlq(s.dropped, id) || InDlq(s.dlq, id)
  }

  ghost predicate Inv(s: Sys, maxLength: int) {
    && (forall id | id in s.delivered :: id in s.pel || id in s.handled || WasWritten(s, id))
    && (forall w | w in s.pc && s.pc[w].Written? :: WasWritten(s, s.pc[w].e.messageId))
    && (forall w | w in s.pc && s.pc[w].Handled? :: s.pc[w].e.messageId in s.handled)
    && (forall w | w in s.pc && !s.pc[w].Idle? :: s.pc[w].e.messageId in s.delivered)
    && (forall e | e in s.dlq :: e.sourceMessageId in s.delivered)
    && (s.dropped != [] ==> |s.dlq| >= MaxInt(1, maxLength))
  }

  lemma WriteKeepsWritten(s: Sys, entry: DlqEntry, trimmed: nat, id: nat)
    requires trimmed <= |s.dlq| && (WasWritten(s, id) || entry.sourceMessageId == id)
    ensures WasWritten(WriteEntry(s, entry, trimmed), id)
  {
    var t := WriteEntry(s, entry, trimmed);
    assert entry in t.dlq;
    if InDlq(s.dropped, id) {
      var d :| d in s.dropped && d.sourceMessageId == id;
      assert d in t.dropped;
    } else if InDlq(s.dlq, id) {
      var d :| d in s.dlq && d.sourceMessageId == id;
      var i :| 0 <= i < |s.dlq| && s.dlq[i] == d;
      if i < trimmed {
        assert s.dlq[..trimmed][i] in t.dropped;
      } else {
        assert s.dlq[trimmed..][i - trimmed] in t.dlq;
      }
    }
  }

  lemma WriteKeepsInv(s: Sys, maxLength: int, w: Worker, failureReason: string, error: Option<string>, trimmed: nat)
    requires Inv(s, maxLength) && PcOf(s, w).Writing? && MayTrim(|s.dlq| + 1, maxLength, trimmed)
    ensures Inv(Step(s, maxLength, Write(w, failureReason, error, trimmed)), maxLength)
  {
    var e := PcOf(s, w).e;
    var entry := BuildDlqEntry(e, failureReason, error);
    forall id | WasWritten(s, id) || entry.sourceMessageId == id ensures WasWritten(WriteEntry(s, entry, trimmed), id) {
      WriteKeepsWritten(s, entry, trimmed, id);
    }
  }

  lemma StepKeepsInv(s: Sys, maxLength: int, a: Action)
    requires Inv(s, maxLength)
    ensures Inv(Step(s, maxLength, a), maxLength)
  {
    match a {
      case Write(w, failureReason, error, trimmed) =>
        if PcOf(s, w).Writing? && MayTrim(|s.dlq| + 1, maxLength, trimmed) {
          WriteKeepsInv(s, maxLength, w, failureReason, error, trimmed);
        }
      case _ => OthersKeepWritten(s, maxLength, a);
    }
  }

  lemma OthersKeepWritten(s: Sys, maxLength: int, a: Action)
    requires !a.Write?
    ensures var t := Step(s, maxLength, a); t.dropped == s.dropped && t.dlq == s.dlq
  {
  }

  lemma {:induction false} RunsKeepInv(s: Sys, maxLength: int, actions: seq<Action>)
    requires Inv(s, maxLength)
    ensures Inv(Run(s, maxLength, actions), maxLength)
  {
    if actions != [] {
      RunsKeepInv(s, maxLength, actions[..|actions| - 1]);
      StepKeepsInv(Run(s, maxLength, actions[..|actions| - 1]), maxLength, actions[|actions| - 1]);
    }
  }

  /**
   * After every run, with workers stopping anywhere, a delivered event is pending, handled or in the dead-letter stream,
   * unless its entry was trimmed off; then the stream holds its maximum length of newer ones.
   */
  lemma NoEventIsLost(maxLength: int, actions: seq<Action>, id: nat)
    requires id in Run(Start(), maxLength, actions).delivered
    ensures var s := Run(Start(), maxLength, actions);
      id in s.pel || id in s.handled || InDlq(s.dlq, id) || (InDlq(s.dropped, id) && |s.dlq| >= MaxInt(1, maxLength))
  {
    RunsKeepInv(Start(), maxLength, actions);
  }

  /** Nothing is made up: every dead-letter entry names an event that was delivered. */
  lemma DlqEntriesHaveASource(maxLength: int, actions: seq<Action>, e: DlqEntry)
    requires e in Run(Start(), maxLength, actions).dlq
    ensures e.sourceMessageId in Run(Start(), maxLength, actions).delivered
  {
    RunsKeepInv(Start(), maxLength, actions);
  }

  /** A move stopped after so many commands is the worker's write and acknowledgement steps, cut there. */
  lemma MoveIsWriteThenAck(s: Sys, maxLength: int, w: Worker, e: Envelope, failureReason: string, error: Option<string>, trimmed: nat, commands: nat)
    requires PcOf(s, w) == Writing(e) && MayTrim(|s.dlq| + 1, maxLength, trimmed)
    ensures var t := Run(s, maxLength, [Write(w, failureReason, error, trimmed), Ack(w)][..MinInt(2, commands)]);
      (t.pel, t.dlq) == Moved(s.pel, s.dlq, e, failureReason, error, trimmed, commands)
  {
    var both := [Write(w, failureReason, error, trimmed), Ack(w)];
    assert both[..0] == [] && both[..1] == [both[0]] && both[..2] == both;
    assert [both[0]][..0] == [] && Run(s, maxLength, both[..1]) == Step(s, maxLength, both[0]);
    assert Run(s, maxLength, both) == Step(Run(s, maxLength, both[..1]), maxLength, both[1]);
  }

  // ----- What an entry says -----

  /** Some worker was given the event. */
  ghost predicate WasDelivered(actions: seq<Action>, e: Envelope) {
    exists i: nat :: i < |actions| && actions[i].Deliver? && actions[i].e == e
  }

  ghost predicate WasWrittenFor(actions: seq<Action>, failureReason: string, error: Option<string>) {
    exists i: nat :: i < |actions| && actions[i].Write? && actions[i].failureReason == failureReason && actions[i].error == error
  }

  /** The entry is about this event: its id, payload and deliveries, its type or "unknown", and why it failed. */
  ghost predicate Describes(entry: DlqEntry, e: Envelope, failureReason: string, error: Option<string>) {
    && entry.sourceMessageId == e.messageId && entry.payload == e.payload && entry.deliveries == e.deliveries
    && (if e.eventType == None || e.eventType == Some("") then entry.eventType == "unknown" else e.eventType == Some(entry.eventType))
    && entry.failureReason == failureReason && (if error.Some? then entry.error == error.value else entry.error == "")
  }

  ghost predicate Explained(actions: seq<Action>, entry: DlqEntry) {
    exists e, failureReason, error ::
      WasDelivered(actions, e) && WasWrittenFor(actions, failureReason, error) && Describes(entry, e, failureReason, error)
  }

  lemma RunGrows(actions: seq<Action>, a: Action)
    ensures forall e | WasDelivered(actions, e) :: WasDelivered(actions + [a], e)
    ensures forall f, r | WasWrittenFor(actions, f, r) :: WasWrittenFor(actions + [a], f, r)
  {
    forall e | WasDelivered(actions, e) ensures WasDelivered(actions + [a], e) {
      var i: nat :| i < |actions| && actions[i].Deliver? && actions[i].e == e;
      assert (actions + [a])[i] == actions[i];
    }
    forall f, r | WasWrittenFor(actions, f, r) ensures WasWrittenFor(actions + [a], f, r) {
      var i: nat :| i < |actions| && actions[i].Write? && actions[i].failureReason == f && actions[i].error == r;
      assert (actions + [a])[i] == actions[i];
    }
  }

  lemma ExplainedGrows(actions: seq<Action>, a: Action, entry: DlqEntry)
    requires Explained(actions, entry)
    ensures Explained(actions + [a], entry)
  {
    RunGrows(actions, a);
    var e, f, r :| WasDelivered(actions, e) && WasWrittenFor(actions, f, r) && Describes(entry, e, f, r);
    assert WasDelivered(actions + [a], e) && WasWrittenFor(actions + [a], f, r);
  }

  /** Whatever a worker has in its hands was delivered. */
  lemma {:induction false} InHandWasDelivered(maxLength: int, actions: seq<Action>, w: Worker)
    requires !PcOf(Run(Start(), maxLength, actions), w).Idle?
    ensures WasDelivered(actions, PcOf(Run(Start(), maxLength, actions), w).e)
  {
    if actions != [] {
      var n := |actions| - 1;
      var s, a := Run(Start(), maxLength, actions[..n]), actions[n];
      assert actions == actions[..n] + [a];
      RunGrows(actions[..n], a);
      if !PcOf(s, w).Idle? { InHandWasDelivered(maxLength, actions[..n], w); }
      if a.Deliver? { assert (actions[..n] + [a])[n] == a; }
    }
  }

  /** Every dead-letter entry describes an event that was delivered, with the reason and error of a write. */
  lemma {:induction false} EntriesAreExplained(maxLength: int, actions: seq<Action>, entry: DlqEntry)
    requires entry in Run(Start(), maxLength, actions).dlq
    ensures Explained(actions, entry)
  {
    if actions != [] {
      var n := |actions| - 1;
      var s, a := Run(Start(), maxLength, actions[..n]), actions[n];
      assert actions == actions[..n] + [a];
      if entry in s.dlq {
        EntriesAreExplained(maxLength, actions[..n], entry);
        ExplainedGrows(actions[..n], a, entry);
      } else {
        NewEntryIsExplained(maxLength, actions[..n], a, entry);
      }
    }
  }

  lemma NewEntryIsExplained(maxLength: int, before: seq<Action>, a: Action, entry: DlqEntry)
    requires var s := Run(Start(), maxLength, before); entry !in s.dlq && entry in Step(s, maxLength, a).dlq
    ensures Explained(before + [a], entry)
  {
    var s := Run(Start(), maxLength, before);
    var e := PcOf(s, a.w).e;
    InHandWasDelivered(maxLength, before, a.w);
    RunGrows(before, a);
    assert (before + [a])[|before|] == a;
    assert entry == BuildDlqEntry(e, a.failureReason, a.error);
    assert WasWrittenFor(before + [a], a.failureReason, a.error) && Describes(entry, e, a.failureReason, a.error);
  }
}
