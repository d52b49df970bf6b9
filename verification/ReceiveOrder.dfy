/** What a poll receives, said of the stream and not of the commands; and that only stale messages are claimed. */
module ReceiveOrder {
  import opened Common
  import opened TaskStream
  import opened Delivery

  // ----- The pending page -----

  /** Number of pending messages from `lo` to below `hi`. */
  ghost function PendingBetween(g: Group, lo: nat, hi: nat): nat
    decreases hi - lo
  {
    if lo >= hi then 0 else (if lo in g.pel then 1 else 0) + PendingBetween(g, lo + 1, hi)
  }

  /** The message is pending, and fewer than a page of messages are pending before it. */
  ghost predicate OnPage(g: Group, id: nat) {
    id < g.cursor && id in g.pel && PendingBetween(g, 0, id) < 1000
  }

  lemma {:induction false} PageFrom(g: Group, now: int, lo: nat, n: nat, p: PendingTask)
    ensures p in PendingFrom(g, now, lo, n) <==>
      && lo <= p.id < g.cursor && p.id in g.pel && PendingBetween(g, lo, p.id) < n
      && p.owner == g.pel[p.id].owner && p.idle == now - g.pel[p.id].deliveredAt
    decreases g.cursor - lo
  {
    if lo < g.cursor && n > 0 {
      if lo in g.pel {
        PageFrom(g, now, lo + 1, n - 1, p);
      } else {
        PageFrom(g, now, lo + 1, n, p);
      }
    }
  }

  /** The page shows the first thousand pending messages, each with its owner and the time since it was last delivered. */
  lemma PageShows(g: Group, now: int, p: PendingTask)
    ensures p in GetPending(g, now) <==>
      OnPage(g, p.id) && p.owner == g.pel[p.id].owner && p.idle == now - g.pel[p.id].deliveredAt
  {
    PageFrom(g, now, 0, PAGE, p);
  }

  ghost predicate Ascending(pending: seq<PendingTask>) {
    forall i, j | 0 <= i < j < |pending| :: pending[i].id < pending[j].id
  }

  lemma {:induction false} PageAscends(g: Group, now: int, lo: nat, n: nat)
    ensures Ascending(PendingFrom(g, now, lo, n))
    decreases g.cursor - lo
  {
    if lo < g.cursor && n > 0 {
      PageAscends(g, now, lo + 1, if lo in g.pel then n - 1 else n);
      if lo in g.pel {
        var rest := PendingFrom(g, now, lo + 1, n - 1);
        assert forall j | 0 <= j < |rest| :: rest[j] in rest;
      }
    }
  }

  /** On the page, not delivered for ten minutes, and owned by a consumer without heartbeat. */
  ghost predicate IsStale(g: Group, alive: set<Consumer>, now: int, id: nat) {
    OnPage(g, id) && now - g.pel[id].deliveredAt >= 10 * 60 * 1000 && g.pel[id].owner !in alive
  }

  lemma HeadIsLowest(pending: seq<PendingTask>)
    requires Ascending(pending) && pending != []
    ensures Ascending(pending[1..]) && forall p | p in pending :: pending[0].id <= p.id
  {
    assert forall i, j | 0 <= i < j < |pending[1..]| :: pending[1..][i] == pending[i + 1] && pending[1..][j] == pending[j + 1];
    forall p | p in pending ensures pending[0].id <= p.id {
      var i :| 0 <= i < |pending| && pending[i] == p;
    }
  }

  lemma {:induction false} FirstStaleIsLowest(pending: seq<PendingTask>, alive: set<Consumer>)
    requires Ascending(pending)
    ensures var r := FirstStale(pending, alive); r.Some? ==> forall p | p in pending && Stale(p, alive) :: r.value <= p.id
  {
    if pending != [] {
      HeadIsLowest(pending);
      FirstStaleIsLowest(pending[1..], alive);
      assert pending == [pending[0]] + pending[1..];
    }
  }

  /** The scan finds the lowest stale message of the page, if there is one. */
  lemma ScanFindsLowestStale(g: Group, alive: set<Consumer>, now: int)
    ensures match FirstStale(GetPending(g, now), alive)
      case Some(id) => IsStale(g, alive, now, id) && forall other: nat | IsStale(g, alive, now, other) :: id <= other
      case None => forall other: nat :: !IsStale(g, alive, now, other)
  {
    var page := GetPending(g, now);
    PageAscends(g, now, 0, PAGE);
    FirstStaleIsLowest(page, alive);
    forall other: nat | IsStale(g, alive, now, other)
      ensures exists p | p in page :: p.id == other && Stale(p, alive)
    {
      var p := PendingTask(other, g.pel[other].owner, now - g.pel[other].deliveredAt);
      PageShows(g, now, p);
    }
    if FirstStale(page, alive).Some? {
      var p :| p in page && p.id == FirstStale(page, alive).value && Stale(p, alive);
      PageShows(g, now, p);
    }
  }

  /** The message is now the consumer's, just delivered, once more than before; nothing else changes but the cursor. */
  ghost predicate HandedOver(g: Group, t: Group, c: Consumer, id: nat, now: int) {
    && id in t.pel && t.pel[id].owner == c && t.pel[id].deliveredAt == now
    && t.pel[id].deliveries == (if id in g.pel then g.pel[id].deliveries else 0) + 1
    && t.pel.Keys == g.pel.Keys + {id} && (forall other | other in g.pel && other != id :: t.pel[other] == g.pel[other])
    && t.entries == g.entries && t.acked == g.acked && t.keys == g.keys
  }

  /**
   * A poll receives the lowest stale message of the page; else the consumer's lowest pending message; else the next one
   * never delivered; else nothing. Either way what it receives is handed over to it.
   */
  lemma PollOrder(g: Group, c: Consumer, alive: set<Consumer>, now: int)
    requires Accounted(g)
    ensures var (t, r) := Receive(g, c, alive, now);
      if exists id: nat :: IsStale(g, alive, now, id) then
        r.Some? && IsStale(g, alive, now, r.value) && (forall id: nat | IsStale(g, alive, now, id) :: r.value <= id) && t.cursor == g.cursor
      else if exists id: nat :: Owned(g, c, id) then
        r.Some? && Owned(g, c, r.value) && (forall id: nat | Owned(g, c, id) :: r.value <= id) && t.cursor == g.cursor
      else if g.cursor < |g.entries| then r == Some(g.cursor) && t.cursor == g.cursor + 1
      else r == None && t == g
    ensures var (t, r) := Receive(g, c, alive, now); r.Some? ==> HandedOver(g, t, c, r.value, now)
  {
    ScanFindsLowestStale(g, alive, now);
    var first := FirstOwned(g, c, 0);
    forall id: nat | Owned(g, c, id) ensures id < g.cursor {
    }
  }

  /** What was just handed over is not stale for anyone until ten minutes later. */
  lemma HandingOverResetsIdle(g: Group, t: Group, c: Consumer, id: nat, now: int, later: int, alive: set<Consumer>)
    requires HandedOver(g, t, c, id, now) && later - now < STALE_THRESHOLD_MS
    ensures !IsStale(t, alive, later, id)
  {
  }

  /** A claim, a re-read and a read hand the message over, each as a command of its own. */
  lemma CommandsHandOver(g: Group, c: Consumer, id: nat, now: int)
    requires Accounted(g)
    ensures id in g.pel ==> Claim(g, c, id, now).1 == Some(id) && HandedOver(g, Claim(g, c, id, now).0, c, id, now)
    ensures id !in g.pel ==> Claim(g, c, id, now) == (g, None)
    ensures var (t, r) := ReadOwnPending(g, c, now); r.Some? ==> HandedOver(g, t, c, r.value, now)
    ensures var (t, r) := ReadTask(g, c, now); r.Some? ==> r.value == g.cursor && HandedOver(g, t, c, r.value, now)
  {
  }

  // ----- Only stale messages are claimed -----

  /** The runner polled in step `i`, when the message was on the page, and in step `j` found its owner of then without heartbeat. */
  ghost predicate SeenStale(actions: seq<Action>, c: Consumer, id: nat, i: nat, j: nat)
    requires i < j < |actions|
  {
    var s, t := Run(Start0(), actions[..i]), Run(Start0(), actions[..j]);
    && actions[i] == Poll(c) && actions[j] == Inspect(c)
    && OnPage(s.g, id) && s.now - s.g.pel[id].deliveredAt >= 10 * 60 * 1000 && s.g.pel[id].owner !in t.alive
  }

  /** What is left of a runner's page is from the page of a poll of its own. */
  lemma {:induction false} PageIsFromPoll(actions: seq<Action>, c: Consumer, p: PendingTask) returns (i: nat)
    requires var pc := PcOf(Run(Start0(), actions), c); pc.Scanning? && p in pc.rest
    ensures i < |actions| && actions[i] == Poll(c) && p in GetPending(Run(Start0(), actions[..i]).g, Run(Start0(), actions[..i]).now)
  {
    if actions == [] {
      assert false;
    } else {
      var n := |actions| - 1;
      var s, a := Run(Start0(), actions[..n]), actions[n];
      var before := PcOf(s, c);
      if before.Scanning? && p in before.rest {
        i := PageIsFromPoll(actions[..n], c, p);
        assert actions[..n][..i] == actions[..i];
      } else {
        i := n;
      }
    }
  }

  lemma InspectedStale(s: Sys, a: Action, c: Consumer, id: nat) returns (p: PendingTask)
    requires PcOf(Step(s, a), c) == Claiming(id) && PcOf(s, c) != Claiming(id)
    ensures a == Inspect(c) && PcOf(s, c).Scanning? && p in PcOf(s, c).rest && p.id == id && Stale(p, s.alive)
  {
    p := PcOf(s, c).rest[0];
  }

  /** A runner about to claim a message has seen it stale: so no message is taken over that was delivered in the last ten minutes of the poll. */
  lemma {:induction false} OnlyTheStaleIsClaimed(actions: seq<Action>, c: Consumer, id: nat) returns (i: nat, j: nat)
    requires PcOf(Run(Start0(), actions), c) == Claiming(id)
    ensures i < j < |actions| && SeenStale(actions, c, id, i, j)
  {
    if actions == [] {
      assert false;
    } else {
      var n := |actions| - 1;
      var s, a := Run(Start0(), actions[..n]), actions[n];
      if PcOf(s, c) == Claiming(id) {
        i, j := OnlyTheStaleIsClaimed(actions[..n], c, id);
        assert actions[..n][..i] == actions[..i] && actions[..n][..j] == actions[..j];
      } else {
        j := n;
        var p := InspectedStale(s, a, c, id);
        i := PageIsFromPoll(actions[..n], c, p);
        assert actions[..n][..i] == actions[..i];
        PageShows(Run(Start0(), actions[..i]).g, Run(Start0(), actions[..i]).now, p);
      }
    }
  }

  // ----- Enqueueing -----

  lemma EnqueueOnceCounts(s: Sys, taskId: string, key: string)
    requires Deduplicated(s)
    ensures WithKey(Step(s, EnqueueOnce(taskId, key)).g.entries, key) >= 1
  {
    assert Counted(s.g.entries, s.g.keys, s.expired, key);
    WithKeySnoc(s.g.entries, Task(taskId, Some(key)), key);
  }

  lemma StepCounts(s: Sys, a: Action, taskId: string, key: string)
    requires Deduplicated(s) && (a == EnqueueOnce(taskId, key) || WithKey(s.g.entries, key) >= 1)
    ensures WithKey(Step(s, a).g.entries, key) >= 1
  {
    if a == EnqueueOnce(taskId, key) { EnqueueOnceCounts(s, taskId, key); } else { EntriesOnlyGrow(s, a, key); }
  }

  lemma {:induction false} KeysAreCounted(actions: seq<Action>, key: string, taskId: string, k: nat)
    requires k < |actions| && actions[k] == EnqueueOnce(taskId, key)
    ensures WithKey(Run(Start0(), actions).g.entries, key) >= 1
  {
    var n := |actions| - 1;
    if k < n { KeysAreCounted(actions[..n], key, taskId, k); }
    assert Deduplicated(Run(Start0(), actions[..n])) by { RunsKeepInv(Start0(), actions[..n]); }
    StepCounts(Run(Start0(), actions[..n]), actions[n], taskId, key);
  }

  lemma EntriesOnlyGrow(s: Sys, a: Action, key: string)
    ensures WithKey(Step(s, a).g.entries, key) >= WithKey(s.g.entries, key)
  {
    match a {
      case Enqueue(taskId) => WithKeySnoc(s.g.entries, Task(taskId, None), key);
      case EnqueueOnce(taskId, k) => WithKeySnoc(s.g.entries, Task(taskId, Some(k)), key);
      case _ => OthersLeaveEntries(s, a);
    }
  }

  lemma OthersLeaveEntries(s: Sys, a: Action)
    requires !a.Enqueue? && !a.EnqueueOnce?
    ensures Step(s, a).g.entries == s.g.entries
  {
  }

  /** However often a key is enqueued, while it does not time out the stream has exactly one entry for it. */
  lemma EnqueuedExactlyOnce(actions: seq<Action>, key: string, taskId: string, k: nat)
    requires k < |actions| && actions[k] == EnqueueOnce(taskId, key) && key !in Run(Start0(), actions).expired
    ensures WithKey(Run(Start0(), actions).g.entries, key) == 1
  {
    KeysAreCounted(actions, key, taskId, k);
    RunsKeepInv(Start0(), actions);
    var s := Run(Start0(), actions);
    assert Counted(s.g.entries, s.g.keys, s.expired, key);
  }

  /** An enqueue without a key adds its task at the end, whatever is in the stream. */
  lemma PlainEnqueueAdds(actions: seq<Action>, taskId: string)
    ensures Run(Start0(), actions + [Enqueue(taskId)]).g.entries == Run(Start0(), actions).g.entries + [Task(taskId, None)]
  {
    assert (actions + [Enqueue(taskId)])[..|actions|] == actions;
  }

  // ----- An empty-handed poll -----

  predicate Polling(pc: Pc) {
    pc.Scanning? || pc.Claiming? || pc.CheckingOwn? || pc.ReadingNew?
  }

  /** A poll comes back with nothing only when nothing is left to deliver and the consumer has nothing pending, whatever it met on the way. */
  lemma EmptyPollMeansNothingLeft(actions: seq<Action>, a: Action, c: Consumer)
    requires var s := Run(Start0(), actions); Polling(PcOf(s, c)) && PcOf(Step(s, a), c) == Idle
    ensures var s := Run(Start0(), actions); s.g.cursor == |s.g.entries| && OwnsNothing(s.g, c)
  {
    RunsKeepInv(Start0(), actions);
  }

  /** And from every point of a poll its next commands end it, with a message in hand or idle. */
  lemma PollMovesOn(s: Sys, c: Consumer)
    requires Polling(PcOf(s, c))
    ensures match PcOf(s, c)
      case Scanning(rest) =>
        var t := PcOf(Step(s, Inspect(c)), c); t == CheckingOwn || t.Claiming? || (t.Scanning? && |t.rest| < |rest|)
      case Claiming(id) => var t := PcOf(Step(s, ClaimIt(c)), c); t == Holding(id) || (t == CheckingOwn && id !in s.g.pel)
      case CheckingOwn => var t := PcOf(Step(s, ReadOwn(c)), c); t.Holding? || t == ReadingNew
      case ReadingNew => var t := PcOf(Step(s, ReadFresh(c)), c); t.Holding? || t == Idle
  {
  }
}
