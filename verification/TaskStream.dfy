/** A task stream with one consumer group: what `streams.py` and `streams_sync.py` do to it, command by command. */
module TaskStream {
  import opened Common

  type Consumer = string

  /** `key` is the idempotency key of an enqueue that has one. */
  datatype Task = Task(taskId: string, key: Option<string>)

  /** How the owner came by a pending message. Not stored by the server; kept to state what may pile up. */
  datatype Origin = FreshRead | Claimed

  /** An entry of the pending list: one owner per message. */
  datatype Pending = Pending(owner: Consumer, deliveredAt: int, deliveries: nat, origin: Origin)

  /** What a runner sees of a pending entry. */
  datatype PendingTask = PendingTask(id: nat, owner: Consumer, idle: int)

  /** Message ids are positions in `entries`; `cursor` is the first one never delivered; `acked` keeps what was acknowledged. */
  datatype Group = Group(entries: seq<Task>, cursor: nat, pel: map<nat, Pending>, acked: set<nat>, keys: set<string>)

  const PAGE := 1000
  const STALE_THRESHOLD_MS := 10 * 60 * 1000

  // ----- Commands -----

  function AddTask(g: Group, task: Task): Group {
    g.(entries := g.entries + [task])
  }

  /** SET NX and XADD in one script. */
  function AddTaskOnce(g: Group, taskId: string, key: string): (Group, Option<nat>) {
    if key in g.keys then (g, None)
    else (g.(entries := g.entries + [Task(taskId, Some(key))], keys := g.keys + {key}), Some(|g.entries|))
  }

  /** Delivers the next message that was never delivered. */
  function ReadTask(g: Group, c: Consumer, now: int): (Group, Option<nat>) {
    if g.cursor < |g.entries|
    then (g.(cursor := g.cursor + 1, pel := g.pel[g.cursor := Pending(c, now, 1, FreshRead)]), Some(g.cursor))
    else (g, None)
  }

  predicate Owned(g: Group, c: Consumer, id: nat) {
    id in g.pel && g.pel[id].owner == c
  }

  /** The lowest pending id of a consumer at or above `lo`. */
  function FirstOwned(g: Group, c: Consumer, lo: nat): (r: Option<nat>)
    ensures r.Some? ==> lo <= r.value < g.cursor && Owned(g, c, r.value) && forall id: nat | lo <= id < r.value :: !Owned(g, c, id)
    ensures r.None? ==> forall id: nat | lo <= id < g.cursor :: !Owned(g, c, id)
    decreases g.cursor - lo
  {
    if lo >= g.cursor then None
    else if Owned(g, c, lo) then Some(lo)
    else FirstOwned(g, c, lo + 1)
  }

  function Redeliver(g: Group, c: Consumer, id: nat, now: int, origin: Origin): Group
    requires id in g.pel
  {
    g.(pel := g.pel[id := Pending(c, now, g.pel[id].deliveries + 1, origin)])
  }

  /** Re-reads the consumer's own oldest pending message. */
  function ReadOwnPending(g: Group, c: Consumer, now: int): (Group, Option<nat>) {
    match FirstOwned(g, c, 0)
    case Some(id) => if id in g.pel then (Redeliver(g, c, id, now, g.pel[id].origin), Some(id)) else (g, None)
    case None => (g, None)
  }

  /** XCLAIM with no idle time: takes the message over if it is still pending. */
  function Claim(g: Group, c: Consumer, id: nat, now: int): (Group, Option<nat>) {
    if id in g.pel then (Redeliver(g, c, id, now, Claimed), Some(id)) else (g, None)
  }

  /** XACK removes a pending message, whoever owns it. */
  function AckTask(g: Group, id: nat): Group {
    if id in g.pel then g.(pel := g.pel - {id}, acked := g.acked + {id}) else g
  }

  /** The first `n` pending messages from `lo` on, in id order. */
  function PendingFrom(g: Group, now: int, lo: nat, n: nat): (r: seq<PendingTask>)
    ensures |r| <= n && forall p | p in r :: lo <= p.id < g.cursor && p.id in g.pel && p.owner == g.pel[p.id].owner
    decreases g.cursor - lo
  {
    if lo >= g.cursor || n == 0 then []
    else if lo in g.pel then
      [PendingTask(lo, g.pel[lo].owner, now - g.pel[lo].deliveredAt)] + PendingFrom(g, now, lo + 1, n - 1)
    else PendingFrom(g, now, lo + 1, n)
  }

  function GetPending(g: Group, now: int): (r: seq<PendingTask>)
    ensures forall p | p in r :: p.id in g.pel && p.owner == g.pel[p.id].owner
  {
    PendingFrom(g, now, 0, PAGE)
  }

  /** Idle long enough, and its owner no longer heartbeats. */
  predicate Stale(p: PendingTask, alive: set<Consumer>) {
    p.idle >= STALE_THRESHOLD_MS && p.owner !in alive
  }

  /** The ids of the messages idle for at least `minIdle` whose owner no longer heartbeats, in order. */
  function StaleIds(pending: seq<PendingTask>, alive: set<Consumer>, minIdle: int): (ids: seq<nat>)
    ensures |ids| <= |pending|
    ensures forall id :: id in ids <==> exists p | p in pending :: p.id == id && p.idle >= minIdle && p.owner !in alive
  {
    if pending == [] then []
    else
      var rest := StaleIds(pending[1..], alive, minIdle);
      assert pending == [pending[0]] + pending[1..];
      if pending[0].idle >= minIdle && pending[0].owner !in alive then [pending[0].id] + rest else rest
  }

  lemma {:induction false} FirstStaleIsFirst(pending: seq<PendingTask>, alive: set<Consumer>)
    ensures var ids := StaleIds(pending, alive, STALE_THRESHOLD_MS);
      FirstStale(pending, alive) == if ids == [] then None else Some(ids[0])
  {
    if pending != [] { FirstStaleIsFirst(pending[1..], alive); }
  }

  function FirstStale(pending: seq<PendingTask>, alive: set<Consumer>): (r: Option<nat>)
    ensures r.Some? ==> exists p | p in pending :: p.id == r.value && Stale(p, alive)
    ensures r.None? ==> forall p | p in pending :: !Stale(p, alive)
  {
    if pending == [] then None
    else if Stale(pending[0], alive) then
      assert pending[0] in pending;
      Some(pending[0].id)
    else
      var r := FirstStale(pending[1..], alive);
      r
  }

  /** What one undisturbed poll of a runner receives: a dead engine's task, else its own deferred one, else a new one. */
  function Receive(g: Group, c: Consumer, alive: set<Consumer>, now: int): (Group, Option<nat>) {
    match FirstStale(GetPending(g, now), alive)
    case Some(id) => Claim(g, c, id, now)
    case None =>
      var (own, id) := ReadOwnPending(g, c, now);
      if id.Some? then (own, id) else ReadTask(g, c, now)
  }

  // ----- The stream as an object -----

  class Stream {
    var entries: seq<Task>
    var cursor: nat
    var pel: map<nat, Pending>
    var acked: set<nat>
    var keys: set<string>

    function State(): Group
      reads this
    {
      Group(entries, cursor, pel, acked, keys)
    }

    constructor ()
      ensures State() == Group([], 0, map[], {}, {})
    {
      entries, cursor, pel, acked, keys := [], 0, map[], {}, {};
    }

    method Add(task: Task) returns (id: nat)
      modifies this
      ensures State() == AddTask(old(State()), task) && id == |old(entries)|
    {
      id := |entries|;
      entries := entries + [task];
    }

    method AddOnce(taskId: string, key: string) returns (id: Option<nat>)
      modifies this
      ensures (State(), id) == AddTaskOnce(old(State()), taskId, key)
    {
      if key in keys {
        return None;
      }
      keys := keys + {key};
      id := Some(|entries|);
      entries := entries + [Task(taskId, Some(key))];
    }

    method Read(c: Consumer, now: int) returns (id: Option<nat>)
      modifies this
      ensures (State(), id) == ReadTask(old(State()), c, now)
    {
      if cursor >= |entries| {
        return None;
      }
      id := Some(cursor);
      pel := pel[cursor := Pending(c, now, 1, FreshRead)];
      cursor := cursor + 1;
    }

    method ReadOwn(c: Consumer, now: int) returns (id: Option<nat>)
      modifies this
      ensures (State(), id) == ReadOwnPending(old(State()), c, now)
    {
      for i := 0 to cursor
        invariant State() == old(State())
        invariant FirstOwned(State(), c, 0) == FirstOwned(State(), c, i)
      {
        if i in pel && pel[i].owner == c {
          pel := pel[i := pel[i].(deliveredAt := now, deliveries := pel[i].deliveries + 1)];
          return Some(i);
        }
      }
      return None;
    }

    method Pendings(now: int) returns (r: seq<PendingTask>)
      ensures r == GetPending(State(), now)
    {
      r := [];
      var i := 0;
      while i < cursor && |r| < PAGE
        invariant i <= cursor && |r| <= PAGE
        invariant GetPending(State(), now) == r + PendingFrom(State(), now, i, PAGE - |r|)
        decreases cursor - i
      {
        if i in pel {
          r := r + [PendingTask(i, pel[i].owner, now - pel[i].deliveredAt)];
        }
        i := i + 1;
      }
    }

    method ClaimById(c: Consumer, id: nat, now: int) returns (claimed: Option<nat>)
      modifies this
      ensures (State(), claimed) == Claim(old(State()), c, id, now)
    {
      if id !in pel {
        return None;
      }
      pel := pel[id := Pending(c, now, pel[id].deliveries + 1, Claimed)];
      return Some(id);
    }

    /** The loop over the pending page: the first `count` stale ids, and one even for a count below one. */
    method Claimable(pending: seq<PendingTask>, alive: set<Consumer>, minIdle: int, count: int) returns (ids: seq<nat>)
      ensures var stale := StaleIds(pending, alive, minIdle);
        ids == stale[..MinInt(|stale|, MaxInt(1, count))]
    {
      ids := [];
      for i := 0 to |pending|
        invariant |ids| < MaxInt(1, count)
        invariant StaleIds(pending, alive, minIdle) == ids + StaleIds(pending[i..], alive, minIdle)
      {
        var task := pending[i];
        if task.idle < minIdle {
          continue;
        }
        if task.owner !in alive {
          ids := ids + [task.id];
          if |ids| >= count {
            return;
          }
        }
      }
    }

    method Ack(id: nat)
      modifies this
      ensures State() == AckTask(old(State()), id)
    {
      if id in pel {
        pel, acked := pel - {id}, acked + {id};
      }
    }
  }

  // ----- The runner -----

  /** How a received task ends: four ways that finish it, and deferral. */
  datatype Outcome = Cancelled | MetadataLookupFailed | Blocked | Processed | Deferred

  class Runner {
    const instance: Consumer
    const stream: Stream
    var currentMessageId: Option<nat>

    constructor (instance: Consumer, stream: Stream)
      ensures this.instance == instance && this.stream == stream && currentMessageId == None
    {
      this.instance, this.stream, currentMessageId := instance, stream, None;
    }

    method ReceiveMessage(alive: set<Consumer>, now: int) returns (message: Option<nat>)
      modifies stream
      ensures (stream.State(), message) == Receive(old(stream.State()), instance, alive, now)
    {
      message := None;
      var pending := stream.Pendings(now);
      var ids := stream.Claimable(pending, alive, STALE_THRESHOLD_MS, 1);
      FirstStaleIsFirst(pending, alive);
      if ids != [] {
        message := stream.ClaimById(instance, ids[0], now);
      }
      if message.None? {
        message := stream.ReadOwn(instance, now);
      }
      if message.None? {
        message := stream.Read(instance, now);
      }
    }

    /** One poll, undisturbed by other runners: what it receives is acknowledged unless deferred. */
    method PollAndProcess(alive: set<Consumer>, now: int, outcome: nat -> Outcome) returns (message: Option<nat>)
      modifies this, stream
      ensures message == Receive(old(stream.State()), instance, alive, now).1
      ensures var received := Receive(old(stream.State()), instance, alive, now).0;
        stream.State() == if message.None? || outcome(message.value) == Deferred then received
                          else AckTask(received, message.value)
      ensures currentMessageId == if message.None? then old(currentMessageId) else None
    {
      message := ReceiveMessage(alive, now);
      if message.None? {
        return;
      }
      currentMessageId := message;
      var result := outcome(message.value);
      if result == Deferred {
        currentMessageId := None;
        return;
      }
      stream.Ack(message.value);
      currentMessageId := None;
    }
  }
}
