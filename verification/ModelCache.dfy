/** `ModelManager`: loaded models are reference-counted; idle ones are evicted for capacity (oldest first) or by age. */
module ModelCache {
  import opened Common

  /** `model` identifies the loaded object. */
  datatype LoadedModel = LoadedModel(model: int, loadedAt: int, lastUsedAt: int, refCount: int)

  type Models = map<string, LoadedModel>

  /** `loaded` is what the loader returns for the model, `None` when it raises. */
  datatype Op =
    | Acquire(id: string, loaded: Option<int>, now: int)
    | Release(id: string)
    | EvictExpired(now: int)

  datatype Outcome = Acquired(model: int) | NoneIdle | LoadFailed | Done

  // ----- The transition system -----

  predicate Idle(models: Models, id: string) {
    id in models && models[id].refCount == 0
  }

  /** An idle model that no idle model was used before. */
  ghost predicate LeastRecentlyUsed(models: Models, id: string) {
    Idle(models, id) && forall other | Idle(models, other) :: models[id].lastUsedAt <= models[other].lastUsedAt
  }

  /** The models left once there is room for one more. */
  ghost predicate RoomMade(models: Models, maxLoaded: int, left: Models) {
    if |models| < maxLoaded then left == models
    else exists victim | victim in models :: LeastRecentlyUsed(models, victim) && left == models - {victim}
  }

  function Touched(m: LoadedModel, now: int): LoadedModel {
    m.(refCount := m.refCount + 1, lastUsedAt := now)
  }

  function Fresh(model: int, now: int): LoadedModel {
    LoadedModel(model, now, now, 0)
  }

  ghost predicate Expired(m: LoadedModel, ttl: int, now: int) {
    m.refCount == 0 && now - m.lastUsedAt > ttl
  }

  ghost predicate Next(models: Models, maxLoaded: int, ttl: int, op: Op, out: Outcome, models': Models) {
    match op
    case Acquire(id, loaded, now) =>
      if id in models then
        models' == models[id := Touched(models[id], now)] && out == Acquired(models[id].model)
      else if |models| >= maxLoaded && forall other | other in models :: !Idle(models, other) then
        models' == models && out == NoneIdle
      else
        exists left: Models :: RoomMade(models, maxLoaded, left) && (
          if loaded.None? then models' == left && out == LoadFailed
          else models' == left[id := Touched(Fresh(loaded.value, now), now)] && out == Acquired(loaded.value))
    case Release(id) =>
      && out == Done
      && models' == if id in models then models[id := models[id].(refCount := MaxInt(0, models[id].refCount - 1))] else models
    case EvictExpired(now) =>
      && out == Done
      && models' == map id | id in models && !Expired(models[id], ttl, now) :: models[id]
  }

  class ModelManager {
    const ttl: int
    const maxLoaded: int
    var models: Models

    constructor (ttl: int, maxLoaded: int)
      ensures this.ttl == ttl && this.maxLoaded == maxLoaded && models == map[]
    {
      this.ttl, this.maxLoaded, models := ttl, maxLoaded, map[];
    }

    method AcquireModel(id: string, loaded: Option<int>, now: int) returns (out: Outcome)
      modifies this
      ensures Next(old(models), maxLoaded, ttl, Acquire(id, loaded, now), out, models)
    {
      if id !in models {
        var ok := MaybeEvictForCapacity();
        if !ok {
          return NoneIdle;
        }
        if loaded.None? {
          return LoadFailed;
        }
        models := models[id := Fresh(loaded.value, now)];
      }
      var entry := models[id];
      models := models[id := entry.(refCount := entry.refCount + 1, lastUsedAt := now)];
      out := Acquired(entry.model);
    }

    method ReleaseModel(id: string)
      modifies this
      ensures Next(old(models), maxLoaded, ttl, Release(id), Done, models)
    {
      if id in models {
        var entry := models[id];
        models := models[id := entry.(refCount := MaxInt(0, entry.refCount - 1))];
      }
    }

    /** Fails when every loaded model is in use. */
    method MaybeEvictForCapacity() returns (ok: bool)
      modifies this
      ensures !ok ==> models == old(models) && |models| >= maxLoaded && forall id | id in models :: !Idle(models, id)
      ensures ok ==> RoomMade(old(models), maxLoaded, models)
      ensures ok && |old(models)| >= maxLoaded ==> exists id | id in old(models) :: Idle(old(models), id)
    {
      if |models| < maxLoaded {
        return true;
      }
      var lru: Option<string> := None;
      var rest := models.Keys;
      while rest != {}
        invariant models == old(models) && rest <= models.Keys
        invariant lru.None? ==> forall id | id in models && id !in rest :: !Idle(models, id)
        invariant lru.Some? ==> Idle(models, lru.value)
        invariant lru.Some? ==> forall id | id in models && id !in rest && Idle(models, id) :: models[lru.value].lastUsedAt <= models[id].lastUsedAt
      {
        var id := AnyOf(rest);
        rest := rest - {id};
        if models[id].refCount == 0 {
          if lru.None? || models[id].lastUsedAt < models[lru.value].lastUsedAt {
            lru := Some(id);
          }
        }
      }
      if lru.None? {
        return false;
      }
      assert LeastRecentlyUsed(models, lru.value);
      Evict(lru.value);
      return true;
    }

    method Evict(id: string)
      modifies this
      ensures models == old(models) - {id}
    {
      models := models - {id};
    }

    method EvictExpiredModels(now: int)
      modifies this
      ensures Next(old(models), maxLoaded, ttl, EvictExpired(now), Done, models)
    {
      var expired := set id | id in models && models[id].refCount == 0 && now - models[id].lastUsedAt > ttl;
      var rest := expired;
      while rest != {}
        invariant rest <= expired
        invariant models == map id | id in old(models) && id !in expired - rest :: old(models)[id]
      {
        var id := AnyOf(rest);
        Evict(id);
        rest := rest - {id};
      }
    }

    method Shutdown()
      modifies this
      ensures models == map[]
    {
      var rest := models.Keys;
      while rest != {}
        invariant models.Keys == rest
      {
        var id := AnyOf(rest);
        Evict(id);
        rest := rest - {id};
      }
    }
  }

  // ----- Runs -----

  datatype Event = Event(op: Op, out: Outcome)

  /** A run from the empty cache: `states[i]` holds before `events[i]`. */
  ghost predicate IsRun(states: seq<Models>, events: seq<Event>, maxLoaded: int, ttl: int) {
    && |states| == |events| + 1 && states[0] == map[]
    && forall i: nat | i < |events| :: StepAt(states, events, maxLoaded, ttl, i)
  }

  ghost predicate StepAt(states: seq<Models>, events: seq<Event>, maxLoaded: int, ttl: int, i: nat)
    requires i < |events| && |states| == |events| + 1
  {
    Next(states[i], maxLoaded, ttl, events[i].op, events[i].out, states[i + 1])
  }

  /** Acquisitions of a model not yet released after `n` events. */
  ghost function Holds(events: seq<Event>, n: nat, id: string): int
    requires n <= |events|
  {
    if n == 0 then 0
    else
      var e := events[n - 1];
      Holds(events, n - 1, id)
      + (if e.op.Acquire? && e.op.id == id && e.out.Acquired? then 1 else 0)
      - (if e.op.Release? && e.op.id == id then 1 else 0)
  }

  /** Every release gives back a hold. */
  ghost predicate Matched(events: seq<Event>) {
    forall i: nat | i < |events| && events[i].op.Release? :: Holds(events, i, events[i].op.id) > 0
  }

  ghost function RefCount(models: Models, id: string): int {
    if id in models then models[id].refCount else 0
  }

  /** The number of loaded models never exceeds the limit, also when loads fail or releases do not match. */
  lemma {:induction false} NeverOverCapacity(states: seq<Models>, events: seq<Event>, maxLoaded: int, ttl: int, n: nat)
    requires IsRun(states, events, maxLoaded, ttl) && n <= |events|
    ensures |states[n]| <= MaxInt(0, maxLoaded)
  {
    if n > 0 {
      NeverOverCapacity(states, events, maxLoaded, ttl, n - 1);
      assert StepAt(states, events, maxLoaded, ttl, n - 1);
      StepKeepsCapacity(states[n - 1], maxLoaded, ttl, events[n - 1].op, events[n - 1].out, states[n]);
    }
  }

  lemma StepKeepsCapacity(models: Models, maxLoaded: int, ttl: int, op: Op, out: Outcome, models': Models)
    requires Next(models, maxLoaded, ttl, op, out, models') && |models| <= MaxInt(0, maxLoaded)
    ensures |models'| <= MaxInt(0, maxLoaded)
  {
    if op.Acquire? && op.id !in models && out != NoneIdle {
      var left: Models :| RoomMade(models, maxLoaded, left) && (
        if op.loaded.None? then models' == left else models' == left[op.id := Touched(Fresh(op.loaded.value, op.now), op.now)]);
      if op.loaded.Some? { assert models'.Keys == left.Keys + {op.id}; }
    } else if op.EvictExpired? {
      KeysSubset(models', models);
    } else if op.Acquire? && op.id in models {
      assert models'.Keys == models.Keys;
    } else if op.Release? {
      assert models'.Keys == models.Keys;
    }
  }

  lemma KeysSubset(a: Models, b: Models)
    requires a.Keys <= b.Keys
    ensures |a| <= |b|
  {
    assert b.Keys == a.Keys + (b.Keys - a.Keys);
    assert |b.Keys| == |a.Keys| + |b.Keys - a.Keys|;
  }

  /** With matched releases the reference count is the number of outstanding holds. */
  lemma {:induction false} RefCountsAreHolds(states: seq<Models>, events: seq<Event>, maxLoaded: int, ttl: int, n: nat, id: string)
    requires IsRun(states, events, maxLoaded, ttl) && Matched(events) && n <= |events|
    ensures RefCount(states[n], id) == Holds(events, n, id) >= 0
  {
    if n > 0 {
      RefCountsAreHolds(states, events, maxLoaded, ttl, n - 1, id);
      assert StepAt(states, events, maxLoaded, ttl, n - 1);
    }
  }

  /** A held model stays loaded: as long as someone holds it, every state has the same object, and so does every acquisition. */
  lemma {:induction false} HeldModelsStay(states: seq<Models>, events: seq<Event>, maxLoaded: int, ttl: int, first: nat, last: nat, id: string)
    requires IsRun(states, events, maxLoaded, ttl) && Matched(events) && first <= last <= |events|
    requires forall i: nat | first <= i <= last :: Holds(events, i, id) > 0
    ensures forall i: nat | first <= i <= last :: id in states[i]
    ensures forall i: nat | first <= i <= last :: states[i][id].model == states[first][id].model
    ensures forall i: nat | first <= i < last && events[i].op.Acquire? && events[i].op.id == id ::
      events[i].out == Acquired(states[first][id].model)
    decreases last
  {
    RefCountsAreHolds(states, events, maxLoaded, ttl, last, id);
    if first < last {
      HeldModelsStay(states, events, maxLoaded, ttl, first, last - 1, id);
      RefCountsAreHolds(states, events, maxLoaded, ttl, last - 1, id);
      assert StepAt(states, events, maxLoaded, ttl, last - 1);
    }
  }

  /** The capacity error means what it says: the cache is full of models that are all held. */
  lemma CapacityErrorMeansAllHeld(states: seq<Models>, events: seq<Event>, maxLoaded: int, ttl: int, n: nat)
    requires IsRun(states, events, maxLoaded, ttl) && Matched(events) && n < |events| && events[n].op.Acquire?
    ensures events[n].out == NoneIdle <==>
      && events[n].op.id !in states[n] && |states[n]| >= maxLoaded
      && forall id | id in states[n] :: Holds(events, n, id) > 0
  {
    assert StepAt(states, events, maxLoaded, ttl, n);
    forall id ensures RefCount(states[n], id) == Holds(events, n, id) >= 0 {
      RefCountsAreHolds(states, events, maxLoaded, ttl, n, id);
    }
    forall id | id in states[n] ensures Idle(states[n], id) <==> Holds(events, n, id) == 0 {
      assert RefCount(states[n], id) == states[n][id].refCount;
    }
  }

  /** What disappears was idle; what an acquisition evicts is one model, the least recently used. */
  lemma OnlyTheOldestIdleModelGoes(models: Models, maxLoaded: int, ttl: int, op: Op, out: Outcome, models': Models, id: string)
    requires Next(models, maxLoaded, ttl, op, out, models') && id in models && id !in models'
    ensures Idle(models, id)
    ensures op.Acquire? ==> |models| >= maxLoaded && LeastRecentlyUsed(models, id) && models.Keys - models'.Keys == {id}
    ensures op.EvictExpired? ==> Expired(models[id], ttl, op.now)
    ensures !op.Release?
  {
  }

  // ----- When a model was last used -----

  ghost predicate Acquires(e: Event, id: string) {
    e.op.Acquire? && e.op.id == id && e.out.Acquired?
  }

  /** Event `i` is the latest successful acquisition of the model among the first `n`. */
  ghost predicate IsLatestUse(events: seq<Event>, n: nat, id: string, i: nat)
    requires n <= |events|
  {
    i < n && Acquires(events[i], id) && forall j | i < j < n :: !Acquires(events[j], id)
  }

  /** A loaded model that one event leaves loaded was touched by it exactly if it acquired the model. */
  lemma StepTouches(models: Models, maxLoaded: int, ttl: int, e: Event, models': Models, id: string)
    requires Next(models, maxLoaded, ttl, e.op, e.out, models') && id in models'
    ensures Acquires(e, id) ==> models'[id].lastUsedAt == e.op.now && models'[id].model == e.out.model
    ensures !Acquires(e, id) ==> id in models && models'[id].lastUsedAt == models[id].lastUsedAt && models'[id].model == models[id].model
  {
  }

  /** The cache's clock of a loaded model is the time of its latest successful acquisition, and its object the one that returned. */
  lemma {:induction false} LastUsedIsLatestUse(states: seq<Models>, events: seq<Event>, maxLoaded: int, ttl: int, n: nat, id: string)
    returns (i: nat)
    requires IsRun(states, events, maxLoaded, ttl) && n <= |events| && id in states[n]
    ensures IsLatestUse(events, n, id, i)
    ensures states[n][id].lastUsedAt == events[i].op.now && states[n][id].model == events[i].out.model
  {
    assert n > 0;
    var e := events[n - 1];
    assert StepAt(states, events, maxLoaded, ttl, n - 1);
    StepTouches(states[n - 1], maxLoaded, ttl, e, states[n], id);
    if Acquires(e, id) {
      i := n - 1;
    } else {
      i := LastUsedIsLatestUse(states, events, maxLoaded, ttl, n - 1, id);
    }
  }

  /** What an acquisition evicts was last acquired no later than any other idle model. */
  lemma EvictedWasUsedFirst(states: seq<Models>, events: seq<Event>, maxLoaded: int, ttl: int, n: nat, id: string, other: string, i: nat, j: nat)
    requires IsRun(states, events, maxLoaded, ttl) && n < |events| && events[n].op.Acquire?
    requires id in states[n] && id !in states[n + 1] && Idle(states[n], other)
    requires IsLatestUse(events, n, id, i) && IsLatestUse(events, n, other, j)
    ensures events[i].op.now <= events[j].op.now
  {
    assert StepAt(states, events, maxLoaded, ttl, n);
    OnlyTheOldestIdleModelGoes(states[n], maxLoaded, ttl, events[n].op, events[n].out, states[n + 1], id);
    var i' := LastUsedIsLatestUse(states, events, maxLoaded, ttl, n, id);
    var j' := LastUsedIsLatestUse(states, events, maxLoaded, ttl, n, other);
  }

  /** The timer evicts exactly the idle models whose latest acquisition is more than a lifetime ago. */
  lemma TimerEvictsTheUnused(states: seq<Models>, events: seq<Event>, maxLoaded: int, ttl: int, n: nat, id: string, i: nat)
    requires IsRun(states, events, maxLoaded, ttl) && n < |events| && events[n].op.EvictExpired?
    requires id in states[n] && IsLatestUse(events, n, id, i)
    ensures id !in states[n + 1] <==> Idle(states[n], id) && events[n].op.now - events[i].op.now > ttl
  {
    assert StepAt(states, events, maxLoaded, ttl, n);
    var i' := LastUsedIsLatestUse(states, events, maxLoaded, ttl, n, id);
  }

  /** A model that is not loaded comes from the loader; one that is loaded is shared. */
  lemma AcquisitionReturns(states: seq<Models>, events: seq<Event>, maxLoaded: int, ttl: int, n: nat, id: string, i: nat)
    requires IsRun(states, events, maxLoaded, ttl) && n < |events| && Acquires(events[n], id)
    ensures
      && id in states[n + 1] && states[n + 1][id].model == events[n].out.model
      && (id !in states[n] ==> events[n].op.loaded == Some(events[n].out.model))
      && (id in states[n] && IsLatestUse(events, n, id, i) ==> events[n].out == events[i].out)
  {
    assert StepAt(states, events, maxLoaded, ttl, n);

    if id in states[n] { var j := LastUsedIsLatestUse(states, events, maxLoaded, ttl, n, id); }
  }
}
