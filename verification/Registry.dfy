/** `UnifiedEngineRegistry`: engine records with a lifetime, and index sets by engine and by stage. */
module Registry {
  import opened Common

  type Instance = string

  /** The fields of an instance hash that the indexes depend on. */
  datatype Hash = Hash(engineId: Option<string>, stage: Option<string>, status: Option<string>)

  /** `hashes` holds the keys that have not expired. */
  datatype Store = Store(
    hashes: map<Instance, Hash>,
    instances: set<Instance>,
    byEngine: map<string, set<Instance>>,
    byStage: map<string, set<Instance>>)

  /** What a read returns for an instance. */
  datatype Record = Record(instance: Instance, engineId: string, stage: string, status: string)

  function Members(index: map<string, set<Instance>>, key: string): set<Instance> {
    if key in index then index[key] else {}
  }

  function Insert(index: map<string, set<Instance>>, key: string, i: Instance): map<string, set<Instance>> {
    index[key := Members(index, key) + {i}]
  }

  function Remove(index: map<string, set<Instance>>, key: string, i: Instance): map<string, set<Instance>> {
    index[key := Members(index, key) - {i}]
  }

  lemma RemoveShrinks(index: map<string, set<Instance>>, key: string, i: Instance)
    ensures forall k :: Members(Remove(index, key, i), k) <= Members(index, k)
  {
  }

  lemma InsertAdds(index: map<string, set<Instance>>, key: string, i: Instance)
    ensures forall k :: Members(Insert(index, key, i), k) == Members(index, k) + if k == key then {i} else {}
  {
  }

  /** A hash without an engine id is quarantined. */
  function MappingToRecord(i: Instance, h: Hash): Option<Record> {
    if h.engineId.None? || h.engineId.value == "" then None
    else Some(Record(i, h.engineId.value,
      if h.stage.Some? then h.stage.value else "unknown",
      if h.status.Some? then h.status.value else "offline"))
  }

  function GetByInstance(s: Store, i: Instance): Option<Record> {
    if i in s.hashes then MappingToRecord(i, s.hashes[i]) else None
  }

  function Overlay<T>(now: Option<T>, before: Option<T>): Option<T> {
    if now.Some? then now else before
  }

  function HashOf(s: Store, i: Instance): Hash {
    if i in s.hashes then s.hashes[i] else Hash(None, None, None)
  }

  // ----- Operations -----

  function Register(s: Store, i: Instance, engineId: string, stage: string, status: string): Store {
    Store(
      s.hashes[i := Hash(Some(engineId), Some(stage), Some(status))],
      s.instances + {i},
      Insert(s.byEngine, engineId, i),
      Insert(s.byStage, stage, i))
  }

  /** HSET of the fields given; a key that expired is re-created with just those. */
  function Heartbeat(s: Store, i: Instance, engineId: Option<string>, stage: Option<string>, status: Option<string>): Store {
    var h := HashOf(s, i);
    s.(hashes := s.hashes[i := Hash(Overlay(engineId, h.engineId), Overlay(stage, h.stage), Overlay(status, h.status))])
  }

  /** The index entries to remove are read from the hash, so an expired one leaves them behind. */
  function Deregister(s: Store, i: Instance): Store {
    var h := HashOf(s, i);
    Store(
      s.hashes - {i},
      s.instances - {i},
      if h.engineId.Some? && h.engineId.value != "" then Remove(s.byEngine, h.engineId.value, i) else s.byEngine,
      if h.stage.Some? && h.stage.value != "" then Remove(s.byStage, h.stage.value, i) else s.byStage)
  }

  function MarkOffline(s: Store, i: Instance): Store {
    s.(hashes := s.hashes[i := HashOf(s, i).(status := Some("offline"))])
  }

  function Expire(s: Store, i: Instance): Store {
    s.(hashes := s.hashes - {i})
  }

  /** The records of the live members of an index set. */
  function RecordsOf(s: Store, members: set<Instance>): set<Record> {
    set i | i in members && GetByInstance(s, i).Some? :: GetByInstance(s, i).value
  }

  function GetAll(s: Store): set<Record> {
    RecordsOf(s, s.instances)
  }

  function GetByEngineId(s: Store, engineId: string): set<Record> {
    RecordsOf(s, Members(s.byEngine, engineId))
  }

  function GetByStage(s: Store, stage: string): set<Record> {
    RecordsOf(s, Members(s.byStage, stage))
  }

  class UnifiedEngineRegistry {
    var hashes: map<Instance, Hash>
    var instances: set<Instance>
    var byEngine: map<string, set<Instance>>
    var byStage: map<string, set<Instance>>

    function State(): Store
      reads this
    {
      Store(hashes, instances, byEngine, byStage)
    }

    constructor ()
      ensures State() == Store(map[], {}, map[], map[])
    {
      hashes, instances, byEngine, byStage := map[], {}, map[], map[];
    }

    method RegisterEngine(i: Instance, engineId: string, stage: string, status: string)
      modifies this
      ensures State() == Register(old(State()), i, engineId, stage, status)
    {
      hashes := hashes[i := Hash(Some(engineId), Some(stage), Some(status))];
      instances := instances + {i};
      byEngine := Insert(byEngine, engineId, i);
      byStage := Insert(byStage, stage, i);
    }

    method SendHeartbeat(i: Instance, engineId: Option<string>, stage: Option<string>, status: Option<string>)
      modifies this
      ensures State() == Heartbeat(old(State()), i, engineId, stage, status)
    {
      var h := if i in hashes then hashes[i] else Hash(None, None, None);
      if status.Some? { h := h.(status := status); }
      if engineId.Some? { h := h.(engineId := engineId); }
      if stage.Some? { h := h.(stage := stage); }
      hashes := hashes[i := h];
    }

    method DeregisterEngine(i: Instance)
      modifies this
      ensures State() == Deregister(old(State()), i)
    {
      var engineId := if i in hashes then hashes[i].engineId else None;
      var stage := if i in hashes then hashes[i].stage else None;
      hashes := hashes - {i};
      instances := instances - {i};
      if engineId.Some? && engineId.value != "" { byEngine := Remove(byEngine, engineId.value, i); }
      if stage.Some? && stage.value != "" { byStage := Remove(byStage, stage.value, i); }
    }

    method MarkInstanceOffline(i: Instance)
      modifies this
      ensures State() == MarkOffline(old(State()), i)
    {
      var h := if i in hashes then hashes[i] else Hash(None, None, None);
      hashes := hashes[i := h.(status := Some("offline"))];
    }

    /** The reads: the live records among the members of an index set. */
    method Collect(members: set<Instance>) returns (records: set<Record>)
      ensures records == RecordsOf(State(), members)
    {
      records := {};
      var rest := members;
      while rest != {}
        invariant rest <= members
        invariant records == RecordsOf(State(), members - rest)
      {
        var i := AnyOf(rest);
        assert members - (rest - {i}) == (members - rest) + {i};
        var record := GetByInstance(State(), i);
        if record.Some? {
          records := records + {record.value};
        }
        rest := rest - {i};
      }
      assert members - rest == members;
    }
  }

  // ----- Runs -----

  datatype Op =
    | OpRegister(i: Instance, initial: string)
    | OpHeartbeat(i: Instance, status: Option<string>)
    | OpDeregister(i: Instance)
    | OpMarkOffline(i: Instance)
    | OpExpire(i: Instance)

  /** Each instance has one engine and one stage for good; its heartbeats carry both. */
  datatype Identity = Identity(engineId: string, stage: string)
  type Fleet = Instance -> Identity

  function Step(s: Store, fleet: Fleet, op: Op): Store {
    match op
    case OpRegister(i, initial) => Register(s, i, fleet(i).engineId, fleet(i).stage, initial)
    case OpHeartbeat(i, status) => Heartbeat(s, i, Some(fleet(i).engineId), Some(fleet(i).stage), status)
    case OpDeregister(i) => Deregister(s, i)
    case OpMarkOffline(i) => MarkOffline(s, i)
    case OpExpire(i) => Expire(s, i)
  }

  function Run(fleet: Fleet, ops: seq<Op>): Store {
    if ops == [] then Store(map[], {}, map[], map[])
    else Step(Run(fleet, ops[..|ops| - 1]), fleet, ops[|ops| - 1])
  }

  /** The instances registered and not deregistered since. */
  ghost function Registered(ops: seq<Op>): set<Instance> {
    if ops == [] then {}
    else
      var before, op := Registered(ops[..|ops| - 1]), ops[|ops| - 1];
      match op
      case OpRegister(i, _) => before + {i}
      case OpDeregister(i) => before - {i}
      case _ => before
  }

  /** Heartbeats come only between an instance's registration and its deregistration. */
  ghost predicate Disciplined(ops: seq<Op>) {
    forall k: nat | k < |ops| && ops[k].OpHeartbeat? :: ops[k].i in Registered(ops[..k])
  }

  /** Hashes that name an engine name their instance's own, and their instance is in every index set. */
  ghost predicate Indexed(s: Store, fleet: Fleet, registered: set<Instance>) {
    && s.instances == registered
    && (forall i | i in registered :: i in Members(s.byEngine, fleet(i).engineId) && i in Members(s.byStage, fleet(i).stage))
    && (forall i | i in s.hashes && s.hashes[i].engineId.Some? ::
      i in registered && s.hashes[i].engineId == Some(fleet(i).engineId) && s.hashes[i].stage == Some(fleet(i).stage))
    && (forall i | i in s.hashes && s.hashes[i].engineId.None? :: s.hashes[i].stage.None?)
    && (forall e, i | i in Members(s.byEngine, e) :: e == fleet(i).engineId)
    && (forall t, i | i in Members(s.byStage, t) :: t == fleet(i).stage)
  }

  /** Also when the hash has expired and its index entries stay behind. */
  lemma DeregisterKeepsIndexed(s: Store, fleet: Fleet, registered: set<Instance>, i: Instance)
    requires Indexed(s, fleet, registered)
    ensures Indexed(Deregister(s, i), fleet, registered - {i})
  {
    var h := HashOf(s, i);
    if h.engineId.Some? { RemoveShrinks(s.byEngine, h.engineId.value, i); }
    if h.stage.Some? { RemoveShrinks(s.byStage, h.stage.value, i); }
    var t := Deregister(s, i);
    assert forall e :: Members(t.byEngine, e) <= Members(s.byEngine, e);
    assert forall e :: Members(t.byStage, e) <= Members(s.byStage, e);
  }

  lemma RegisterKeepsIndexed(s: Store, fleet: Fleet, registered: set<Instance>, i: Instance, status: string)
    requires Indexed(s, fleet, registered)
    ensures Indexed(Register(s, i, fleet(i).engineId, fleet(i).stage, status), fleet, registered + {i})
  {
    InsertAdds(s.byEngine, fleet(i).engineId, i);
    InsertAdds(s.byStage, fleet(i).stage, i);
  }

  lemma StepKeepsIndexed(s: Store, fleet: Fleet, registered: set<Instance>, op: Op)
    requires Indexed(s, fleet, registered) && (op.OpHeartbeat? ==> op.i in registered)
    ensures Indexed(Step(s, fleet, op), fleet,
      match op case OpRegister(i, _) => registered + {i} case OpDeregister(i) => registered - {i} case _ => registered)
  {
    match op {
      case OpRegister(i, initial) => RegisterKeepsIndexed(s, fleet, registered, i, initial);
      case OpDeregister(i) => DeregisterKeepsIndexed(s, fleet, registered, i);
      case _ =>
    }
  }

  lemma {:induction false} RunsKeepIndexed(fleet: Fleet, ops: seq<Op>)
    requires Disciplined(ops)
    ensures Indexed(Run(fleet, ops), fleet, Registered(ops))
  {
    if ops != [] {
      var n := |ops| - 1;
      var before := ops[..n];
      forall k: nat | k < |before| && before[k].OpHeartbeat? ensures before[k].i in Registered(before[..k]) {
        assert before[..k] == ops[..k] && before[k] == ops[k];
      }
      RunsKeepIndexed(fleet, before);
      StepKeepsIndexed(Run(fleet, before), fleet, Registered(before), ops[n]);
    }
  }

  /** All live records: a scan of every hash. */
  ghost function Scan(s: Store): set<Record> {
    RecordsOf(s, s.hashes.Keys)
  }

  /** The indexes agree with a full scan after every disciplined run, through expiry, re-creation and late deregistration. */
  lemma IndexesAgreeWithScan(fleet: Fleet, ops: seq<Op>, engineId: string, stage: string)
    requires Disciplined(ops)
    ensures var s := Run(fleet, ops);
      && GetByEngineId(s, engineId) == (set r | r in Scan(s) && r.engineId == engineId)
      && GetByStage(s, stage) == (set r | r in Scan(s) && r.stage == stage)
      && GetAll(s) == Scan(s)
  {
    RunsKeepIndexed(fleet, ops);
    var s := Run(fleet, ops);
    forall i | i in s.hashes && GetByInstance(s, i).Some?
      ensures var r := GetByInstance(s, i).value;
        r.engineId == fleet(i).engineId && r.stage == fleet(i).stage && i in s.instances
        && i in Members(s.byEngine, r.engineId) && i in Members(s.byStage, r.stage)
    {
    }
  }

  /** Every fleet member has an engine id, as registration requires. */
  ghost predicate Named(fleet: Fleet) {
    forall i :: fleet(i).engineId != ""
  }

  /**
   * A heartbeat of an instance that is not registered makes a record that the full listing misses. The listing by engine
   * or by stage finds it exactly if an index entry was left behind, as deregistering an expired key does.
   */
  lemma LateHeartbeatHidesARecord(s: Store, fleet: Fleet, i: Instance, status: Option<string>)
    requires fleet(i).engineId != "" && i !in s.instances
    ensures var t := Step(s, fleet, OpHeartbeat(i, status));
      && GetByInstance(t, i).Some? && GetByInstance(t, i).value in Scan(t) && GetAll(t) != Scan(t)
      && (GetByInstance(t, i).value in GetByEngineId(t, fleet(i).engineId) <==> i in Members(s.byEngine, fleet(i).engineId))
      && (GetByInstance(t, i).value in GetByStage(t, fleet(i).stage) <==> i in Members(s.byStage, fleet(i).stage))
  {
    var t := Step(s, fleet, OpHeartbeat(i, status));
    var r := GetByInstance(t, i).value;
    assert i in t.hashes.Keys && r in Scan(t);
    assert r !in GetAll(t);
  }

  ghost predicate ListsAll(fleet: Fleet, ops: seq<Op>, n: nat)
    requires n <= |ops|
  {
    GetAll(Run(fleet, ops[..n])) == Scan(Run(fleet, ops[..n]))
  }

  lemma PrefixIsDisciplined(ops: seq<Op>, n: nat)
    requires n <= |ops| && forall k: nat | k < n && ops[k].OpHeartbeat? :: ops[k].i in Registered(ops[..k])
    ensures Disciplined(ops[..n])
  {
    forall k: nat | k < n && ops[..n][k].OpHeartbeat? ensures ops[..n][k].i in Registered(ops[..n][..k]) {
      assert ops[..n][..k] == ops[..k];
    }
  }

  lemma LateHeartbeatShows(fleet: Fleet, ops: seq<Op>, k: nat)
    requires Named(fleet) && k < |ops| && Disciplined(ops[..k]) && ops[k].OpHeartbeat? && ops[k].i !in Registered(ops[..k])
    ensures !ListsAll(fleet, ops, k + 1)
  {
    RunsKeepIndexed(fleet, ops[..k]);
    assert ops[..k + 1][..k] == ops[..k];
    LateHeartbeatHidesARecord(Run(fleet, ops[..k]), fleet, ops[k].i, ops[k].status);
  }

  /** The first heartbeat out of turn, if there is one, breaks the full listing at once. */
  lemma {:induction false} FirstLateHeartbeatShows(fleet: Fleet, ops: seq<Op>, n: nat)
    requires Named(fleet) && n <= |ops| && forall m: nat | m <= n :: ListsAll(fleet, ops, m)
    ensures Disciplined(ops[..n])
  {
    if n > 0 {
      var k := n - 1;
      FirstLateHeartbeatShows(fleet, ops, k);
      if ops[k].OpHeartbeat? && ops[k].i !in Registered(ops[..k]) {
        LateHeartbeatShows(fleet, ops, k);
      }
      forall j: nat | j < n && ops[j].OpHeartbeat? ensures ops[j].i in Registered(ops[..j]) {
        if j < k { assert ops[..k][j] == ops[j] && ops[..k][..j] == ops[..j]; }
      }
      PrefixIsDisciplined(ops, n);
    }
  }

  /** Throughout a run the listing is the full scan if and only if every heartbeat came between registration and deregistration. */
  lemma ListingIsExactIffDisciplined(fleet: Fleet, ops: seq<Op>)
    requires Named(fleet)
    ensures Disciplined(ops) <==> forall n: nat | n <= |ops| :: ListsAll(fleet, ops, n)
  {
    if Disciplined(ops) {
      forall n: nat | n <= |ops| ensures ListsAll(fleet, ops, n) {
        PrefixIsDisciplined(ops, n);
        IndexesAgreeWithScan(fleet, ops[..n], "", "");
      }
    }
    if forall n: nat | n <= |ops| :: ListsAll(fleet, ops, n) {
      FirstLateHeartbeatShows(fleet, ops, |ops|);
      assert ops[..|ops|] == ops;
    }
  }

  /** Reading undoes registering, unless the engine id is empty; all three listings have the record, and no other record changes. */
  lemma RegisterThenRead(s: Store, i: Instance, engineId: string, stage: string, status: string, other: Instance)
    ensures var t := Register(s, i, engineId, stage, status);
      && GetByInstance(t, i) == (if engineId == "" then None else Some(Record(i, engineId, stage, status)))
      && (engineId != "" ==> GetByInstance(t, i).value in GetByEngineId(t, engineId) * GetByStage(t, stage) * GetAll(t))
      && (other != i ==> GetByInstance(t, other) == GetByInstance(s, other))
  {
    var t := Register(s, i, engineId, stage, status);
    InsertAdds(s.byEngine, engineId, i);
    InsertAdds(s.byStage, stage, i);
    assert i in Members(t.byEngine, engineId) && i in Members(t.byStage, stage) && i in t.instances;
  }

  // ----- What a read sees of the other operations -----

  ghost predicate OthersReadAsBefore(s: Store, t: Store, i: Instance) {
    forall other | other != i :: GetByInstance(t, other) == GetByInstance(s, other)
  }

  /** A heartbeat's fields are read back; what it leaves out reads as before, or as missing if the key had expired. */
  lemma HeartbeatThenRead(s: Store, i: Instance, engineId: Option<string>, stage: Option<string>, status: Option<string>)
    ensures var t := Heartbeat(s, i, engineId, stage, status); var r := GetByInstance(t, i);
      && OthersReadAsBefore(s, t, i)
      && (engineId.Some? && engineId.value != "" ==> r.Some? && r.value.engineId == engineId.value)
      && (engineId == Some("") ==> r.None?)
      && (engineId.None? ==> (r.Some? <==> GetByInstance(s, i).Some?))
      && (engineId.None? && r.Some? ==> r.value.engineId == GetByInstance(s, i).value.engineId)
      && (r.Some? ==> r.value.instance == i)
      && (r.Some? && status.Some? ==> r.value.status == status.value)
      && (r.Some? && stage.Some? ==> r.value.stage == stage.value)
      && (r.Some? && status.None? && GetByInstance(s, i).Some? ==> r.value.status == GetByInstance(s, i).value.status)
      && (r.Some? && stage.None? && GetByInstance(s, i).Some? ==> r.value.stage == GetByInstance(s, i).value.stage)
      && (r.Some? && status.None? && i !in s.hashes ==> r.value.status == "offline")
      && (r.Some? && stage.None? && i !in s.hashes ==> r.value.stage == "unknown")
  {
  }

  /** A record marked offline reads offline and is otherwise as before; deregistering removes it from every read. */
  lemma OfflineAndGone(s: Store, i: Instance)
    ensures var t := MarkOffline(s, i);
      && OthersReadAsBefore(s, t, i) && (GetByInstance(t, i).Some? <==> GetByInstance(s, i).Some?)
      && (GetByInstance(s, i).Some? ==> GetByInstance(t, i).value == GetByInstance(s, i).value.(status := "offline"))
    ensures var t := Deregister(s, i);
      && OthersReadAsBefore(s, t, i) && GetByInstance(t, i).None?
      && forall r: Record | r.instance == i :: r !in GetAll(t) && (forall e :: r !in GetByEngineId(t, e)) && forall g :: r !in GetByStage(t, g)
  {
  }
}
