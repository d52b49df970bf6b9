/** The registry command by command: registrations, deregistrations, heartbeats and expiry of many instances interleave. */
module RegistryCommands {
  import opened Common
  import opened Registry

  /** How far an instance's process is. `h` is what deregistration read before it deletes the hash. */
  datatype Phase =
    | Out
    | HashWritten
    | Listed
    | EngineListed
    | In
    | Leaving(h: Hash)
    | Deleted(h: Hash)
    | Unlisted(h: Hash)
    | EngineUnlisted(h: Hash)

  datatype System = System(store: Store, phases: map<Instance, Phase>)

  /** One Redis command each; the last two come from the other processes and from time. */
  datatype Command =
    | WriteHash(i: Instance, status: string)
    | AddInstance(i: Instance)
    | AddEngine(i: Instance)
    | AddStage(i: Instance)
    | Beat(i: Instance, beat: Option<string>)
    | ReadHash(i: Instance)
    | DeleteHash(i: Instance)
    | RemoveInstance(i: Instance)
    | RemoveEngine(i: Instance)
    | RemoveStage(i: Instance)
    | SetOffline(i: Instance)
    | Lapse(i: Instance)

  function PhaseOf(w: System, i: Instance): Phase {
    if i in w.phases then w.phases[i] else Out
  }

  /**
   * The next command of a process; heartbeats run between registration and deregistration. A process that stopped midway
   * may come back and register again.
   */
  predicate Enabled(p: Phase, c: Command) {
    match c
    case WriteHash(_, _) => true
    case AddInstance(_) => p == HashWritten
    case AddEngine(_) => p == Listed
    case AddStage(_) => p == EngineListed
    case Beat(_, _) => p == In
    case ReadHash(_) => p == In
    case DeleteHash(_) => p.Leaving?
    case RemoveInstance(_) => p.Deleted?
    case RemoveEngine(_) => p.Unlisted?
    case RemoveStage(_) => p.EngineUnlisted?
    case SetOffline(_) => true
    case Lapse(_) => true
  }

  function RemoveNamed(index: map<string, set<Instance>>, key: Option<string>, i: Instance): map<string, set<Instance>> {
    if key.Some? && key.value != "" then Remove(index, key.value, i) else index
  }

  /** What the command does to the keys. */
  function Apply(s: Store, p: Phase, fleet: Fleet, c: Command): Store
    requires Enabled(p, c)
  {
    match c
    case WriteHash(i, status) => s.(hashes := s.hashes[i := Hash(Some(fleet(i).engineId), Some(fleet(i).stage), Some(status))])
    case AddInstance(i) => s.(instances := s.instances + {i})
    case AddEngine(i) => s.(byEngine := Insert(s.byEngine, fleet(i).engineId, i))
    case AddStage(i) => s.(byStage := Insert(s.byStage, fleet(i).stage, i))
    case Beat(i, status) => Heartbeat(s, i, Some(fleet(i).engineId), Some(fleet(i).stage), status)
    case ReadHash(_) => s
    case DeleteHash(i) => s.(hashes := s.hashes - {i})
    case RemoveInstance(i) => s.(instances := s.instances - {i})
    case RemoveEngine(i) => s.(byEngine := RemoveNamed(s.byEngine, p.h.engineId, i))
    case RemoveStage(i) => s.(byStage := RemoveNamed(s.byStage, p.h.stage, i))
    case SetOffline(i) => MarkOffline(s, i)
    case Lapse(i) => Expire(s, i)
  }

  function NextPhase(s: Store, p: Phase, c: Command): Phase
    requires Enabled(p, c)
  {
    match c
    case WriteHash(_, _) => HashWritten
    case AddInstance(_) => Listed
    case AddEngine(_) => EngineListed
    case AddStage(_) => In
    case ReadHash(i) => Leaving(HashOf(s, i))
    case DeleteHash(_) => Deleted(p.h)
    case RemoveInstance(_) => Unlisted(p.h)
    case RemoveEngine(_) => EngineUnlisted(p.h)
    case RemoveStage(_) => Out
    case _ => p
  }

  /** A command that is not the next one of its process does not happen. */
  function Next(w: System, fleet: Fleet, c: Command): System {
    var p := PhaseOf(w, c.i);
    if Enabled(p, c) then System(Apply(w.store, p, fleet, c), w.phases[c.i := NextPhase(w.store, p, c)]) else w
  }

  function After(w: System, fleet: Fleet, commands: seq<Command>): System
    decreases |commands|
  {
    if commands == [] then w else After(Next(w, fleet, commands[0]), fleet, commands[1..])
  }

  const Start := System(Store(map[], {}, map[], map[]), map[])

  // ----- Where an instance is in each phase -----

  predicate Own(h: Hash, id: Identity) {
    (h.engineId == Some(id.engineId) && h.stage == Some(id.stage)) || (h.engineId.None? && h.stage.None?)
  }

  ghost predicate Placed(s: Store, id: Identity, i: Instance, p: Phase) {
    && (forall e | i in Members(s.byEngine, e) :: e == id.engineId)
    && (forall t | i in Members(s.byStage, t) :: t == id.stage)
    && Own(HashOf(s, i), id)
    && (p.Listed? || p.EngineListed? || p.In? || p.Leaving? ==> i in s.instances)
    && (p.EngineListed? || p.In? || p.Leaving? ==> i in Members(s.byEngine, id.engineId))
    && (p.In? || p.Leaving? ==> i in Members(s.byStage, id.stage))
    && (p.Leaving? || p.Deleted? || p.Unlisted? || p.EngineUnlisted? ==> Own(p.h, id))
    && (p.Deleted? || p.Unlisted? || p.EngineUnlisted? || p.Out? ==> HashOf(s, i).engineId.None?)
    && (p.Unlisted? || p.EngineUnlisted? || p.Out? ==> i !in s.instances)
  }

  ghost predicate AllPlaced(w: System, fleet: Fleet) {
    forall i :: Placed(w.store, fleet(i), i, PhaseOf(w, i))
  }

  /** Commands for one instance do not move another. */
  lemma OthersStay(s: Store, p: Phase, fleet: Fleet, c: Command, j: Instance, q: Phase)
    requires Enabled(p, c) && j != c.i && Placed(s, fleet(j), j, q)
    ensures Placed(Apply(s, p, fleet, c), fleet(j), j, q)
  {
    var t := Apply(s, p, fleet, c);
    InsertAdds(s.byEngine, fleet(c.i).engineId, c.i);
    InsertAdds(s.byStage, fleet(c.i).stage, c.i);
    assert forall e :: j in Members(t.byEngine, e) <==> j in Members(s.byEngine, e);
    assert forall e :: j in Members(t.byStage, e) <==> j in Members(s.byStage, e);
    assert HashOf(t, j) == HashOf(s, j);
  }

  lemma CommandMoves(s: Store, p: Phase, fleet: Fleet, c: Command)
    requires Enabled(p, c) && Placed(s, fleet(c.i), c.i, p)
    ensures Placed(Apply(s, p, fleet, c), fleet(c.i), c.i, NextPhase(s, p, c))
  {
    match c {
      case AddEngine(i) => InsertAdds(s.byEngine, fleet(i).engineId, i);
      case AddStage(i) => InsertAdds(s.byStage, fleet(i).stage, i);
      case RemoveEngine(i) => RemoveShrinks(s.byEngine, fleet(i).engineId, i);
      case RemoveStage(i) => RemoveShrinks(s.byStage, fleet(i).stage, i);
      case _ =>
    }
  }

  lemma NextKeepsPlaced(w: System, fleet: Fleet, c: Command)
    requires AllPlaced(w, fleet)
    ensures AllPlaced(Next(w, fleet, c), fleet)
  {
    var p := PhaseOf(w, c.i);
    if Enabled(p, c) {
      CommandMoves(w.store, p, fleet, c);
      forall j | j != c.i ensures Placed(Next(w, fleet, c).store, fleet(j), j, PhaseOf(w, j)) {
        OthersStay(w.store, p, fleet, c, j, PhaseOf(w, j));
      }
    }
  }

  lemma {:induction false} RunsKeepPlaced(w: System, fleet: Fleet, commands: seq<Command>)
    requires AllPlaced(w, fleet)
    ensures AllPlaced(After(w, fleet, commands), fleet)
    decreases |commands|
  {
    if commands != [] {
      NextKeepsPlaced(w, fleet, commands[0]);
      RunsKeepPlaced(Next(w, fleet, commands[0]), fleet, commands[1..]);
    }
  }

  // ----- The guarantees -----

  /** Neither registering nor deregistering. */
  predicate Settled(w: System, i: Instance) {
    PhaseOf(w, i) == In || PhaseOf(w, i) == Out
  }

  /** However the commands interleave, the listings agree with a full scan on every instance that is not under way. */
  lemma SettledInstancesAgree(fleet: Fleet, commands: seq<Command>, r: Record)
    requires Settled(After(Start, fleet, commands), r.instance)
    ensures var s := After(Start, fleet, commands).store;
      && (r in GetAll(s) <==> r in Scan(s))
      && (forall e :: r in GetByEngineId(s, e) <==> r in Scan(s) && r.engineId == e)
      && (forall t :: r in GetByStage(s, t) <==> r in Scan(s) && r.stage == t)
  {
    RunsKeepPlaced(Start, fleet, commands);
    var w := After(Start, fleet, commands);
    assert Placed(w.store, fleet(r.instance), r.instance, PhaseOf(w, r.instance));
  }

  /** With no instance under way the three listings are exact. */
  lemma QuietListingsAreExact(fleet: Fleet, commands: seq<Command>, engineId: string, stage: string)
    requires forall i :: Settled(After(Start, fleet, commands), i)
    ensures var s := After(Start, fleet, commands).store;
      && GetAll(s) == Scan(s)
      && GetByEngineId(s, engineId) == (set r | r in Scan(s) && r.engineId == engineId)
      && GetByStage(s, stage) == (set r | r in Scan(s) && r.stage == stage)
  {
    var s := After(Start, fleet, commands).store;
    forall r: Record ensures (r in GetAll(s) <==> r in Scan(s))
      && (r in GetByEngineId(s, engineId) <==> r in Scan(s) && r.engineId == engineId)
      && (r in GetByStage(s, stage) <==> r in Scan(s) && r.stage == stage)
    {
      SettledInstancesAgree(fleet, commands, r);
    }
  }

  /** An instance that registers for the first time can be read before any listing shows it. */
  lemma RegisteringIsHidden(w: System, fleet: Fleet, i: Instance, status: string)
    requires AllPlaced(w, fleet) && PhaseOf(w, i) == Out && fleet(i).engineId != ""
    ensures var s := Next(w, fleet, WriteHash(i, status)).store;
      GetByInstance(s, i) == Some(Record(i, fleet(i).engineId, fleet(i).stage, status))
      && GetByInstance(s, i).value !in GetAll(s)
  {
    assert Placed(w.store, fleet(i), i, Out);
  }

  // ----- Undisturbed, the commands are the operations of the registry -----

  lemma AfterOne(w: System, fleet: Fleet, c: Command, rest: seq<Command>)
    ensures After(w, fleet, [c] + rest) == After(Next(w, fleet, c), fleet, rest)
  {
    assert ([c] + rest)[1..] == rest;
  }

  lemma AfterTwo(w: System, fleet: Fleet, a: Command, b: Command, rest: seq<Command>)
    ensures After(w, fleet, [a, b] + rest) == After(Next(Next(w, fleet, a), fleet, b), fleet, rest)
  {
    assert [a, b] + rest == [a] + ([b] + rest);
    AfterOne(w, fleet, a, [b] + rest);
    AfterOne(Next(w, fleet, a), fleet, b, rest);
  }

  lemma UndisturbedRegister(w: System, fleet: Fleet, i: Instance, status: string)
    requires Settled(w, i)
    ensures var v := After(w, fleet, [WriteHash(i, status), AddInstance(i), AddEngine(i), AddStage(i)]);
      v.store == Register(w.store, i, fleet(i).engineId, fleet(i).stage, status) && PhaseOf(v, i) == In
  {
    var half := Next(Next(w, fleet, WriteHash(i, status)), fleet, AddInstance(i));
    AfterTwo(w, fleet, WriteHash(i, status), AddInstance(i), [AddEngine(i), AddStage(i)]);
    AfterTwo(half, fleet, AddEngine(i), AddStage(i), []);
    assert PhaseOf(half, i) == Listed;
    assert [WriteHash(i, status), AddInstance(i)] + [AddEngine(i), AddStage(i)] == [WriteHash(i, status), AddInstance(i), AddEngine(i), AddStage(i)];
    assert [AddEngine(i), AddStage(i)] + [] == [AddEngine(i), AddStage(i)];
  }

  lemma HashGoes(w: System, fleet: Fleet, i: Instance)
    requires PhaseOf(w, i) == In
    ensures var v := Next(Next(w, fleet, ReadHash(i)), fleet, DeleteHash(i));
      v.store == w.store.(hashes := w.store.hashes - {i}) && PhaseOf(v, i) == Deleted(HashOf(w.store, i))
  {
  }

  lemma EntriesGo(w: System, fleet: Fleet, i: Instance)
    requires PhaseOf(w, i).Deleted?
    ensures var h := PhaseOf(w, i).h; var v := Next(Next(Next(w, fleet, RemoveInstance(i)), fleet, RemoveEngine(i)), fleet, RemoveStage(i));
      v.store == Store(w.store.hashes, w.store.instances - {i}, RemoveNamed(w.store.byEngine, h.engineId, i), RemoveNamed(w.store.byStage, h.stage, i))
      && PhaseOf(v, i) == Out
  {
  }

  lemma UndisturbedDeregister(w: System, fleet: Fleet, i: Instance)
    requires PhaseOf(w, i) == In
    ensures var v := After(w, fleet, [ReadHash(i), DeleteHash(i), RemoveInstance(i), RemoveEngine(i), RemoveStage(i)]);
      v.store == Deregister(w.store, i) && PhaseOf(v, i) == Out
  {
    var deleted := Next(Next(w, fleet, ReadHash(i)), fleet, DeleteHash(i));
    HashGoes(w, fleet, i);
    EntriesGo(deleted, fleet, i);
    var rest := [RemoveInstance(i), RemoveEngine(i), RemoveStage(i)];
    AfterTwo(w, fleet, ReadHash(i), DeleteHash(i), rest);
    AfterTwo(deleted, fleet, RemoveInstance(i), RemoveEngine(i), [RemoveStage(i)]);
    AfterOne(Next(Next(deleted, fleet, RemoveInstance(i)), fleet, RemoveEngine(i)), fleet, RemoveStage(i), []);
    assert [ReadHash(i), DeleteHash(i)] + rest == [ReadHash(i), DeleteHash(i), RemoveInstance(i), RemoveEngine(i), RemoveStage(i)];
    assert [RemoveInstance(i), RemoveEngine(i)] + [RemoveStage(i)] == rest && [RemoveStage(i)] + [] == [RemoveStage(i)];
  }
}
