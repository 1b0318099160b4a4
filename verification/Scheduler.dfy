/**
 * The classic scheduler: processors scanning priority queues, tasks being dispatched and removed.
 *
 * Any number of threads run NextRoutine / Resume / Release, DispatchTask and RemoveCRoutine at once.  The
 * reader-writer locks of the queues and the per-id mutexes are taken at their word (a thread enters when
 * nobody incompatible is inside); a routine's own lock is the atomic flag that CRoutine keeps for it.
 */
module Scheduler {
  import opened Options
  import opened Runs

  type Tid = nat
  type Id = nat
  type Routine = nat          // the identity of a routine object

  const MAX_PRIO: nat := 20

  datatype Queue = Queue(group: nat, prio: nat)

  datatype Pc =
    // NextRoutine, Resume and Release on a processor of one group
    | Scan(group: nat, level: nat)                 // about to lock the queue of priority level - 1
    | Iterate(q: Queue, i: nat)                    // holds the read lock, at position i
    | Judge(q: Queue, i: nat, r: Routine)          // has acquired r, about to run UpdateState
    | LetGo(q: Queue, i: nat, r: Routine)          // r is not ready
    | Got(r: Routine)                              // NextRoutine has returned r
    | Switching(r: Routine)                        // Resume has found r not stopped
    | Inside(r: Routine)
    | Releasing(r: Routine)
    | ScanDone(ran: bool)
    // DispatchTask
    | DispatchLock(r: Routine)
    | DispatchInsert(r: Routine)                   // holds the mutex of r's id from here on
    | DispatchPlace(r: Routine)
    | DispatchPush(r: Routine)
    | DispatchDone(ok: bool)
    // RemoveCRoutine
    | RemoveLock(id: Id)
    | RemoveErase(id: Id)                          // holds the mutex of the id from here on
    | RemoveFind(r: Routine)
    | RemoveSpin(q: Queue, i: nat, r: Routine)     // holds the write lock, has stopped r
    | RemoveUnlink(q: Queue, i: nat, r: Routine)   // has acquired r
    | RemoveFree(q: Queue, r: Routine)
    | RemoveDone(ok: bool)
  {
    predicate Idle() { ScanDone? || DispatchDone? || RemoveDone? }

    predicate Processing() {
      Scan? || Iterate? || Judge? || LetGo? || Got? || Switching? || Inside? || Releasing?
    }

    predicate Dispatches() { DispatchLock? || DispatchInsert? || DispatchPlace? || DispatchPush? }

    predicate Removes() {
      RemoveLock? || RemoveErase? || RemoveFind? || RemoveSpin? || RemoveUnlink? || RemoveFree?
    }

    // Has decided to remove r.
    predicate Stopping() { RemoveFind? || RemoveSpin? || RemoveUnlink? || RemoveFree? }

    // Between Acquire and Release of the routine's lock.
    predicate Holds(o: Routine) {
      (Judge? || LetGo? || Got? || Switching? || Inside? || Releasing? || RemoveUnlink? || RemoveFree?) && r == o
    }

    // Resume has passed its stop test and not yet returned.
    predicate Executes(o: Routine) { (Switching? || Inside?) && r == o }

    predicate Reads(k: Queue) { (Iterate? || Judge? || LetGo?) && q == k }
    predicate Writes(k: Queue) { (RemoveSpin? || RemoveUnlink? || RemoveFree?) && q == k }

    // In the middle of dispatching r, which is registered but not yet queued.
    predicate Dispatching() { DispatchPlace? || DispatchPush? }

    // In the middle of removing r, which is queued but no longer registered.
    predicate Removing() { RemoveFind? || RemoveSpin? || RemoveUnlink? }
  }

  // `idOf`, `conf` and `created` are what the routine objects and the configuration say; `removed` is the
  // history of routines whose removal has returned true.
  datatype State = State(
    idOf: Routine -> Id, conf: Routine -> Option<Queue>, created: Routine -> nat, defaultGroup: nat,
    registry: map<Id, Routine>, queues: map<Queue, seq<Routine>>, place: map<Routine, Queue>,
    locked: set<Routine>, stopped: set<Routine>, pcs: map<Tid, Pc>, removed: set<Routine>)

  datatype Action = BeginScan(group: nat) | BeginDispatch(r: Routine) | BeginRemove(id: Id) | Go(ready: bool)

  function MembersOf(s: State, q: Queue): seq<Routine> {
    if q in s.queues then s.queues[q] else []
  }

  function Clamp(prio: nat): nat {
    if prio >= MAX_PRIO then MAX_PRIO - 1 else prio
  }

  // The queue a routine is dispatched to: the configured one, else the default group at its own priority.
  function PlaceFor(s: State, r: Routine): Queue {
    match s.conf(r)
    case Some(q) => Queue(q.group, Clamp(q.prio))
    case None => Queue(s.defaultGroup, Clamp(if r in s.place then s.place[r].prio else s.created(r)))
  }

  predicate Init(s: State) {
    && s.registry == map[] && s.queues == map[] && s.place == map[]
    && s.locked == {} && s.stopped == {} && s.pcs == map[] && s.removed == {}
  }

  // The id whose mutex a thread holds.
  function IdHeld(s: State, pc: Pc): Option<Id> {
    match pc
    case DispatchInsert(r) => Some(s.idOf(r))
    case DispatchPlace(r) => Some(s.idOf(r))
    case DispatchPush(r) => Some(s.idOf(r))
    case RemoveErase(id) => Some(id)
    case RemoveFind(r) => Some(s.idOf(r))
    case RemoveSpin(_, _, r) => Some(s.idOf(r))
    case RemoveUnlink(_, _, r) => Some(s.idOf(r))
    case RemoveFree(_, r) => Some(s.idOf(r))
    case _ => None
  }

  ghost predicate MutexFree(s: State, id: Id) {
    forall t :: t in s.pcs ==> IdHeld(s, s.pcs[t]) != Some(id)
  }

  ghost predicate MayRead(s: State, q: Queue) {
    forall t :: t in s.pcs ==> !s.pcs[t].Writes(q)
  }

  ghost predicate MayWrite(s: State, q: Queue) {
    forall t :: t in s.pcs ==> !s.pcs[t].Writes(q) && !s.pcs[t].Reads(q)
  }

  ghost predicate Enabled(s: State, t: Tid, a: Action) {
    if !a.Go? then t in s.pcs ==> s.pcs[t].Idle()
    else
      t in s.pcs && !s.pcs[t].Idle() &&
      match s.pcs[t]
      case Scan(g, level) => level > 0 ==> MayRead(s, Queue(g, level - 1))
      case DispatchLock(r) => MutexFree(s, s.idOf(r))
      case DispatchPush(r) => r in s.place && MayWrite(s, s.place[r])
      case RemoveLock(id) => MutexFree(s, id)
      case RemoveFind(r) => r in s.place && MayWrite(s, s.place[r])
      case RemoveUnlink(q, i, _) => i < |MembersOf(s, q)|
      case _ => true
  }

  function To(s: State, t: Tid, pc: Pc): State {
    s.(pcs := s.pcs[t := pc])
  }

  // The first position of a routine with the given id.
  function FindId(idOf: Routine -> Id, members: seq<Routine>, id: Id): (r: Option<nat>)
    ensures r.Some? ==> r.value < |members| && idOf(members[r.value]) == id
    ensures r.None? ==> forall i :: 0 <= i < |members| ==> idOf(members[i]) != id
  {
    if members == [] then None
    else if idOf(members[0]) == id then Some(0)
    else match FindId(idOf, members[1..], id) case None => None case Some(i) => Some(i + 1)
  }

  // NextRoutine, Resume and Release.
  function ProcessorStep(s: State, t: Tid, pc: Pc, ready: bool): State
    requires pc.Processing()
  {
    match pc
    case Scan(g, level) =>
      if level == 0 then To(s, t, ScanDone(false)) else To(s, t, Iterate(Queue(g, level - 1), 0))
    case Iterate(q, i) =>
      var members := MembersOf(s, q);
      if i >= |members| then To(s, t, Scan(q.group, q.prio))
      else if members[i] in s.locked then To(s, t, Iterate(q, i + 1))
      else To(s, t, Judge(q, i, members[i])).(locked := s.locked + {members[i]})
    case Judge(q, i, r) => if ready then To(s, t, Got(r)) else To(s, t, LetGo(q, i, r))
    case LetGo(q, i, r) => To(s, t, Iterate(q, i + 1)).(locked := s.locked - {r})
    case Got(r) => if r in s.stopped then To(s, t, Releasing(r)) else To(s, t, Switching(r))
    case Switching(r) => To(s, t, Inside(r))
    case Inside(r) => To(s, t, Releasing(r))
    case Releasing(r) => To(s, t, ScanDone(true)).(locked := s.locked - {r})
  }

  function DispatchStep(s: State, t: Tid, pc: Pc): State
    requires pc.Dispatches()
    requires pc.DispatchPush? ==> pc.r in s.place
  {
    match pc
    case DispatchLock(r) => To(s, t, DispatchInsert(r))
    case DispatchInsert(r) =>
      if s.idOf(r) in s.registry then To(s, t, DispatchDone(false))
      else To(s, t, DispatchPlace(r)).(registry := s.registry[s.idOf(r) := r])
    case DispatchPlace(r) => To(s, t, DispatchPush(r)).(place := s.place[r := PlaceFor(s, r)])
    case DispatchPush(r) =>
      var q := s.place[r];
      To(s, t, DispatchDone(true)).(queues := s.queues[q := MembersOf(s, q) + [r]])
  }

  function RemoveStep(s: State, t: Tid, pc: Pc): State
    requires pc.Removes()
    requires pc.RemoveFind? ==> pc.r in s.place
    requires pc.RemoveUnlink? ==> pc.i < |MembersOf(s, pc.q)|
  {
    match pc
    case RemoveLock(id) => To(s, t, RemoveErase(id))
    case RemoveErase(id) =>
      if id in s.registry then
        To(s, t, RemoveFind(s.registry[id]))
          .(stopped := s.stopped + {s.registry[id]}, registry := s.registry - {id})
      else To(s, t, RemoveDone(false))
    case RemoveFind(r) =>
      var q := s.place[r];
      (match FindId(s.idOf, MembersOf(s, q), s.idOf(r))
       case None => To(s, t, RemoveDone(false))
       case Some(i) =>
         To(s, t, RemoveSpin(q, i, MembersOf(s, q)[i])).(stopped := s.stopped + {MembersOf(s, q)[i]}))
    case RemoveSpin(q, i, r) =>
      if r in s.locked then s else To(s, t, RemoveUnlink(q, i, r)).(locked := s.locked + {r})
    case RemoveUnlink(q, i, r) =>
      var members := MembersOf(s, q);
      To(s, t, RemoveFree(q, r)).(queues := s.queues[q := members[..i] + members[i + 1..]])
    case RemoveFree(q, r) =>
      To(s, t, RemoveDone(true)).(locked := s.locked - {r}, removed := s.removed + {r})
  }

  ghost function Step(s: State, t: Tid, a: Action): State
    requires Enabled(s, t, a)
  {
    match a
    case BeginScan(g) => To(s, t, Scan(g, MAX_PRIO))
    case BeginDispatch(r) => To(s, t, DispatchLock(r))
    case BeginRemove(id) => To(s, t, RemoveLock(id))
    case Go(ready) =>
      var pc := s.pcs[t];
      if pc.Processing() then ProcessorStep(s, t, pc, ready)
      else if pc.Dispatches() then DispatchStep(s, t, pc)
      else RemoveStep(s, t, pc)
  }

  ghost predicate Next(s: State, s': State) {
    exists t, a :: Enabled(s, t, a) && s' == Step(s, t, a)
  }

  // ----- what every reachable state satisfies -----

  // A routine is between Acquire and Release on at most one thread, and the flag says so.
  ghost predicate Locks(s: State) {
    && (forall t, o :: t in s.pcs && s.pcs[t].Holds(o) ==> o in s.locked)
    && (forall t, u, o :: t in s.pcs && u in s.pcs && s.pcs[t].Holds(o) && s.pcs[u].Holds(o) ==> t == u)
  }

  ghost predicate Mutexes(s: State) {
    forall t, u :: t in s.pcs && u in s.pcs && t != u && IdHeld(s, s.pcs[t]).Some? ==>
      IdHeld(s, s.pcs[t]) != IdHeld(s, s.pcs[u])
  }

  ghost predicate QueueLocks(s: State) {
    forall t, u, q :: t in s.pcs && u in s.pcs && t != u && s.pcs[t].Writes(q) ==>
      !s.pcs[u].Writes(q) && !s.pcs[u].Reads(q)
  }

  ghost predicate Dispatched(s: State, r: Routine) {
    exists t :: t in s.pcs && s.pcs[t].Dispatching() && s.pcs[t].r == r
  }

  ghost predicate Removed(s: State, r: Routine) {
    exists t :: t in s.pcs && s.pcs[t].Removing() && s.pcs[t].r == r
  }

  predicate Queued(s: State, r: Routine) {
    r in s.place && r in MembersOf(s, s.place[r])
  }

  predicate Registered(s: State, r: Routine) {
    s.idOf(r) in s.registry && s.registry[s.idOf(r)] == r
  }

  // Queues repeat no routine, hold each one only where it was placed, and stay below MAX_PRIO.
  predicate Places(s: State) {
    && (forall q, i, j :: q in s.queues && 0 <= i < j < |s.queues[q]| ==> s.queues[q][i] != s.queues[q][j])
    && (forall q, r :: q in s.queues && r in s.queues[q] ==> r in s.place && s.place[r] == q)
    && (forall r :: r in s.place ==> s.place[r].prio < MAX_PRIO)
  }

  // Registered and queued are the same thing, except in the middle of a dispatch or a removal.
  ghost predicate Consistent(s: State) {
    && (forall id :: id in s.registry ==> s.idOf(s.registry[id]) == id)
    && (forall id :: id in s.registry ==> Queued(s, s.registry[id]) || Dispatched(s, s.registry[id]))
    && (forall r :: Queued(s, r) ==> Registered(s, r) || Removed(s, r))
    && (forall t :: t in s.pcs ==> MidwayOk(s, s.pcs[t]))
  }

  predicate MidwayOk(s: State, pc: Pc) {
    && (pc.Dispatching() ==> Registered(s, pc.r) && !Queued(s, pc.r))
    && (pc.Removing() ==> s.idOf(pc.r) !in s.registry && Queued(s, pc.r))
  }

  predicate PositionOk(s: State, pc: Pc) {
    match pc
    case Scan(_, level) => level <= MAX_PRIO
    case Iterate(q, i) => q.prio < MAX_PRIO && i <= |MembersOf(s, q)|
    case Judge(q, i, r) => q.prio < MAX_PRIO && i < |MembersOf(s, q)| && MembersOf(s, q)[i] == r
    case LetGo(q, i, r) => q.prio < MAX_PRIO && i < |MembersOf(s, q)| && MembersOf(s, q)[i] == r
    case DispatchPush(r) => r in s.place
    case RemoveSpin(q, i, r) => i < |MembersOf(s, q)| && MembersOf(s, q)[i] == r
    case RemoveUnlink(q, i, r) => i < |MembersOf(s, q)| && MembersOf(s, q)[i] == r
    case _ => true
  }

  predicate Positions(s: State) {
    forall t :: t in s.pcs ==> PositionOk(s, s.pcs[t])
  }

  // A routine being or having been removed is stopped; one whose removal is over is not being executed.
  ghost predicate Stops(s: State) {
    && s.removed <= s.stopped
    && (forall t :: t in s.pcs && s.pcs[t].Stopping() ==> s.pcs[t].r in s.stopped)
    && (forall t, o :: t in s.pcs && s.pcs[t].Executes(o) ==> o !in s.removed)
  }

  ghost predicate Inv(s: State) {
    Locks(s) && Mutexes(s) && QueueLocks(s) && Places(s) && Consistent(s) && Positions(s) && Stops(s)
  }

  // ----- every step keeps it -----

  // Only thread t moved.
  ghost predicate Moves(s: State, s': State, t: Tid) {
    t in s'.pcs && s'.pcs == s.pcs[t := s'.pcs[t]] && s'.idOf == s.idOf
  }

  lemma StepMoves(s: State, t: Tid, a: Action)
    requires Enabled(s, t, a)
    ensures Moves(s, Step(s, t, a), t)
  {
    if a.Go? {
      if s.pcs[t].Processing() { ProcessorMoves(s, t, a.ready); }
      else if s.pcs[t].Dispatches() { DispatchMoves(s, t); }
      else { RemoveMoves(s, t); }
    }
  }

  lemma ProcessorMoves(s: State, t: Tid, ready: bool)
    requires t in s.pcs && s.pcs[t].Processing()
    ensures Moves(s, ProcessorStep(s, t, s.pcs[t], ready), t)
  {
  }

  lemma DispatchMoves(s: State, t: Tid)
    requires t in s.pcs && s.pcs[t].Dispatches() && (s.pcs[t].DispatchPush? ==> s.pcs[t].r in s.place)
    ensures Moves(s, DispatchStep(s, t, s.pcs[t]), t)
  {
  }

  lemma RemoveMoves(s: State, t: Tid)
    requires t in s.pcs && s.pcs[t].Removes() && (s.pcs[t].RemoveFind? ==> s.pcs[t].r in s.place)
    requires s.pcs[t].RemoveUnlink? ==> s.pcs[t].i < |MembersOf(s, s.pcs[t].q)|
    ensures Moves(s, RemoveStep(s, t, s.pcs[t]), t)
  {
  }

  // How one step may touch the routine locks: it takes a free one, gives back its own, or keeps it.
  ghost predicate LocksProperly(s: State, s': State, t: Tid) {
    && t in s'.pcs
    && (forall o :: s'.pcs[t].Holds(o) ==> o in s'.locked)
    && (forall o :: s'.pcs[t].Holds(o) ==> (t in s.pcs && s.pcs[t].Holds(o)) || o !in s.locked)
    && (forall o :: o in s.locked && o !in s'.locked ==> t in s.pcs && s.pcs[t].Holds(o))
  }

  lemma ProcessorLocks(s: State, t: Tid, ready: bool)
    requires t in s.pcs && s.pcs[t].Processing() && forall o :: s.pcs[t].Holds(o) ==> o in s.locked
    ensures LocksProperly(s, ProcessorStep(s, t, s.pcs[t], ready), t)
  {
    match s.pcs[t]
    case Scan(_, _) =>
    case Iterate(_, _) =>
    case Judge(_, _, _) =>
    case LetGo(_, _, _) =>
    case Got(_) =>
    case Switching(_) =>
    case Inside(_) =>
    case Releasing(_) =>
  }

  lemma RemoveLocks(s: State, t: Tid)
    requires Enabled(s, t, Go(false)) && s.pcs[t].Removes() && forall o :: s.pcs[t].Holds(o) ==> o in s.locked
    ensures LocksProperly(s, RemoveStep(s, t, s.pcs[t]), t)
  {
  }

  lemma KeepsLocks(s: State, t: Tid, a: Action)
    requires Locks(s) && Enabled(s, t, a)
    ensures Locks(Step(s, t, a))
  {
    var s' := Step(s, t, a);
    StepMoves(s, t, a);
    if a.Go? && s.pcs[t].Processing() { ProcessorLocks(s, t, a.ready); }
    else if a.Go? && s.pcs[t].Removes() {
      RemoveLocks(s, t);
    }
    OthersKeepLocks(s, s', t);
  }

  lemma OthersKeepLocks(s: State, s': State, t: Tid)
    requires Locks(s) && Moves(s, s', t) && LocksProperly(s, s', t)
    ensures Locks(s')
  {
  }

  // A thread comes to hold the mutex of an id only when nobody else does.
  ghost predicate TakesMutexProperly(s: State, s': State, t: Tid)
    requires t in s'.pcs
  {
    IdHeld(s', s'.pcs[t]).Some? ==>
      || (t in s.pcs && IdHeld(s, s.pcs[t]) == IdHeld(s', s'.pcs[t]))
      || MutexFree(s, IdHeld(s', s'.pcs[t]).value)
  }

  lemma RemoveMutex(s: State, t: Tid)
    requires Enabled(s, t, Go(false)) && s.pcs[t].Removes() && Consistent(s)
    ensures TakesMutexProperly(s, RemoveStep(s, t, s.pcs[t]), t)
  {
  }

  lemma DispatchMutex(s: State, t: Tid)
    requires Enabled(s, t, Go(false)) && s.pcs[t].Dispatches()
    ensures TakesMutexProperly(s, DispatchStep(s, t, s.pcs[t]), t)
  {
  }

  lemma KeepsMutexes(s: State, t: Tid, a: Action)
    requires Mutexes(s) && Consistent(s) && Enabled(s, t, a)
    ensures Mutexes(Step(s, t, a))
  {
    var s' := Step(s, t, a);
    StepMoves(s, t, a);
    if a.Go? && s.pcs[t].Dispatches() { DispatchMutex(s, t); }
    else if a.Go? && s.pcs[t].Removes() { RemoveMutex(s, t); }
    else if a.Go? { ProcessorMutex(s, t, a.ready); }
    OthersKeepMutex(s, s', t);
  }

  lemma ProcessorMutex(s: State, t: Tid, ready: bool)
    requires t in s.pcs && s.pcs[t].Processing()
    ensures t in ProcessorStep(s, t, s.pcs[t], ready).pcs
    ensures TakesMutexProperly(s, ProcessorStep(s, t, s.pcs[t], ready), t)
  {
    QuietProcessor(s, t, ready);
  }

  lemma OthersKeepMutex(s: State, s': State, t: Tid)
    requires Mutexes(s) && Moves(s, s', t) && TakesMutexProperly(s, s', t)
    ensures Mutexes(s')
  {
    forall u | u in s'.pcs && u != t ensures IdHeld(s', s'.pcs[u]) == IdHeld(s, s.pcs[u]) {}
  }

  // A thread enters a queue's lock only when nobody incompatible is inside.
  ghost predicate EntersQueueProperly(s: State, s': State, t: Tid, q: Queue)
    requires t in s'.pcs
  {
    && (s'.pcs[t].Writes(q) ==> (t in s.pcs && s.pcs[t].Writes(q)) || MayWrite(s, q))
    && (s'.pcs[t].Reads(q) ==> (t in s.pcs && s.pcs[t].Reads(q)) || MayRead(s, q))
  }

  lemma ProcessorEnters(s: State, t: Tid, ready: bool, q: Queue)
    requires Enabled(s, t, Go(ready)) && s.pcs[t].Processing()
    ensures EntersQueueProperly(s, ProcessorStep(s, t, s.pcs[t], ready), t, q)
  {
  }

  lemma RemoveEnters(s: State, t: Tid, q: Queue)
    requires Enabled(s, t, Go(false)) && s.pcs[t].Removes()
    ensures EntersQueueProperly(s, RemoveStep(s, t, s.pcs[t]), t, q)
  {
  }

  lemma KeepsQueueLocks(s: State, t: Tid, a: Action)
    requires QueueLocks(s) && Enabled(s, t, a)
    ensures QueueLocks(Step(s, t, a))
  {
    var s' := Step(s, t, a);
    StepMoves(s, t, a);
    forall q ensures EntersQueueProperly(s, s', t, q) {
      if a.Go? && s.pcs[t].Processing() { ProcessorEnters(s, t, a.ready, q); }
      else if a.Go? && s.pcs[t].Removes() { RemoveEnters(s, t, q); }
    }
    OthersKeepQueueLocks(s, s', t);
  }

  lemma OthersKeepQueueLocks(s: State, s': State, t: Tid)
    requires QueueLocks(s) && Moves(s, s', t) && forall q :: EntersQueueProperly(s, s', t, q)
    ensures QueueLocks(s')
  {
    forall u, v, q | u in s'.pcs && v in s'.pcs && u != v && s'.pcs[u].Writes(q)
      ensures !s'.pcs[v].Writes(q) && !s'.pcs[v].Reads(q)
    {
      assert EntersQueueProperly(s, s', t, q);
    }
  }

  // Nobody starts to execute a stopped routine, and a removal ends while its thread still holds the routine.
  ghost predicate StopsProperly(s: State, s': State, t: Tid)
    requires t in s'.pcs
  {
    && s.stopped <= s'.stopped
    && (s'.pcs[t].Stopping() ==> s'.pcs[t].r in s'.stopped)
    && (forall o :: s'.pcs[t].Executes(o) ==> (t in s.pcs && s.pcs[t].Executes(o)) || o !in s.stopped)
    && (s'.removed == s.removed || (t in s.pcs && s.pcs[t].RemoveFree? && s'.removed == s.removed + {s.pcs[t].r}
        && forall o :: !s'.pcs[t].Executes(o)))
  }

  lemma ProcessorStops(s: State, t: Tid, ready: bool)
    requires Enabled(s, t, Go(ready)) && s.pcs[t].Processing()
    ensures StopsProperly(s, ProcessorStep(s, t, s.pcs[t], ready), t)
  {
  }

  lemma RemoveStops(s: State, t: Tid)
    requires Enabled(s, t, Go(false)) && s.pcs[t].Removes() && Stops(s)
    ensures StopsProperly(s, RemoveStep(s, t, s.pcs[t]), t)
  {
  }

  lemma KeepsStops(s: State, t: Tid, a: Action)
    requires Locks(s) && Stops(s) && Enabled(s, t, a)
    ensures Stops(Step(s, t, a))
  {
    var s' := Step(s, t, a);
    StepMoves(s, t, a);
    if a.Go? && s.pcs[t].Processing() { ProcessorStops(s, t, a.ready); }
    else if a.Go? && s.pcs[t].Removes() { RemoveStops(s, t); }
    assert StopsProperly(s, s', t);
    OthersKeepStops(s, s', t);
  }

  lemma OthersKeepStops(s: State, s': State, t: Tid)
    requires Locks(s) && Stops(s) && Moves(s, s', t) && StopsProperly(s, s', t)
    ensures Stops(s')
  {
    forall u, o | u in s'.pcs && s'.pcs[u].Executes(o) ensures o !in s'.removed {
      if u != t && s'.removed != s.removed {
        assert s.pcs[u].Holds(o) && s.pcs[t].Holds(s.pcs[t].r);
      }
    }
  }

  // ----- registry and queues -----

  // A step of t that leaves registry, queues and places alone and keeps t's part in dispatches and removals.
  ghost predicate LeavesQueues(s: State, s': State, t: Tid) {
    && Moves(s, s', t)
    && s'.registry == s.registry && s'.queues == s.queues && s'.place == s.place
    && (if t in s.pcs && s.pcs[t].Dispatching() then s'.pcs[t].Dispatching() && s'.pcs[t].r == s.pcs[t].r
        else !s'.pcs[t].Dispatching())
    && (if t in s.pcs && s.pcs[t].Removing() then s'.pcs[t].Removing() && s'.pcs[t].r == s.pcs[t].r
        else !s'.pcs[t].Removing())
  }

  lemma LeavingQueuesKeepsThem(s: State, s': State, t: Tid)
    requires Places(s) && Consistent(s) && LeavesQueues(s, s', t)
    ensures Places(s') && Consistent(s')
  {
    forall r ensures Queued(s', r) <==> Queued(s, r) {}
    forall r ensures (Dispatched(s, r) ==> Dispatched(s', r)) && (Removed(s, r) ==> Removed(s', r)) {
      MidwayStays(s, s', t, r);
    }
    forall u | u in s'.pcs ensures MidwayOk(s', s'.pcs[u]) {
      if u != t { assert MidwayOk(s, s.pcs[u]); }
    }
  }

  lemma MidwayStays(s: State, s': State, t: Tid, r: Routine)
    requires LeavesQueues(s, s', t)
    ensures (Dispatched(s, r) ==> Dispatched(s', r)) && (Removed(s, r) ==> Removed(s', r))
  {
    if Dispatched(s, r) {
      var u :| u in s.pcs && s.pcs[u].Dispatching() && s.pcs[u].r == r;
      assert u in s'.pcs && s'.pcs[u].Dispatching() && s'.pcs[u].r == r;
    }
    if Removed(s, r) {
      var u :| u in s.pcs && s.pcs[u].Removing() && s.pcs[u].r == r;
      assert u in s'.pcs && s'.pcs[u].Removing() && s'.pcs[u].r == r;
    }
  }

  // While t holds the mutex of an id, no other thread dispatches or removes a routine with that id.
  lemma AloneOnId(s: State, t: Tid, u: Tid)
    requires Mutexes(s) && t in s.pcs && u in s.pcs && u != t && IdHeld(s, s.pcs[t]).Some?
    ensures s.pcs[u].Dispatching() || s.pcs[u].Removing() ==> Some(s.idOf(s.pcs[u].r)) != IdHeld(s, s.pcs[t])
  {
    assert IdHeld(s, s.pcs[u]) != IdHeld(s, s.pcs[t]);
  }

  // A step under the mutex of an id leaves every other id as it was.
  ghost predicate SameElsewhere(s: State, s': State, id: Id) {
    && (forall k :: k != id ==> (k in s'.registry <==> k in s.registry))
    && (forall k :: k != id && k in s.registry ==> s'.registry[k] == s.registry[k])
    && (forall x :: s.idOf(x) != id ==> (Queued(s', x) <==> Queued(s, x)))
  }

  // What must hold for the routines of the id t works on.
  ghost predicate ConsistentAt(s: State, t: Tid, id: Id)
    requires t in s.pcs
  {
    && MidwayOk(s, s.pcs[t])
    && (id in s.registry ==>
          && s.idOf(s.registry[id]) == id
          && (Queued(s, s.registry[id]) || (s.pcs[t].Dispatching() && s.pcs[t].r == s.registry[id])))
    && (forall x :: s.idOf(x) == id && Queued(s, x) ==> Registered(s, x) || (s.pcs[t].Removing() && s.pcs[t].r == x))
  }

  lemma ConsistentUnderMutex(s: State, s': State, t: Tid, id: Id)
    requires Consistent(s) && Mutexes(s) && Moves(s, s', t)
    requires t in s.pcs && IdHeld(s, s.pcs[t]) == Some(id)
    requires SameElsewhere(s, s', id) && ConsistentAt(s', t, id)
    ensures Consistent(s')
  {
    forall u | u in s'.pcs ensures MidwayOk(s', s'.pcs[u]) {
      if u != t {
        assert MidwayOk(s, s.pcs[u]);
        AloneOnId(s, t, u);
      }
    }
    forall k | k in s'.registry
      ensures s'.idOf(s'.registry[k]) == k && (Queued(s', s'.registry[k]) || Dispatched(s', s'.registry[k]))
    {
      if k != id { RegisteredElsewhere(s, s', t, id, k); }
    }
    forall x | Queued(s', x) ensures Registered(s', x) || Removed(s', x) {
      if s.idOf(x) != id { QueuedElsewhere(s, s', t, id, x); }
    }
  }

  lemma RegisteredElsewhere(s: State, s': State, t: Tid, id: Id, k: Id)
    requires Consistent(s) && Moves(s, s', t) && t in s.pcs && IdHeld(s, s.pcs[t]) == Some(id)
    requires SameElsewhere(s, s', id) && k != id && k in s.registry
    ensures s.idOf(s.registry[k]) == k && (Queued(s', s.registry[k]) || Dispatched(s', s.registry[k]))
  {
    var r := s.registry[k];
    if !Queued(s, r) {
      assert Dispatched(s, r);
      var u :| u in s.pcs && s.pcs[u].Dispatching() && s.pcs[u].r == r;
      assert u != t && u in s'.pcs && s'.pcs[u] == s.pcs[u];
    }
  }

  lemma QueuedElsewhere(s: State, s': State, t: Tid, id: Id, x: Routine)
    requires Consistent(s) && Moves(s, s', t) && t in s.pcs && IdHeld(s, s.pcs[t]) == Some(id)
    requires SameElsewhere(s, s', id) && s.idOf(x) != id && Queued(s, x)
    ensures Registered(s', x) || Removed(s', x)
  {
    if !Registered(s, x) {
      assert Removed(s, x);
      var u :| u in s.pcs && s.pcs[u].Removing() && s.pcs[u].r == x;
      assert u != t && u in s'.pcs && s'.pcs[u] == s.pcs[u];
    }
  }

  // A queued routine of an id that t works on, and that is not registered, is the one t removes.
  lemma QueuedUnderMutex(s: State, t: Tid, x: Routine)
    requires Consistent(s) && Mutexes(s) && t in s.pcs && IdHeld(s, s.pcs[t]) == Some(s.idOf(x)) && Queued(s, x)
    ensures Registered(s, x) || (s.pcs[t].Removing() && s.pcs[t].r == x)
  {
    if !Registered(s, x) {
      assert Removed(s, x);
      var u :| u in s.pcs && s.pcs[u].Removing() && s.pcs[u].r == x;
      if u != t { AloneOnId(s, t, u); }
    }
  }

  lemma FindIdFinds(idOf: Routine -> Id, members: seq<Routine>, r: Routine)
    requires r in members
    ensures FindId(idOf, members, idOf(r)).Some?
  {
  }

  /** The search in ClassicContext::RemoveCRoutine always finds the very routine that was registered. */
  lemma FindsTheRegistered(s: State, t: Tid)
    requires Places(s) && Consistent(s) && Mutexes(s) && t in s.pcs && s.pcs[t].RemoveFind?
    ensures var r := s.pcs[t].r;
      r in s.place &&
      var found := FindId(s.idOf, MembersOf(s, s.place[r]), s.idOf(r));
      found.Some? && MembersOf(s, s.place[r])[found.value] == r
  {
    var r := s.pcs[t].r;
    assert MidwayOk(s, s.pcs[t]);
    var q := s.place[r];
    FindIdFinds(s.idOf, MembersOf(s, q), r);
    var x := MembersOf(s, q)[FindId(s.idOf, MembersOf(s, q), s.idOf(r)).value];
    assert x in MembersOf(s, q) && Queued(s, x);
    QueuedUnderMutex(s, t, x);
  }

  lemma QuietProcessor(s: State, t: Tid, ready: bool)
    requires t in s.pcs && s.pcs[t].Processing()
    ensures LeavesQueues(s, ProcessorStep(s, t, s.pcs[t], ready), t)
  {
    match s.pcs[t]
    case Scan(_, _) =>
    case Iterate(_, _) =>
    case Judge(_, _, _) =>
    case LetGo(_, _, _) =>
    case Got(_) =>
    case Switching(_) =>
    case Inside(_) =>
    case Releasing(_) =>
  }

  lemma QuietFind(s: State, t: Tid)
    requires t in s.pcs && s.pcs[t].RemoveFind? && s.pcs[t].r in s.place
    requires var r := s.pcs[t].r;
      var found := FindId(s.idOf, MembersOf(s, s.place[r]), s.idOf(r));
      found.Some? && MembersOf(s, s.place[r])[found.value] == r
    ensures LeavesQueues(s, RemoveStep(s, t, s.pcs[t]), t)
  {
  }

  lemma QuietRemove(s: State, t: Tid)
    requires t in s.pcs
    requires s.pcs[t].RemoveLock? || s.pcs[t].RemoveSpin? || s.pcs[t].RemoveFree? || s.pcs[t].RemoveErase?
    requires s.pcs[t].RemoveErase? ==> s.pcs[t].id !in s.registry
    ensures LeavesQueues(s, RemoveStep(s, t, s.pcs[t]), t)
  {
  }

  // Registering a routine whose id is free.
  lemma InsertKeepsQueues(s: State, t: Tid)
    requires Places(s) && Consistent(s) && Mutexes(s) && t in s.pcs && s.pcs[t].DispatchInsert?
    requires s.idOf(s.pcs[t].r) !in s.registry
    ensures Places(DispatchStep(s, t, s.pcs[t])) && Consistent(DispatchStep(s, t, s.pcs[t]))
  {
    var s', id := DispatchStep(s, t, s.pcs[t]), s.idOf(s.pcs[t].r);
    forall x | s.idOf(x) == id && Queued(s, x) ensures false { QueuedUnderMutex(s, t, x); }
    forall x ensures Queued(s', x) <==> Queued(s, x) {}
    ConsistentUnderMutex(s, s', t, id);
  }

  lemma PlaceForInRange(s: State, r: Routine)
    ensures PlaceFor(s, r).prio < MAX_PRIO
  {
  }

  // Placing a routine that is in no queue yet.
  lemma PlaceKeepsPlaces(s: State, t: Tid)
    requires Places(s) && t in s.pcs && s.pcs[t].DispatchPlace? && !Queued(s, s.pcs[t].r)
    ensures Places(DispatchStep(s, t, s.pcs[t]))
    ensures forall x :: Queued(DispatchStep(s, t, s.pcs[t]), x) <==> Queued(s, x)
  {
    var s', r := DispatchStep(s, t, s.pcs[t]), s.pcs[t].r;
    PlaceForInRange(s, r);
    forall q | q in s.queues ensures r !in s.queues[q] {}
  }

  lemma PlaceKeepsQueues(s: State, t: Tid)
    requires Places(s) && Consistent(s) && Mutexes(s) && t in s.pcs && s.pcs[t].DispatchPlace?
    ensures Places(DispatchStep(s, t, s.pcs[t])) && Consistent(DispatchStep(s, t, s.pcs[t]))
  {
    var s', id := DispatchStep(s, t, s.pcs[t]), s.idOf(s.pcs[t].r);
    assert MidwayOk(s, s.pcs[t]);
    PlaceKeepsPlaces(s, t);
    forall x | s.idOf(x) == id && Queued(s, x) ensures Registered(s, x) { QueuedUnderMutex(s, t, x); }
    ConsistentUnderMutex(s, s', t, id);
  }

  lemma PushKeepsPlaces(s: State, t: Tid)
    requires Places(s) && t in s.pcs && s.pcs[t].DispatchPush? && s.pcs[t].r in s.place && !Queued(s, s.pcs[t].r)
    ensures Places(DispatchStep(s, t, s.pcs[t]))
    ensures forall x :: Queued(DispatchStep(s, t, s.pcs[t]), x) <==> x == s.pcs[t].r || Queued(s, x)
  {
    var s', r := DispatchStep(s, t, s.pcs[t]), s.pcs[t].r;
    var q := s.place[r];
    var members := MembersOf(s, q);
    assert s'.queues[q] == members + [r];
    assert r in s'.queues[q];
    forall x ensures x in s'.queues[q] <==> x == r || x in members {}
  }

  // Queueing the routine ends its dispatch.
  lemma PushKeepsQueues(s: State, t: Tid)
    requires Places(s) && Consistent(s) && Mutexes(s) && t in s.pcs && s.pcs[t].DispatchPush? && s.pcs[t].r in s.place
    ensures Places(DispatchStep(s, t, s.pcs[t])) && Consistent(DispatchStep(s, t, s.pcs[t]))
  {
    var s', id := DispatchStep(s, t, s.pcs[t]), s.idOf(s.pcs[t].r);
    assert MidwayOk(s, s.pcs[t]);
    PushKeepsPlaces(s, t);
    forall x | s.idOf(x) == id && Queued(s, x) ensures Registered(s, x) { QueuedUnderMutex(s, t, x); }
    ConsistentUnderMutex(s, s', t, id);
  }

  // Under the mutex of its id, outside a dispatch, a registered routine is queued, and no other of that id is.
  lemma OnlyRegisteredQueued(s: State, t: Tid, id: Id)
    requires Consistent(s) && Mutexes(s) && t in s.pcs && IdHeld(s, s.pcs[t]) == Some(id) && id in s.registry
    requires !s.pcs[t].Dispatching() && !s.pcs[t].Removing()
    ensures Queued(s, s.registry[id]) && s.idOf(s.registry[id]) == id
    ensures forall x :: s.idOf(x) == id && Queued(s, x) ==> x == s.registry[id]
  {
    var r := s.registry[id];
    forall u | u in s.pcs ensures !(s.pcs[u].Dispatching() && s.pcs[u].r == r) {
      if u != t { AloneOnId(s, t, u); }
    }
    assert !Dispatched(s, r);
    forall x | s.idOf(x) == id && Queued(s, x) ensures x == r { QueuedUnderMutex(s, t, x); }
  }

  // Erasing the registration begins the removal.
  lemma EraseKeepsQueues(s: State, t: Tid)
    requires Places(s) && Consistent(s) && Mutexes(s)
    requires t in s.pcs && s.pcs[t].RemoveErase? && s.pcs[t].id in s.registry
    ensures Places(RemoveStep(s, t, s.pcs[t])) && Consistent(RemoveStep(s, t, s.pcs[t]))
  {
    var s', id := RemoveStep(s, t, s.pcs[t]), s.pcs[t].id;
    OnlyRegisteredQueued(s, t, id);
    EraseFrame(s, t);
    assert ConsistentAt(s', t, id);
    ConsistentUnderMutex(s, s', t, id);
  }

  lemma EraseFrame(s: State, t: Tid)
    requires Places(s) && t in s.pcs && s.pcs[t].RemoveErase? && s.pcs[t].id in s.registry
    ensures var s', id := RemoveStep(s, t, s.pcs[t]), s.pcs[t].id;
      && Moves(s, s', t) && Places(s') && SameElsewhere(s, s', id)
      && s'.registry == s.registry - {id} && s'.queues == s.queues && s'.place == s.place
  {
    RemoveMoves(s, t);
  }

  lemma WithoutPosition(members: seq<Routine>, i: nat, x: Routine)
    requires i < |members| && forall j, k :: 0 <= j < k < |members| ==> members[j] != members[k]
    ensures x in members[..i] + members[i + 1..] <==> x in members && x != members[i]
  {
    var rest := members[..i] + members[i + 1..];
    if x in members && x != members[i] {
      var j :| 0 <= j < |members| && members[j] == x;
      assert rest[if j < i then j else j - 1] == x;
    }
  }

  lemma UnlinkKeepsPlaces(s: State, t: Tid)
    requires Places(s) && t in s.pcs && s.pcs[t].RemoveUnlink? && PositionOk(s, s.pcs[t])
    ensures Places(RemoveStep(s, t, s.pcs[t]))
    ensures forall x :: Queued(RemoveStep(s, t, s.pcs[t]), x) <==> x != s.pcs[t].r && Queued(s, x)
  {
    var s', q, i, r := RemoveStep(s, t, s.pcs[t]), s.pcs[t].q, s.pcs[t].i, s.pcs[t].r;
    var members := MembersOf(s, q);
    var rest := members[..i] + members[i + 1..];
    assert s'.queues[q] == rest;
    forall x ensures x in rest <==> x in members && x != r { WithoutPosition(members, i, x); }
    assert forall j :: 0 <= j < |rest| ==> rest[j] == if j < i then members[j] else members[j + 1];
  }

  // Taking the routine out of its queue ends the inconsistency of its removal.
  lemma UnlinkKeepsQueues(s: State, t: Tid)
    requires Places(s) && Consistent(s) && Mutexes(s) && t in s.pcs && s.pcs[t].RemoveUnlink? && PositionOk(s, s.pcs[t])
    ensures Places(RemoveStep(s, t, s.pcs[t])) && Consistent(RemoveStep(s, t, s.pcs[t]))
  {
    var s', r := RemoveStep(s, t, s.pcs[t]), s.pcs[t].r;
    assert MidwayOk(s, s.pcs[t]);
    UnlinkKeepsPlaces(s, t);
    forall x | s.idOf(x) == s.idOf(r) && Queued(s, x) ensures x == r { QueuedUnderMutex(s, t, x); }
    ConsistentUnderMutex(s, s', t, s.idOf(r));
  }

  lemma KeepsQueues(s: State, t: Tid, a: Action)
    requires Places(s) && Consistent(s) && Mutexes(s) && Positions(s) && Enabled(s, t, a)
    ensures Places(Step(s, t, a)) && Consistent(Step(s, t, a))
  {
    var s' := Step(s, t, a);
    if !a.Go? {
      LeavingQueuesKeepsThem(s, s', t);
    } else {
      var pc := s.pcs[t];
      assert PositionOk(s, pc);
      if pc.Processing() { QuietProcessor(s, t, a.ready); LeavingQueuesKeepsThem(s, s', t); }
      else if pc.Dispatches() { DispatchKeepsQueues(s, t); }
      else { RemoveKeepsQueues(s, t); }
    }
  }

  lemma DispatchKeepsQueues(s: State, t: Tid)
    requires Places(s) && Consistent(s) && Mutexes(s) && Enabled(s, t, Go(false)) && s.pcs[t].Dispatches()
    ensures Places(DispatchStep(s, t, s.pcs[t])) && Consistent(DispatchStep(s, t, s.pcs[t]))
  {
    var pc, s' := s.pcs[t], DispatchStep(s, t, s.pcs[t]);
    if pc.DispatchLock? || (pc.DispatchInsert? && s.idOf(pc.r) in s.registry) { LeavingQueuesKeepsThem(s, s', t); }
    else if pc.DispatchInsert? { InsertKeepsQueues(s, t); }
    else if pc.DispatchPlace? { PlaceKeepsQueues(s, t); }
    else if pc.DispatchPush? { PushKeepsQueues(s, t); }
    else { LeavingQueuesKeepsThem(s, s', t); }
  }

  lemma RemoveKeepsQueues(s: State, t: Tid)
    requires Places(s) && Consistent(s) && Mutexes(s) && Enabled(s, t, Go(false)) && s.pcs[t].Removes()
    requires PositionOk(s, s.pcs[t])
    ensures Places(RemoveStep(s, t, s.pcs[t])) && Consistent(RemoveStep(s, t, s.pcs[t]))
  {
    var pc, s' := s.pcs[t], RemoveStep(s, t, s.pcs[t]);
    if pc.RemoveErase? && pc.id in s.registry { EraseKeepsQueues(s, t); }
    else if pc.RemoveUnlink? { UnlinkKeepsQueues(s, t); }
    else if pc.RemoveFind? { FindsTheRegistered(s, t); QuietFind(s, t); LeavingQueuesKeepsThem(s, s', t); }
    else { QuietRemove(s, t); LeavingQueuesKeepsThem(s, s', t); }
  }

  // A queue changes only under its write lock, so nobody else's position in it moves.
  lemma KeepsPositions(s: State, t: Tid, a: Action)
    requires Positions(s) && QueueLocks(s) && Enabled(s, t, a)
    ensures Positions(Step(s, t, a))
  {
    var s' := Step(s, t, a);
    StepMoves(s, t, a);
    forall u | u in s'.pcs ensures PositionOk(s', s'.pcs[u]) {
      if u == t { OwnPosition(s, t, a); } else { OtherPosition(s, t, a, u); }
    }
  }

  lemma OwnPosition(s: State, t: Tid, a: Action)
    requires Enabled(s, t, a) && (t in s.pcs ==> PositionOk(s, s.pcs[t]))
    ensures t in Step(s, t, a).pcs && PositionOk(Step(s, t, a), Step(s, t, a).pcs[t])
  {
    if a.Go? && s.pcs[t].Processing() {
      ProcessorPosition(s, t, a.ready);
      PositionFrame(s, Step(s, t, a), Step(s, t, a).pcs[t]);
    }
    else if a.Go? && s.pcs[t].Removes() { RemovePosition(s, t); }
  }

  lemma ProcessorPosition(s: State, t: Tid, ready: bool)
    requires t in s.pcs && s.pcs[t].Processing() && PositionOk(s, s.pcs[t])
    ensures var s' := ProcessorStep(s, t, s.pcs[t], ready);
      t in s'.pcs && PositionOk(s, s'.pcs[t]) && s'.queues == s.queues && s'.place == s.place
  {
    var pc := s.pcs[t];
    match pc
    case Scan(g, level) =>
    case Iterate(q, i) =>
    case Judge(q, i, r) =>
    case LetGo(q, i, r) =>
    case Got(r) =>
    case Switching(r) =>
    case Inside(r) =>
    case Releasing(r) =>
  }

  lemma PositionFrame(s: State, s': State, pc: Pc)
    requires PositionOk(s, pc) && s'.queues == s.queues && s'.place == s.place
    ensures PositionOk(s', pc)
  {
  }

  lemma RemovePosition(s: State, t: Tid)
    requires t in s.pcs && s.pcs[t].Removes() && PositionOk(s, s.pcs[t])
    requires s.pcs[t].RemoveFind? ==> s.pcs[t].r in s.place
    ensures PositionOk(RemoveStep(s, t, s.pcs[t]), RemoveStep(s, t, s.pcs[t]).pcs[t])
  {
    match s.pcs[t]
    case RemoveLock(_) =>
    case RemoveErase(_) =>
    case RemoveFind(_) =>
    case RemoveSpin(_, _, _) =>
    case RemoveUnlink(_, _, _) =>
    case RemoveFree(_, _) =>
  }

  // The queue a step changes, if any, is one that no other thread has locked.
  lemma OthersQueueUntouched(s: State, t: Tid, a: Action, u: Tid, q: Queue)
    requires QueueLocks(s) && Enabled(s, t, a) && u in s.pcs && u != t && (s.pcs[u].Reads(q) || s.pcs[u].Writes(q))
    ensures MembersOf(Step(s, t, a), q) == MembersOf(s, q)
  {
    if a.Go? && s.pcs[t].DispatchPush? {
      assert MayWrite(s, s.place[s.pcs[t].r]);
    } else if a.Go? && s.pcs[t].RemoveUnlink? {
      assert s.pcs[t].Writes(s.pcs[t].q);
    } else {
      QueuesUnchanged(s, t, a);
    }
  }

  lemma QueuesUnchanged(s: State, t: Tid, a: Action)
    requires Enabled(s, t, a) && (a.Go? ==> !s.pcs[t].DispatchPush? && !s.pcs[t].RemoveUnlink?)
    ensures Step(s, t, a).queues == s.queues
  {
  }

  lemma PlacesGrow(s: State, t: Tid, a: Action)
    requires Enabled(s, t, a)
    ensures s.place.Keys <= Step(s, t, a).place.Keys
  {
  }

  lemma OtherPosition(s: State, t: Tid, a: Action, u: Tid)
    requires u in s.pcs && u != t && PositionOk(s, s.pcs[u]) && QueueLocks(s) && Enabled(s, t, a)
    ensures PositionOk(Step(s, t, a), s.pcs[u])
  {
    PlacesGrow(s, t, a);
    var pc := s.pcs[u];
    if pc.Iterate? || pc.Judge? || pc.LetGo? || pc.RemoveSpin? || pc.RemoveUnlink? {
      OthersQueueUntouched(s, t, a, u, pc.q);
    }
  }

  lemma StepKeepsInv(s: State, t: Tid, a: Action)
    requires Inv(s) && Enabled(s, t, a)
    ensures Inv(Step(s, t, a))
  {
    KeepsLocks(s, t, a);
    KeepsMutexes(s, t, a);
    KeepsQueueLocks(s, t, a);
    KeepsQueues(s, t, a);
    KeepsPositions(s, t, a);
    KeepsStops(s, t, a);
  }

  // ----- the theorems -----

  lemma Safety(run: seq<State>, i: nat)
    requires IsRun(Init, Next, run) && i < |run|
    ensures Inv(run[i])
  {
    forall s, s' | Inv(s) && Next(s, s') ensures Inv(s') {
      var t, a :| Enabled(s, t, a) && s' == Step(s, t, a);
      StepKeepsInv(s, t, a);
    }
    Always(Init, Next, Inv, run, i);
  }

  /** In every state of every run a routine is between Acquire and Release on at most one processor or remover. */
  lemma AtMostOneHolder(run: seq<State>, i: nat, t: Tid, u: Tid, r: Routine)
    requires IsRun(Init, Next, run) && i < |run|
    requires t in run[i].pcs && u in run[i].pcs && run[i].pcs[t].Holds(r) && run[i].pcs[u].Holds(r)
    ensures t == u && r in run[i].locked
  {
    Safety(run, i);
  }

  /**
   * Between operations on an id, its registry entry and the queues agree: a routine with that id is in a
   * queue exactly when it is the registered one, it is in one queue only, once, and below MAX_PRIO.
   */
  lemma RegistryMatchesQueues(run: seq<State>, i: nat, r: Routine)
    requires IsRun(Init, Next, run) && i < |run| && MutexFree(run[i], run[i].idOf(r))
    ensures var s := run[i];
      && (Registered(s, r) <==> exists q :: q in s.queues && r in s.queues[q])
      && (forall q :: q in s.queues && r in s.queues[q] ==> r in s.place && q == s.place[r] && q.prio < MAX_PRIO)
      && (forall q, j, k :: q in s.queues && 0 <= j < k < |s.queues[q]| ==> s.queues[q][j] != s.queues[q][k])
  {
    var s := run[i];
    Safety(run, i);
    forall t | t in s.pcs && (s.pcs[t].Dispatching() || s.pcs[t].Removing()) ensures s.pcs[t].r != r {
      assert IdHeld(s, s.pcs[t]) != Some(s.idOf(r));
    }
    assert !Dispatched(s, r) && !Removed(s, r);
    if Registered(s, r) {
      assert Queued(s, r);
      assert s.place[r] in s.queues && r in s.queues[s.place[r]];
    }
    if q :| q in s.queues && r in s.queues[q] {
      assert Queued(s, r);
    }
  }

  lemma {:induction false} RemovedStays(run: seq<State>, i: nat, j: nat)
    requires IsRun(Init, Next, run) && i <= j < |run|
    ensures run[i].removed <= run[j].removed && run[i].stopped <= run[j].stopped
  {
    if i < j {
      RemovedStays(run, i, j - 1);
      assert StepAt(Next, run, j - 1);
      var t, a :| Enabled(run[j - 1], t, a) && run[j] == Step(run[j - 1], t, a);
      StopsGrow(run[j - 1], t, a);
    }
  }

  lemma StopsGrow(s: State, t: Tid, a: Action)
    requires Enabled(s, t, a)
    ensures s.stopped <= Step(s, t, a).stopped && s.removed <= Step(s, t, a).removed
  {
    if a.Go? && s.pcs[t].Removes() { RemoveStopsGrow(s, t); }
  }

  lemma RemoveStopsGrow(s: State, t: Tid)
    requires t in s.pcs && s.pcs[t].Removes() && (s.pcs[t].RemoveFind? ==> s.pcs[t].r in s.place)
    requires s.pcs[t].RemoveUnlink? ==> s.pcs[t].i < |MembersOf(s, s.pcs[t].q)|
    ensures var s' := RemoveStep(s, t, s.pcs[t]); s.stopped <= s'.stopped && s.removed <= s'.removed
  {
  }

  /**
   * After RemoveCRoutine has returned true for a routine, no thread is inside that routine and none ever
   * switches to it again, in any continuation of the run, even if the same object is dispatched once more.
   */
  lemma NeverResumedAfterRemoval(run: seq<State>, i: nat, j: nat, r: Routine, t: Tid)
    requires IsRun(Init, Next, run) && i <= j < |run| && r in run[i].removed
    ensures t in run[j].pcs ==> !run[j].pcs[t].Executes(r)
  {
    RemovedStays(run, i, j);
    Safety(run, j);
  }

  /** RemoveCRoutine answers false exactly when the id was not registered at the moment it looked. */
  lemma RemovalFailsOnlyIfAbsent(s: State, t: Tid)
    requires Inv(s) && Enabled(s, t, Go(false)) && s.pcs[t].Removes()
    ensures Step(s, t, Go(false)).pcs[t] == RemoveDone(false) <==> s.pcs[t].RemoveErase? && s.pcs[t].id !in s.registry
  {
    if s.pcs[t].RemoveFind? { FindsTheRegistered(s, t); }
  }
}
