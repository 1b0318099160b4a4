/** What NextRoutine looks at: which routine a scan finds, and when it may find none. */
module Scanning {
  import opened Options
  import opened Runs
  import opened Scheduler

  predicate InScan(pc: Pc) { pc.Scan? || pc.Iterate? || pc.Judge? || pc.LetGo? }

  // The step to moment i begins a scan of the group, and up to moment j thread t is in that scan.
  ghost predicate ScanOf(run: seq<State>, t: Tid, i: nat, j: nat, group: nat) {
    && 1 <= i <= j < |run| && (forall k :: i <= k <= j ==> t in run[k].pcs && InScan(run[k].pcs[t]))
    && Enabled(run[i - 1], t, BeginScan(group)) && run[i] == Step(run[i - 1], t, BeginScan(group))
  }

  // At moment k thread t goes past the routine at position x of q: another thread holds it, or it is not ready.
  ghost predicate TurnedDown(run: seq<State>, t: Tid, k: nat, q: Queue, x: nat) {
    && k + 1 < |run| && t in run[k].pcs && t in run[k + 1].pcs && x < |MembersOf(run[k], q)|
    && var r := MembersOf(run[k], q)[x];
      || (run[k].pcs[t] == Iterate(q, x) && r in run[k].locked && run[k + 1].pcs[t] == Iterate(q, x + 1))
      || (run[k].pcs[t] == Judge(q, x, r) && run[k + 1].pcs[t] == LetGo(q, x, r))
  }

  // Between moments i and j position x of the queue, which has not changed since, was turned down.
  ghost predicate TurnedDownBetween(run: seq<State>, t: Tid, i: nat, j: nat, q: Queue, x: nat)
    requires i <= j < |run|
  {
    exists k :: i <= k < j && TurnedDown(run, t, k, q, x) && MembersOf(run[k], q) == MembersOf(run[j], q)
  }

  // The same of all positions before n.
  ghost predicate PassedTo(run: seq<State>, t: Tid, i: nat, j: nat, q: Queue, n: nat)
    requires i <= j < |run|
  {
    n <= |MembersOf(run[j], q)| && forall x: nat :: x < n ==> TurnedDownBetween(run, t, i, j, q, x)
  }

  // At some moment from i to j thread t had the queue locked for reading and had turned down all its members.
  ghost predicate Searched(run: seq<State>, t: Tid, i: nat, j: nat, q: Queue)
    requires i <= j < |run|
  {
    exists m :: i <= m <= j && SearchedAt(run, t, i, m, q)
  }

  ghost predicate SearchedAt(run: seq<State>, t: Tid, i: nat, m: nat, q: Queue)
    requires i <= m < |run|
  {
    t in run[m].pcs && run[m].pcs[t].Reads(q) && PassedTo(run, t, i, m, q, |MembersOf(run[m], q)|)
  }

  ghost predicate SearchedFrom(run: seq<State>, t: Tid, i: nat, j: nat, group: nat, level: nat)
    requires i <= j < |run|
  {
    forall p :: level <= p < MAX_PRIO ==> Searched(run, t, i, j, Queue(group, p))
  }

  predicate HasQueue(pc: Pc) { pc.Iterate? || pc.Judge? || pc.LetGo? }

  // The group being scanned, the lowest priority whose queue is done with, and how far the present queue is.
  function GroupOf(pc: Pc): nat
    requires InScan(pc)
  {
    if pc.Scan? then pc.group else pc.q.group
  }

  function LevelOf(pc: Pc): nat
    requires InScan(pc)
  {
    if pc.Scan? then pc.level else pc.q.prio + 1
  }

  function CountOf(pc: Pc): nat
    requires HasQueue(pc)
  {
    if pc.LetGo? then pc.i + 1 else pc.i
  }

  // Where a scan stands tells what it has turned down.
  ghost predicate SoFar(run: seq<State>, t: Tid, i: nat, j: nat, group: nat)
    requires i <= j < |run| && t in run[j].pcs
  {
    var pc := run[j].pcs[t];
    InScan(pc) ==>
      && GroupOf(pc) == group && SearchedFrom(run, t, i, j, group, LevelOf(pc))
      && (HasQueue(pc) ==> PassedTo(run, t, i, j, pc.q, CountOf(pc)))
  }

  predicate At(s: State, q: Queue, n: nat, r: Routine) {
    n < |MembersOf(s, q)| && MembersOf(s, q)[n] == r
  }

  // ----- the past does not change -----

  lemma SearchedStays(run: seq<State>, t: Tid, i: nat, j: nat, group: nat, level: nat)
    requires i <= j && j + 1 < |run| && SearchedFrom(run, t, i, j, group, level)
    ensures SearchedFrom(run, t, i, j + 1, group, level)
  {
    forall p | level <= p < MAX_PRIO ensures Searched(run, t, i, j + 1, Queue(group, p)) {
      assert Searched(run, t, i, j, Queue(group, p));
      var m :| i <= m <= j && SearchedAt(run, t, i, m, Queue(group, p));
    }
  }

  lemma TurnedDownStays(run: seq<State>, t: Tid, i: nat, j: nat, q: Queue, x: nat)
    requires i <= j && j + 1 < |run| && MembersOf(run[j + 1], q) == MembersOf(run[j], q)
    requires TurnedDownBetween(run, t, i, j, q, x)
    ensures TurnedDownBetween(run, t, i, j + 1, q, x)
  {
    var k :| i <= k < j && TurnedDown(run, t, k, q, x) && MembersOf(run[k], q) == MembersOf(run[j], q);
  }

  lemma PassedStays(run: seq<State>, t: Tid, i: nat, j: nat, q: Queue, n: nat)
    requires i <= j && j + 1 < |run| && MembersOf(run[j + 1], q) == MembersOf(run[j], q)
    requires PassedTo(run, t, i, j, q, n)
    ensures PassedTo(run, t, i, j + 1, q, n)
  {
    var next := j + 1;
    forall x: nat | x < n ensures TurnedDownBetween(run, t, i, next, q, x) {
      assert TurnedDownBetween(run, t, i, j, q, x);
      TurnedDownStays(run, t, i, j, q, x);
    }
  }

  lemma PassedOne(run: seq<State>, t: Tid, i: nat, j: nat, q: Queue, n: nat)
    requires i <= j && j + 1 < |run| && MembersOf(run[j + 1], q) == MembersOf(run[j], q)
    requires PassedTo(run, t, i, j, q, n) && TurnedDown(run, t, j, q, n)
    ensures PassedTo(run, t, i, j + 1, q, n + 1)
  {
    PassedStays(run, t, i, j, q, n);
    assert TurnedDownBetween(run, t, i, j + 1, q, n);
  }

  // The queue of priority `level` has been searched as well.
  lemma SearchedOne(run: seq<State>, t: Tid, i: nat, j: nat, group: nat, level: nat)
    requires i <= j < |run| && SearchedFrom(run, t, i, j, group, level + 1)
    requires SearchedAt(run, t, i, j, Queue(group, level))
    ensures SearchedFrom(run, t, i, j, group, level)
  {
    forall p | level <= p < MAX_PRIO ensures Searched(run, t, i, j, Queue(group, p)) {
      if p > level { assert Searched(run, t, i, j, Queue(group, p)); }
    }
  }

  // ----- one step -----

  // Where a scan may go on from pc.
  ghost predicate GoesOn(s: State, pc: Pc, pc': Pc) {
    match pc
    case Scan(g, level) => pc' == if level == 0 then ScanDone(false) else Iterate(Queue(g, level - 1), 0)
    case Iterate(q, n) =>
      if n >= |MembersOf(s, q)| then pc' == Scan(q.group, q.prio)
      else pc' == Judge(q, n, MembersOf(s, q)[n]) || (MembersOf(s, q)[n] in s.locked && pc' == Iterate(q, n + 1))
    case Judge(q, n, r) => pc' == Got(r) || pc' == LetGo(q, n, r)
    case LetGo(q, n, r) => pc' == Iterate(q, n + 1)
    case _ => false
  }

  lemma OwnScanStep(s: State, t: Tid, ready: bool)
    requires t in s.pcs && InScan(s.pcs[t])
    ensures var s' := ProcessorStep(s, t, s.pcs[t], ready);
      t in s'.pcs && GoesOn(s, s.pcs[t], s'.pcs[t]) && s'.queues == s.queues
  {
  }

  lemma ScanStep(s: State, s': State, t: Tid)
    requires Inv(s) && Next(s, s') && t in s.pcs && InScan(s.pcs[t])
    ensures t in s'.pcs && (s'.pcs[t] == s.pcs[t] || GoesOn(s, s.pcs[t], s'.pcs[t]))
    ensures HasQueue(s.pcs[t]) ==> MembersOf(s', s.pcs[t].q) == MembersOf(s, s.pcs[t].q)
  {
    var u, a :| Enabled(s, u, a) && s' == Step(s, u, a);
    StepMoves(s, u, a);
    if u == t {
      OwnScanStep(s, t, a.ready);
    } else if HasQueue(s.pcs[t]) {
      OthersQueueUntouched(s, u, a, t, s.pcs[t].q);
    }
  }

  lemma StepOf(run: seq<State>, j: nat, t: Tid)
    requires IsRun(Init, Next, run) && j + 1 < |run| && t in run[j].pcs && InScan(run[j].pcs[t])
    ensures PositionOk(run[j], run[j].pcs[t])
    ensures t in run[j + 1].pcs
    ensures run[j + 1].pcs[t] == run[j].pcs[t] || GoesOn(run[j], run[j].pcs[t], run[j + 1].pcs[t])
    ensures HasQueue(run[j].pcs[t]) ==> MembersOf(run[j + 1], run[j].pcs[t].q) == MembersOf(run[j], run[j].pcs[t].q)
  {
    Safety(run, j);
    assert StepAt(Next, run, j);
    ScanStep(run[j], run[j + 1], t);
  }

  lemma FromScan(run: seq<State>, t: Tid, i: nat, j: nat, group: nat)
    requires IsRun(Init, Next, run) && i <= j && j + 1 < |run| && t in run[j].pcs && run[j].pcs[t].Scan?
    requires SoFar(run, t, i, j, group)
    ensures t in run[j + 1].pcs && SoFar(run, t, i, j + 1, group)
  {
    StepOf(run, j, t);
    SearchedStays(run, t, i, j, group, run[j].pcs[t].level);
  }

  lemma FromQueue(run: seq<State>, t: Tid, i: nat, j: nat, group: nat)
    requires IsRun(Init, Next, run) && i <= j && j + 1 < |run| && t in run[j].pcs && HasQueue(run[j].pcs[t])
    requires SoFar(run, t, i, j, group)
    ensures t in run[j + 1].pcs && SoFar(run, t, i, j + 1, group)
  {
    StepOf(run, j, t);
    var pc, pc' := run[j].pcs[t], run[j + 1].pcs[t];
    SearchedStays(run, t, i, j, group, LevelOf(pc));
    if pc'.Scan? {
      assert SearchedAt(run, t, i, j, pc.q);
      SearchedOne(run, t, i, j, group, pc.q.prio);
      SearchedStays(run, t, i, j, group, pc.q.prio);
    } else if HasQueue(pc') {
      PassedFurther(run, t, i, j);
    }
  }

  lemma PassedFurther(run: seq<State>, t: Tid, i: nat, j: nat)
    requires IsRun(Init, Next, run) && i <= j && j + 1 < |run| && t in run[j].pcs && HasQueue(run[j].pcs[t])
    requires PassedTo(run, t, i, j, run[j].pcs[t].q, CountOf(run[j].pcs[t]))
    requires t in run[j + 1].pcs && HasQueue(run[j + 1].pcs[t])
    ensures run[j + 1].pcs[t].q == run[j].pcs[t].q
    ensures PassedTo(run, t, i, j + 1, run[j].pcs[t].q, CountOf(run[j + 1].pcs[t]))
  {
    StepOf(run, j, t);
    var pc, pc' := run[j].pcs[t], run[j + 1].pcs[t];
    if CountOf(pc') == CountOf(pc) {
      PassedStays(run, t, i, j, pc.q, CountOf(pc));
    } else {
      assert TurnedDown(run, t, j, pc.q, CountOf(pc));
      PassedOne(run, t, i, j, pc.q, CountOf(pc));
    }
  }

  lemma {:induction false} ScanSoFar(run: seq<State>, t: Tid, i: nat, j: nat, group: nat)
    requires IsRun(Init, Next, run) && ScanOf(run, t, i, j, group)
    ensures SoFar(run, t, i, j, group)
    decreases j - i
  {
    if i < j {
      assert ScanOf(run, t, i, j - 1, group);
      ScanSoFar(run, t, i, j - 1, group);
      if run[j - 1].pcs[t].Scan? { FromScan(run, t, i, j - 1, group); } else { FromQueue(run, t, i, j - 1, group); }
    }
  }

  // ----- the theorems -----

  /**
   * A scan that finds nothing has, since it began, visited the queue of every priority of its group under
   * the queue's lock and turned down each of its members, held by another thread or not ready when seen.
   */
  lemma NothingFoundMeansAllTurnedDown(run: seq<State>, t: Tid, i: nat, j: nat, group: nat, prio: nat)
    requires IsRun(Init, Next, run) && ScanOf(run, t, i, j, group) && j + 1 < |run| && prio < 20
    requires t in run[j + 1].pcs && run[j + 1].pcs[t] == ScanDone(false)
    ensures Searched(run, t, i, j, Queue(group, prio))
  {
    ScanSoFar(run, t, i, j, group);
    StepOf(run, j, t);
  }

  /**
   * A scan that finds a routine has turned down every member of the queues of higher priority, and every
   * routine that comes before it in its own queue.
   */
  lemma FoundIsFirstReady(run: seq<State>, t: Tid, i: nat, j: nat, group: nat, r: Routine) returns (prio: nat, n: nat)
    requires IsRun(Init, Next, run) && ScanOf(run, t, i, j, group) && j + 1 < |run|
    requires t in run[j + 1].pcs && run[j + 1].pcs[t] == Got(r)
    ensures prio < 20 && At(run[j], Queue(group, prio), n, r)
    ensures forall p :: prio < p < 20 ==> Searched(run, t, i, j, Queue(group, p))
    ensures PassedTo(run, t, i, j, Queue(group, prio), n)
  {
    ScanSoFar(run, t, i, j, group);
    StepOf(run, j, t);
    prio, n := run[j].pcs[t].q.prio, run[j].pcs[t].i;
  }

  // Through the scan r is in the queue, nobody else holds it when the scan comes to it, and it is found ready.
  ghost predicate StaysReady(run: seq<State>, t: Tid, i: nat, j: nat, q: Queue, r: Routine)
    requires i <= j + 1 <= |run|
  {
    forall k :: i <= k <= j ==> IsReady(run[k], t, q, r)
  }

  ghost predicate IsReady(s: State, t: Tid, q: Queue, r: Routine) {
    && r in MembersOf(s, q) && t in s.pcs
    && match s.pcs[t]
       case Iterate(k, x) => k == q && At(s, q, x, r) ==> r !in s.locked
       case LetGo(k, _, o) => !(k == q && o == r)
       case _ => true
  }

  lemma ReadyIsNotTurnedDown(run: seq<State>, t: Tid, k: nat, q: Queue, x: nat, r: Routine)
    requires k + 1 < |run| && IsReady(run[k], t, q, r) && IsReady(run[k + 1], t, q, r) && At(run[k], q, x, r)
    ensures !TurnedDown(run, t, k, q, x)
  {
  }

  /** So while some routine of the group stays free and ready, no scan of the group ends without a routine. */
  lemma ReadyRoutineIsNotMissed(run: seq<State>, t: Tid, i: nat, j: nat, group: nat, prio: nat, r: Routine)
    requires IsRun(Init, Next, run) && ScanOf(run, t, i, j, group) && j + 1 < |run| && prio < 20
    requires StaysReady(run, t, i, j, Queue(group, prio), r) && t in run[j + 1].pcs
    ensures run[j + 1].pcs[t] != ScanDone(false)
  {
    var q := Queue(group, prio);
    if run[j + 1].pcs[t] == ScanDone(false) {
      NothingFoundMeansAllTurnedDown(run, t, i, j, group, prio);
      var m :| i <= m <= j && SearchedAt(run, t, i, m, q);
      assert IsReady(run[m], t, q, r);
      var x :| 0 <= x < |MembersOf(run[m], q)| && MembersOf(run[m], q)[x] == r;
      assert TurnedDownBetween(run, t, i, m, q, x);
      var k :| i <= k < m && TurnedDown(run, t, k, q, x) && MembersOf(run[k], q) == MembersOf(run[m], q);
      ReadyIsNotTurnedDown(run, t, k, q, x, r);
    }
  }

  // ----- a scan comes to an end -----

  // What is left of a scan: it goes down the queues, and down the rest of each.
  function QueuesLeft(pc: Pc): nat
    requires InScan(pc)
  {
    if pc.Scan? then 2 * pc.level else 2 * pc.q.prio + 1
  }

  function MembersLeft(s: State, pc: Pc): int
    requires InScan(pc)
  {
    match pc
    case Scan(_, _) => 0
    case Iterate(q, n) => 3 * (|MembersOf(s, q)| - n) + 1
    case Judge(q, n, _) => 3 * (|MembersOf(s, q)| - n)
    case LetGo(q, n, _) => 3 * (|MembersOf(s, q)| - n) - 1
  }

  /**
   * Every step a thread takes in a scan leaves less of it, and nobody else's step leaves more: a scan never
   * looks at the same place twice, and it ends.
   */
  lemma ScanAdvances(run: seq<State>, t: Tid, j: nat)
    requires IsRun(Init, Next, run) && j + 1 < |run| && t in run[j].pcs && InScan(run[j].pcs[t])
    ensures t in run[j + 1].pcs && MembersLeft(run[j], run[j].pcs[t]) >= 0
    ensures var pc, pc' := run[j].pcs[t], run[j + 1].pcs[t];
      && (pc' == pc ==> MembersLeft(run[j + 1], pc') == MembersLeft(run[j], pc))
      && (pc' != pc && InScan(pc') ==>
            || QueuesLeft(pc') < QueuesLeft(pc)
            || (QueuesLeft(pc') == QueuesLeft(pc) && MembersLeft(run[j + 1], pc') < MembersLeft(run[j], pc)))
      && (!InScan(pc') ==> pc' == ScanDone(false) || pc'.Got?)
  {
    StepOf(run, j, t);
  }

  // ----- a scan that nobody disturbs -----

  // The routines a scan comes to from the given level down: by falling priority, and in queue order.
  function Candidates(s: State, group: nat, level: nat): seq<Routine> {
    if level == 0 then [] else MembersOf(s, Queue(group, level - 1)) + Candidates(s, group, level - 1)
  }

  // The first routine that nobody holds and that is ready.
  function FirstReady(held: set<Routine>, ready: Routine -> bool, rs: seq<Routine>): Option<Routine> {
    if rs == [] then None
    else if rs[0] !in held && ready(rs[0]) then Some(rs[0])
    else FirstReady(held, ready, rs[1..])
  }

  // The members of a queue from position n on.
  function Rest(s: State, q: Queue, n: nat): seq<Routine> {
    if n <= |MembersOf(s, q)| then MembersOf(s, q)[n..] else []
  }

  // What a scan still has before it, and which routines are held by others.
  function Upcoming(s: State, pc: Pc): seq<Routine>
    requires InScan(pc)
  {
    if pc.Scan? then Candidates(s, pc.group, pc.level)
    else Rest(s, pc.q, CountOf(pc)) + Candidates(s, pc.q.group, pc.q.prio)
  }

  function HeldByOthers(s: State, pc: Pc): set<Routine> {
    if pc.Judge? || pc.LetGo? then s.locked - {pc.r} else s.locked
  }

  // What the rest of a scan finds.
  function Outcome(s: State, pc: Pc, ready: Routine -> bool): Option<Routine>
    requires InScan(pc)
  {
    FirstReady(HeldByOthers(s, pc), ready, Upcoming(s, pc))
  }

  // One step of thread t's scan; `ready` is what UpdateState answers for each routine.
  ghost predicate OwnStep(s: State, s': State, t: Tid, ready: Routine -> bool) {
    t in s.pcs &&
    var answer := s.pcs[t].Judge? && ready(s.pcs[t].r);
    Enabled(s, t, Go(answer)) && s' == Step(s, t, Go(answer))
  }

  // In a scan of a group whose queues nobody is changing.
  ghost predicate Busy(s: State, t: Tid) {
    && t in s.pcs && InScan(s.pcs[t]) && PositionOk(s, s.pcs[t])
    && forall p :: 0 <= p < MAX_PRIO ==> MayRead(s, Queue(GroupOf(s.pcs[t]), p))
  }

  function Left(s: State, t: Tid): nat {
    if t !in s.pcs || !InScan(s.pcs[t]) then 0
    else
      var pc := s.pcs[t];
      3 * |Upcoming(s, pc)| + QueuesLeft(pc) + if pc.Judge? then 0 else if pc.LetGo? then 2 else 1
  }

  ghost predicate Ends(s: State, goal: State, t: Tid, ready: Routine -> bool) {
    && t in s.pcs && InScan(s.pcs[t]) && t in goal.pcs
    && goal.pcs[t] == match Outcome(s, s.pcs[t], ready) case Some(r) => Got(r) case None => ScanDone(false)
  }

  lemma {:induction false} SameCandidates(s: State, s': State, group: nat, level: nat)
    requires s'.queues == s.queues
    ensures Candidates(s', group, level) == Candidates(s, group, level)
    decreases level
  {
    if level > 0 { SameCandidates(s, s', group, level - 1); }
  }

  // The rest of a queue begins with the member at the position.
  lemma RestFirst(s: State, q: Queue, n: nat, more: seq<Routine>)
    requires n < |MembersOf(s, q)|
    ensures var rs := Rest(s, q, n) + more;
      rs != [] && rs[0] == MembersOf(s, q)[n] && rs[1..] == Rest(s, q, n + 1) + more
  {
    assert Rest(s, q, n) == [MembersOf(s, q)[n]] + Rest(s, q, n + 1);
  }

  // The step changes neither the queues nor, if the scan goes on, what it will find, and brings it nearer.
  ghost predicate StepsOn(s: State, s': State, t: Tid, ready: Routine -> bool)
    requires t in s.pcs && InScan(s.pcs[t])
  {
    && t in s'.pcs && s'.queues == s.queues && Left(s, t) > 0
    && if InScan(s'.pcs[t]) then
         && GroupOf(s'.pcs[t]) == GroupOf(s.pcs[t]) && PositionOk(s', s'.pcs[t])
         && Outcome(s', s'.pcs[t], ready) == Outcome(s, s.pcs[t], ready) && Left(s', t) < Left(s, t)
       else Ends(s, s', t, ready)
  }

  lemma ScanStepsOn(s: State, t: Tid, ready: Routine -> bool)
    requires t in s.pcs && s.pcs[t].Scan? && PositionOk(s, s.pcs[t])
    ensures StepsOn(s, ProcessorStep(s, t, s.pcs[t], false), t, ready)
  {
    var g, level := s.pcs[t].group, s.pcs[t].level;
    if level > 0 {
      var s' := ProcessorStep(s, t, s.pcs[t], false);
      SameCandidates(s, s', g, level - 1);
      assert Rest(s', Queue(g, level - 1), 0) == MembersOf(s, Queue(g, level - 1));
    }
  }

  lemma IterateStepsOn(s: State, t: Tid, ready: Routine -> bool)
    requires t in s.pcs && s.pcs[t].Iterate? && PositionOk(s, s.pcs[t])
    ensures StepsOn(s, ProcessorStep(s, t, s.pcs[t], false), t, ready)
  {
    var s', q, n := ProcessorStep(s, t, s.pcs[t], false), s.pcs[t].q, s.pcs[t].i;
    SameCandidates(s, s', q.group, q.prio);
    if n < |MembersOf(s, q)| {
      RestFirst(s, q, n, Candidates(s, q.group, q.prio));
      if MembersOf(s, q)[n] !in s.locked { assert s'.locked - {MembersOf(s, q)[n]} == s.locked; }
    } else {
      assert Upcoming(s, s.pcs[t]) == Candidates(s, q.group, q.prio);
    }
  }

  lemma JudgeStepsOn(s: State, t: Tid, ready: Routine -> bool)
    requires t in s.pcs && s.pcs[t].Judge? && PositionOk(s, s.pcs[t])
    ensures StepsOn(s, ProcessorStep(s, t, s.pcs[t], ready(s.pcs[t].r)), t, ready)
  {
    var s', q, n := ProcessorStep(s, t, s.pcs[t], ready(s.pcs[t].r)), s.pcs[t].q, s.pcs[t].i;
    SameCandidates(s, s', q.group, q.prio);
    RestFirst(s, q, n, Candidates(s, q.group, q.prio));
  }

  lemma LetGoStepsOn(s: State, t: Tid, ready: Routine -> bool)
    requires t in s.pcs && s.pcs[t].LetGo? && PositionOk(s, s.pcs[t])
    ensures StepsOn(s, ProcessorStep(s, t, s.pcs[t], false), t, ready)
  {
    var s', q := ProcessorStep(s, t, s.pcs[t], false), s.pcs[t].q;
    SameCandidates(s, s', q.group, q.prio);
  }

  lemma OwnStepGoesOn(s: State, t: Tid, ready: Routine -> bool) returns (s': State)
    requires Busy(s, t)
    ensures OwnStep(s, s', t, ready) && StepsOn(s, s', t, ready)
    ensures InScan(s'.pcs[t]) ==> Busy(s', t)
  {
    var answer := s.pcs[t].Judge? && ready(s.pcs[t].r);
    MayGoOn(s, t, answer);
    s' := Step(s, t, Go(answer));
    match s.pcs[t] {
      case Scan(_, _) => ScanStepsOn(s, t, ready);
      case Iterate(_, _) => IterateStepsOn(s, t, ready);
      case Judge(_, _, _) => JudgeStepsOn(s, t, ready);
      case LetGo(_, _, _) => LetGoStepsOn(s, t, ready);
    }
    StepMoves(s, t, Go(answer));
    StaysBusy(s, s', t, ready);
  }

  lemma MayGoOn(s: State, t: Tid, answer: bool)
    requires Busy(s, t)
    ensures Enabled(s, t, Go(answer))
  {
    if s.pcs[t].Scan? && s.pcs[t].level > 0 { assert MayRead(s, Queue(GroupOf(s.pcs[t]), s.pcs[t].level - 1)); }
  }

  lemma StaysBusy(s: State, s': State, t: Tid, ready: Routine -> bool)
    requires Busy(s, t) && StepsOn(s, s', t, ready) && Moves(s, s', t)
    ensures InScan(s'.pcs[t]) ==> Busy(s', t)
  {
    if InScan(s'.pcs[t]) {
      forall p | 0 <= p < MAX_PRIO ensures MayRead(s', Queue(GroupOf(s'.pcs[t]), p)) {
        assert MayRead(s, Queue(GroupOf(s.pcs[t]), p));
      }
    }
  }

  lemma ScanGetsOn(s: State, t: Tid, ready: Routine -> bool)
    requires Busy(s, t)
    ensures GetsOn((x, y) => OwnStep(x, y, t, ready), x => Busy(x, t), x => Left(x, t),
                   (x, y) => Ends(x, y, t, ready), s)
  {
    var s1 := OwnStepGoesOn(s, t, ready);
    GetsOnBy((x, y) => OwnStep(x, y, t, ready), x => Busy(x, t), x => Left(x, t),
             (x, y) => Ends(x, y, t, ready), s, s1);
  }

  /**
   * A scan that nobody disturbs comes to an end and finds exactly the first routine, by falling priority and
   * in queue order, that nobody holds and that is ready; it finds none exactly if there is none.
   */
  lemma ScanAlone(s: State, t: Tid, group: nat, ready: Routine -> bool) returns (n: nat, goal: State)
    requires (t in s.pcs ==> s.pcs[t].Idle()) && forall p :: 0 <= p < 20 ==> MayRead(s, Queue(group, p))
    ensures Reaches((x, y) => OwnStep(x, y, t, ready), Step(s, t, BeginScan(group)), n, goal) && t in goal.pcs
    ensures goal.pcs[t] == match FirstReady(s.locked, ready, Candidates(s, group, 20))
                           case Some(r) => Got(r)
                           case None => ScanDone(false)
  {
    var s0 := Step(s, t, BeginScan(group));
    SameCandidates(s, s0, group, 20);
    forall x | Busy(x, t)
      ensures GetsOn((x, y) => OwnStep(x, y, t, ready), x => Busy(x, t), x => Left(x, t),
                     (x, y) => Ends(x, y, t, ready), x)
    {
      ScanGetsOn(x, t, ready);
    }
    n, goal := Arrives((x, y) => OwnStep(x, y, t, ready), x => Busy(x, t), x => Left(x, t),
                       (x, y) => Ends(x, y, t, ready), s0);
  }

  /** That is what FirstReady says: everything before the routine it names is held or not ready. */
  lemma {:induction false} FirstReadyMeans(held: set<Routine>, ready: Routine -> bool, rs: seq<Routine>)
    ensures FirstReady(held, ready, rs).None? <==> forall i :: 0 <= i < |rs| ==> rs[i] in held || !ready(rs[i])
    ensures FirstReady(held, ready, rs).Some? ==>
              exists i :: 0 <= i < |rs| && FirstReady(held, ready, rs) == Some(rs[i]) && rs[i] !in held && ready(rs[i])
                          && forall j :: 0 <= j < i ==> rs[j] in held || !ready(rs[j])
    decreases |rs|
  {
    if rs != [] && !(rs[0] !in held && ready(rs[0])) {
      FirstReadyMeans(held, ready, rs[1..]);
      if FirstReady(held, ready, rs[1..]).Some? {
        var i :| 0 <= i < |rs[1..]| && FirstReady(held, ready, rs[1..]) == Some(rs[1..][i]) && rs[1..][i] !in held
                 && ready(rs[1..][i]) && forall j :: 0 <= j < i ==> rs[1..][j] in held || !ready(rs[1..][j]);
        forall j | 0 <= j < i + 1 ensures rs[j] in held || !ready(rs[j]) {
          if j > 0 { assert rs[1..][j - 1] == rs[j]; }
        }
        assert rs[i + 1] == rs[1..][i];
      } else {
        forall i | 0 <= i < |rs| ensures rs[i] in held || !ready(rs[i]) {
          if i > 0 { assert rs[1..][i - 1] == rs[i]; }
        }
      }
    }
  }

  // ----- what was found is resumed -----

  predicate Serves(pc: Pc, r: Routine) { pc == Got(r) || pc == Switching(r) || pc == Inside(r) || pc == Releasing(r) }

  // From moment i, when NextRoutine has returned r, up to moment j thread t is busy with r.
  ghost predicate ServesFrom(run: seq<State>, t: Tid, i: nat, j: nat, r: Routine) {
    && i <= j < |run| && t in run[i].pcs && run[i].pcs[t] == Got(r)
    && forall k :: i <= k <= j ==> t in run[k].pcs && Serves(run[k].pcs[t], r)
  }

  ghost predicate EnteredOrStopped(run: seq<State>, t: Tid, i: nat, j: nat, r: Routine)
    requires i <= j < |run|
  {
    exists k :: i <= k <= j && t in run[k].pcs && (run[k].pcs[t] == Inside(r) || r in run[k].stopped)
  }

  lemma ServingStep(s: State, s': State, t: Tid, r: Routine)
    requires Next(s, s') && t in s.pcs && Serves(s.pcs[t], r)
    ensures t in s'.pcs
    ensures s'.pcs[t] == s.pcs[t] ||
      match s.pcs[t]
      case Got(_) => s'.pcs[t] == if r in s.stopped then Releasing(r) else Switching(r)
      case Switching(_) => s'.pcs[t] == Inside(r)
      case Inside(_) => s'.pcs[t] == Releasing(r)
      case _ => s'.pcs[t] == ScanDone(true) && r !in s'.locked
  {
    var u, a :| Enabled(s, u, a) && s' == Step(s, u, a);
    StepMoves(s, u, a);
    if u == t { OwnServingStep(s, t, r, a.ready); }
  }

  lemma OwnServingStep(s: State, t: Tid, r: Routine, ready: bool)
    requires t in s.pcs && Serves(s.pcs[t], r)
    ensures var s' := ProcessorStep(s, t, s.pcs[t], ready);
      t in s'.pcs &&
      match s.pcs[t]
      case Got(_) => s'.pcs[t] == if r in s.stopped then Releasing(r) else Switching(r)
      case Switching(_) => s'.pcs[t] == Inside(r)
      case Inside(_) => s'.pcs[t] == Releasing(r)
      case _ => s'.pcs[t] == ScanDone(true) && r !in s'.locked
  {
  }

  lemma {:induction false} ReleasingAfterwards(run: seq<State>, t: Tid, i: nat, j: nat, r: Routine)
    requires IsRun(Init, Next, run) && ServesFrom(run, t, i, j, r) && run[j].pcs[t] == Releasing(r)
    ensures EnteredOrStopped(run, t, i, j, r)
    decreases j - i
  {
    assert ServesFrom(run, t, i, j - 1, r);
    assert StepAt(Next, run, j - 1);
    ServingStep(run[j - 1], run[j], t, r);
    if run[j - 1].pcs[t] == Releasing(r) {
      ReleasingAfterwards(run, t, i, j - 1, r);
      var k :| i <= k <= j - 1 && t in run[k].pcs && (run[k].pcs[t] == Inside(r) || r in run[k].stopped);
    }
  }

  /**
   * A processor that has been given a routine enters it before it gives it back, unless the routine has been
   * stopped; then the scan is over and the routine's lock is free.
   */
  lemma FoundIsResumed(run: seq<State>, t: Tid, i: nat, j: nat, r: Routine)
    requires IsRun(Init, Next, run) && ServesFrom(run, t, i, j, r) && j + 1 < |run|
    requires t in run[j + 1].pcs && !Serves(run[j + 1].pcs[t], r)
    ensures run[j + 1].pcs[t] == ScanDone(true) && r !in run[j + 1].locked
    ensures EnteredOrStopped(run, t, i, j, r)
  {
    assert StepAt(Next, run, j);
    ServingStep(run[j], run[j + 1], t, r);
    ReleasingAfterwards(run, t, i, j, r);
  }
}
