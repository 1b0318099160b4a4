/** Where DispatchTask puts a routine, how queues keep their order, and that dispatches and removals end. */
module Placement {
  import opened Options
  import opened Runs
  import opened Scheduler

  // ----- the queue of a routine -----

  // The priority asked for: from the configuration, else the one the routine was created with.
  function Wanted(s: State, r: Routine): nat {
    match s.conf(r) case Some(q) => q.prio case None => s.created(r)
  }

  predicate IsItsPlace(s: State, r: Routine, q: Queue) {
    && q.group == (match s.conf(r) case Some(c) => c.group case None => s.defaultGroup)
    && q.prio == if Wanted(s, r) < 20 then Wanted(s, r) else 19
  }

  ghost predicate AllInPlace(s: State) {
    forall r :: r in s.place ==> IsItsPlace(s, r, s.place[r])
  }

  ghost predicate SameSettings(s: State, s': State) {
    s'.conf == s.conf && s'.created == s.created && s'.defaultGroup == s.defaultGroup
  }

  lemma DispatchPlaces(s: State, t: Tid)
    requires t in s.pcs && s.pcs[t].Dispatches() && (s.pcs[t].DispatchPush? ==> s.pcs[t].r in s.place)
    requires AllInPlace(s)
    ensures SameSettings(s, DispatchStep(s, t, s.pcs[t])) && AllInPlace(DispatchStep(s, t, s.pcs[t]))
  {
  }

  lemma RemoveKeepsPlaces(s: State, t: Tid)
    requires Enabled(s, t, Go(false)) && s.pcs[t].Removes()
    ensures var s' := RemoveStep(s, t, s.pcs[t]); SameSettings(s, s') && s'.place == s.place
  {
  }

  lemma ProcessorKeepsPlaces(s: State, t: Tid, ready: bool)
    requires t in s.pcs && s.pcs[t].Processing()
    ensures var s' := ProcessorStep(s, t, s.pcs[t], ready); SameSettings(s, s') && s'.place == s.place
  {
  }

  lemma StepPlaces(s: State, t: Tid, a: Action)
    requires Enabled(s, t, a) && AllInPlace(s)
    ensures SameSettings(s, Step(s, t, a)) && AllInPlace(Step(s, t, a))
  {
    if a.Go? {
      if s.pcs[t].Processing() { ProcessorKeepsPlaces(s, t, a.ready); }
      else if s.pcs[t].Dispatches() { DispatchPlaces(s, t); }
      else { RemoveKeepsPlaces(s, t); }
    }
  }

  lemma {:induction false} EverybodyInPlace(run: seq<State>, i: nat)
    requires IsRun(Init, Next, run) && i < |run|
    ensures SameSettings(run[0], run[i]) && AllInPlace(run[i])
  {
    if i > 0 {
      EverybodyInPlace(run, i - 1);
      assert StepAt(Next, run, i - 1);
      var t, a :| Enabled(run[i - 1], t, a) && run[i] == Step(run[i - 1], t, a);
      StepPlaces(run[i - 1], t, a);
    }
  }

  /**
   * In every run a routine is only ever in the queue of its configured group, or else of the default group,
   * at its configured priority, or else the one it was created with, lowered to 19 if it is higher.
   */
  lemma QueuedWhereConfigured(run: seq<State>, i: nat, r: Routine, q: Queue)
    requires IsRun(Init, Next, run) && i < |run| && r in MembersOf(run[i], q)
    ensures IsItsPlace(run[0], r, q)
  {
    EverybodyInPlace(run, i);
    Safety(run, i);
    assert q in run[i].queues && run[i].place[r] == q;
  }

  // ----- the order within a queue -----

  ghost predicate Before(members: seq<Routine>, a: Routine, b: Routine) {
    exists x, y :: 0 <= x < y < |members| && members[x] == a && members[y] == b
  }

  // A queue stays as it is, gets one routine at its end, or loses the routine at one position.
  ghost predicate QueueMoves(members: seq<Routine>, members': seq<Routine>) {
    || members' == members
    || (exists r :: members' == members + [r])
    || exists i :: 0 <= i < |members| && members' == members[..i] + members[i + 1..]
  }

  lemma StepMovesQueue(s: State, t: Tid, a: Action, q: Queue)
    requires Enabled(s, t, a)
    ensures QueueMoves(MembersOf(s, q), MembersOf(Step(s, t, a), q))
  {
    if a.Go? && s.pcs[t].DispatchPush? {
      if q == s.place[s.pcs[t].r] { assert MembersOf(Step(s, t, a), q) == MembersOf(s, q) + [s.pcs[t].r]; }
    } else if a.Go? && s.pcs[t].RemoveUnlink? {
      if q == s.pcs[t].q {
        assert MembersOf(Step(s, t, a), q) == MembersOf(s, q)[..s.pcs[t].i] + MembersOf(s, q)[s.pcs[t].i + 1..];
      }
    } else {
      QueuesUnchanged(s, t, a);
    }
  }

  lemma AppendKeepsOrder(members: seq<Routine>, r: Routine, a: Routine, b: Routine)
    requires Before(members, a, b)
    ensures Before(members + [r], a, b)
  {
    var x, y :| 0 <= x < y < |members| && members[x] == a && members[y] == b;
    assert (members + [r])[x] == a && (members + [r])[y] == b;
  }

  predicate NoRepeats(members: seq<Routine>) {
    forall x, y :: 0 <= x < y < |members| ==> members[x] != members[y]
  }

  // Where position x is after position i has been taken out.
  function Shifted(x: nat, i: nat): int { if x < i then x else x - 1 }

  lemma RemovalShifts(members: seq<Routine>, i: nat, x: nat)
    requires i < |members| && x < |members| && x != i
    ensures var less := members[..i] + members[i + 1..];
      0 <= Shifted(x, i) < |less| && less[Shifted(x, i)] == members[x]
  {
  }

  lemma RemovedIsGone(members: seq<Routine>, i: nat)
    requires i < |members| && NoRepeats(members)
    ensures members[i] !in members[..i] + members[i + 1..]
  {
  }

  lemma RemovalKeepsOrder(members: seq<Routine>, i: nat, a: Routine, b: Routine)
    requires i < |members| && NoRepeats(members) && Before(members, a, b)
    requires a in members[..i] + members[i + 1..] && b in members[..i] + members[i + 1..]
    ensures Before(members[..i] + members[i + 1..], a, b)
  {
    var x, y :| 0 <= x < y < |members| && members[x] == a && members[y] == b;
    RemovedIsGone(members, i);
    RemovalShifts(members, i, x);
    RemovalShifts(members, i, y);
    assert Shifted(x, i) < Shifted(y, i);
  }

  lemma MovesKeepOrder(members: seq<Routine>, members': seq<Routine>, a: Routine, b: Routine)
    requires QueueMoves(members, members') && Before(members, a, b) && a in members' && b in members'
    requires NoRepeats(members)
    ensures Before(members', a, b)
  {
    if r :| members' == members + [r] {
      AppendKeepsOrder(members, r, a, b);
    } else if members' != members {
      var i :| 0 <= i < |members| && members' == members[..i] + members[i + 1..];
      RemovalKeepsOrder(members, i, a, b);
    }
  }

  ghost predicate BothQueued(s: State, q: Queue, a: Routine, b: Routine) {
    a in MembersOf(s, q) && b in MembersOf(s, q)
  }

  lemma QueueStep(run: seq<State>, j: nat, q: Queue)
    requires IsRun(Init, Next, run) && j + 1 < |run|
    ensures QueueMoves(MembersOf(run[j], q), MembersOf(run[j + 1], q)) && NoRepeats(MembersOf(run[j], q))
  {
    Safety(run, j);
    assert StepAt(Next, run, j);
    var t, a :| Enabled(run[j], t, a) && run[j + 1] == Step(run[j], t, a);
    StepMovesQueue(run[j], t, a, q);
  }

  /** Of two routines that stay in a queue the one that came first stays first: queues are first come, first seen. */
  lemma {:induction false} OrderIsKept(run: seq<State>, i: nat, j: nat, q: Queue, a: Routine, b: Routine)
    requires IsRun(Init, Next, run) && i <= j < |run| && Before(MembersOf(run[i], q), a, b)
    requires forall k :: i <= k <= j ==> BothQueued(run[k], q, a, b)
    ensures Before(MembersOf(run[j], q), a, b)
    decreases j - i
  {
    if i < j {
      OrderIsKept(run, i, j - 1, q, a, b);
      QueueStep(run, j - 1, q);
      assert BothQueued(run[j], q, a, b);
      MovesKeepOrder(MembersOf(run[j - 1], q), MembersOf(run[j], q), a, b);
    }
  }

  // ----- dispatches and removals -----

  /**
   * DispatchTask answers false exactly when the id is registered at the moment it looks; when it answers
   * true the routine is registered and is the last one of its queue.
   */
  lemma DispatchAnswers(s: State, t: Tid)
    requires Inv(s) && Enabled(s, t, Go(false)) && s.pcs[t].Dispatches()
    ensures var s', r := Step(s, t, Go(false)), s.pcs[t].r;
      && (s'.pcs[t] == DispatchDone(false) <==> s.pcs[t].DispatchInsert? && s.idOf(r) in s.registry)
      && (s'.pcs[t] == DispatchDone(true) <==> s.pcs[t].DispatchPush?)
      && (s'.pcs[t] == DispatchDone(true) ==>
            Registered(s', r) && r in s'.place && MembersOf(s', s'.place[r]) == MembersOf(s, s'.place[r]) + [r])
  {
    assert MidwayOk(s, s.pcs[t]);
  }

  // How many steps a dispatch or a removal has left.
  function StepsLeft(pc: Pc): nat {
    match pc
    case DispatchLock(_) => 4
    case DispatchInsert(_) => 3
    case DispatchPlace(_) => 2
    case DispatchPush(_) => 1
    case RemoveLock(_) => 6
    case RemoveErase(_) => 5
    case RemoveFind(_) => 4
    case RemoveSpin(_, _, _) => 3
    case RemoveUnlink(_, _, _) => 2
    case RemoveFree(_, _) => 1
    case _ => 0
  }

  // From pc to pc' a dispatch or a removal gets nearer to its end, and ends when nothing is left.
  predicate Nearer(pc: Pc, pc': Pc) {
    StepsLeft(pc') < StepsLeft(pc) && (pc'.Idle() <==> StepsLeft(pc') == 0)
  }

  lemma DispatchAdvances(s: State, t: Tid)
    requires t in s.pcs && s.pcs[t].Dispatches() && (s.pcs[t].DispatchPush? ==> s.pcs[t].r in s.place)
    ensures t in DispatchStep(s, t, s.pcs[t]).pcs && Nearer(s.pcs[t], DispatchStep(s, t, s.pcs[t]).pcs[t])
  {
  }

  lemma RemoveAdvances(s: State, t: Tid)
    requires Enabled(s, t, Go(false)) && s.pcs[t].Removes()
    ensures var s' := RemoveStep(s, t, s.pcs[t]);
      if s.pcs[t].RemoveSpin? && s.pcs[t].r in s.locked then s' == s
      else t in s'.pcs && Nearer(s.pcs[t], s'.pcs[t])
  {
    match s.pcs[t]
    case RemoveLock(_) =>
    case RemoveErase(_) =>
    case RemoveFind(_) =>
    case RemoveSpin(_, _, _) =>
    case RemoveUnlink(_, _, _) =>
    case RemoveFree(_, _) =>
  }

  /**
   * Every step a thread takes in a dispatch or a removal brings it nearer to its end, except while a removal
   * waits for the routine to be released.
   */
  lemma CallsAdvance(s: State, t: Tid)
    requires Enabled(s, t, Go(false)) && (s.pcs[t].Dispatches() || s.pcs[t].Removes())
    ensures var s' := Step(s, t, Go(false));
      if s.pcs[t].RemoveSpin? && s.pcs[t].r in s.locked then s' == s
      else t in s'.pcs && Nearer(s.pcs[t], s'.pcs[t])
  {
    if s.pcs[t].Removes() { RemoveAdvances(s, t); } else { DispatchAdvances(s, t); }
  }
}
