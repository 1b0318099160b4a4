/** The try-lock of a shared-memory block, and the message it protects, as a step machine over the
    processes that share it. */
module BlockLock {
  import opened Exclusion
  import opened Runs

  const MAX_TRIES: nat := 5

  datatype Pc =
    | Idle
    | ReadLoad(tries: nat)             // about to load the counter
    | ReadSwap(seen: int, tries: nat)  // about to swap seen for seen + 1
    | Reading(got: int)                // inside; got is the message it found on entering
    | WriteSwap                        // about to swap 0 for -1
    | Writing

  datatype State = State(lock: int, message: int, pc: map<Id, Pc>)

  function RoleOf(pc: Pc): Role {
    match pc
    case Reading(_) => Reader
    case Writing => Writer
    case _ => Outside
  }

  function Roles(pc: map<Id, Pc>): map<Id, Role> { map t | t in pc :: RoleOf(pc[t]) }

  ghost predicate Init(s: State) {
    s.lock == 0 && forall t :: t in s.pc ==> s.pc[t] == Idle
  }

  function Goto(s: State, t: Id, pc: Pc): State { s.(pc := s.pc[t := pc]) }

  ghost predicate ReadStep(s: State, s': State, t: Id)
    requires t in s.pc
  {
    match s.pc[t]
    case Idle => s' == Goto(s, t, ReadLoad(0))
    case ReadLoad(n) => s' == Goto(s, t, if s.lock < 0 then Idle else ReadSwap(s.lock, n))
    case ReadSwap(v, n) =>
      // a weak swap may also fail without cause; the last failure gives up
      || (s.lock == v && s' == Goto(s.(lock := v + 1), t, Reading(s.message)))
      || s' == Goto(s, t, if n + 1 == MAX_TRIES then Idle else ReadLoad(n + 1))
    case Reading(_) => s' == Goto(s.(lock := s.lock - 1), t, Idle)
    case _ => false
  }

  ghost predicate WriteStep(s: State, s': State, t: Id)
    requires t in s.pc
  {
    match s.pc[t]
    case Idle => s' == Goto(s, t, WriteSwap)
    case WriteSwap =>
      || (s.lock == 0 && s' == Goto(s.(lock := -1), t, Writing))
      || s' == Goto(s, t, Idle)
    case Writing =>
      || s' == Goto(s.(lock := s.lock + 1), t, Idle)
      || exists m :: s' == s.(message := m)
    case _ => false
  }

  ghost predicate Step(s: State, s': State, t: Id) {
    t in s.pc && (ReadStep(s, s', t) || WriteStep(s, s', t))
  }

  ghost predicate Next(s: State, s': State) { exists t :: Step(s, s', t) }

  predicate Sensible(s: State, pc: Pc) {
    match pc
    case ReadLoad(n) => n < MAX_TRIES
    case ReadSwap(v, n) => v >= 0 && n < MAX_TRIES
    case Reading(got) => got == s.message
    case _ => true
  }

  ghost predicate Inv(s: State) {
    && Counted(s.lock, Roles(s.pc))
    && forall t :: t in s.pc ==> Sensible(s, s.pc[t])
  }

  lemma RolesAfter(pc: map<Id, Pc>, t: Id, p: Pc)
    requires t in pc
    ensures Roles(pc[t := p]) == Roles(pc)[t := RoleOf(p)]
  {
  }

  lemma InitInv(s: State)
    requires Init(s)
    ensures Inv(s)
  {
    assert Holding(Roles(s.pc), Reader) == {} && Holding(Roles(s.pc), Writer) == {};
  }

  lemma ReadStepCounts(s: State, s': State, t: Id)
    requires t in s.pc && ReadStep(s, s', t) && Counted(s.lock, Roles(s.pc)) && Sensible(s, s.pc[t])
    ensures Counted(s'.lock, Roles(s'.pc))
  {
    RolesAfter(s.pc, t, s'.pc[t]);
    assert Roles(s.pc)[t] == RoleOf(s.pc[t]);
    if s'.pc[t].Reading? {
      ReaderEnters(s.lock, Roles(s.pc), t);
    } else if s.pc[t].Reading? {
      ReaderLeaves(s.lock, Roles(s.pc), t);
    } else {
      assert Roles(s.pc)[t := Outside] == Roles(s.pc);
    }
  }

  lemma WriteStepCounts(s: State, s': State, t: Id)
    requires t in s.pc && WriteStep(s, s', t) && Counted(s.lock, Roles(s.pc))
    ensures Counted(s'.lock, Roles(s'.pc))
  {
    assert Roles(s.pc)[t] == RoleOf(s.pc[t]);
    if s.pc[t] == Writing {
      if s'.pc != s.pc {
        RolesAfter(s.pc, t, Idle);
        WriterLeaves(s.lock, Roles(s.pc), t);
      }
    } else {
      RolesAfter(s.pc, t, s'.pc[t]);
      if s'.pc[t] == Writing {
        WriterEnters(s.lock, Roles(s.pc), t);
      } else {
        assert Roles(s'.pc) == Roles(s.pc);
      }
    }
  }

  /** A message changes only while its writer is alone, so no reader's copy goes stale. */
  lemma MessageChangesAlone(s: State, s': State, t: Id, u: Id)
    requires Inv(s) && Step(s, s', t) && u in s.pc && u != t && s.pc[u].Reading?
    ensures s'.message == s.message
  {
    assert Roles(s.pc)[t] == RoleOf(s.pc[t]) && Roles(s.pc)[u] == Reader;
    if s.pc[t] == Writing { WriterIsAlone(s.lock, Roles(s.pc), t, u); }
  }

  lemma StepSensible(s: State, s': State, t: Id, u: Id)
    requires Inv(s) && Step(s, s', t) && u in s'.pc
    ensures u in s.pc && Sensible(s', s'.pc[u])
  {
    if u != t && s.pc[u].Reading? { MessageChangesAlone(s, s', t, u); }
  }

  lemma StepInv(s: State, s': State, t: Id)
    requires Inv(s) && Step(s, s', t)
    ensures Inv(s')
  {
    if ReadStep(s, s', t) { ReadStepCounts(s, s', t); } else { WriteStepCounts(s, s', t); }
    forall u | u in s'.pc ensures Sensible(s', s'.pc[u]) { StepSensible(s, s', t, u); }
  }

  lemma Safety(run: seq<State>, i: nat)
    requires IsRun(Init, Next, run) && i < |run|
    ensures Inv(run[i])
  {
    forall s | Init(s) ensures Inv(s) { InitInv(s); }
    forall s, s' | Inv(s) && Next(s, s') ensures Inv(s') {
      var t :| Step(s, s', t);
      StepInv(s, s', t);
    }
    Always(Init, Next, Inv, run, i);
  }

  /** In every run a writer is in the block alone, and what a reader found on entering is what is
      there as long as it stays. */
  lemma BlockIsProtected(run: seq<State>, i: nat, t: Id, u: Id)
    requires IsRun(Init, Next, run) && i < |run|
    requires t in run[i].pc && u in run[i].pc && t != u
    ensures run[i].pc[t] == Writing ==> RoleOf(run[i].pc[u]) == Outside && run[i].lock == -1
    ensures run[i].pc[t].Reading? ==> run[i].pc[t].got == run[i].message && run[i].pc[u] != Writing
    ensures run[i].lock >= 0 ==> run[i].lock == |Holding(Roles(run[i].pc), Reader)|
  {
    Safety(run, i);
    var roles := Roles(run[i].pc);
    assert roles[t] == RoleOf(run[i].pc[t]) && roles[u] == RoleOf(run[i].pc[u]);
    assert Sensible(run[i], run[i].pc[t]);
    if roles[t] == Writer {
      WriterIsAlone(run[i].lock, roles, t, u);
      assert t in Holding(roles, Writer);
    }
    if roles[u] == Writer { WriterIsAlone(run[i].lock, roles, u, t); }
  }

  // ---- every attempt ends ----

  predicate Trying(pc: Pc) { pc.ReadLoad? || pc.ReadSwap? || pc.WriteSwap? }

  /** How many more steps of its own an attempt can take. */
  function Effort(pc: Pc): int {
    match pc
    case ReadLoad(n) => 2 * (MAX_TRIES - n)
    case ReadSwap(_, n) => 2 * (MAX_TRIES - n) - 1
    case WriteSwap => 1
    case _ => 0
  }

  function Moves(run: seq<State>, t: Id, i: nat, j: nat): nat
    requires i <= j < |run|
    requires forall k :: i <= k <= j ==> t in run[k].pc
    decreases j - i
  {
    if i == j then 0
    else Moves(run, t, i, j - 1) + if run[j - 1].pc[t] != run[j].pc[t] then 1 else 0
  }

  /** While an attempt is still undecided, its own moves so far fit in what it had left: an attempt
      to read is decided within ten moves, an attempt to write by its first. */
  lemma {:induction false} AttemptsAreBounded(run: seq<State>, t: Id, i: nat, j: nat)
    requires IsRun(Init, Next, run) && i <= j < |run|
    requires forall k :: i <= k <= j ==> t in run[k].pc && Trying(run[k].pc[t])
    ensures Moves(run, t, i, j) + Effort(run[j].pc[t]) <= Effort(run[i].pc[t]) <= 2 * MAX_TRIES
    ensures Effort(run[j].pc[t]) >= 1
    decreases j - i
  {
    Safety(run, j);
    Safety(run, i);
    assert Sensible(run[j], run[j].pc[t]) && Sensible(run[i], run[i].pc[t]);
    if i < j {
      AttemptsAreBounded(run, t, i, j - 1);
      assert StepAt(Next, run, j - 1);
      TryingStep(run[j - 1], run[j], t);
    }
  }

  lemma TryingStep(s: State, s': State, t: Id)
    requires Next(s, s') && t in s.pc && t in s'.pc && Trying(s.pc[t]) && Trying(s'.pc[t])
    ensures s'.pc[t] == s.pc[t] || Effort(s'.pc[t]) < Effort(s.pc[t])
  {
    var u :| Step(s, s', u);
  }

  // ---- when an attempt to read is refused ----

  /** The step to moment i starts an attempt of thread t to read, and up to moment j it is in that attempt. */
  ghost predicate ReadAttempt(run: seq<State>, t: Id, i: nat, j: nat) {
    && 1 <= i <= j < |run| && (forall k :: i - 1 <= k <= j ==> t in run[k].pc)
    && run[i - 1].pc[t].Idle?
    && forall k :: i <= k <= j ==> run[k].pc[t].ReadLoad? || run[k].pc[t].ReadSwap?
  }

  predicate SwapFails(s: State, s': State, t: Id) {
    t in s.pc && s.pc[t].ReadSwap? && t in s'.pc && s'.pc[t] != s.pc[t] && !s'.pc[t].Reading?
  }

  /** How many swaps of thread t failed from moment i to moment j. */
  function FailedSwaps(run: seq<State>, t: Id, i: nat, j: nat): nat
    requires i <= j < |run|
    decreases j - i
  {
    if i == j then 0 else FailedSwaps(run, t, i, j - 1) + if SwapFails(run[j - 1], run[j], t) then 1 else 0
  }

  /** A thread that tries to read, or begins to, is moved by its own steps only. */
  lemma ReadingMoves(s: State, s': State, t: Id)
    requires Next(s, s') && t in s.pc && t in s'.pc
    requires !s'.pc[t].WriteSwap? && (s.pc[t].Idle? || s.pc[t].ReadLoad? || s.pc[t].ReadSwap?)
    ensures s'.pc[t] == s.pc[t] || ReadStep(s, s', t)
  {
    var u :| Step(s, s', u);
  }

  lemma {:induction false} TriesAreFailedSwaps(run: seq<State>, t: Id, i: nat, j: nat)
    requires IsRun(Init, Next, run) && ReadAttempt(run, t, i, j)
    ensures run[j].pc[t].tries == FailedSwaps(run, t, i, j)
    decreases j - i
  {
    assert StepAt(Next, run, j - 1);
    ReadingMoves(run[j - 1], run[j], t);
    if i < j { TriesAreFailedSwaps(run, t, i, j - 1); }
  }

  ghost predicate WriterInside(s: State) {
    exists u :: u in s.pc && s.pc[u] == Writing
  }

  lemma WriterShows(s: State)
    requires Inv(s)
    ensures WriterInside(s) <==> s.lock < 0
  {
    if s.lock < 0 {
      var u :| u in Holding(Roles(s.pc), Writer);
      assert s.pc[u] == Writing;
    }
    if WriterInside(s) {
      var u :| u in s.pc && s.pc[u] == Writing;
      assert u in Holding(Roles(s.pc), Writer);
    }
  }

  /** An attempt to read that ends outside saw a writer inside at its last load, or five swaps failed. */
  lemma RefusedReadHasReason(run: seq<State>, t: Id, i: nat, j: nat)
    requires IsRun(Init, Next, run) && ReadAttempt(run, t, i, j) && j + 1 < |run|
    requires t in run[j + 1].pc && run[j + 1].pc[t] == Idle
    ensures (run[j].pc[t].ReadLoad? && WriterInside(run[j])) || FailedSwaps(run, t, i, j + 1) == 5
  {
    Safety(run, j);
    WriterShows(run[j]);
    TriesAreFailedSwaps(run, t, i, j);
    assert StepAt(Next, run, j);
    ReadingMoves(run[j], run[j + 1], t);
  }

  // ---- an attempt that nobody disturbs ----

  /** A step of an attempt to read in which a swap does not fail without cause. */
  ghost predicate HonestRead(s: State, s': State, t: Id) {
    && t in s.pc && ReadStep(s, s', t)
    && (s.pc[t].ReadSwap? && s.pc[t].seen == s.lock ==> t in s'.pc && s'.pc[t].Reading?)
  }

  ghost predicate HonestWrite(s: State, s': State, t: Id) {
    && t in s.pc && WriteStep(s, s', t)
    && (s.pc[t].WriteSwap? && s.lock == 0 ==> t in s'.pc && s'.pc[t].Writing?)
  }

  lemma HonestStepsExist(s: State, t: Id) returns (s': State)
    requires t in s.pc && !s.pc[t].Reading? && !s.pc[t].Writing?
    ensures HonestRead(s, s', t) || HonestWrite(s, s', t)
  {
    match s.pc[t]
    case Idle => s' := Goto(s, t, ReadLoad(0));
    case ReadLoad(n) => s' := Goto(s, t, if s.lock < 0 then Idle else ReadSwap(s.lock, n));
    case ReadSwap(v, n) =>
      s' := if s.lock == v then Goto(s.(lock := v + 1), t, Reading(s.message))
            else Goto(s, t, if n + 1 == MAX_TRIES then Idle else ReadLoad(n + 1));
    case WriteSwap => s' := if s.lock == 0 then Goto(s.(lock := -1), t, Writing) else Goto(s, t, Idle);
  }

  ghost predicate ReadsAlone(run: seq<State>, t: Id) {
    run != [] && forall k :: 0 <= k < |run| - 1 ==> HonestRead(run[k], run[k + 1], t)
  }

  /** How many steps an attempt needs to get inside when nobody disturbs it. */
  function StepsToRead(lock: int, pc: Pc): nat {
    match pc
    case Idle => 3
    case ReadLoad(_) => 2
    case ReadSwap(v, _) => if v == lock then 1 else 3
    case _ => 0
  }

  /**
   * Readers share: in a state without a writer inside, however many readers there are, an attempt to read
   * that nobody disturbs gets inside within three steps and finds the message, unless its last swap is
   * for a counter that has changed.
   */
  lemma {:induction false} UndisturbedReadEnters(run: seq<State>, t: Id)
    requires ReadsAlone(run, t) && Inv(run[0]) && !WriterInside(run[0])
    requires t in run[0].pc && (run[0].pc[t].Idle? || run[0].pc[t].ReadLoad? || run[0].pc[t].ReadSwap?)
    requires run[0].pc[t].ReadSwap? && run[0].pc[t].seen != run[0].lock ==> run[0].pc[t].tries + 1 < MAX_TRIES
    requires |run| > StepsToRead(run[0].lock, run[0].pc[t])
    ensures var last := run[StepsToRead(run[0].lock, run[0].pc[t])];
      last == Goto(run[0].(lock := run[0].lock + 1), t, Reading(run[0].message))
    decreases StepsToRead(run[0].lock, run[0].pc[t])
  {
    var s, s1 := run[0], run[1];
    assert HonestRead(s, s1, t) && Sensible(s, s.pc[t]);
    WriterShows(s);
    if !s1.pc[t].Reading? {
      OutsideStepKeeps(s, s1, t);
      assert ReadsAlone(run[1..], t) by {
        forall k | 0 <= k < |run[1..]| - 1 ensures HonestRead(run[1..][k], run[1..][k + 1], t) {
          assert HonestRead(run[k + 1], run[k + 2], t);
        }
      }
      UndisturbedReadEnters(run[1..], t);
    }
  }

  lemma OutsideStepKeeps(s: State, s1: State, t: Id)
    requires Inv(s) && HonestRead(s, s1, t) && !WriterInside(s) && !s.pc[t].Reading? && !s1.pc[t].Reading?
    ensures Inv(s1) && !WriterInside(s1) && s1 == Goto(s, t, s1.pc[t])
  {
    StepInv(s, s1, t);
    WriterShows(s);
    WriterShows(s1);
  }

  /** With nobody inside, an attempt to write that nobody disturbs gets inside by its swap. */
  lemma UndisturbedWriteEnters(s: State, s': State, t: Id)
    requires Inv(s) && HonestWrite(s, s', t) && s.pc[t].WriteSwap?
    ensures s'.pc[t] == Writing <==> forall u :: u in s.pc ==> RoleOf(s.pc[u]) == Outside
  {
    var roles := Roles(s.pc);
    if forall u :: u in s.pc ==> RoleOf(s.pc[u]) == Outside {
      assert Holding(roles, Reader) == {} && Holding(roles, Writer) == {};
    } else {
      var u :| u in s.pc && RoleOf(s.pc[u]) != Outside;
      assert u in Holding(roles, roles[u]);
    }
  }

  /** A step leaves a thread where it was only while it writes the message; leaving gives up its own part of
      the counter. */
  lemma StepsAdvance(s: State, s': State, t: Id)
    requires Inv(s) && Step(s, s', t)
    ensures s'.pc[t] == s.pc[t] ==> s.pc[t].Writing? && s' == s.(message := s'.message)
    ensures s.pc[t].Reading? ==> s' == Goto(s.(lock := s.lock - 1), t, Idle) && s.lock > 0
    ensures s.pc[t].Writing? && s'.pc[t] != s.pc[t] ==> s' == Goto(s.(lock := 0), t, Idle)
  {
    assert Roles(s.pc)[t] == RoleOf(s.pc[t]) && Sensible(s, s.pc[t]);
    if s.pc[t].Reading? { ReaderLeaves(s.lock, Roles(s.pc), t); }
    if s.pc[t].Writing? { WriterLeaves(s.lock, Roles(s.pc), t); }
  }
}
