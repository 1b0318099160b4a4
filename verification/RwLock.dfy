/** The spinning reader-writer lock as a step machine: one atomic load, add or compare-and-swap of
    one thread per step. */
module RwLock {
  import opened Exclusion
  import opened Runs

  datatype Pc =
    | Idle
    | ReadLoad                  // about to load the counter
    | ReadTest(seen: int)       // holds a loaded counter
    | ReadAsk(seen: int)        // about to load the number of waiting writers
    | ReadSwap(seen: int)       // about to swap seen for seen + 1
    | Reading
    | WriteAnnounce             // about to count itself as waiting
    | WriteSwap                 // about to swap 0 for -1
    | WriteRetract              // has the lock, still counted as waiting
    | Writing

  datatype State = State(writeFirst: bool, lock: int, waiting: int, pc: map<Id, Pc>)

  function RoleOf(pc: Pc): Role {
    match pc
    case Reading => Reader
    case WriteRetract => Writer
    case Writing => Writer
    case _ => Outside
  }

  function Roles(pc: map<Id, Pc>): map<Id, Role> { map t | t in pc :: RoleOf(pc[t]) }

  predicate IsWaiting(pc: Pc) { pc.WriteSwap? || pc.WriteRetract? }

  function Waiting(pc: map<Id, Pc>): set<Id> { set t | t in pc && IsWaiting(pc[t]) }

  ghost predicate Init(s: State) {
    s.lock == 0 && s.waiting == 0 && forall t :: t in s.pc ==> s.pc[t] == Idle
  }

  function Goto(s: State, t: Id, pc: Pc): State { s.(pc := s.pc[t := pc]) }

  ghost predicate ReadStep(s: State, s': State, t: Id)
    requires t in s.pc
  {
    match s.pc[t]
    case Idle => s' == Goto(s, t, ReadLoad)
    case ReadLoad => s' == Goto(s, t, ReadTest(s.lock))
    case ReadTest(v) => s' == Goto(s, t, if v < 0 then ReadLoad else if s.writeFirst then ReadAsk(v) else ReadSwap(v))
    case ReadAsk(v) => s' == Goto(s, t, if s.waiting > 0 then ReadLoad else ReadSwap(v))
    case ReadSwap(v) =>
      // a weak swap may also fail without cause; failing loads the counter
      || (s.lock == v && s' == Goto(s.(lock := v + 1), t, Reading))
      || s' == Goto(s, t, ReadTest(s.lock))
    case Reading => s' == Goto(s.(lock := s.lock - 1), t, Idle)
    case _ => false
  }

  ghost predicate WriteStep(s: State, s': State, t: Id)
    requires t in s.pc
  {
    match s.pc[t]
    case Idle => s' == Goto(s, t, WriteAnnounce)
    case WriteAnnounce => s' == Goto(s.(waiting := s.waiting + 1), t, WriteSwap)
    case WriteSwap =>
      || (s.lock == 0 && s' == Goto(s.(lock := -1), t, WriteRetract))
      || s' == s
    case WriteRetract => s' == Goto(s.(waiting := s.waiting - 1), t, Writing)
    case Writing => s' == Goto(s.(lock := s.lock + 1), t, Idle)
    case _ => false
  }

  ghost predicate Step(s: State, s': State, t: Id) {
    t in s.pc && (ReadStep(s, s', t) || WriteStep(s, s', t))
  }

  ghost predicate Next(s: State, s': State) { exists t :: Step(s, s', t) }

  ghost predicate Inv(s: State) {
    && Counted(s.lock, Roles(s.pc))
    && s.waiting == |Waiting(s.pc)|
    && (forall t :: t in s.pc ==> Sensible(s.pc[t]))
    && forall t :: t in s.pc && s.pc[t].ReadAsk? ==> s.writeFirst
  }

  /** Whoever is about to enter as a reader saw a counter without a writer. */
  predicate Sensible(pc: Pc) {
    (pc.ReadAsk? || pc.ReadSwap?) ==> pc.seen >= 0
  }

  lemma RolesAfter(pc: map<Id, Pc>, t: Id, p: Pc)
    requires t in pc
    ensures Roles(pc[t := p]) == Roles(pc)[t := RoleOf(p)]
  {
  }

  lemma WaitingAfter(pc: map<Id, Pc>, t: Id, p: Pc)
    requires t in pc
    ensures |Waiting(pc[t := p])| ==
      |Waiting(pc)| + (if IsWaiting(p) then 1 else 0) - (if IsWaiting(pc[t]) then 1 else 0)
  {
    var rest := Waiting(pc) - {t};
    assert Waiting(pc[t := p]) == if IsWaiting(p) then rest + {t} else rest;
    assert Waiting(pc) == if IsWaiting(pc[t]) then rest + {t} else rest;
  }

  lemma InitInv(s: State)
    requires Init(s)
    ensures Inv(s)
  {
    assert Waiting(s.pc) == {};
    assert Holding(Roles(s.pc), Reader) == {} && Holding(Roles(s.pc), Writer) == {};
  }

  lemma ReadStepCounts(s: State, s': State, t: Id)
    requires t in s.pc && ReadStep(s, s', t) && Counted(s.lock, Roles(s.pc)) && Sensible(s.pc[t])
    ensures Counted(s'.lock, Roles(s'.pc))
  {
    RolesAfter(s.pc, t, s'.pc[t]);
    assert Roles(s.pc)[t] == RoleOf(s.pc[t]);
    if s'.pc[t] == Reading {
      ReaderEnters(s.lock, Roles(s.pc), t);
    } else if s.pc[t] == Reading {
      ReaderLeaves(s.lock, Roles(s.pc), t);
    } else {
      assert Roles(s.pc)[t := Outside] == Roles(s.pc);
    }
  }

  lemma WriteStepCounts(s: State, s': State, t: Id)
    requires t in s.pc && WriteStep(s, s', t) && Counted(s.lock, Roles(s.pc))
    ensures Counted(s'.lock, Roles(s'.pc))
  {
    RolesAfter(s.pc, t, s'.pc[t]);
    assert Roles(s.pc)[t] == RoleOf(s.pc[t]);
    if s.pc[t] == WriteSwap && s'.pc[t] == WriteRetract {
      WriterEnters(s.lock, Roles(s.pc), t);
    } else if s.pc[t] == Writing {
      WriterLeaves(s.lock, Roles(s.pc), t);
    } else {
      assert Roles(s'.pc) == Roles(s.pc);
    }
  }

  lemma StepInv(s: State, s': State, t: Id)
    requires Inv(s) && Step(s, s', t)
    ensures Inv(s')
  {
    WaitingAfter(s.pc, t, s'.pc[t]);
    assert s'.pc == s.pc[t := s'.pc[t]];
    if ReadStep(s, s', t) { ReadStepCounts(s, s', t); } else { WriteStepCounts(s, s', t); }
  }

  lemma Safety(run: seq<State>, i: nat)
    requires IsRun(Init, Next, run) && i < |run|
    ensures Inv(run[i])
  {
    forall s | Init(s) ensures Inv(s) { InitInv(s); }
    forall s, s' | Inv(s) && Next(s, s') ensures Inv(s') {
      var t :| Step(s, s', t);
      StepInv(s, s', t);
    }
    Always(Init, Next, Inv, run, i);
  }

  /** In every run: a writer inside is alone, and the counter is the number of readers otherwise. */
  lemma WritersExclude(run: seq<State>, i: nat, w: Id, t: Id)
    requires IsRun(Init, Next, run) && i < |run|
    requires w in run[i].pc && t in run[i].pc && w != t
    ensures RoleOf(run[i].pc[w]) == Writer ==> RoleOf(run[i].pc[t]) == Outside && run[i].lock == -1
    ensures RoleOf(run[i].pc[w]) == Reader ==>
              run[i].lock == |Holding(Roles(run[i].pc), Reader)| && Holding(Roles(run[i].pc), Writer) == {}
  {
    Safety(run, i);
    var roles := Roles(run[i].pc);
    if roles[w] == Writer {
      WriterIsAlone(run[i].lock, roles, w, t);
      assert w in Holding(roles, Writer);
    }
    if roles[w] == Reader { assert w in Holding(roles, Reader); }
  }

  // ---- writers go first ----

  /** Neither inside as a reader nor past the question whether a writer waits. */
  predicate NotPastAsking(pc: Pc) { !pc.ReadSwap? && !pc.Reading? }

  ghost predicate WaitsThrough(run: seq<State>, i: nat, j: nat, w: Id) {
    forall k :: i <= k <= j < |run| ==> w in run[k].pc && IsWaiting(run[k].pc[w])
  }

  lemma WaiterIsCounted(s: State, w: Id)
    requires Inv(s) && w in s.pc && IsWaiting(s.pc[w])
    ensures s.waiting > 0
  {
    assert w in Waiting(s.pc);
  }

  lemma AnotherStep(s: State, s': State, t: Id)
    requires Next(s, s') && t in s.pc
    ensures t in s'.pc && s'.writeFirst == s.writeFirst
    ensures s'.pc[t] == s.pc[t] || Step(s, s', t)
  {
    var u :| Step(s, s', u);
  }

  /** With write-first on, from the moment a writer has announced itself until it stops waiting, no
      thread that has not yet asked gets in as a reader. */
  lemma {:induction false} WritersGoFirst(run: seq<State>, i: nat, j: nat, w: Id, t: Id)
    requires IsRun(Init, Next, run) && i <= j < |run| && run[0].writeFirst
    requires WaitsThrough(run, i, j, w)
    requires t in run[i].pc && NotPastAsking(run[i].pc[t])
    ensures run[j].writeFirst && t in run[j].pc
    ensures NotPastAsking(run[j].pc[t])
    decreases j - i
  {
    SameMode(run, j);
    if i < j {
      assert WaitsThrough(run, i, j - 1, w);
      WritersGoFirst(run, i, j - 1, w, t);
      assert StepAt(Next, run, j - 1);
      AnotherStep(run[j - 1], run[j], t);
      Safety(run, j - 1);
      assert IsWaiting(run[j - 1].pc[w]);
      WaiterIsCounted(run[j - 1], w);
    }
  }

  lemma {:induction false} SameMode(run: seq<State>, i: nat)
    requires IsRun(Init, Next, run) && i < |run|
    ensures run[i].writeFirst == run[0].writeFirst
  {
    if i > 0 {
      SameMode(run, i - 1);
      assert StepAt(Next, run, i - 1);
      var t :| Step(run[i - 1], run[i], t);
    }
  }

  // ---- a thread that nobody disturbs gets in ----

  /** A step of a reader in which a swap does not fail without cause. */
  ghost predicate HonestRead(s: State, s': State, t: Id) {
    && t in s.pc && ReadStep(s, s', t)
    && (s.pc[t].ReadSwap? && s.pc[t].seen == s.lock ==> t in s'.pc && s'.pc[t].Reading?)
  }

  ghost predicate HonestWrite(s: State, s': State, t: Id) {
    && t in s.pc && WriteStep(s, s', t)
    && (s.pc[t].WriteSwap? && s.lock == 0 ==> t in s'.pc && s'.pc[t].WriteRetract?)
  }

  lemma HonestStepsExist(s: State, t: Id) returns (s': State)
    requires t in s.pc && RoleOf(s.pc[t]) == Outside
    ensures HonestRead(s, s', t) || HonestWrite(s, s', t)
  {
    match s.pc[t]
    case Idle => s' := Goto(s, t, ReadLoad);
    case ReadLoad => s' := Goto(s, t, ReadTest(s.lock));
    case ReadTest(v) => s' := Goto(s, t, if v < 0 then ReadLoad else if s.writeFirst then ReadAsk(v) else ReadSwap(v));
    case ReadAsk(v) => s' := Goto(s, t, if s.waiting > 0 then ReadLoad else ReadSwap(v));
    case ReadSwap(v) =>
      s' := if s.lock == v then Goto(s.(lock := v + 1), t, Reading) else Goto(s, t, ReadTest(s.lock));
    case WriteAnnounce => s' := Goto(s.(waiting := s.waiting + 1), t, WriteSwap);
    case WriteSwap => s' := if s.lock == 0 then Goto(s.(lock := -1), t, WriteRetract) else s;
  }

  predicate WantsToRead(pc: Pc) { pc.Idle? || pc.ReadLoad? || pc.ReadTest? || pc.ReadAsk? || pc.ReadSwap? }

  /** Readers may come in: no writer is inside and, in write-first mode, none waits. */
  ghost predicate OpenToReaders(s: State) {
    && (forall u :: u in s.pc ==> RoleOf(s.pc[u]) != Writer)
    && (s.writeFirst ==> forall u :: u in s.pc ==> !IsWaiting(s.pc[u]))
  }

  lemma OpenMeans(s: State)
    requires Inv(s)
    ensures OpenToReaders(s) <==> s.lock >= 0 && (s.writeFirst ==> s.waiting == 0)
  {
    var roles := Roles(s.pc);
    if OpenToReaders(s) {
      assert Holding(roles, Writer) == {};
      if s.writeFirst { assert Waiting(s.pc) == {}; }
    } else if exists u :: u in s.pc && RoleOf(s.pc[u]) == Writer {
      var u :| u in s.pc && RoleOf(s.pc[u]) == Writer;
      assert u in Holding(roles, Writer);
    } else {
      var u :| u in s.pc && IsWaiting(s.pc[u]);
      WaiterIsCounted(s, u);
    }
  }

  ghost predicate ReadsAlone(run: seq<State>, t: Id) {
    run != [] && forall k :: 0 <= k < |run| - 1 ==> HonestRead(run[k], run[k + 1], t)
  }

  /** How many steps a reader needs when nobody disturbs it; an outdated counter costs it one failed swap. */
  function StepsToRead(s: State, pc: Pc): nat {
    var test := if s.writeFirst then 3 else 2;
    match pc
    case Idle => test + 2
    case ReadLoad => test + 1
    case ReadTest(v) => if v == s.lock then test else if v < 0 then test + 2 else test + test
    case ReadAsk(v) => if v == s.lock then 2 else test + 2
    case ReadSwap(v) => if v == s.lock then 1 else test + 1
    case _ => 0
  }

  /** Readers share: whenever the lock is open to readers, however many are inside, a reader that nobody
      disturbs gets in within six steps. */
  lemma {:induction false} UndisturbedReaderEnters(run: seq<State>, t: Id)
    requires ReadsAlone(run, t) && Inv(run[0]) && OpenToReaders(run[0])
    requires t in run[0].pc && WantsToRead(run[0].pc[t])
    requires |run| > StepsToRead(run[0], run[0].pc[t])
    ensures StepsToRead(run[0], run[0].pc[t]) <= 6
    ensures run[StepsToRead(run[0], run[0].pc[t])] == Goto(run[0].(lock := run[0].lock + 1), t, Reading)
    decreases StepsToRead(run[0], run[0].pc[t])
  {
    var s, s1 := run[0], run[1];
    assert HonestRead(s, s1, t) && Sensible(s.pc[t]);
    OpenMeans(s);
    if !s1.pc[t].Reading? {
      OutsideStepKeeps(s, s1, t);
      assert ReadsAlone(run[1..], t) by {
        forall k | 0 <= k < |run[1..]| - 1 ensures HonestRead(run[1..][k], run[1..][k + 1], t) {
          assert HonestRead(run[k + 1], run[k + 2], t);
        }
      }
      UndisturbedReaderEnters(run[1..], t);
    }
  }

  lemma OutsideStepKeeps(s: State, s1: State, t: Id)
    requires Inv(s) && HonestRead(s, s1, t) && OpenToReaders(s) && !s.pc[t].Reading? && !s1.pc[t].Reading?
    ensures Inv(s1) && OpenToReaders(s1) && s1 == Goto(s, t, s1.pc[t])
    ensures WantsToRead(s1.pc[t]) && StepsToRead(s, s.pc[t]) == StepsToRead(s1, s1.pc[t]) + 1
  {
    StepInv(s, s1, t);
    OpenMeans(s);
    OpenMeans(s1);
    assert Sensible(s.pc[t]);
  }

  /** With nobody inside, a writer that nobody disturbs gets in by its next swap. */
  lemma UndisturbedWriterEnters(s: State, s': State, t: Id)
    requires Inv(s) && HonestWrite(s, s', t) && s.pc[t].WriteSwap?
    ensures RoleOf(s'.pc[t]) == Writer <==> forall u :: u in s.pc ==> RoleOf(s.pc[u]) == Outside
  {
    var roles := Roles(s.pc);
    if forall u :: u in s.pc ==> RoleOf(s.pc[u]) == Outside {
      assert Holding(roles, Reader) == {} && Holding(roles, Writer) == {};
    } else {
      var u :| u in s.pc && RoleOf(s.pc[u]) != Outside;
      assert u in Holding(roles, roles[u]);
    }
  }

  /** No step but a failed swap for the writer's place leaves a thread where it was; and a thread that leaves
      gives up exactly its own part of the counter. */
  lemma StepsAdvance(s: State, s': State, t: Id)
    requires Inv(s) && Step(s, s', t)
    ensures s'.pc[t] == s.pc[t] ==> s.pc[t].WriteSwap? && s' == s
    ensures RoleOf(s.pc[t]) == Reader ==> s' == Goto(s.(lock := s.lock - 1), t, Idle) && s.lock > 0
    ensures s.pc[t].Writing? ==> s' == Goto(s.(lock := 0), t, Idle)
    ensures s.pc[t].WriteRetract? ==> s' == Goto(s.(waiting := s.waiting - 1), t, Writing) && s.waiting > 0
  {
    assert Roles(s.pc)[t] == RoleOf(s.pc[t]);
    if RoleOf(s.pc[t]) == Reader { ReaderLeaves(s.lock, Roles(s.pc), t); }
    if RoleOf(s.pc[t]) == Writer { WriterLeaves(s.lock, Roles(s.pc), t); }
    if s.pc[t].WriteRetract? { WaiterIsCounted(s, t); }
  }
}
