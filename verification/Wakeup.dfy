/**
 * The publish - notify - wake handshake between publishers, processors and one routine.
 *
 * A publisher fills the routine's buffer and then tells the scheduler, which looks at the routine's
 * state and perhaps clears its update flag.  A processor acquires the routine, runs UpdateState and, if
 * the routine became ready, resumes it.  The routine marks itself as waiting before it tries to fetch.
 * Every access to the state, the flag, the lock or the buffer is one step of one thread.
 */
module Wakeup {
  import opened Options
  import opened Ring
  import opened Runs

  type Tid = nat
  type Msg = int

  datatype RoutineState = READY | FINISHED | SLEEP | IO_WAIT | DATA_WAIT

  // Where the routine continues when it is switched to.
  datatype RoutinePc = Mark | Fetch | Callback(m: Msg) | YieldReady | YieldEmpty

  // A processor inside NextRoutine, Resume and Release.
  datatype ProcessorPc = Scan | SleepCheck | TestFlag | FlagTaken | ReadState | Resume | Running | Release

  // A publisher between filling the buffer and returning from NotifyProcessor.
  datatype PublisherPc = Away | Notify | ReadDataWait | ReadIoWait | ClearFlag

  // `updated` is true when the atomic flag is set, that is, when there is nothing to update for.
  // `missed` records that a publisher found no notify callback, and that since then neither has the routine
  // seen an empty buffer nor has a publisher cleared the flag.
  datatype State = State(
    size: nat, history: seq<Msg>, cursor: nat,
    state: RoutineState, updated: bool, lock: Option<Tid>, pc: RoutinePc,
    processors: map<Tid, ProcessorPc>, publishers: map<Tid, PublisherPc>,
    registered: bool, missed: bool)

  // `expired`: the clock has passed the wake time.  `block`: the state in which the callback yields, if it does.
  datatype Action =
    | Processor(p: Tid, expired: bool, block: Option<RoutineState>)
    | Publisher(b: Tid, m: Msg)
    | Register

  predicate Init(s: State) {
    && s.history == [] && s.cursor == 0
    && s.state == READY && s.updated && s.lock == None && s.pc == Mark
    && (forall p :: p in s.processors ==> s.processors[p] == Scan)
    && (forall b :: b in s.publishers ==> s.publishers[b] == Away)
    && !s.registered && !s.missed
  }

  predicate Enabled(s: State, a: Action) {
    && s.cursor <= |s.history| + 1
    && match a
       case Processor(p, _, block) => p in s.processors && block != Some(FINISHED)
       case Publisher(b, _) => b in s.publishers
       case Register => !s.registered
  }

  function At(s: State, p: Tid, pc: ProcessorPc): State {
    s.(processors := s.processors[p := pc])
  }

  function Back(s: State, b: Tid, pc: PublisherPc): State {
    s.(publishers := s.publishers[b := pc])
  }

  function RunRoutine(s: State, p: Tid, block: Option<RoutineState>): State
    requires s.cursor <= |s.history| + 1
  {
    match s.pc
    case Mark => s.(state := DATA_WAIT, pc := Fetch)
    case Fetch =>
      (match FetchFrom(s.size, s.history, s.cursor)
       case Nothing => s.(pc := YieldEmpty, missed := false)
       case Message(i, m) => s.(pc := Callback(m), cursor := i + 1))
    case Callback(_) => if block.Some? then At(s, p, Release).(state := block.value) else s.(pc := YieldReady)
    case YieldReady => At(s, p, Release).(state := READY, pc := Mark)
    case YieldEmpty => At(s, p, Release).(pc := Mark)
  }

  // NextRoutine around a routine, and the switch to it.
  function HandleRoutine(s: State, p: Tid, expired: bool): State
    requires p in s.processors && s.processors[p] != Running
  {
    match s.processors[p]
    case Scan => if s.lock == None then At(s, p, SleepCheck).(lock := Some(p)) else s
    case SleepCheck =>
      if s.state == SLEEP && expired then At(s, p, ReadState).(state := READY) else At(s, p, TestFlag)
    case TestFlag => if s.updated then At(s, p, ReadState) else At(s, p, FlagTaken).(updated := true)
    case FlagTaken =>
      if s.state == DATA_WAIT || s.state == IO_WAIT then At(s, p, ReadState).(state := READY) else At(s, p, ReadState)
    case ReadState => At(s, p, if s.state == READY then Resume else Release)
    case Resume => At(s, p, if s.state == READY then Running else Release)
    case Release => At(s, p, Scan).(lock := None)
  }

  // Dispatch fills the buffer; the notify callback, if there is one, runs NotifyProcessor.
  function Publish(s: State, b: Tid, m: Msg): State
    requires b in s.publishers
  {
    match s.publishers[b]
    case Away => Back(s, b, Notify).(history := s.history + [m])
    case Notify => if s.registered then Back(s, b, ReadDataWait) else Back(s, b, Away).(missed := true)
    case ReadDataWait => Back(s, b, if s.state == DATA_WAIT then ClearFlag else ReadIoWait)
    case ReadIoWait => Back(s, b, if s.state == IO_WAIT then ClearFlag else Away)
    case ClearFlag => Back(s, b, Away).(updated := false, missed := false)
  }

  function Step(s: State, a: Action): State
    requires Enabled(s, a)
  {
    match a
    case Register => s.(registered := true)
    case Processor(p, expired, block) =>
      if s.processors[p] == Running then RunRoutine(s, p, block) else HandleRoutine(s, p, expired)
    case Publisher(b, m) => Publish(s, b, m)
  }

  ghost predicate Next(s: State, s': State) {
    exists a :: Enabled(s, a) && s' == Step(s, a)
  }

  // ----- the invariant -----

  // The routine found its buffer empty and has not been woken since.
  predicate Waiting(s: State) {
    s.pc == YieldEmpty || (s.pc == Mark && s.state == DATA_WAIT)
  }

  // A fetch would deliver something.
  predicate Unfetched(s: State) {
    s.cursor <= |s.history| + 1 && FetchFrom(s.size, s.history, s.cursor).Message?
  }

  // A publisher has filled the buffer and has not yet decided against, or performed, clearing the flag.
  ghost predicate InFlight(s: State) {
    exists b :: b in s.publishers && s.publishers[b] in {Notify, ReadDataWait, ClearFlag}
  }

  // A processor has consumed a cleared flag and is about to make the routine ready.
  ghost predicate BeingWoken(s: State) {
    exists p :: p in s.processors && s.processors[p] == FlagTaken
  }

  predicate Exclusive(s: State) {
    && (forall p :: p in s.processors && s.processors[p] != Scan ==> s.lock == Some(p))
    && (s.lock.Some? ==> s.lock.value in s.processors && s.processors[s.lock.value] != Scan)
  }

  predicate IsRunning(s: State) {
    s.lock.Some? && s.lock.value in s.processors && s.processors[s.lock.value] == Running
  }

  predicate RoutineOk(s: State) {
    && s.cursor <= |s.history| + 1
    && (s.pc.Fetch? || s.pc.YieldReady? || s.pc.YieldEmpty? ==> IsRunning(s))
    && (s.pc.Fetch? || s.pc.YieldEmpty? ==> s.state == DATA_WAIT)
    && (s.pc == Mark && IsRunning(s) ==> s.state == READY)
  }

  ghost predicate WillWake(s: State) {
    Waiting(s) && Unfetched(s) && !s.missed ==> !s.updated || InFlight(s) || BeingWoken(s)
  }

  // Before the callback is registered nobody touches the flag, and a missed message leaves it set.
  ghost predicate Unnoticed(s: State) {
    && (!s.registered ==>
          s.updated && !BeingWoken(s) && forall b :: b in s.publishers ==> s.publishers[b] in {Away, Notify})
    && (s.missed ==> s.updated && !BeingWoken(s))
  }

  ghost predicate Inv(s: State) {
    Exclusive(s) && RoutineOk(s) && WillWake(s) && Unnoticed(s)
  }

  lemma ProcessorKeepsRoutine(s: State, p: Tid, expired: bool, block: Option<RoutineState>)
    requires Exclusive(s) && RoutineOk(s) && Enabled(s, Processor(p, expired, block))
    ensures Exclusive(Step(s, Processor(p, expired, block))) && RoutineOk(Step(s, Processor(p, expired, block)))
  {
    if s.processors[p] == Running {
      RunningKeepsRoutine(s, p, block);
    } else {
      HandlingKeepsRoutine(s, p, expired);
    }
  }

  lemma HandlingKeepsRoutine(s: State, p: Tid, expired: bool)
    requires Exclusive(s) && RoutineOk(s) && p in s.processors && s.processors[p] != Running
    ensures Exclusive(HandleRoutine(s, p, expired)) && RoutineOk(HandleRoutine(s, p, expired))
  {
    match s.processors[p]
    case Scan =>
    case SleepCheck =>
    case TestFlag =>
    case FlagTaken =>
    case ReadState =>
    case Resume =>
    case Release =>
  }

  lemma RunningKeepsRoutine(s: State, p: Tid, block: Option<RoutineState>)
    requires Exclusive(s) && RoutineOk(s) && p in s.processors && s.processors[p] == Running
    requires block != Some(FINISHED)
    ensures Exclusive(RunRoutine(s, p, block)) && RoutineOk(RunRoutine(s, p, block))
  {
    match s.pc
    case Mark =>
    case Fetch =>
    case Callback(_) =>
    case YieldReady =>
    case YieldEmpty =>
  }

  lemma StepKeepsRoutine(s: State, a: Action)
    requires Exclusive(s) && RoutineOk(s) && Enabled(s, a)
    ensures Exclusive(Step(s, a)) && RoutineOk(Step(s, a))
  {
    match a
    case Processor(p, expired, block) => ProcessorKeepsRoutine(s, p, expired, block);
    case Publisher(b, m) =>
    case Register =>
  }

  lemma ProcessorKeepsWake(s: State, p: Tid, expired: bool, block: Option<RoutineState>)
    requires Inv(s) && Enabled(s, Processor(p, expired, block))
    ensures WillWake(Step(s, Processor(p, expired, block)))
  {
    var s' := Step(s, Processor(p, expired, block));
    if Waiting(s') && Unfetched(s') && !s'.missed {
      if BeingWoken(s) {
        var q :| q in s.processors && s.processors[q] == FlagTaken;
        assert q == p || s'.processors[q] == FlagTaken;
      }
      if !s.updated && s'.updated { assert s'.processors[p] == FlagTaken; }
    }
  }

  lemma PublisherKeepsWake(s: State, b: Tid, m: Msg)
    requires Inv(s) && Enabled(s, Publisher(b, m))
    ensures WillWake(Step(s, Publisher(b, m)))
  {
    var s' := Step(s, Publisher(b, m));
    if s'.publishers[b] in {Notify, ReadDataWait, ClearFlag} {
      assert InFlight(s');
    } else if s.publishers[b] != ClearFlag {
      OthersInFlight(s, s', b);
    }
  }

  // A publisher that leaves without clearing the flag was not needed: the others are still under way.
  lemma OthersInFlight(s: State, s': State, b: Tid)
    requires b in s.publishers && s.publishers[b] in {Notify, ReadDataWait, ReadIoWait}
    requires b in s'.publishers && s'.publishers == s.publishers[b := s'.publishers[b]]
    ensures s.publishers[b] == ReadIoWait && InFlight(s) ==> InFlight(s')
  {
    if s.publishers[b] == ReadIoWait && InFlight(s) {
      var c :| c in s.publishers && s.publishers[c] in {Notify, ReadDataWait, ClearFlag};
      assert c in s'.publishers && s'.publishers[c] == s.publishers[c];
    }
  }

  lemma ProcessorKeepsUnnoticed(s: State, p: Tid, expired: bool, block: Option<RoutineState>)
    requires Unnoticed(s) && Enabled(s, Processor(p, expired, block))
    ensures Unnoticed(Step(s, Processor(p, expired, block)))
  {
    var s' := Step(s, Processor(p, expired, block));
    ProcessorTouches(s, p, expired, block);
    if s.updated && !BeingWoken(s) { OthersNotTaken(s, s', p); }
  }

  // Processor p moves alone, leaves the registration and the publishers be, and takes only a clear flag.
  ghost predicate Touches(s: State, s': State, p: Tid) {
    && s'.registered == s.registered && s'.publishers == s.publishers && (s'.missed ==> s.missed)
    && p in s'.processors && s'.processors == s.processors[p := s'.processors[p]]
    && (s.updated ==> s'.updated && s'.processors[p] != FlagTaken)
  }

  lemma ProcessorTouches(s: State, p: Tid, expired: bool, block: Option<RoutineState>)
    requires Enabled(s, Processor(p, expired, block))
    ensures Touches(s, Step(s, Processor(p, expired, block)), p)
  {
    if s.processors[p] == Running { RoutineTouches(s, p, block); } else { HandlerTouches(s, p, expired); }
  }

  lemma HandlerTouches(s: State, p: Tid, expired: bool)
    requires p in s.processors && s.processors[p] != Running
    ensures Touches(s, HandleRoutine(s, p, expired), p)
  {
    assert s.processors[p := s.processors[p]] == s.processors;
  }

  lemma RoutineTouches(s: State, p: Tid, block: Option<RoutineState>)
    requires p in s.processors && s.processors[p] == Running && s.cursor <= |s.history| + 1
    ensures Touches(s, RunRoutine(s, p, block), p)
  {
    assert s.processors[p := s.processors[p]] == s.processors;
  }

  lemma OthersNotTaken(s: State, s': State, p: Tid)
    requires !BeingWoken(s) && p in s'.processors && s'.processors[p] != FlagTaken
    requires s'.processors == s.processors[p := s'.processors[p]]
    ensures !BeingWoken(s')
  {
    forall q | q in s'.processors ensures s'.processors[q] != FlagTaken {
      assert q != p ==> q in s.processors && s'.processors[q] == s.processors[q];
    }
  }

  lemma PublisherKeepsUnnoticed(s: State, b: Tid, m: Msg)
    requires Unnoticed(s) && Enabled(s, Publisher(b, m))
    ensures Unnoticed(Step(s, Publisher(b, m)))
  {
    assert BeingWoken(Step(s, Publisher(b, m))) <==> BeingWoken(s);
  }

  lemma StepKeepsInv(s: State, a: Action)
    requires Inv(s) && Enabled(s, a)
    ensures Inv(Step(s, a))
  {
    StepKeepsRoutine(s, a);
    match a
    case Processor(p, expired, block) =>
      ProcessorKeepsWake(s, p, expired, block);
      ProcessorKeepsUnnoticed(s, p, expired, block);
    case Publisher(b, m) =>
      PublisherKeepsWake(s, b, m);
      PublisherKeepsUnnoticed(s, b, m);
    case Register =>
  }

  /**
   * No lost wakeup.  In every state of every run, with any number of publishers and processors: when the
   * routine has yielded on an empty buffer while there is now a message for it, then its update flag is
   * clear, or a publisher is still on the way to clearing it, or a processor has just taken the cleared
   * flag; unless a publisher found no callback and nobody has cleared the flag since.
   */
  lemma NoLostWakeup(run: seq<State>, i: nat)
    requires IsRun(Init, Next, run) && i < |run|
    ensures Inv(run[i])
    ensures Waiting(run[i]) && Unfetched(run[i]) && !run[i].missed ==>
      !run[i].updated || InFlight(run[i]) || BeingWoken(run[i])
  {
    forall s, s' | Inv(s) && Next(s, s') ensures Inv(s') {
      var a :| Enabled(s, a) && s' == Step(s, a);
      StepKeepsInv(s, a);
    }
    Always(Init, Next, Inv, run, i);
  }

  /**
   * And this is the exact condition: when no publisher is under way, a routine with an unfetched message
   * is stuck, its flag set and nobody about to wake it, exactly when such a miss has happened.
   */
  lemma StuckExactlyWhenMissed(run: seq<State>, i: nat)
    requires IsRun(Init, Next, run) && i < |run|
    requires Waiting(run[i]) && Unfetched(run[i]) && !InFlight(run[i])
    ensures Stuck(run[i]) <==> run[i].missed
    ensures run[i].missed ==> run[i].updated
  {
    NoLostWakeup(run, i);
  }

  // Until the callback is registered, no publisher has filled the buffer and reached the notification.
  ghost predicate QuietUntilRegistered(run: seq<State>, i: nat) {
    forall k, b :: 0 <= k <= i < |run| && !run[k].registered && b in run[k].publishers ==>
      run[k].publishers[b] != Notify
  }

  lemma {:induction false} NothingMissed(run: seq<State>, i: nat)
    requires IsRun(Init, Next, run) && i < |run| && QuietUntilRegistered(run, i)
    ensures !run[i].missed
  {
    if i > 0 {
      NothingMissed(run, i - 1);
      assert StepAt(Next, run, i - 1);
      MissNeedsNotify(run[i - 1], run[i]);
    }
  }

  lemma MissNeedsNotify(s: State, s': State)
    requires Next(s, s') && !s.missed
    requires !s.registered ==> forall b :: b in s.publishers ==> s.publishers[b] != Notify
    ensures !s'.missed
  {
    var a :| Enabled(s, a) && s' == Step(s, a);
    if a.Processor? { ProcessorTouches(s, a.p, a.expired, a.block); }
  }

  /**
   * So if nothing is published before the callback is registered, no wakeup is lost, without exception.
   */
  lemma NoLostWakeupOnceRegistered(run: seq<State>, i: nat)
    requires IsRun(Init, Next, run) && i < |run| && QuietUntilRegistered(run, i)
    ensures Waiting(run[i]) && Unfetched(run[i]) ==> !run[i].updated || InFlight(run[i]) || BeingWoken(run[i])
  {
    NoLostWakeup(run, i);
    NothingMissed(run, i);
  }

  // ----- the next complete UpdateState makes it ready -----

  ghost predicate Settled(s: State) {
    Waiting(s) && Unfetched(s) && !s.updated && !BeingWoken(s)
  }

  // Processor p goes through its test-and-set on the flag.
  predicate Tests(s: State, s': State, p: Tid) {
    p in s.processors && s.processors[p] == TestFlag && p in s'.processors && s'.processors[p] != TestFlag
  }

  ghost predicate SomeoneTests(s: State, s': State) {
    exists p :: Tests(s, s', p)
  }

  lemma SettledUntilTest(s: State, a: Action)
    requires Inv(s) && Settled(s) && Enabled(s, a)
    ensures Settled(Step(s, a)) || (a.Processor? && Tests(s, Step(s, a), a.p))
  {
    match a
    case Processor(p, expired, block) => SettledUntilProcessorTests(s, p, expired, block);
    case Publisher(b, m) => SettledUnderPublisher(s, b, m);
    case Register =>
  }

  lemma SettledUnderPublisher(s: State, b: Tid, m: Msg)
    requires Settled(s) && Enabled(s, Publisher(b, m))
    ensures Settled(Step(s, Publisher(b, m)))
  {
    var s' := Step(s, Publisher(b, m));
    assert s'.processors == s.processors && s'.state == s.state && s'.pc == s.pc && s'.cursor == s.cursor;
    assert |s'.history| >= |s.history|;
  }

  lemma SettledUntilProcessorTests(s: State, p: Tid, expired: bool, block: Option<RoutineState>)
    requires Exclusive(s) && RoutineOk(s) && Settled(s) && Enabled(s, Processor(p, expired, block))
    ensures var s' := Step(s, Processor(p, expired, block)); Settled(s') || Tests(s, s', p)
  {
    var s' := Step(s, Processor(p, expired, block));
    if s.processors[p] == TestFlag {
      assert Tests(s, s', p);
    } else {
      OthersNotTaken(s, s', p);
      if s.processors[p] == Running {
        SettledWhileRunning(s, p, block);
      } else {
        assert s.state == DATA_WAIT && s'.state == DATA_WAIT;
      }
    }
  }

  // The routine only finishes the yield it is in.
  lemma SettledWhileRunning(s: State, p: Tid, block: Option<RoutineState>)
    requires Exclusive(s) && RoutineOk(s) && Settled(s)
    requires p in s.processors && s.processors[p] == Running && s.cursor <= |s.history| + 1
    ensures s.pc == YieldEmpty
    ensures Waiting(RunRoutine(s, p, block)) && Unfetched(RunRoutine(s, p, block))
  {
  }

  // Processor p holds the routine, has taken the flag and is about to make it ready.
  predicate Woken(s: State, p: Tid) {
    && p in s.processors && s.processors[p] == FlagTaken
    && s.pc == Mark && s.state == DATA_WAIT && Unfetched(s)
  }

  lemma SettledTestTakesFlag(s: State, p: Tid, expired: bool, block: Option<RoutineState>)
    requires Inv(s) && Settled(s) && Enabled(s, Processor(p, expired, block)) && s.processors[p] == TestFlag
    ensures Woken(Step(s, Processor(p, expired, block)), p)
  {
  }

  lemma WokenUntilReady(s: State, p: Tid, a: Action)
    requires Inv(s) && Woken(s, p) && Enabled(s, a)
    ensures var s' := Step(s, a);
      Woken(s', p) || (a.Processor? && a.p == p && s'.state == READY && s'.processors[p] == ReadState)
  {
  }

  lemma SettledNext(s: State, s': State)
    requires Inv(s) && Settled(s) && Next(s, s') && !SomeoneTests(s, s')
    ensures Settled(s')
  {
    var a :| Enabled(s, a) && s' == Step(s, a);
    SettledUntilTest(s, a);
    if a.Processor? { assert !Tests(s, s', a.p); }
  }

  lemma SettledTested(s: State, s': State, p: Tid)
    requires Inv(s) && Settled(s) && Next(s, s') && Tests(s, s', p)
    ensures Woken(s', p)
  {
    var a :| Enabled(s, a) && s' == Step(s, a);
    assert a.Processor? && a.p == p;
    SettledTestTakesFlag(s, p, a.expired, a.block);
  }

  lemma WokenNext(s: State, s': State, p: Tid)
    requires Inv(s) && Woken(s, p) && Next(s, s')
    ensures p in s'.processors
    ensures s'.processors[p] == FlagTaken ==> Woken(s', p)
    ensures s'.processors[p] != FlagTaken ==> s'.state == READY && s'.processors[p] == ReadState
  {
    var a :| Enabled(s, a) && s' == Step(s, a);
    WokenUntilReady(s, p, a);
  }

  // No processor goes through its test-and-set at step k.
  ghost predicate NoTestAt(run: seq<State>, k: nat)
    requires k + 1 < |run|
  {
    !SomeoneTests(run[k], run[k + 1])
  }

  lemma {:induction false} SettledStays(run: seq<State>, i: nat, j: nat)
    requires IsRun(Init, Next, run) && i <= j < |run| && Settled(run[i])
    requires forall k :: i <= k < j ==> NoTestAt(run, k)
    ensures Settled(run[j])
  {
    if i < j {
      SettledStays(run, i, j - 1);
      StepOf(run, j - 1);
      assert NoTestAt(run, j - 1);
      SettledNext(run[j - 1], run[j]);
    }
  }

  lemma StepOf(run: seq<State>, j: nat)
    requires IsRun(Init, Next, run) && j + 1 < |run|
    ensures Inv(run[j]) && Next(run[j], run[j + 1])
  {
    NoLostWakeup(run, j);
    assert StepAt(Next, run, j);
  }

  lemma {:induction false} WokenStays(run: seq<State>, p: Tid, i: nat, j: nat)
    requires IsRun(Init, Next, run) && i <= j < |run| && Woken(run[i], p)
    requires forall k :: i <= k <= j ==> p in run[k].processors && run[k].processors[p] == FlagTaken
    ensures Woken(run[j], p)
  {
    if i < j {
      WokenStays(run, p, i, j - 1);
      StepOf(run, j - 1);
      WokenNext(run[j - 1], run[j], p);
    }
  }

  /**
   * Once every publisher that filled the buffer is done, the next UpdateState that runs to completion
   * makes the waiting routine ready, whatever else is interleaved: `i` is such a moment, `j` the first
   * test-and-set after it, by processor p, and `k` the moment p performs its next step.
   */
  lemma NextUpdateStateMakesReady(run: seq<State>, i: nat, j: nat, k: nat, p: Tid)
    requires IsRun(Init, Next, run) && i <= j < k < |run| - 1
    requires Waiting(run[i]) && Unfetched(run[i]) && !run[i].missed && !InFlight(run[i]) && !BeingWoken(run[i])
    requires forall n :: i <= n < j ==> NoTestAt(run, n)
    requires Tests(run[j], run[j + 1], p)
    requires forall n :: j < n <= k ==> p in run[n].processors && run[n].processors[p] == run[j + 1].processors[p]
    requires p in run[k + 1].processors && run[k + 1].processors[p] != run[k].processors[p]
    ensures run[k + 1].state == READY && run[k + 1].processors[p] == ReadState
  {
    NoLostWakeup(run, i);
    SettledStays(run, i, j);
    StepOf(run, j);
    SettledTested(run[j], run[j + 1], p);
    WokenStays(run, p, j + 1, k);
    StepOf(run, k);
    WokenNext(run[k], run[k + 1], p);
  }

  /** The woken routine then fetches: left alone, its processor resumes it and the fetch delivers a message. */
  lemma WokenRoutineFetches(s: State, p: Tid) returns (s': State)
    requires Inv(s) && Woken(s, p)
    ensures Inv(s') && p in s'.processors && s'.processors[p] == Running && s'.pc.Callback? && s'.cursor > s.cursor
    ensures FetchFrom(s.size, s.history, s.cursor) == Message(s'.cursor - 1, s'.pc.m) && s'.history == s.history
  {
    var go := Processor(p, false, None);
    StepKeepsInv(s, go);
    var s1 := Step(s, go);
    StepKeepsInv(s1, go);
    var s2 := Step(s1, go);
    StepKeepsInv(s2, go);
    var s3 := Step(s2, go);
    StepKeepsInv(s3, go);
    var s4 := Step(s3, go);
    StepKeepsInv(s4, go);
    s' := Step(s4, go);
  }

  // ----- what UpdateState decides, and sleeping -----

  // The state after n steps of processor p in NextRoutine and Resume, with nobody else moving.
  function Handled(s: State, p: Tid, expired: bool, n: nat): State
    requires p in s.processors
    decreases n
  {
    if n == 0 || s.processors[p] == Running then s else Handled(HandleRoutine(s, p, expired), p, expired, n - 1)
  }

  // The routine sleeps and its wake time has passed, or it waits and its flag is clear.
  predicate Due(s: State, expired: bool) {
    (s.state == SLEEP && expired) || ((s.state == DATA_WAIT || s.state == IO_WAIT) && !s.updated)
  }

  // What the rest of UpdateState, from where processor p stands, makes of the state.
  function Outcome(s: State, p: Tid, expired: bool): RoutineState
    requires p in s.processors
  {
    var waits := s.state == DATA_WAIT || s.state == IO_WAIT;
    match s.processors[p]
    case SleepCheck => if Due(s, expired) then READY else s.state
    case TestFlag => if waits && !s.updated then READY else s.state
    case FlagTaken => if waits then READY else s.state
    case _ => s.state
  }

  // Two more steps switch to a ready routine, or give it back.
  ghost predicate SwitchedOrBack(s: State, s': State, p: Tid, state: RoutineState) {
    && s'.state == state && s'.processors == s.processors[p := if state == READY then Running else Scan]
    && (state != READY ==> s'.lock == None)
  }

  lemma OneHandled(s: State, p: Tid, expired: bool, n: nat)
    requires p in s.processors && s.processors[p] != Running
    ensures Handled(s, p, expired, n + 1) == Handled(HandleRoutine(s, p, expired), p, expired, n)
  {
  }

  lemma AfterReadState(s: State, p: Tid, expired: bool)
    requires p in s.processors && s.processors[p] == ReadState
    ensures SwitchedOrBack(s, Handled(s, p, expired, 2), p, s.state)
  {
    var s1 := HandleRoutine(s, p, expired);
    var s2 := HandleRoutine(s1, p, expired);
    OneHandled(s, p, expired, 1);
    OneHandled(s1, p, expired, 0);
    assert s2.processors == s.processors[p := s2.processors[p]];
  }

  lemma {:induction false} RestDecides(s: State, p: Tid, expired: bool) returns (n: nat)
    requires p in s.processors && s.processors[p] in {SleepCheck, TestFlag, FlagTaken, ReadState}
    ensures n <= HandlingLeft(s, p)
    ensures SwitchedOrBack(s, Handled(s, p, expired, n + 2), p, Outcome(s, p, expired))
    decreases HandlingLeft(s, p)
  {
    if s.processors[p] == ReadState {
      n := 0;
      AfterReadState(s, p, expired);
    } else {
      var s1 := HandleRoutine(s, p, expired);
      OneStepDecides(s, p, expired);
      var m := RestDecides(s1, p, expired);
      n := m + 1;
      OneHandled(s, p, expired, m + 2);
      var end := if Outcome(s, p, expired) == READY then Running else Scan;
      assert s1.processors[p := end] == s.processors[p := end];
    }
  }

  // One step of UpdateState leaves what it will come to.
  lemma OneStepDecides(s: State, p: Tid, expired: bool)
    requires p in s.processors && s.processors[p] in {SleepCheck, TestFlag, FlagTaken}
    ensures var s1 := HandleRoutine(s, p, expired);
      && p in s1.processors && s1.processors == s.processors[p := s1.processors[p]]
      && Outcome(s1, p, expired) == Outcome(s, p, expired) && HandlingLeft(s1, p) < HandlingLeft(s, p)
      && s1.processors[p] in {TestFlag, FlagTaken, ReadState}
  {
  }

  function HandlingLeft(s: State, p: Tid): nat
    requires p in s.processors
  {
    match s.processors[p] case SleepCheck => 3 case TestFlag => 2 case FlagTaken => 1 case _ => 0
  }

  /**
   * An undisturbed UpdateState makes exactly the routines ready that are due.  Within five steps a ready
   * routine has been switched to, and any other one has been given back in the state it was in.
   */
  lemma UpdateStateDecides(s: State, p: Tid, expired: bool) returns (n: nat)
    requires p in s.processors && s.processors[p] == SleepCheck
    ensures n <= 5
    ensures var s', ready := Handled(s, p, expired, n), s.state == READY || Due(s, expired);
      && s'.processors == s.processors[p := if ready then Running else Scan]
      && s'.state == (if ready then READY else s.state) && (!ready ==> s'.lock == None)
  {
    n := RestDecides(s, p, expired);
    n := n + 2;
  }

  // The state after n steps of publisher b in NotifyProcessor, with nobody else moving.
  function Notified(s: State, b: Tid, m: Msg, n: nat): State
    requires b in s.publishers
    decreases n
  {
    if n == 0 || s.publishers[b] == Away then s else Notified(Publish(s, b, m), b, m, n - 1)
  }

  lemma OneNotified(s: State, b: Tid, m: Msg, n: nat)
    requires b in s.publishers && s.publishers[b] != Away
    ensures Notified(s, b, m, n + 1) == Notified(Publish(s, b, m), b, m, n)
  {
  }

  /** An undisturbed NotifyProcessor clears the flag exactly of a routine that waits for data or for I/O. */
  lemma NotifyDecides(s: State, b: Tid, m: Msg)
    requires b in s.publishers && s.publishers[b] == Notify && s.registered
    ensures var s', waits := Notified(s, b, m, 4), s.state == DATA_WAIT || s.state == IO_WAIT;
      s'.publishers == s.publishers[b := Away] && s'.state == s.state && s'.updated == (s.updated && !waits)
  {
    var s1 := Publish(s, b, m);
    var s2 := Publish(s1, b, m);
    var s3 := Publish(s2, b, m);
    OneNotified(s, b, m, 3);
    OneNotified(s1, b, m, 2);
    OneNotified(s2, b, m, 1);
    assert s3.publishers == s.publishers[b := s3.publishers[b]];
    if s3.publishers[b] != Away {
      OneNotified(s3, b, m, 0);
      assert Publish(s3, b, m).publishers == s.publishers[b := Away];
    }
  }

  // A sleeping routine, which no processor is running.
  predicate Sleeping(s: State) {
    s.state == SLEEP && forall p :: p in s.processors ==> s.processors[p] != Running
  }

  /** A routine that asks to sleep sleeps ... */
  lemma FallsAsleep(s: State, p: Tid, expired: bool)
    requires Exclusive(s) && Enabled(s, Processor(p, expired, Some(SLEEP)))
    requires s.processors[p] == Running && s.pc.Callback?
    ensures Sleeping(Step(s, Processor(p, expired, Some(SLEEP))))
  {
  }

  // The step after moment k happens before the wake time.
  ghost predicate NotYet(run: seq<State>, k: nat)
    requires k + 1 < |run|
  {
    exists a :: Enabled(run[k], a) && run[k + 1] == Step(run[k], a) && (a.Processor? ==> !a.expired)
  }

  /** ... and is not made ready or run before its wake time, whatever publishers and processors do. */
  lemma {:induction false} SleepsUntilDue(run: seq<State>, i: nat, j: nat)
    requires i <= j < |run| && Sleeping(run[i])
    requires forall k :: i <= k < j ==> NotYet(run, k)
    ensures Sleeping(run[j])
    decreases j - i
  {
    if i < j {
      SleepsUntilDue(run, i, j - 1);
      assert NotYet(run, j - 1);
      var a :| Enabled(run[j - 1], a) && run[j] == Step(run[j - 1], a) && (a.Processor? ==> !a.expired);
      SleepsOn(run[j - 1], a);
    }
  }

  lemma SleepsOn(s: State, a: Action)
    requires Sleeping(s) && Enabled(s, a) && (a.Processor? ==> !a.expired)
    ensures Sleeping(Step(s, a))
  {
    if a.Processor? { SleepsUnderProcessor(s, a.p); }
  }

  lemma SleepsUnderProcessor(s: State, p: Tid)
    requires Sleeping(s) && p in s.processors
    ensures Sleeping(HandleRoutine(s, p, false))
  {
    var s' := HandleRoutine(s, p, false);
    assert s'.state == SLEEP;
    forall q | q in s'.processors ensures s'.processors[q] != Running {
      assert q != p ==> s'.processors[q] == s.processors[q];
    }
  }

  // ----- the window before registration -----

  // Nobody is on the way to clear the flag, and it is set.
  ghost predicate Stuck(s: State) {
    Waiting(s) && Unfetched(s) && s.updated && !BeingWoken(s)
  }

  lemma StuckWithoutPublishers(s: State, a: Action)
    requires Inv(s) && Stuck(s) && Enabled(s, a) && !a.Publisher?
    ensures Stuck(Step(s, a))
  {
    if a.Processor? {
      ProcessorTouches(s, a.p, a.expired, a.block);
      OthersNotTaken(s, Step(s, a), a.p);
    }
  }

  lemma Advance(run: seq<State>, a: Action) returns (run': seq<State>)
    requires IsRun(Init, Next, run) && Enabled(run[|run| - 1], a)
    ensures IsRun(Init, Next, run') && run'[|run'| - 1] == Step(run[|run| - 1], a)
  {
    assert Next(run[|run| - 1], Step(run[|run| - 1], a));
    run' := Extend(Init, Next, run, Step(run[|run| - 1], a));
  }

  /**
   * The scheduler registers the notify callback only after it has dispatched the routine.  A message that
   * is published in between, after the routine's first empty fetch, wakes nobody: the routine is left
   * waiting with an unfetched message and a set flag, and stays so until some publisher acts again.
   */
  lemma MissedBeforeRegistration() returns (run: seq<State>)
    ensures IsRun(Init, Next, run)
    ensures var s := run[|run| - 1]; Stuck(s) && s.missed && s.registered && !InFlight(s) && s.lock == None
  {
    run := FirstEmptyFetch();
    run := Advance(run, Publisher(0, 7));
    run := Advance(run, Publisher(0, 7));
    run := Advance(run, Register);
    assert run[|run| - 1].publishers == map[0 := Away];
  }

  // Processor 0 runs the new routine once; it finds nothing and waits.
  lemma FirstEmptyFetch() returns (run: seq<State>)
    ensures IsRun(Init, Next, run)
    ensures run[|run| - 1] == State(1, [], 0, DATA_WAIT, true, None, Mark, map[0 := Scan], map[0 := Away], false, false)
  {
    run := FirstSwitch();
    var go := Processor(0, false, None);
    run := Advance(run, go);
    run := Advance(run, go);
    run := Advance(run, go);
    assert run[|run| - 1].processors == map[0 := Release];
    run := Advance(run, go);
    assert run[|run| - 1].processors == map[0 := Scan];
  }

  lemma FirstSwitch() returns (run: seq<State>)
    ensures IsRun(Init, Next, run)
    ensures run[|run| - 1] ==
      State(1, [], 0, READY, true, Some(0), Mark, map[0 := Running], map[0 := Away], false, false)
  {
    run := FirstLook();
    var go := Processor(0, false, None);
    run := Advance(run, go);
    run := Advance(run, go);
    run := Advance(run, go);
    assert run[|run| - 1].processors == map[0 := Running];
  }

  lemma FirstLook() returns (run: seq<State>)
    ensures IsRun(Init, Next, run)
    ensures run[|run| - 1] ==
      State(1, [], 0, READY, true, Some(0), Mark, map[0 := TestFlag], map[0 := Away], false, false)
  {
    run := [State(1, [], 0, READY, true, None, Mark, map[0 := Scan], map[0 := Away], false, false)];
    var go := Processor(0, false, None);
    run := Advance(run, go);
    run := Advance(run, go);
    assert run[|run| - 1].processors == map[0 := TestFlag];
  }
}
