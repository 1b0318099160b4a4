/** Every call on the hash map comes to an end when it is left alone, and what it then answers. */
module HashMapCalls {
  import opened HashMap
  import opened Options
  import opened Runs

  // A step of the call that thread t is in.
  ghost predicate OwnStep(s: State, s': State, t: Tid) {
    Enabled(s, t, Go) && s' == Step(s, t, Go)
  }

  // Thread t takes n steps, nobody else does, and then the state is `goal`.
  ghost predicate AloneTo(s: State, t: Tid, n: nat, goal: State) {
    Reaches((s1, s2) => OwnStep(s1, s2, t), s, n, goal)
  }

  // ----- how far a call has come -----

  function PlaceOf(chain: seq<Id>, e: Id): (i: nat)
    ensures i <= |chain|
    ensures e in chain ==> i < |chain| && chain[i] == e
  {
    if chain == [] || chain[0] == e then 0 else 1 + PlaceOf(chain[1..], e)
  }

  function ChainOf(s: State, key: Key): seq<Id> {
    var b := BucketOf(s, key);
    if b < |s.chains| then s.chains[b] else []
  }

  // How many entries of the key's chain are still ahead, counting the target.
  function Ahead(s: State, key: Key, target: Option<Id>): nat {
    if target.None? then 0 else |ChainOf(s, key)| - PlaceOf(ChainOf(s, key), target.value)
  }

  // How many steps a call needs at most when it is left alone.  A link or a cell that has changed since it
  // was loaded costs it a second walk.
  function StepsLeft(s: State, pc: Pc): nat {
    var n := |ChainOf(s, pc.c.key)|;
    match pc
    case Start(_) => n + 3
    case Walk(c, prev, target, _) =>
      Ahead(s, c.key, target) + 2 + if prev < |s.heap| && s.heap[prev].next == target then 0 else n + 3
    case Update(_, e, seen) => if e < |s.heap| && s.heap[e].cell.id == seen.id then 1 else n + 4
    case Link(_, prev, target) => if prev < |s.heap| && s.heap[prev].next == target then 1 else n + 4
    case Done(_, _, _, _) => 0
  }

  lemma PlaceUnique(chain: seq<Id>, i: nat)
    requires i < |chain| && forall j, k :: 0 <= j < k < |chain| ==> chain[j] != chain[k]
    ensures PlaceOf(chain, chain[i]) == i
  {
    var p := PlaceOf(chain, chain[i]);
    assert chain[i] in chain;
  }

  lemma ChainDistinct(s: State, b: Id)
    requires Chains(s) && b < s.buckets
    ensures forall j, k :: 0 <= j < k < |s.chains[b]| ==> s.chains[b][j] != s.chains[b][k]
  {
    assert ChainOk(s.buckets, s.index, s.heap, b, s.chains[b]);
  }

  // One step down the chain leaves one entry less ahead.
  lemma AheadShrinks(s: State, key: Key, e: Id)
    requires Chains(s) && TargetOk(s, key, Some(e))
    ensures e < |s.heap| && TargetOk(s, key, s.heap[e].next)
    ensures Ahead(s, key, s.heap[e].next) < Ahead(s, key, Some(e)) <= |ChainOf(s, key)| - 1
  {
    var b := BucketOf(s, key);
    var chain := s.chains[b];
    assert ChainOk(s.buckets, s.index, s.heap, b, chain);
    ChainDistinct(s, b);
    var i := PlaceOf(chain, e);
    assert i > 0;
    assert s.heap[chain[i]].next == At(chain, i + 1);
    if i + 1 < |chain| { PlaceUnique(chain, i + 1); }
  }

  lemma FirstAhead(s: State, key: Key)
    requires Chains(s)
    ensures var b := BucketOf(s, key);
      b < |s.heap| && TargetOk(s, key, s.heap[b].next) && Ahead(s, key, s.heap[b].next) < |ChainOf(s, key)|
  {
    var b := BucketOf(s, key);
    NextIsTarget(s, key, b);
    if s.heap[b].next.Some? { AheadShrinks(s, key, s.heap[b].next.value); }
    assert ChainOk(s.buckets, s.index, s.heap, b, s.chains[b]);
  }

  // ----- every step leaves less to do -----

  // After a step of thread t the call is done, or has fewer steps left.
  predicate Nearer(s: State, s': State, t: Tid) {
    t in s.pcs && t in s'.pcs && (s'.pcs[t].Done? || StepsLeft(s', s'.pcs[t]) < StepsLeft(s, s.pcs[t]))
  }

  lemma StartGetsNearer(s: State, t: Tid)
    requires Inv(s) && Enabled(s, t, Go) && s.pcs[t].Start?
    ensures Nearer(s, Step(s, t, Go), t)
  {
    FirstAhead(s, s.pcs[t].c.key);
  }

  lemma AdvanceGetsNearer(s: State, t: Tid)
    requires Inv(s) && Enabled(s, t, Go) && s.pcs[t].Walk?
    requires s.pcs[t].target.Some? && s.heap[s.pcs[t].target.value].key < s.pcs[t].c.key
    ensures Nearer(s, Step(s, t, Go), t)
  {
    assert PcOk(s, s.pcs[t]);
    AheadShrinks(s, s.pcs[t].c.key, s.pcs[t].target.value);
  }

  lemma FoundLeavesOne(s: State, t: Tid, c: Call, e: Id)
    requires e < |s.heap|
    ensures var s' := Found(s, t, c, e); t in s'.pcs && StepsLeft(s', s'.pcs[t]) <= 1
  {
  }

  lemma FoundGetsNearer(s: State, t: Tid)
    requires Enabled(s, t, Go) && s.pcs[t].Walk?
    requires s.pcs[t].target.Some? && s.heap[s.pcs[t].target.value].key == s.pcs[t].c.key
    ensures Nearer(s, Step(s, t, Go), t)
  {
    FoundLeavesOne(s, t, s.pcs[t].c, s.pcs[t].target.value);
  }

  lemma MissingLeavesOne(s: State, t: Tid, c: Call, prev: Id, target: Option<Id>, absent: bool)
    requires prev < |s.heap| && (c.entry.Some? ==> c.entry.value < |s.heap| && c.entry.value != prev)
    ensures var s' := Missing(s, t, c, prev, target, absent);
      && t in s'.pcs
      && StepsLeft(s', s'.pcs[t]) <= if s.heap[prev].next == target then 1 else |ChainOf(s, c.key)| + 4
  {
    var s' := Missing(s, t, c, prev, target, absent);
    assert ChainOf(s', c.key) == ChainOf(s, c.key) && s'.heap[prev] == s.heap[prev];
  }

  lemma MissGetsNearer(s: State, t: Tid)
    requires Inv(s) && Enabled(s, t, Go) && AtGap(s, s.pcs[t])
    ensures Nearer(s, Step(s, t, Go), t)
  {
    var pc := s.pcs[t];
    NextIsTarget(s, pc.c.key, pc.prev);
    assert pc.c.entry.Some? ==> pc.c.entry.value != pc.prev;
    MissingLeavesOne(s, t, pc.c, pc.prev, pc.target, pc.absent);
    MissSteps(s, t);
  }

  lemma MissSteps(s: State, t: Tid)
    requires Enabled(s, t, Go) && s.pcs[t].Walk?
    requires s.pcs[t].target.Some? ==> s.heap[s.pcs[t].target.value].key > s.pcs[t].c.key
    ensures var pc := s.pcs[t]; Step(s, t, Go) == Missing(s, t, pc.c, pc.prev, pc.target, pc.absent)
  {
  }

  lemma ExchangeGetsNearer(s: State, t: Tid)
    requires Inv(s) && Enabled(s, t, Go) && (s.pcs[t].Update? || s.pcs[t].Link?)
    ensures Nearer(s, Step(s, t, Go), t)
  {
    assert PcOk(s, s.pcs[t]);
  }

  lemma StepGetsNearer(s: State, t: Tid)
    requires Inv(s) && Enabled(s, t, Go)
    ensures Inv(Step(s, t, Go)) && Nearer(s, Step(s, t, Go), t)
  {
    StepKeepsInv(s, t, Go);
    match s.pcs[t]
    case Start(_) => StartGetsNearer(s, t);
    case Walk(c, _, target, _) =>
      if target.Some? && s.heap[target.value].key < c.key { AdvanceGetsNearer(s, t); }
      else if target.Some? && s.heap[target.value].key == c.key { FoundGetsNearer(s, t); }
      else { MissGetsNearer(s, t); }
    case _ => ExchangeGetsNearer(s, t);
  }

  lemma StepsBounded(s: State, pc: Pc)
    requires Inv(s) && PcOk(s, pc)
    ensures StepsLeft(s, pc) <= 2 * |ChainOf(s, pc.c.key)| + 4
  {
    if pc.Walk? && pc.target.Some? { AheadShrinks(s, pc.c.key, pc.target.value); }
  }

  // ----- what a call that is left alone answers -----

  // The "missing" flag of a walk is right about the present map.
  ghost predicate FlagIsRight(s: State, pc: Pc) {
    pc.Start? || (pc.Walk? && (pc.absent ==> pc.c.key !in s.table))
  }

  // Between s and s' thread t has completed the call c it was in.
  ghost predicate Completed(s: State, s': State, t: Tid, c: Call) {
    && t in s'.pcs && s'.pcs[t].Done? && s'.pcs[t].c.op == c.op && s'.pcs[t].c.key == c.key
    && s'.table == (if c.op == Set then s.table[c.key := c.value] else s.table)
    && (c.op != Set && s'.pcs[t].found ==> c.key in s.table && (c.op == Get ==> s'.pcs[t].result == s.table[c.key]))
  }

  // The step ends the call properly, or keeps its arguments, the map, and a flag that is right.
  ghost predicate Continues(s: State, s': State, t: Tid)
    requires t in s.pcs
  {
    var c := s.pcs[t].c;
    var right := FlagIsRight(s, s.pcs[t]) && c.op != Set;
    && t in s'.pcs && s'.pcs[t].c.op == c.op && s'.pcs[t].c.key == c.key && s'.pcs[t].c.value == c.value
    && if s'.pcs[t].Done? then Completed(s, s', t, c) && (right && !s'.pcs[t].found ==> c.key !in s.table)
       else s'.table == s.table && (right ==> FlagIsRight(s', s'.pcs[t]))
  }

  lemma SetContinues(s: State, t: Tid)
    requires Inv(s) && Enabled(s, t, Go) && s.pcs[t].c.op == Set
    ensures Continues(s, Step(s, t, Go), t)
  {
    var c := s.pcs[t].c;
    OwnSetStep(s, t, c.key, c.value);
    SetKeepsCall(s, t);
  }

  lemma SetKeepsCall(s: State, t: Tid)
    requires Enabled(s, t, Go) && s.pcs[t].c.op == Set
    ensures var s' := Step(s, t, Go);
      t in s'.pcs && s'.pcs[t].c.op == Set && s'.pcs[t].c.key == s.pcs[t].c.key && s'.pcs[t].c.value == s.pcs[t].c.value
  {
    match s.pcs[t]
    case Start(_) =>
    case Walk(_, _, _, _) =>
    case Update(_, _, _) =>
    case Link(_, _, _) =>
  }

  lemma ReadContinues(s: State, t: Tid)
    requires Inv(s) && Enabled(s, t, Go) && s.pcs[t].c.op != Set
    ensures Continues(s, Step(s, t, Go), t)
  {
    assert PcOk(s, s.pcs[t]);
    OnlySetChangesMap(s, t, Go);
    NotFoundWasTrue(s, t);
    if s.pcs[t].Walk? {
      FoundIsCurrent(s, t);
      ReadKeepsCall(s, t);
    }
    AbsenceIsObserved(s, t);
  }

  // The call that thread t is in at s has been completed at `goal`, with the right answer.
  ghost predicate Ends(s: State, goal: State, t: Tid) {
    && t in s.pcs && Completed(s, goal, t, s.pcs[t].c)
    && (FlagIsRight(s, s.pcs[t]) && s.pcs[t].c.op != Set && !goal.pcs[t].found ==> s.pcs[t].c.key !in s.table)
  }

  lemma StepContinues(s: State, t: Tid)
    requires Inv(s) && Enabled(s, t, Go)
    ensures Continues(s, Step(s, t, Go), t)
  {
    if s.pcs[t].c.op == Set { SetContinues(s, t); } else { ReadContinues(s, t); }
  }

  ghost predicate Busy(s: State, t: Tid) {
    Inv(s) && t in s.pcs && !s.pcs[t].Done?
  }

  function Left(s: State, t: Tid): nat {
    if t in s.pcs then StepsLeft(s, s.pcs[t]) else 0
  }

  // What the whole call does follows from what its first step and the rest of it do.
  lemma EndsLater(s: State, s1: State, t: Tid, goal: State)
    requires t in s.pcs && Continues(s, s1, t) && !s1.pcs[t].Done? && Ends(s1, goal, t)
    ensures Ends(s, goal, t)
  {
  }

  lemma EndsNow(s: State, s1: State, t: Tid)
    requires t in s.pcs && Continues(s, s1, t) && s1.pcs[t].Done?
    ensures Ends(s, s1, t)
  {
  }

  lemma CallStep(s: State, t: Tid) returns (s1: State)
    requires Busy(s, t)
    ensures OwnStep(s, s1, t) && Inv(s1) && Nearer(s, s1, t) && Left(s, t) > 0
    ensures Continues(s, s1, t)
  {
    assert PcOk(s, s.pcs[t]);
    s1 := Step(s, t, Go);
    StepGetsNearer(s, t);
    StepContinues(s, t);
  }

  lemma CallGetsOn(s: State, t: Tid)
    requires Busy(s, t)
    ensures GetsOn((x, y) => OwnStep(x, y, t), x => Busy(x, t), x => Left(x, t), (x, y) => Ends(x, y, t), s)
  {
    var s1 := CallStep(s, t);
    if s1.pcs[t].Done? {
      EndsNow(s, s1, t);
    } else {
      forall goal | Ends(s1, goal, t) ensures Ends(s, goal, t) { EndsLater(s, s1, t, goal); }
    }
    GetsOnBy((x, y) => OwnStep(x, y, t), x => Busy(x, t), x => Left(x, t), (x, y) => Ends(x, y, t), s, s1);
  }

  lemma CallRuns(s: State, t: Tid) returns (n: nat, goal: State)
    requires Busy(s, t)
    ensures n <= StepsLeft(s, s.pcs[t]) && AloneTo(s, t, n, goal) && Ends(s, goal, t)
  {
    forall x | Busy(x, t)
      ensures GetsOn((x, y) => OwnStep(x, y, t), x => Busy(x, t), x => Left(x, t), (x, y) => Ends(x, y, t), x)
    {
      CallGetsOn(x, t);
    }
    n, goal := Arrives((x, y) => OwnStep(x, y, t), x => Busy(x, t), x => Left(x, t), (x, y) => Ends(x, y, t), s);
  }

  /**
   * Every call ends.  Wherever thread t stands, and whatever others have done meanwhile, if it is left alone
   * its call is done after at most twice the length of its key's chain and four more steps: a Set has then
   * stored its value, and a call that reports the key found reports the present value.
   */
  lemma CallAlone(s: State, t: Tid) returns (n: nat, goal: State)
    requires Inv(s) && t in s.pcs && !s.pcs[t].Done?
    ensures n <= 2 * |ChainOf(s, s.pcs[t].c.key)| + 4 && AloneTo(s, t, n, goal)
    ensures Completed(s, goal, t, s.pcs[t].c)
    ensures FlagIsRight(s, s.pcs[t]) && s.pcs[t].c.op != Set && !goal.pcs[t].found ==> s.pcs[t].c.key !in s.table
  {
    assert PcOk(s, s.pcs[t]);
    StepsBounded(s, s.pcs[t]);
    n, goal := CallRuns(s, t);
  }

  /** A Get or Has that nobody disturbs from its start on reports the key found exactly if the map has it. */
  lemma ReadAlone(s: State, t: Tid, op: Op, key: Key) returns (n: nat, goal: State)
    requires Inv(s) && Enabled(s, t, Begin(op, key, 0)) && op != Set
    ensures n <= 2 * |ChainOf(s, key)| + 4 && AloneTo(Step(s, t, Begin(op, key, 0)), t, n, goal)
    ensures t in goal.pcs && goal.pcs[t].Done? && (goal.pcs[t].found <==> key in s.table)
    ensures op == Get && key in s.table ==> goal.pcs[t].result == s.table[key]
    ensures goal.table == s.table
  {
    StepKeepsInv(s, t, Begin(op, key, 0));
    n, goal := CallAlone(Step(s, t, Begin(op, key, 0)), t);
  }

  /** A Set that nobody disturbs stores its value under its key and touches no other key. */
  lemma SetAlone(s: State, t: Tid, key: Key, value: Value) returns (n: nat, goal: State)
    requires Inv(s) && Enabled(s, t, Begin(Set, key, value))
    ensures n <= 2 * |ChainOf(s, key)| + 4 && AloneTo(Step(s, t, Begin(Set, key, value)), t, n, goal)
    ensures t in goal.pcs && goal.pcs[t].Done? && goal.table == s.table[key := value]
  {
    StepKeepsInv(s, t, Begin(Set, key, value));
    n, goal := CallAlone(Step(s, t, Begin(Set, key, value)), t);
  }
}
