/** The reference count of a shared segment: processes that open it count themselves in and count
    themselves out with a load and a compare-and-swap. */
module RefCount {
  import opened Runs

  type Id = nat

  datatype Pc =
    | Away
    | Holding            // has counted itself in
    | CloseLoad          // about to load the count
    | CloseSwap(seen: nat)  // about to swap seen for seen - 1

  datatype State = State(count: int, pc: map<Id, Pc>)

  ghost predicate Init(s: State) {
    s.count == 0 && forall t :: t in s.pc ==> s.pc[t] == Away
  }

  ghost predicate Step(s: State, s': State, t: Id) {
    && t in s.pc
    && match s.pc[t]
       case Away => s' == State(s.count + 1, s.pc[t := Holding])
       case Holding => s' == s.(pc := s.pc[t := CloseLoad])
       case CloseLoad => s.count >= 0 && s' == s.(pc := s.pc[t := if s.count == 0 then Away else CloseSwap(s.count)])
       case CloseSwap(n) =>
         // a failed swap loads the count again; the strong swap fails only on another count
         if s.count == n then s' == State(n - 1, s.pc[t := Away])
         else s.count >= 0 && s' == s.(pc := s.pc[t := if s.count == 0 then Away else CloseSwap(s.count)])
  }

  ghost predicate Next(s: State, s': State) { exists t :: Step(s, s', t) }

  function Counted(pc: map<Id, Pc>): set<Id> { set t | t in pc && pc[t] != Away }

  /** The count is the number of processes that opened the segment and have not finished closing. */
  ghost predicate Inv(s: State) {
    && s.count == |Counted(s.pc)|
    && forall t :: t in s.pc && s.pc[t].CloseSwap? ==> s.pc[t].seen > 0
  }

  lemma CountedAfter(pc: map<Id, Pc>, t: Id, p: Pc)
    requires t in pc
    ensures |Counted(pc[t := p])| == |Counted(pc)| + (if p != Away then 1 else 0) - (if pc[t] != Away then 1 else 0)
  {
    var rest := Counted(pc) - {t};
    assert Counted(pc[t := p]) == if p != Away then rest + {t} else rest;
    assert Counted(pc) == if pc[t] != Away then rest + {t} else rest;
  }

  lemma StepInv(s: State, s': State, t: Id)
    requires Inv(s) && Step(s, s', t)
    ensures Inv(s')
  {
    assert s.pc[t] != Away ==> t in Counted(s.pc);
    CountedAfter(s.pc, t, s'.pc[t]);
    assert s'.pc == s.pc[t := s'.pc[t]];
  }

  lemma Safety(run: seq<State>, i: nat)
    requires IsRun(Init, Next, run) && i < |run|
    ensures Inv(run[i])
  {
    forall s | Init(s) ensures Inv(s) { assert Counted(s.pc) == {}; }
    forall s, s' | Inv(s) && Next(s, s') ensures Inv(s') {
      var t :| Step(s, s', t);
      StepInv(s, s', t);
    }
    Always(Init, Next, Inv, run, i);
  }

  /** In every run the count is not negative, is positive while anybody holds the segment, and a process
      that stops holding it has lowered the count by exactly one: none gives up at zero. */
  lemma ClosingCountsOnce(run: seq<State>, i: nat, t: Id)
    requires IsRun(Init, Next, run) && i + 1 < |run| && t in run[i].pc && t in run[i + 1].pc
    ensures run[i].count >= 0 && (run[i].pc[t] != Away ==> run[i].count > 0)
    ensures run[i].pc[t] != Away && run[i + 1].pc[t] == Away ==> run[i + 1].count == run[i].count - 1
  {
    Safety(run, i);
    Safety(run, i + 1);
    assert run[i].pc[t] != Away ==> t in Counted(run[i].pc);
    assert StepAt(Next, run, i);
    var u :| Step(run[i], run[i + 1], u);
  }

  /** A process that holds the segment begins to close it; left alone while it closes it has counted itself
      out after two steps, or after one if the count it loaded is still the present one. */
  lemma ClosingAlone(s: State, s1: State, s2: State, t: Id)
    requires Inv(s) && Step(s, s1, t) && Step(s1, s2, t) && s.pc[t] != Away
    ensures s.count > 0
    ensures s.pc[t] == Holding ==> s1 == s.(pc := s.pc[t := CloseLoad])
    ensures s.pc[t] == CloseSwap(s.count) ==> s1 == State(s.count - 1, s.pc[t := Away])
    ensures s.pc[t] != Holding && s.pc[t] != CloseSwap(s.count) ==> s2 == State(s.count - 1, s.pc[t := Away])
  {
    assert t in Counted(s.pc);
  }
}
