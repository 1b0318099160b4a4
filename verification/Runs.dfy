/** Runs of a transition system: the shape every concurrent component of this project is stated over. */
module Runs {
  ghost predicate StepAt<S>(next: (S, S) -> bool, run: seq<S>, i: nat)
    requires i + 1 < |run|
  {
    next(run[i], run[i + 1])
  }

  // A run starts in an initial state and takes one step of one thread at a time.
  ghost predicate IsRun<S>(init: S -> bool, next: (S, S) -> bool, run: seq<S>) {
    && 0 < |run|
    && init(run[0])
    && forall i :: 0 <= i < |run| - 1 ==> StepAt(next, run, i)
  }

  /** Whatever holds initially and is kept by every step holds along every run. */
  lemma {:induction false} Always<S(!new)>(init: S -> bool, next: (S, S) -> bool, inv: S -> bool, run: seq<S>, i: nat)
    requires forall s :: init(s) ==> inv(s)
    requires forall s, s' :: inv(s) && next(s, s') ==> inv(s')
    requires IsRun(init, next, run)
    requires i < |run|
    ensures inv(run[i])
  {
    if i > 0 {
      Always(init, next, inv, run, i - 1);
      assert StepAt(next, run, i - 1);
    }
  }

  /** A run may be continued by any step. */
  lemma Extend<S(!new)>(init: S -> bool, next: (S, S) -> bool, run: seq<S>, s: S) returns (run': seq<S>)
    requires IsRun(init, next, run) && next(run[|run| - 1], s)
    ensures run' == run + [s] && IsRun(init, next, run')
  {
    run' := run + [s];
    forall i | 0 <= i < |run'| - 1 ensures StepAt(next, run', i) {
      if i < |run| - 1 { assert StepAt(next, run, i); }
    }
  }

  /** From s, n steps lead to the goal. */
  ghost predicate Reaches<S(!new)>(next: (S, S) -> bool, s: S, n: nat, goal: S) {
    if n == 0 then s == goal else exists s1 :: next(s, s1) && Reaches(next, s1, n - 1, goal)
  }

  lemma FirstStep<S(!new)>(next: (S, S) -> bool, s: S, s1: S, n: nat, goal: S)
    requires next(s, s1) && Reaches(next, s1, n, goal)
    ensures Reaches(next, s, n + 1, goal)
  {
  }

  lemma OneStep<S(!new)>(next: (S, S) -> bool, s: S, goal: S)
    requires next(s, goal)
    ensures Reaches(next, s, 1, goal)
  {
    assert Reaches(next, goal, 0, goal);
  }

  lemma {:induction false} ReachesOn<S(!new)>(next: (S, S) -> bool, s: S, n: nat, mid: S, m: nat, goal: S)
    requires Reaches(next, s, n, mid) && Reaches(next, mid, m, goal)
    ensures Reaches(next, s, n + m, goal)
    decreases n
  {
    if n > 0 {
      var s1 :| next(s, s1) && Reaches(next, s1, n - 1, mid);
      ReachesOn(next, s1, n - 1, mid, m, goal);
    }
  }

  // From s a step leads to the end, or to a state that has less left and from where every end is one for s.
  ghost predicate GetsOn<S(!new)>(next: (S, S) -> bool, busy: S -> bool, left: S -> nat, ends: (S, S) -> bool, s: S) {
    exists s1 :: next(s, s1) &&
      if busy(s1) then left(s1) < left(s) && forall goal :: ends(s1, goal) ==> ends(s, goal)
      else left(s) > 0 && ends(s, s1)
  }

  lemma GetsOnBy<S(!new)>(next: (S, S) -> bool, busy: S -> bool, left: S -> nat, ends: (S, S) -> bool, s: S, s1: S)
    requires next(s, s1) && left(s) > 0
    requires busy(s1) ==> left(s1) < left(s) && forall goal :: ends(s1, goal) ==> ends(s, goal)
    requires !busy(s1) ==> ends(s, s1)
    ensures GetsOn(next, busy, left, ends, s)
  {
  }

  /** What gets on from every busy state comes to an end, in no more steps than are left. */
  lemma {:induction false} Arrives<S(!new)>(next: (S, S) -> bool, busy: S -> bool, left: S -> nat,
                                            ends: (S, S) -> bool, s: S) returns (n: nat, goal: S)
    requires busy(s) && forall s' :: busy(s') ==> GetsOn(next, busy, left, ends, s')
    ensures n <= left(s) && Reaches(next, s, n, goal) && ends(s, goal)
    decreases left(s)
  {
    assert GetsOn(next, busy, left, ends, s);
    var s1 :| next(s, s1) &&
      if busy(s1) then left(s1) < left(s) && forall goal :: ends(s1, goal) ==> ends(s, goal)
      else left(s) > 0 && ends(s, s1);
    if busy(s1) {
      n, goal := Arrives(next, busy, left, ends, s1);
      FirstStep(next, s, s1, n, goal);
      n := n + 1;
    } else {
      n, goal := 1, s1;
      OneStep(next, s, s1);
    }
  }
}
