/**
 * The concurrent object pool: a free list whose head carries a count tag, as a step machine.
 *
 * Every atomic load, compare-exchange and access to a node's `next` link is one step of one thread.
 * Links are overwritten in place, by the thread that gives a node back.
 */
module ObjectPool {
  import opened Options
  import opened Runs

  type Tid = nat
  type Node = nat

  datatype Head = Head(count: nat, node: Option<Node>)

  datatype Pc =
    | GetLoad
    | GetNext(seen: Head)                          // about to test `seen` for null and read its link
    | GetCas(seen: Head, link: Option<Node>)
    | GetDone(res: Option<Node>)
    | ReleaseLoad(node: Node)
    | ReleaseLink(node: Node, seen: Head)          // about to write node's link
    | ReleaseCas(node: Node, seen: Head)
    | ReleaseDone
  {
    predicate Idle() { GetDone? || ReleaseDone? }
    predicate Pushes(n: Node) { (ReleaseLoad? || ReleaseLink? || ReleaseCas?) && node == n }
  }

  // `next` and `free` are shared memory.  Three histories are kept beside them: the nodes of the free
  // list from the head on, the nodes handed out, and the head node of every version of `free`.
  datatype State = State(
    next: seq<Option<Node>>, free: Head, pcs: map<Tid, Pc>,
    chain: seq<Node>, held: set<Node>, versions: seq<Option<Node>>)

  datatype Action = CallGet | CallRelease(n: Node) | Go(spurious: bool)

  // Node i links to node i + 1, the last one to nothing.
  predicate FreshLinks(next: seq<Option<Node>>) {
    && |next| > 0
    && (forall i :: 0 <= i < |next| - 1 ==> next[i] == Some(i + 1))
    && next[|next| - 1] == None
  }

  /** The constructor links the arena into one chain. */
  method LinkArena(capacity: nat) returns (links: array<Option<Node>>)
    requires capacity > 0
    ensures fresh(links) && links.Length == capacity && FreshLinks(links[..])
  {
    links := new Option<Node>[capacity];
    for i := 0 to capacity - 1
      invariant forall j :: 0 <= j < i ==> links[j] == Some(j + 1)
    {
      links[i] := Some(i + 1);
    }
    links[capacity - 1] := None;
  }

  predicate Init(s: State) {
    && FreshLinks(s.next)
    && s.free == Head(0, Some(0)) && s.versions == [Some(0)]
    && s.pcs == map[] && s.held == {}
    && |s.chain| == |s.next| && forall i :: 0 <= i < |s.chain| ==> s.chain[i] == i
  }

  // Callers give back only what they hold.
  predicate Enabled(s: State, t: Tid, a: Action) {
    match a
    case CallGet => t in s.pcs ==> s.pcs[t].Idle()
    case CallRelease(n) => (t in s.pcs ==> s.pcs[t].Idle()) && n in s.held
    case Go(_) =>
      t in s.pcs && !s.pcs[t].Idle() &&
      match s.pcs[t]
      case GetNext(seen) => seen.node.Some? ==> seen.node.value < |s.next|
      case ReleaseLink(n, _) => n < |s.next|
      case _ => true
  }

  function To(s: State, t: Tid, pc: Pc): State {
    s.(pcs := s.pcs[t := pc])
  }

  function Swing(s: State, node: Option<Node>): State {
    s.(free := Head(s.free.count + 1, node), versions := s.versions + [node])
  }

  function Step(s: State, t: Tid, a: Action): State
    requires Enabled(s, t, a)
  {
    match a
    case CallGet => To(s, t, GetLoad)
    case CallRelease(n) => To(s, t, ReleaseLoad(n)).(held := s.held - {n})
    case Go(spurious) =>
      match s.pcs[t]
      case GetLoad => To(s, t, GetNext(s.free))
      case GetNext(seen) =>
        if seen.node.None? then To(s, t, GetDone(None)) else To(s, t, GetCas(seen, s.next[seen.node.value]))
      case GetCas(seen, link) =>
        if !spurious && s.free == seen && seen.node.Some? then
          Swing(To(s, t, GetDone(seen.node)), link)
            .(held := s.held + {seen.node.value}, chain := if s.chain == [] then [] else s.chain[1..])
        else To(s, t, GetNext(s.free))
      case ReleaseLoad(n) => To(s, t, ReleaseLink(n, s.free))
      case ReleaseLink(n, seen) => To(s, t, ReleaseCas(n, seen)).(next := s.next[n := seen.node])
      case ReleaseCas(n, seen) =>
        if !spurious && s.free == seen then
          Swing(To(s, t, ReleaseDone), Some(n)).(chain := [n] + s.chain)
        else To(s, t, ReleaseLink(n, s.free))
      case GetDone(_) => s
      case ReleaseDone => s
  }

  ghost predicate Next(s: State, s': State) {
    exists t, a :: Enabled(s, t, a) && s' == Step(s, t, a)
  }

  // ----- what every reachable state satisfies -----

  function At(chain: seq<Node>, i: nat): Option<Node> {
    if i < |chain| then Some(chain[i]) else None
  }

  // Following the links from the head walks exactly `chain`, which repeats no node.
  predicate Walks(next: seq<Option<Node>>, head: Option<Node>, chain: seq<Node>) {
    && (forall i :: 0 <= i < |chain| ==> chain[i] < |next|)
    && head == At(chain, 0)
    && (forall i :: 0 <= i < |chain| ==> next[chain[i]] == At(chain, i + 1))
    && (forall i, j :: 0 <= i < j < |chain| ==> chain[i] != chain[j])
  }

  predicate Linked(s: State) {
    Walks(s.next, s.free.node, s.chain)
  }

  predicate Versions(s: State) {
    |s.versions| == s.free.count + 1 && s.versions[s.free.count] == s.free.node
  }

  predicate Loaded(s: State, seen: Head) {
    seen.count < |s.versions| && s.versions[seen.count] == seen.node
  }

  predicate PcOk(s: State, pc: Pc)
    requires Linked(s) && Versions(s)
  {
    match pc
    case GetNext(seen) => Loaded(s, seen) && (seen.node.Some? ==> seen.node.value < |s.next|)
    case GetCas(seen, link) =>
      && Loaded(s, seen) && seen.node.Some? && seen.node.value < |s.next|
      && (seen.count == s.free.count ==> link == s.next[seen.node.value])
    case ReleaseLink(n, seen) => Loaded(s, seen)
    case ReleaseCas(n, seen) => Loaded(s, seen) && n < |s.next| && s.next[n] == seen.node
    case _ => true
  }

  ghost predicate Pushed(s: State, n: Node) {
    exists t :: t in s.pcs && s.pcs[t].Pushes(n)
  }

  // Each node is free, handed out, or being given back by one thread, and only one of these.
  ghost predicate Partition(s: State) {
    && (forall n: Node :: n < |s.next| <==> n in s.chain || n in s.held || Pushed(s, n))
    && (forall n: Node :: n in s.chain ==> n !in s.held)
    && (forall t, n :: t in s.pcs && s.pcs[t].Pushes(n) ==> n !in s.chain && n !in s.held)
    && (forall t, u, n :: t in s.pcs && u in s.pcs && s.pcs[t].Pushes(n) && s.pcs[u].Pushes(n) ==> t == u)
  }

  ghost predicate Inv(s: State) {
    && Linked(s) && Versions(s) && Partition(s)
    && forall t :: t in s.pcs ==> PcOk(s, s.pcs[t])
  }

  // ----- every step keeps it -----

  lemma PushersElsewhere(s: State, s': State, t: Tid)
    requires t in s'.pcs && s'.pcs == s.pcs[t := s'.pcs[t]]
    requires forall n :: s'.pcs[t].Pushes(n) <==> t in s.pcs && s.pcs[t].Pushes(n)
    ensures forall n :: Pushed(s', n) <==> Pushed(s, n)
  {
    forall n ensures Pushed(s', n) <==> Pushed(s, n) {
      if Pushed(s, n) {
        var u :| u in s.pcs && s.pcs[u].Pushes(n);
        assert u in s'.pcs && s'.pcs[u].Pushes(n);
      }
    }
  }

  lemma QuietStepKeepsInv(s: State, t: Tid, a: Action)
    requires Inv(s) && Enabled(s, t, a)
    requires a.CallGet? || (a.Go? && (s.pcs[t].GetLoad? || s.pcs[t].GetNext? || s.pcs[t].ReleaseLoad?))
    ensures Inv(Step(s, t, a))
  {
    PushersElsewhere(s, Step(s, t, a), t);
  }

  lemma CallReleaseKeepsInv(s: State, t: Tid, n: Node)
    requires Inv(s) && Enabled(s, t, CallRelease(n))
    ensures Inv(Step(s, t, CallRelease(n)))
  {
    var s' := Step(s, t, CallRelease(n));
    forall m: Node ensures Pushed(s', m) <==> m == n || Pushed(s, m) {
      if m == n { assert s'.pcs[t].Pushes(m); }
      if Pushed(s, m) {
        var u :| u in s.pcs && s.pcs[u].Pushes(m);
        assert u in s'.pcs && s'.pcs[u].Pushes(m);
      }
    }
  }

  lemma RestMembers(chain: seq<Node>, m: Node)
    requires chain != [] && forall i, j :: 0 <= i < j < |chain| ==> chain[i] != chain[j]
    ensures m in chain[1..] <==> m in chain && m != chain[0]
  {
    if m in chain && m != chain[0] {
      var i :| 0 <= i < |chain| && chain[i] == m;
      assert chain[1..][i - 1] == m;
    }
  }

  lemma WalksRest(next: seq<Option<Node>>, head: Option<Node>, chain: seq<Node>)
    requires Walks(next, head, chain) && chain != []
    ensures Walks(next, next[chain[0]], chain[1..])
    ensures forall m :: m in chain[1..] <==> m in chain && m != chain[0]
  {
    var rest := chain[1..];
    assert forall i :: 0 <= i < |rest| ==> rest[i] == chain[i + 1];
    forall i | 0 <= i < |rest| ensures next[rest[i]] == At(rest, i + 1) {
      assert next[chain[i + 1]] == At(chain, i + 2);
    }
    assert next[chain[0]] == At(chain, 0 + 1);
    forall m ensures m in rest <==> m in chain && m != chain[0] { RestMembers(chain, m); }
  }

  lemma WalksPushed(next: seq<Option<Node>>, head: Option<Node>, chain: seq<Node>, n: Node)
    requires Walks(next, head, chain) && n !in chain && n < |next| && next[n] == head
    ensures Walks(next, Some(n), [n] + chain)
  {
    var more := [n] + chain;
    forall i | 0 <= i < |more| ensures more[i] < |next| && next[more[i]] == At(more, i + 1) {
      if i > 0 { assert more[i] == chain[i - 1] && next[chain[i - 1]] == At(chain, i); }
    }
  }

  lemma WalksElsewhere(next: seq<Option<Node>>, head: Option<Node>, chain: seq<Node>, n: Node, link: Option<Node>)
    requires Walks(next, head, chain) && n !in chain && n < |next|
    ensures Walks(next[n := link], head, chain)
  {
    var next' := next[n := link];
    forall i | 0 <= i < |chain| ensures next'[chain[i]] == At(chain, i + 1) {
      assert chain[i] in chain;
    }
  }

  lemma LinkKeepsInv(s: State, t: Tid, a: Action)
    requires Inv(s) && Enabled(s, t, a) && a.Go? && s.pcs[t].ReleaseLink?
    ensures Inv(Step(s, t, a))
  {
    var s' := Step(s, t, a);
    var n := s.pcs[t].node;
    assert s.pcs[t].Pushes(n);
    PushersElsewhere(s, s', t);
    WalksElsewhere(s.next, s.free.node, s.chain, n, s.pcs[t].seen.node);
    forall u | u in s'.pcs ensures PcOk(s', s'.pcs[u]) {
      if u != t {
        assert PcOk(s, s.pcs[u]);
        if s.pcs[u].GetCas? && s.pcs[u].seen.count == s.free.count {
          assert s.chain[0] == s.pcs[u].seen.node.value;
        }
        if s.pcs[u].ReleaseCas? { assert s.pcs[u].Pushes(s.pcs[u].node); }
      }
    }
  }

  // After the head moved on, everything loaded before is one version behind.
  lemma SwingKeepsPcs(s: State, s': State, t: Tid)
    requires Linked(s) && Versions(s) && Linked(s') && Versions(s')
    requires forall u :: u in s.pcs ==> PcOk(s, s.pcs[u])
    requires s'.next == s.next && s'.free.count == s.free.count + 1 && s.versions <= s'.versions
    requires t in s'.pcs && s'.pcs == s.pcs[t := s'.pcs[t]] && s'.pcs[t].Idle()
    ensures forall u :: u in s'.pcs ==> PcOk(s', s'.pcs[u])
  {
    forall u | u in s'.pcs ensures PcOk(s', s'.pcs[u]) {
      if u != t { assert PcOk(s, s.pcs[u]); }
    }
  }

  lemma PopKeepsInv(s: State, t: Tid, a: Action)
    requires Inv(s) && Enabled(s, t, a) && a.Go? && s.pcs[t].GetCas?
    ensures Inv(Step(s, t, a))
    ensures var s' := Step(s, t, a); s'.free != s.free ==>
      && s.chain != [] && s'.pcs[t] == GetDone(Some(s.chain[0]))
      && s'.held == s.held + {s.chain[0]} && s'.chain == s.chain[1..]
  {
    var s' := Step(s, t, a);
    PushersElsewhere(s, s', t);
    assert PcOk(s, s.pcs[t]);
    if s'.free != s.free {
      assert s.free.node == At(s.chain, 0);
      WalksRest(s.next, s.free.node, s.chain);
      assert s.pcs[t].link == s.next[s.chain[0]];
      SwingKeepsPcs(s, s', t);
    }
  }

  lemma PushKeepsInv(s: State, t: Tid, a: Action)
    requires Inv(s) && Enabled(s, t, a) && a.Go? && s.pcs[t].ReleaseCas?
    ensures Inv(Step(s, t, a))
  {
    var s' := Step(s, t, a);
    var n := s.pcs[t].node;
    assert s.pcs[t].Pushes(n) && PcOk(s, s.pcs[t]);
    if s'.free == s.free {
      PushersElsewhere(s, s', t);
    } else {
      WalksPushed(s.next, s.free.node, s.chain, n);
      SwingKeepsPcs(s, s', t);
      PushEndsPushing(s, s', t, n);
    }
  }

  lemma PushEndsPushing(s: State, s': State, t: Tid, n: Node)
    requires Partition(s) && t in s.pcs && s.pcs[t].Pushes(n)
    requires s'.next == s.next && s'.held == s.held && s'.chain == [n] + s.chain && s'.pcs == s.pcs[t := ReleaseDone]
    ensures Partition(s')
  {
    forall m: Node ensures Pushed(s', m) <==> m != n && Pushed(s, m) {
      if m != n && Pushed(s, m) {
        var u :| u in s.pcs && s.pcs[u].Pushes(m);
        assert u in s'.pcs && s'.pcs[u].Pushes(m);
      }
    }
    assert Pushed(s, n);
    forall m: Node ensures m in s'.chain <==> m == n || m in s.chain {
      if m == n { assert s'.chain[0] == n; }
    }
  }

  lemma StepKeepsInv(s: State, t: Tid, a: Action)
    requires Inv(s) && Enabled(s, t, a)
    ensures Inv(Step(s, t, a))
  {
    if a.CallRelease? { CallReleaseKeepsInv(s, t, a.n); }
    else if a.CallGet? { QuietStepKeepsInv(s, t, a); }
    else {
      var pc := s.pcs[t];
      if pc.GetCas? { PopKeepsInv(s, t, a); }
      else if pc.ReleaseLink? { LinkKeepsInv(s, t, a); }
      else if pc.ReleaseCas? { PushKeepsInv(s, t, a); }
      else { QuietStepKeepsInv(s, t, a); }
    }
  }

  // ----- the theorems -----

  /** In every state of every run, the free list is a simple chain and each node is in one place. */
  lemma Safety(run: seq<State>, i: nat)
    requires IsRun(Init, Next, run) && i < |run|
    ensures Inv(run[i])
  {
    forall s | Init(s) ensures Inv(s) {
      forall n: Node ensures n < |s.next| <==> n in s.chain {
        if n < |s.next| { assert s.chain[n] == n; }
      }
    }
    forall s, s' | Inv(s) && Next(s, s') ensures Inv(s') {
      var t, a :| Enabled(s, t, a) && s' == Step(s, t, a);
      StepKeepsInv(s, t, a);
    }
    Always(Init, Next, Inv, run, i);
  }

  /**
   * The same for one node: it is on the free chain, which the links walk from the head without coming
   * back, or handed out, or being pushed by exactly one thread, and only one of these.
   */
  lemma EachNodeInOnePlace(run: seq<State>, i: nat, n: Node)
    requires IsRun(Init, Next, run) && i < |run| && n < |run[i].next|
    ensures var s := run[i];
      && (n in s.chain || n in s.held || exists t :: t in s.pcs && s.pcs[t].Pushes(n))
      && !(n in s.chain && n in s.held)
      && (forall t :: t in s.pcs && s.pcs[t].Pushes(n) ==> n !in s.chain && n !in s.held)
      && (forall t, u :: t in s.pcs && u in s.pcs && s.pcs[t].Pushes(n) && s.pcs[u].Pushes(n) ==> t == u)
    ensures var s := run[i];
      && s.free.node == At(s.chain, 0)
      && (forall j :: 0 <= j < |s.chain| ==> s.chain[j] < |s.next| && s.next[s.chain[j]] == At(s.chain, j + 1))
      && (forall j, k :: 0 <= j < k < |s.chain| ==> s.chain[j] != s.chain[k])
  {
    Safety(run, i);
    var s := run[i];
    assert n in s.chain || n in s.held || Pushed(s, n);
  }

  /**
   * A successful compare-exchange hands out the first free node, which nobody holds and nobody is
   * giving back, and leaves the rest of the free list: the link read earlier is still the current one,
   * however often the node was handed out and returned in between.
   */
  lemma HandsOutFreeNode(s: State, t: Tid, a: Action)
    requires Inv(s) && Enabled(s, t, a) && a.Go? && s.pcs[t].GetCas?
    requires Step(s, t, a).pcs[t].GetDone?
    ensures s.chain != [] && Step(s, t, a).pcs[t] == GetDone(Some(s.chain[0]))
    ensures s.chain[0] !in s.held && !Pushed(s, s.chain[0])
    ensures s.pcs[t].link == s.next[s.chain[0]]
    ensures Step(s, t, a).chain == s.chain[1..] && Step(s, t, a).held == s.held + {s.chain[0]}
  {
    PopKeepsInv(s, t, a);
    assert PcOk(s, s.pcs[t]);
    assert s.chain[0] in s.chain;
  }

  /** A completed release makes its node the first free one; no step but these two changes the free list. */
  lemma OnlyGetAndReleaseMoveNodes(s: State, t: Tid, a: Action)
    requires Inv(s) && Enabled(s, t, a)
    ensures var s' := Step(s, t, a);
      || (s'.chain == s.chain && s'.free == s.free)
      || (a.Go? && s.pcs[t].GetCas? && s.chain != [] && s'.chain == s.chain[1..]
          && s'.pcs[t] == GetDone(Some(s.chain[0])))
      || (a.Go? && s.pcs[t].ReleaseCas? && s'.chain == [s.pcs[t].node] + s.chain && s'.pcs[t] == ReleaseDone)
    ensures Step(s, t, a).free.count >= s.free.count
  {
    if a.Go? && s.pcs[t].GetCas? { PopKeepsInv(s, t, a); }
  }

  /** Get answers "none left" only if the free list was empty at the instant it last loaded the head. */
  lemma NoneMeansEmptyAtLoad(s: State, t: Tid, spurious: bool)
    requires Inv(s) && Enabled(s, t, Go(spurious))
    ensures s.pcs[t].GetNext? && Step(s, t, Go(spurious)).pcs[t] == GetDone(None) ==>
              s.versions[s.pcs[t].seen.count] == None
    ensures Step(s, t, Go(spurious)).pcs[t].GetNext? ==>
              && Step(s, t, Go(spurious)).pcs[t].seen == s.free
              && (Step(s, t, Go(spurious)).pcs[t].seen.node == None <==> s.chain == [])
  {
    assert PcOk(s, s.pcs[t]);
  }

  // ----- every call gets done -----

  // A step of a call that thread t is in, with no exchange failing without cause.
  ghost predicate OwnStep(s: State, s': State, t: Tid) {
    Enabled(s, t, Go(false)) && s' == Step(s, t, Go(false))
  }

  ghost predicate Busy(s: State, t: Tid) {
    Inv(s) && t in s.pcs && !s.pcs[t].Idle()
  }

  // How many steps a call needs at most when it is left alone; a head that has moved costs it two more.
  function Left(s: State, t: Tid): nat {
    if t !in s.pcs then 0
    else match s.pcs[t]
      case GetLoad => 3
      case GetNext(seen) => if seen == s.free then 2 else 4
      case GetCas(seen, _) => if seen == s.free then 1 else 3
      case ReleaseLoad(_) => 3
      case ReleaseLink(_, seen) => if seen == s.free then 2 else 4
      case ReleaseCas(_, seen) => if seen == s.free then 1 else 3
      case _ => 0
  }

  // Has loaded an empty head, and so is about to answer "none left".
  predicate SawNone(pc: Pc) { pc.GetNext? && pc.seen.node == None }

  // The call that thread t is in at s is over at `goal`: a Get has taken the first free node, if there is one
  // and it has not already seen an empty list; a release has put its node in front of the free ones.
  predicate Ends(s: State, goal: State, t: Tid) {
    && t in s.pcs && t in goal.pcs
    && match s.pcs[t]
       case ReleaseLoad(n) => goal.pcs[t] == ReleaseDone && goal.chain == [n] + s.chain
       case ReleaseLink(n, _) => goal.pcs[t] == ReleaseDone && goal.chain == [n] + s.chain
       case ReleaseCas(n, _) => goal.pcs[t] == ReleaseDone && goal.chain == [n] + s.chain
       case pc =>
         if s.chain == [] || SawNone(pc) then goal.pcs[t] == GetDone(None) && goal.chain == s.chain
         else goal.pcs[t] == GetDone(Some(s.chain[0])) && goal.chain == s.chain[1..]
  }

  lemma GetStep(s: State, t: Tid) returns (s1: State)
    requires Busy(s, t) && (s.pcs[t].GetLoad? || s.pcs[t].GetNext? || s.pcs[t].GetCas?)
    ensures OwnStep(s, s1, t) && Inv(s1) && t in s1.pcs && Left(s, t) > 0
    ensures s1.pcs[t].GetDone? ==> Ends(s, s1, t)
    ensures !s1.pcs[t].GetDone? ==>
              && (s1.pcs[t].GetNext? || s1.pcs[t].GetCas?) && s1.chain == s.chain && Left(s1, t) < Left(s, t)
              && (SawNone(s1.pcs[t]) ==> s.chain == []) && !SawNone(s.pcs[t])
  {
    assert PcOk(s, s.pcs[t]);
    s1 := Step(s, t, Go(false));
    StepKeepsInv(s, t, Go(false));
    if s.pcs[t].GetCas? { PopKeepsInv(s, t, Go(false)); }
  }

  lemma ReleaseStep(s: State, t: Tid) returns (s1: State)
    requires Busy(s, t) && (s.pcs[t].ReleaseLoad? || s.pcs[t].ReleaseLink? || s.pcs[t].ReleaseCas?)
    ensures OwnStep(s, s1, t) && Inv(s1) && t in s1.pcs && Left(s, t) > 0
    ensures s1.pcs[t].Idle() ==> Ends(s, s1, t)
    ensures !s1.pcs[t].Idle() ==>
              && (s1.pcs[t].ReleaseLink? || s1.pcs[t].ReleaseCas?) && s1.pcs[t].node == s.pcs[t].node
              && s1.chain == s.chain && Left(s1, t) < Left(s, t)
  {
    PusherOk(s, t);
    s1 := Step(s, t, Go(false));
    StepKeepsInv(s, t, Go(false));
    ReleaseMoves(s, t);
  }

  lemma PusherOk(s: State, t: Tid)
    requires Partition(s) && t in s.pcs && (s.pcs[t].ReleaseLoad? || s.pcs[t].ReleaseLink? || s.pcs[t].ReleaseCas?)
    ensures s.pcs[t].node < |s.next|
  {
    assert s.pcs[t].Pushes(s.pcs[t].node);
    assert Pushed(s, s.pcs[t].node);
  }

  lemma ReleaseMoves(s: State, t: Tid)
    requires Enabled(s, t, Go(false)) && (s.pcs[t].ReleaseLoad? || s.pcs[t].ReleaseLink? || s.pcs[t].ReleaseCas?)
    ensures var s1 := Step(s, t, Go(false));
      && t in s1.pcs && Left(s, t) > 0
      && if s1.pcs[t].Idle() then Ends(s, s1, t)
         else (s1.pcs[t].ReleaseLink? || s1.pcs[t].ReleaseCas?) && s1.pcs[t].node == s.pcs[t].node
              && s1.chain == s.chain && Left(s1, t) < Left(s, t)
  {
  }

  lemma CallGetsOn(s: State, t: Tid)
    requires Busy(s, t)
    ensures GetsOn((x, y) => OwnStep(x, y, t), x => Busy(x, t), x => Left(x, t), (x, y) => Ends(x, y, t), s)
  {
    var s1;
    if s.pcs[t].GetLoad? || s.pcs[t].GetNext? || s.pcs[t].GetCas? {
      s1 := GetStep(s, t);
    } else {
      s1 := ReleaseStep(s, t);
    }
    GetsOnBy((x, y) => OwnStep(x, y, t), x => Busy(x, t), x => Left(x, t), (x, y) => Ends(x, y, t), s, s1);
  }

  /**
   * Every call ends.  Wherever thread t stands, and whatever others have done meanwhile, if it is left alone it
   * is done within four steps: a Get with the first free node, unless there is none or it has already seen
   * an empty list, and a release with its node the first free one.
   */
  lemma CallAlone(s: State, t: Tid) returns (n: nat, goal: State)
    requires Inv(s) && t in s.pcs && !s.pcs[t].Idle()
    ensures n <= 4 && Reaches((x, y) => OwnStep(x, y, t), s, n, goal) && Ends(s, goal, t)
  {
    forall x | Busy(x, t)
      ensures GetsOn((x, y) => OwnStep(x, y, t), x => Busy(x, t), x => Left(x, t), (x, y) => Ends(x, y, t), x)
    {
      CallGetsOn(x, t);
    }
    n, goal := Arrives((x, y) => OwnStep(x, y, t), x => Busy(x, t), x => Left(x, t), (x, y) => Ends(x, y, t), s);
  }

  function Members(chain: seq<Node>): set<Node> {
    set n | n in chain
  }

  lemma {:induction false} DistinctCount(chain: seq<Node>)
    requires forall i, j :: 0 <= i < j < |chain| ==> chain[i] != chain[j]
    ensures |Members(chain)| == |chain|
  {
    if chain != [] {
      var rest := chain[1..];
      DistinctCount(rest);
      assert forall i :: 0 <= i < |rest| ==> rest[i] == chain[i + 1];
      forall m ensures m in Members(chain) <==> m in Members(rest) + {chain[0]} { RestMembers(chain, m); }
      assert Members(chain) == Members(rest) + {chain[0]};
      RestMembers(chain, chain[0]);
    } else {
      assert Members(chain) == {};
    }
  }

  function Below(n: nat): (nodes: set<Node>)
    ensures forall m: Node :: m in nodes <==> m < n
    ensures |nodes| == n
  {
    if n == 0 then {} else Below(n - 1) + {n - 1}
  }

  ghost function BeingPushed(s: State): set<Node> {
    set n | n in Below(|s.next|) && Pushed(s, n)
  }

  /** No node is ever lost or duplicated: free, held and in-transit nodes always add up to the capacity. */
  lemma Conservation(run: seq<State>, i: nat)
    requires IsRun(Init, Next, run) && i < |run|
    ensures |run[i].chain| + |run[i].held| + |BeingPushed(run[i])| == |run[i].next| == |run[0].next|
  {
    Safety(run, i);
    CapacityFixed(run, i);
    var s := run[i];
    DistinctCount(s.chain);
    NodesInPlaces(s);
  }

  lemma NodesInPlaces(s: State)
    requires Partition(s)
    ensures Below(|s.next|) == Members(s.chain) + s.held + BeingPushed(s)
    ensures |Members(s.chain)| + |s.held| + |BeingPushed(s)| == |s.next|
  {
    var free, pushed, all := Members(s.chain), BeingPushed(s), Below(|s.next|);
    forall n ensures n in all <==> n in free + s.held + pushed { NodeInPlaces(s, n); }
    forall n ensures !(n in free && n in s.held) && !((n in free || n in s.held) && n in pushed) {
      NodeInPlaces(s, n);
    }
    SumOfThree(all, free, s.held, pushed);
  }

  lemma NodeInPlaces(s: State, n: Node)
    requires Partition(s)
    ensures n < |s.next| <==> n in s.chain || n in s.held || n in BeingPushed(s)
    ensures !(n in s.chain && n in s.held) && !((n in s.chain || n in s.held) && n in BeingPushed(s))
  {
    if n < |s.next| { assert n in s.chain || n in s.held || Pushed(s, n); }
  }

  lemma SumOfThree(all: set<Node>, a: set<Node>, b: set<Node>, c: set<Node>)
    requires forall n :: n in all <==> n in a + b + c
    requires forall n :: !(n in a && n in b) && !((n in a || n in b) && n in c)
    ensures all == a + b + c && |a| + |b| + |c| == |all|
  {
    assert all == a + b + c;
    assert |a + b| == |a| + |b|;
  }

  lemma {:induction false} CapacityFixed(run: seq<State>, i: nat)
    requires IsRun(Init, Next, run) && i < |run|
    ensures |run[i].next| == |run[0].next|
  {
    if i > 0 {
      CapacityFixed(run, i - 1);
      assert StepAt(Next, run, i - 1);
    }
  }

  // One more step of thread t at the end of a run.
  lemma Advance(run: seq<State>, t: Tid, a: Action) returns (run': seq<State>)
    requires IsRun(Init, Next, run) && Enabled(run[|run| - 1], t, a)
    ensures IsRun(Init, Next, run')
    ensures run'[|run'| - 1] == Step(run[|run| - 1], t, a)
  {
    var last := run[|run| - 1];
    assert Next(last, Step(last, t, a));
    run' := Extend(Init, Next, run, Step(last, t, a));
  }

  lemma GetSteps(run: seq<State>, t: Tid, n: Node) returns (run': seq<State>)
    requires IsRun(Init, Next, run)
    requires var s := run[|run| - 1];
      s.free.node == Some(n) && n < |s.next| && s.chain != [] && (t in s.pcs ==> s.pcs[t].Idle())
    ensures IsRun(Init, Next, run')
    ensures var s, s' := run[|run| - 1], run'[|run'| - 1];
      && s'.pcs == s.pcs[t := GetDone(Some(n))] && s'.next == s.next
      && s'.chain == s.chain[1..] && s'.held == s.held + {n} && s'.free.count == s.free.count + 1
  {
    var s := run[|run| - 1];
    run' := Advance(run, t, CallGet);
    run' := Advance(run', t, Go(false));
    run' := Advance(run', t, Go(false));
    run' := Advance(run', t, Go(false));
    assert run'[|run'| - 1].pcs == s.pcs[t := GetDone(Some(n))];
  }

  /** An undisturbed Get takes the first free node. */
  lemma GetAlone(run: seq<State>, t: Tid) returns (run': seq<State>)
    requires IsRun(Init, Next, run)
    requires var s := run[|run| - 1]; s.chain != [] && (t in s.pcs ==> s.pcs[t].Idle())
    ensures IsRun(Init, Next, run') && Inv(run'[|run'| - 1])
    ensures var s, s' := run[|run| - 1], run'[|run'| - 1];
      && s'.pcs == s.pcs[t := GetDone(Some(s.chain[0]))] && s'.next == s.next
      && s'.chain == s.chain[1..] && s'.held == s.held + {s.chain[0]} && s'.free.count == s.free.count + 1
  {
    Safety(run, |run| - 1);
    run' := GetSteps(run, t, run[|run| - 1].chain[0]);
    Safety(run', |run'| - 1);
  }

  lemma ReleaseSteps(run: seq<State>, t: Tid, n: Node) returns (run': seq<State>)
    requires IsRun(Init, Next, run)
    requires var s := run[|run| - 1]; n < |s.next| && n in s.held && (t in s.pcs ==> s.pcs[t].Idle())
    ensures IsRun(Init, Next, run')
    ensures var s, s' := run[|run| - 1], run'[|run'| - 1];
      && s'.pcs == s.pcs[t := ReleaseDone]
      && s'.chain == [n] + s.chain && s'.held == s.held - {n} && s'.free.count == s.free.count + 1
  {
    var s := run[|run| - 1];
    run' := Advance(run, t, CallRelease(n));
    run' := Advance(run', t, Go(false));
    run' := Advance(run', t, Go(false));
    run' := Advance(run', t, Go(false));
    assert run'[|run'| - 1].pcs == s.pcs[t := ReleaseDone];
  }

  /** An undisturbed release puts the node at the front of the free list. */
  lemma ReleaseAlone(run: seq<State>, t: Tid, n: Node) returns (run': seq<State>)
    requires IsRun(Init, Next, run)
    requires var s := run[|run| - 1]; n in s.held && (t in s.pcs ==> s.pcs[t].Idle())
    ensures IsRun(Init, Next, run') && Inv(run'[|run'| - 1])
    ensures var s, s' := run[|run| - 1], run'[|run'| - 1];
      && s'.pcs == s.pcs[t := ReleaseDone]
      && s'.chain == [n] + s.chain && s'.held == s.held - {n} && s'.free.count == s.free.count + 1
  {
    Safety(run, |run| - 1);
    run' := ReleaseSteps(run, t, n);
    Safety(run', |run'| - 1);
  }

  /**
   * Why the tag is needed: there is a run in which a thread about to exchange the head finds the very
   * node it loaded at the head again, while the link it read from it leads to a node that is held.
   */
  lemma SameNodeStaleLink() returns (run: seq<State>)
    ensures IsRun(Init, Next, run)
    ensures var s := run[|run| - 1];
      && 0 in s.pcs && s.pcs[0].GetCas?
      && s.free.node == s.pcs[0].seen.node && s.free != s.pcs[0].seen
      && s.pcs[0].link.Some? && s.pcs[0].link.value in s.held
  {
    run := [State([Some(1), None], Head(0, Some(0)), map[], [0, 1], {}, [Some(0)])];
    run := Advance(run, 0, CallGet);
    run := Advance(run, 0, Go(false));
    run := Advance(run, 0, Go(false));
    // thread 1 takes both nodes and gives the first one back
    run := GetAlone(run, 1);
    run := GetAlone(run, 1);
    run := ReleaseAlone(run, 1, 0);
    assert run[|run| - 1].free.node == At(run[|run| - 1].chain, 0);
  }
}
