/**
 * The lock-free bounded MPMC queue as a step machine.
 *
 * Every atomic load, every compare-exchange and every copy of one word of an element is one step of
 * one thread; any number of threads may be inside Enqueue or Dequeue at once.  An element is a fixed
 * number of words, so a copy that races with an overwrite can tear.
 */
module BoundedQueue {
  import opened Runs
  import Modular

  type Tid = nat
  type Element = seq<int>

  // Where a thread stands.  `EnqWrite(e, p, k)` owns ticket p and has copied k words;
  // with all words copied it is at the compare-exchange on the commit counter.
  // `DeqRead(h, buf)` has copied |buf| words of the element after h; with all words copied it is at
  // the compare-exchange on the head counter.
  datatype Pc =
    | EnqLoad(e: Element)
    | EnqHead(e: Element, oldTail: nat)
    | EnqCas(e: Element, oldTail: nat)
    | EnqWrite(e: Element, ticket: nat, k: nat)
    | EnqDone(ok: bool)
    | DeqLoad
    | DeqCommit(oldHead: nat)
    | DeqRead(oldHead: nat, buf: Element)
    | DeqDone(found: bool, value: Element)
  {
    predicate Idle() { EnqDone? || DeqDone? }
    predicate Owns(p: nat) { EnqWrite? && ticket == p }
  }

  // The three counters and the slots are shared.  Two histories are kept beside them: `tickets` holds
  // what the owner of ticket p was asked to enqueue (ticket p at index p - 1), and `taken` holds what
  // each successful Dequeue handed out, in the order in which the head counter moved.
  datatype State = State(
    poolSize: nat, width: nat,
    head: nat, tail: nat, commit: nat, pool: seq<Element>,
    pcs: map<Tid, Pc>,
    tickets: seq<Element>, taken: seq<Element>)

  // What a thread does next: begin a call, or take the next step of the call it is in.  A weak
  // compare-exchange may fail although the expected value is there.
  datatype Action = CallEnqueue(e: Element) | CallDequeue | Go(spurious: bool)

  function GetIndex(s: State, num: nat): (i: nat)
    requires s.poolSize > 0
    ensures i == num % s.poolSize
  {
    num - (num / s.poolSize) * s.poolSize
  }

  predicate Init(s: State) {
    && s.poolSize >= 2
    && s.head == 0 && s.tail == 1 && s.commit == 1
    && |s.pool| == s.poolSize && (forall i :: 0 <= i < s.poolSize ==> |s.pool[i]| == s.width)
    && s.pcs == map[] && s.tickets == [] && s.taken == []
  }

  predicate Enabled(s: State, t: Tid, a: Action) {
    && s.poolSize > 0 && |s.pool| == s.poolSize
    && (forall i :: 0 <= i < s.poolSize ==> |s.pool[i]| == s.width)
    && match a
       case CallEnqueue(e) => (t in s.pcs ==> s.pcs[t].Idle()) && |e| == s.width
       case CallDequeue => t in s.pcs ==> s.pcs[t].Idle()
       case Go(_) => t in s.pcs && !s.pcs[t].Idle() && (s.pcs[t].EnqWrite? ==> |s.pcs[t].e| == s.width)
  }

  function To(s: State, t: Tid, pc: Pc): State {
    s.(pcs := s.pcs[t := pc])
  }

  function Step(s: State, t: Tid, a: Action): State
    requires Enabled(s, t, a)
  {
    match a
    case CallEnqueue(e) => To(s, t, EnqLoad(e))
    case CallDequeue => To(s, t, DeqLoad)
    case Go(spurious) =>
      match s.pcs[t]
      case EnqLoad(e) => To(s, t, EnqHead(e, s.tail))
      case EnqHead(e, oldTail) =>
        if GetIndex(s, oldTail + 1) == GetIndex(s, s.head) then To(s, t, EnqDone(false))
        else To(s, t, EnqCas(e, oldTail))
      case EnqCas(e, oldTail) =>
        if !spurious && s.tail == oldTail then
          To(s, t, EnqWrite(e, oldTail, 0)).(tail := oldTail + 1, tickets := s.tickets + [e])
        else To(s, t, EnqHead(e, s.tail))
      case EnqWrite(e, p, k) =>
        if k < s.width then
          var i := GetIndex(s, p);
          To(s, t, EnqWrite(e, p, k + 1)).(pool := s.pool[i := s.pool[i][k := e[k]]])
        else if !spurious && s.commit == p then
          To(s, t, EnqDone(true)).(commit := p + 1)
        else s
      case DeqLoad => To(s, t, DeqCommit(s.head))
      case DeqCommit(oldHead) =>
        if oldHead + 1 == s.commit then To(s, t, DeqDone(false, []))
        else To(s, t, DeqRead(oldHead, []))
      case DeqRead(oldHead, buf) =>
        if |buf| < s.width then
          var i := GetIndex(s, oldHead + 1);
          To(s, t, DeqRead(oldHead, buf + [s.pool[i][|buf|]]))
        else if !spurious && s.head == oldHead then
          To(s, t, DeqDone(true, buf)).(head := oldHead + 1, taken := s.taken + [buf])
        else To(s, t, DeqCommit(s.head))
      case EnqDone(_) => s
      case DeqDone(_, _) => s
  }

  ghost predicate Next(s: State, s': State) {
    exists t, a :: Enabled(s, t, a) && s' == Step(s, t, a)
  }

  // The committed, not yet dequeued elements, oldest first.
  function Queue(s: State): seq<Element>
    requires s.head < s.commit <= |s.tickets| + 1
  {
    s.tickets[s.head..s.commit - 1]
  }

  // ----- what every reachable state satisfies -----

  predicate Counters(s: State) {
    && 0 <= s.head < s.commit <= s.tail <= s.head + s.poolSize - 1
    && s.poolSize >= 2 && |s.pool| == s.poolSize
    && (forall i :: 0 <= i < s.poolSize ==> |s.pool[i]| == s.width)
    && |s.tickets| == s.tail - 1
    && (forall i :: 0 <= i < |s.tickets| ==> |s.tickets[i]| == s.width)
    && s.taken == s.tickets[..s.head]
  }

  predicate Slots(s: State)
    requires Counters(s)
  {
    forall p :: s.head < p < s.commit ==> s.pool[p % s.poolSize] == s.tickets[p - 1]
  }

  predicate PcOk(s: State, pc: Pc)
    requires Counters(s)
  {
    match pc
    case EnqLoad(e) => |e| == s.width
    case EnqHead(e, oldTail) => |e| == s.width && 1 <= oldTail <= s.tail
    case EnqCas(e, oldTail) => |e| == s.width && 1 <= oldTail <= s.tail && oldTail + 1 <= s.head + s.poolSize - 1
    case EnqWrite(e, p, k) =>
      && |e| == s.width && s.commit <= p < s.tail && k <= s.width
      && s.tickets[p - 1] == e && s.pool[p % s.poolSize][..k] == e[..k]
    case DeqCommit(oldHead) => oldHead <= s.head
    case DeqRead(oldHead, buf) =>
      && oldHead <= s.head && oldHead + 1 < s.commit && |buf| <= s.width
      && (oldHead == s.head ==> buf == s.tickets[oldHead][..|buf|])
    case _ => true
  }

  predicate Threads(s: State)
    requires Counters(s)
  {
    forall t :: t in s.pcs ==> PcOk(s, s.pcs[t])
  }

  ghost predicate Owned(s: State, p: nat) {
    exists t :: t in s.pcs && s.pcs[t].Owns(p)
  }

  // Every slot in [commit, tail) is being filled by exactly one thread.
  ghost predicate Owners(s: State) {
    && (forall p :: s.commit <= p < s.tail ==> Owned(s, p))
    && (forall t, u, p :: t in s.pcs && u in s.pcs && s.pcs[t].Owns(p) && s.pcs[u].Owns(p) ==> t == u)
  }

  ghost predicate Inv(s: State) {
    Counters(s) && Slots(s) && Threads(s) && Owners(s)
  }

  // ----- every step keeps the invariant -----

  lemma CallKeepsInv(s: State, t: Tid, a: Action)
    requires Inv(s) && Enabled(s, t, a) && !a.Go?
    ensures Inv(Step(s, t, a))
  {
    OwnersElsewhere(s, Step(s, t, a), t);
  }

  // A thread that neither gains nor loses a ticket leaves the ownership of slots alone.
  lemma OwnersElsewhere(s: State, s': State, t: Tid)
    requires Owners(s) && s'.commit == s.commit && s'.tail == s.tail
    requires t in s'.pcs && s'.pcs == s.pcs[t := s'.pcs[t]]
    requires forall p :: s'.pcs[t].Owns(p) <==> t in s.pcs && s.pcs[t].Owns(p)
    ensures Owners(s')
  {
    forall p | s'.commit <= p < s'.tail ensures Owned(s', p) {
      assert Owned(s, p);
      var u :| u in s.pcs && s.pcs[u].Owns(p);
      assert u in s'.pcs && s'.pcs[u].Owns(p);
    }
  }

  lemma LoadKeepsInv(s: State, t: Tid, a: Action)
    requires Inv(s) && Enabled(s, t, a) && a.Go?
    requires s.pcs[t].EnqLoad? || s.pcs[t].DeqLoad? || s.pcs[t].DeqCommit?
    ensures Inv(Step(s, t, a))
  {
    OwnersElsewhere(s, Step(s, t, a), t);
  }

  lemma CheckKeepsInv(s: State, t: Tid, a: Action)
    requires Inv(s) && Enabled(s, t, a) && a.Go? && s.pcs[t].EnqHead?
    ensures Inv(Step(s, t, a))
  {
    var oldTail := s.pcs[t].oldTail;
    if oldTail + 1 == s.head + s.poolSize {
      Modular.FullTurn(s.head, s.poolSize);
    }
    OwnersElsewhere(s, Step(s, t, a), t);
  }

  lemma TicketKeepsInv(s: State, t: Tid, a: Action)
    requires Inv(s) && Enabled(s, t, a) && a.Go? && s.pcs[t].EnqCas?
    ensures Inv(Step(s, t, a))
  {
    var s' := Step(s, t, a);
    if s'.tail == s.tail {
      OwnersElsewhere(s, s', t);
    } else {
      assert s'.taken == s'.tickets[..s'.head];
      OwnsNewTicket(s, s', t);
    }
  }

  lemma OwnsNewTicket(s: State, s': State, t: Tid)
    requires Owners(s) && s'.commit == s.commit && s'.tail == s.tail + 1
    requires t in s'.pcs && s'.pcs == s.pcs[t := s'.pcs[t]]
    requires forall p :: s'.pcs[t].Owns(p) <==> p == s.tail
    requires forall u, p: nat :: u in s.pcs && s.pcs[u].Owns(p) ==> u != t && p < s.tail
    ensures Owners(s')
  {
    forall p | s'.commit <= p < s'.tail ensures Owned(s', p) {
      if p == s.tail {
        assert s'.pcs[t].Owns(p);
      } else {
        assert Owned(s, p);
        var u :| u in s.pcs && s.pcs[u].Owns(p);
        assert u in s'.pcs && s'.pcs[u].Owns(p);
      }
    }
  }

  lemma WriteKeepsInv(s: State, t: Tid, a: Action)
    requires Inv(s) && Enabled(s, t, a) && a.Go? && s.pcs[t].EnqWrite? && s.pcs[t].k < s.width
    ensures Inv(Step(s, t, a))
  {
    var s' := Step(s, t, a);
    var p, k, e := s.pcs[t].ticket, s.pcs[t].k, s.pcs[t].e;
    var i := p % s.poolSize;
    assert s'.pool[i][..k + 1] == e[..k + 1];
    forall q | s.head < q < s.tail && q != p ensures s'.pool[q % s.poolSize] == s.pool[q % s.poolSize] {
      if q < p { Modular.DistinctSlots(q, p, s.poolSize); } else { Modular.DistinctSlots(p, q, s.poolSize); }
    }
    forall u | u in s'.pcs ensures PcOk(s', s'.pcs[u]) {
      if u != t && s.pcs[u].EnqWrite? && s.pcs[u].ticket == p {
        assert s.pcs[u].Owns(p) && s.pcs[t].Owns(p);
      }
    }
    OwnersElsewhere(s, s', t);
  }

  lemma CommitKeepsInv(s: State, t: Tid, a: Action)
    requires Inv(s) && Enabled(s, t, a) && a.Go? && s.pcs[t].EnqWrite? && s.pcs[t].k == s.width
    ensures Inv(Step(s, t, a))
  {
    var s' := Step(s, t, a);
    var p, e := s.pcs[t].ticket, s.pcs[t].e;
    if s'.commit != s.commit {
      assert s.pool[p % s.poolSize] == s.pool[p % s.poolSize][..s.width] == e[..s.width] == e;
      assert s.pcs[t].Owns(p);
      forall q | s'.commit <= q < s'.tail ensures Owned(s', q) {
        assert Owned(s, q);
        var u :| u in s.pcs && s.pcs[u].Owns(q);
        assert u in s'.pcs && s'.pcs[u].Owns(q);
      }
    }
  }

  lemma ReadKeepsInv(s: State, t: Tid, a: Action)
    requires Inv(s) && Enabled(s, t, a) && a.Go? && s.pcs[t].DeqRead? && |s.pcs[t].buf| < s.width
    ensures Inv(Step(s, t, a))
  {
    var s' := Step(s, t, a);
    var h, buf := s.pcs[t].oldHead, s.pcs[t].buf;
    if h == s.head {
      assert s.pool[(h + 1) % s.poolSize] == s.tickets[h];
      assert s.tickets[h][..|buf| + 1] == s.tickets[h][..|buf|] + [s.tickets[h][|buf|]];
    }
    OwnersElsewhere(s, s', t);
  }

  lemma TakeKeepsInv(s: State, t: Tid, a: Action)
    requires Inv(s) && Enabled(s, t, a) && a.Go? && s.pcs[t].DeqRead? && |s.pcs[t].buf| == s.width
    ensures Inv(Step(s, t, a))
  {
    var s' := Step(s, t, a);
    var h, buf := s.pcs[t].oldHead, s.pcs[t].buf;
    if s'.head != s.head {
      assert buf == s.tickets[h][..s.width] == s.tickets[h];
      assert s.tickets[..h] + [s.tickets[h]] == s.tickets[..h + 1];
    }
    OwnersElsewhere(s, s', t);
  }

  lemma StepKeepsInv(s: State, t: Tid, a: Action)
    requires Inv(s) && Enabled(s, t, a)
    ensures Inv(Step(s, t, a))
  {
    if !a.Go? {
      CallKeepsInv(s, t, a);
    } else {
      var pc := s.pcs[t];
      if pc.EnqLoad? || pc.DeqLoad? || pc.DeqCommit? { LoadKeepsInv(s, t, a); }
      else if pc.EnqHead? { CheckKeepsInv(s, t, a); }
      else if pc.EnqCas? { TicketKeepsInv(s, t, a); }
      else if pc.EnqWrite? {
        assert PcOk(s, pc);
        if pc.k < s.width { WriteKeepsInv(s, t, a); } else { CommitKeepsInv(s, t, a); }
      } else {
        assert PcOk(s, pc);
        if |pc.buf| < s.width { ReadKeepsInv(s, t, a); } else { TakeKeepsInv(s, t, a); }
      }
    }
  }

  // ----- the theorems -----

  /**
   * In every state of every run, whatever the interleaving: the counters keep their order and the
   * ring its window, every slot between commit and tail has exactly one owner, the slots of the
   * committed elements hold what their tickets were given, and what has been handed out is exactly
   * the first `head` tickets in ticket order.
   */
  lemma Safety(run: seq<State>, i: nat)
    requires IsRun(Init, Next, run) && i < |run|
    ensures Inv(run[i])
  {
    forall s, s' | Inv(s) && Next(s, s') ensures Inv(s') {
      var t, a :| Enabled(s, t, a) && s' == Step(s, t, a);
      StepKeepsInv(s, t, a);
    }
    Always(Init, Next, Inv, run, i);
  }

  /**
   * The same in the queue's own terms: head < commit <= tail <= head + poolSize - 1; the slot of every
   * ticket from commit to tail is being filled by exactly one thread; every committed slot holds the
   * whole element of its ticket.
   */
  lemma WindowAndOwners(run: seq<State>, i: nat)
    requires IsRun(Init, Next, run) && i < |run|
    ensures var s := run[i];
      && s.head < s.commit <= s.tail <= s.head + s.poolSize - 1
      && (forall p :: s.commit <= p < s.tail ==> Owned(s, p))
      && (forall p, t, u :: t in s.pcs && u in s.pcs && s.pcs[t].Owns(p) && s.pcs[u].Owns(p) ==> t == u)
      && |s.tickets| == s.tail - 1 && |s.pool| == s.poolSize > 0
      && (forall p :: s.head < p < s.commit ==> s.pool[GetIndex(s, p)] == s.tickets[p - 1])
  {
    Safety(run, i);
  }

  // Tickets and hand-outs are only ever appended to.
  lemma {:induction false} HistoriesGrow(run: seq<State>, i: nat, j: nat)
    requires IsRun(Init, Next, run) && i <= j < |run|
    ensures run[i].tickets <= run[j].tickets && run[i].taken <= run[j].taken
  {
    if i < j {
      HistoriesGrow(run, i, j - 1);
      assert StepAt(Next, run, j - 1);
    }
  }

  /**
   * Global first-in first-out: at any two moments of a run, everything handed out by the earlier one
   * is a prefix of the tickets of the later one, so position p is handed out once and yields the
   * value enqueued under ticket p.
   */
  lemma Fifo(run: seq<State>, i: nat, j: nat)
    requires IsRun(Init, Next, run) && i <= j < |run|
    ensures |run[i].taken| == run[i].head <= run[j].head
    ensures run[i].taken <= run[j].taken <= run[j].tickets
    ensures forall p :: 0 <= p < run[i].head ==> run[i].taken[p] == run[j].tickets[p]
  {
    Safety(run, i);
    Safety(run, j);
    HistoriesGrow(run, i, j);
  }

  /**
   * Every step refines one step of a sequential queue.  The committing compare-exchange of an
   * Enqueue appends the caller's own element and the call then reports true; the successful head
   * compare-exchange of a Dequeue removes the oldest element and the call then reports exactly that
   * element, whole; no other step changes the queue.
   */
  lemma Refines(s: State, t: Tid, a: Action)
    requires Inv(s) && Enabled(s, t, a)
    ensures Inv(Step(s, t, a))
    ensures var s' := Step(s, t, a);
      || (Queue(s') == Queue(s) && s'.head == s.head && s'.commit == s.commit
          && (t in s'.pcs && s'.pcs[t].Idle() && s' != s ==>
              s'.pcs[t] == EnqDone(false) || s'.pcs[t] == DeqDone(false, [])))
      || (a.Go? && s.pcs[t].EnqWrite? && Queue(s') == Queue(s) + [s.pcs[t].e] && s'.pcs[t] == EnqDone(true))
      || (a.Go? && s.pcs[t].DeqRead? && Queue(s) != [] && Queue(s') == Queue(s)[1..]
          && s'.pcs[t] == DeqDone(true, Queue(s)[0]))
  {
    StepKeepsInv(s, t, a);
    var s' := Step(s, t, a);
    if a.Go? && s.pcs[t].EnqWrite? && s'.commit != s.commit {
      CommitAppends(s, t, a.spurious);
    } else if a.Go? && s.pcs[t].DeqRead? && s'.head != s.head {
      TakeRemovesOldest(s, t, a.spurious);
    } else {
      assert s'.commit == s.commit && s'.head == s.head && s.tickets <= s'.tickets;
      assert Queue(s') == Queue(s);
    }
  }

  lemma CommitAppends(s: State, t: Tid, spurious: bool)
    requires Inv(s) && Enabled(s, t, Go(spurious)) && s.pcs[t].EnqWrite? && Step(s, t, Go(spurious)).commit != s.commit
    requires Inv(Step(s, t, Go(spurious)))
    ensures var s' := Step(s, t, Go(spurious));
      Queue(s') == Queue(s) + [s.pcs[t].e] && s'.pcs[t] == EnqDone(true)
  {
    assert PcOk(s, s.pcs[t]);
    assert Queue(Step(s, t, Go(spurious))) == Queue(s) + [s.tickets[s.commit - 1]];
  }

  lemma TakeRemovesOldest(s: State, t: Tid, spurious: bool)
    requires Inv(s) && Enabled(s, t, Go(spurious)) && s.pcs[t].DeqRead? && Step(s, t, Go(spurious)).head != s.head
    requires Inv(Step(s, t, Go(spurious)))
    ensures var s' := Step(s, t, Go(spurious));
      Queue(s) != [] && Queue(s') == Queue(s)[1..] && s'.pcs[t] == DeqDone(true, Queue(s)[0])
  {
    assert PcOk(s, s.pcs[t]);
    var s', buf := Step(s, t, Go(spurious)), s.pcs[t].buf;
    assert buf == s.tickets[s.head][..s.width] == s.tickets[s.head];
    assert Queue(s)[0] == buf && Queue(s') == Queue(s)[1..];
  }

  /**
   * Dequeue reports "nothing there" only if nothing was committed at the instant it loaded the commit
   * counter; with the head it loaded still current, it reports it exactly then.
   */
  lemma DequeueMissIsExact(s: State, t: Tid, spurious: bool)
    requires Inv(s) && Enabled(s, t, Go(spurious)) && s.pcs[t].DeqCommit?
    ensures Step(s, t, Go(spurious)).pcs[t] == DeqDone(false, []) ==> Queue(s) == []
    ensures Queue(s) == [] && s.pcs[t].oldHead == s.head ==> Step(s, t, Go(spurious)).pcs[t] == DeqDone(false, [])
  {
    assert PcOk(s, s.pcs[t]);
  }

  // Two numbers fall on one slot exactly when their distance is a multiple of the ring's length.
  lemma SameSlot(a: nat, b: nat, n: nat)
    requires n > 0 && a <= b
    ensures a % n == b % n <==> (b - a) % n == 0
  {
    var d := b - a;
    assert a == (a / n) * n + a % n && d == (d / n) * n + d % n;
    Modular.MulDistributes(a / n, d / n, n);
    var q := a / n + d / n;
    if a % n + d % n < n {
      Modular.QuotientUnique(b, n, q, a % n + d % n);
    } else {
      Modular.MulDistributes(q, 1, n);
      Modular.QuotientUnique(b, n, q + 1, a % n + d % n - n);
    }
  }

  // Distances to two numbers that fall on one slot.
  lemma SameSlotDistance(a: nat, b: nat, c: nat, n: nat)
    requires n > 0 && a <= c && b <= c && a % n == b % n
    ensures (c - a) % n == 0 <==> (c - b) % n == 0
  {
    SameSlot(a, c, n);
    SameSlot(b, c, n);
  }

  /**
   * Enqueue's full test.  It gives up exactly when the slot after the tail it loaded is the slot of the
   * head.  Whether that tail is still current or not, giving up is right, that is, all poolSize - 2 places
   * are taken, exactly when the tail has moved by a multiple of the ring's length since it was loaded.
   */
  lemma RefusalIsRightExactlyWhenTailFits(s: State, t: Tid, spurious: bool)
    requires Inv(s) && Enabled(s, t, Go(spurious)) && s.pcs[t].EnqHead?
    ensures s.pcs[t].oldTail <= s.tail
    ensures Step(s, t, Go(spurious)).pcs[t] == EnqDone(false) <==>
              (s.pcs[t].oldTail + 1) % s.poolSize == s.head % s.poolSize
    ensures Step(s, t, Go(spurious)).pcs[t] == EnqDone(false) ==>
              (s.tail - s.head - 1 == s.poolSize - 2 <==> (s.tail - s.pcs[t].oldTail) % s.poolSize == 0)
  {
    assert PcOk(s, s.pcs[t]);
    var oldTail, n := s.pcs[t].oldTail, s.poolSize;
    if (oldTail + 1) % n == s.head % n {
      SameSlotDistance(oldTail + 1, s.head, s.tail + 1, n);
      HeadDistance(s.head, s.tail, n);
    }
  }

  lemma HeadDistance(head: nat, tail: nat, n: nat)
    requires n >= 2 && head < tail <= head + n - 1
    ensures (tail + 1 - head) % n == 0 <==> tail - head - 1 == n - 2
  {
    var d := tail + 1 - head;
    if d < n { Modular.QuotientUnique(d, n, 0, d); } else { Modular.QuotientUnique(d, n, 1, 0); }
  }

  /** In particular, with a current tail Enqueue gives up exactly when all poolSize - 2 places are taken. */
  lemma EnqueueRefusalWithCurrentTail(s: State, t: Tid, spurious: bool)
    requires Inv(s) && Enabled(s, t, Go(spurious)) && s.pcs[t].EnqHead? && s.pcs[t].oldTail == s.tail
    ensures Step(s, t, Go(spurious)).pcs[t] == EnqDone(false) <==> s.tail - s.head - 1 == s.poolSize - 2
  {
    RefusalIsRightExactlyWhenTailFits(s, t, spurious);
    HeadDistance(s.head, s.tail, s.poolSize);
    SameSlot(s.head, s.tail + 1, s.poolSize);
  }

  // ----- every call gets done -----

  // A step of a call that thread t is in, with no exchange failing without cause.
  ghost predicate OwnStep(s: State, s': State, t: Tid) {
    Enabled(s, t, Go(false)) && s' == Step(s, t, Go(false))
  }

  // Thread t takes n steps, nobody else does, and then the state is `goal`.
  ghost predicate AloneTo(s: State, t: Tid, n: nat, goal: State) {
    Reaches((s1, s2) => OwnStep(s1, s2, t), s, n, goal)
  }

  lemma AloneOne(s: State, t: Tid)
    requires Enabled(s, t, Go(false))
    ensures AloneTo(s, t, 1, Step(s, t, Go(false)))
  {
    OneStep((s1, s2) => OwnStep(s1, s2, t), s, Step(s, t, Go(false)));
  }

  lemma AloneFirst(s: State, t: Tid, n: nat, goal: State)
    requires Enabled(s, t, Go(false)) && AloneTo(Step(s, t, Go(false)), t, n, goal)
    ensures AloneTo(s, t, n + 1, goal)
  {
    FirstStep((s1, s2) => OwnStep(s1, s2, t), s, Step(s, t, Go(false)), n, goal);
  }

  lemma AloneThen(s: State, t: Tid, n: nat, mid: State, m: nat, goal: State)
    requires AloneTo(s, t, n, mid) && AloneTo(mid, t, m, goal)
    ensures AloneTo(s, t, n + m, goal)
  {
    ReachesOn((s1, s2) => OwnStep(s1, s2, t), s, n, mid, m, goal);
  }

  // Copying the remaining words and committing takes the owner of the oldest ticket width + 1 - k steps.
  lemma {:induction false} OwnerCommits(s: State, t: Tid) returns (goal: State)
    requires Inv(s) && t in s.pcs && s.pcs[t].Owns(s.commit)
    ensures AloneTo(s, t, s.width + 1 - s.pcs[t].k, goal)
    ensures Inv(goal) && Queue(goal) == Queue(s) + [s.pcs[t].e]
    ensures goal.commit == s.commit + 1 && t in goal.pcs && goal.pcs[t] == EnqDone(true)
    decreases s.width - s.pcs[t].k
  {
    assert PcOk(s, s.pcs[t]);
    var s1 := Step(s, t, Go(false));
    Refines(s, t, Go(false));
    if s.pcs[t].k < s.width {
      goal := OwnerCommits(s1, t);
      AloneFirst(s, t, s.width - s.pcs[t].k, goal);
    } else {
      goal := s1;
      AloneOne(s, t);
    }
  }

  /**
   * Progress: while some enqueue is in flight, there is a thread that, running alone, commits within
   * width + 1 of its own steps.  The enqueues waiting for their turn therefore never block each other.
   */
  lemma SomeEnqueueCanCommit(s: State) returns (t: Tid, n: nat, goal: State)
    requires Inv(s) && s.commit < s.tail
    ensures t in s.pcs && s.pcs[t].Owns(s.commit)
    ensures n <= s.width + 1 && AloneTo(s, t, n, goal)
    ensures goal.commit == s.commit + 1 && t in goal.pcs && goal.pcs[t] == EnqDone(true)
  {
    assert Owned(s, s.commit);
    t :| t in s.pcs && s.pcs[t].Owns(s.commit);
    assert PcOk(s, s.pcs[t]);
    n := s.width + 1 - s.pcs[t].k;
    goal := OwnerCommits(s, t);
  }

  // All poolSize - 2 places are taken.
  predicate Full(s: State) { s.tail - s.head - 1 == s.poolSize - 2 }

  // The full test of a thread that holds a loaded tail will give up.
  predicate TestFails(s: State, pc: Pc)
    requires s.poolSize > 0
  {
    pc.EnqHead? && (pc.oldTail + 1) % s.poolSize == s.head % s.poolSize
  }

  // How many steps an Enqueue without a ticket needs at most to get one or to give up.
  function StepsToTicket(s: State, pc: Pc): nat {
    match pc
    case EnqLoad(_) => 3
    case EnqHead(_, oldTail) => if oldTail == s.tail then 2 else 4
    case EnqCas(_, oldTail) => if oldTail == s.tail then 1 else 3
    case _ => 0
  }

  // Whether an Enqueue without a ticket will be refused if it is left alone.
  predicate Refused(s: State, pc: Pc)
    requires s.poolSize > 0
  {
    Full(s) || TestFails(s, pc)
  }

  // One step of an Enqueue without a ticket decides it, or leaves it fewer steps and the same answer.
  lemma TicketStep(s: State, t: Tid)
    requires Inv(s) && t in s.pcs && (s.pcs[t].EnqLoad? || s.pcs[t].EnqHead? || s.pcs[t].EnqCas?)
    ensures var s1, pc := Step(s, t, Go(false)), s.pcs[t];
      && Inv(s1) && s1.head == s.head && s1.commit == s.commit && s1.width == s.width && Queue(s1) == Queue(s)
      && match s1.pcs[t]
         case EnqDone(ok) => !ok && Refused(s, pc)
         case EnqWrite(e, p, k) => e == pc.e && p == s.tail && k == 0 && !Refused(s, pc)
         case EnqLoad(_) => false
         case EnqHead(e, _) => s1.tail == s.tail && e == pc.e && Refused(s1, s1.pcs[t]) == Refused(s, pc)
                               && StepsToTicket(s1, s1.pcs[t]) < StepsToTicket(s, pc)
         case EnqCas(e, _) => s1.tail == s.tail && e == pc.e && Refused(s1, s1.pcs[t]) == Refused(s, pc)
                              && StepsToTicket(s1, s1.pcs[t]) < StepsToTicket(s, pc)
         case _ => false
  {
    assert PcOk(s, s.pcs[t]);
    var s1 := Step(s, t, Go(false));
    Refines(s, t, Go(false));
    if s.pcs[t].EnqHead? {
      RefusalIsRightExactlyWhenTailFits(s, t, false);
      if s.pcs[t].oldTail == s.tail { EnqueueRefusalWithCurrentTail(s, t, false); }
    } else if s1.pcs[t].EnqHead? {
      EnqueueRefusalWithCurrentTail(s1, t, false);
    }
  }

  /**
   * Left alone, an Enqueue that has no ticket yet gets the next one, unless all places are taken or the
   * tail it holds, loaded earlier, makes its full test give up.
   */
  lemma {:induction false} TicketAlone(s: State, t: Tid) returns (n: nat, goal: State)
    requires Inv(s) && t in s.pcs && (s.pcs[t].EnqLoad? || s.pcs[t].EnqHead? || s.pcs[t].EnqCas?)
    ensures n <= StepsToTicket(s, s.pcs[t]) && AloneTo(s, t, n, goal) && Inv(goal) && t in goal.pcs
    ensures goal.head == s.head && goal.commit == s.commit && goal.width == s.width && Queue(goal) == Queue(s)
    ensures goal.pcs[t] ==
      if Refused(s, s.pcs[t]) then EnqDone(false) else EnqWrite(s.pcs[t].e, s.tail, 0)
    decreases StepsToTicket(s, s.pcs[t])
  {
    var s1 := Step(s, t, Go(false));
    TicketStep(s, t);
    if s1.pcs[t].EnqDone? || s1.pcs[t].EnqWrite? {
      n, goal := 1, s1;
      AloneOne(s, t);
    } else {
      var m;
      m, goal := TicketAlone(s1, t);
      AloneFirst(s, t, m, goal);
      n := m + 1;
    }
  }

  /**
   * An Enqueue that runs alone is done within width + 5 of its steps once the commits before it are done,
   * and says exactly what is the case: it is refused if and only if all places are taken (or the tail it
   * holds, loaded earlier, makes its full test give up), and otherwise its element is the newest.
   */
  lemma EnqueueAlone(s: State, t: Tid) returns (n: nat, goal: State)
    requires Inv(s) && t in s.pcs && (s.pcs[t].EnqLoad? || s.pcs[t].EnqHead? || s.pcs[t].EnqCas?)
    requires s.commit == s.tail
    ensures n <= s.width + 5 && AloneTo(s, t, n, goal) && Inv(goal) && t in goal.pcs
    ensures var refused := Refused(s, s.pcs[t]);
      && goal.pcs[t] == EnqDone(!refused)
      && Queue(goal) == if refused then Queue(s) else Queue(s) + [s.pcs[t].e]
  {
    var mid;
    n, mid := TicketAlone(s, t);
    if mid.pcs[t].EnqWrite? {
      goal := OwnerCommits(mid, t);
      AloneThen(s, t, n, mid, s.width + 1, goal);
      n := n + s.width + 1;
    } else {
      goal := mid;
    }
  }

  /** A call of Enqueue on a queue nobody is enqueueing to is refused exactly when all places are taken. */
  lemma QuietEnqueue(s: State, t: Tid, e: Element) returns (n: nat, goal: State)
    requires Inv(s) && Enabled(s, t, CallEnqueue(e)) && s.commit == s.tail
    ensures n <= s.width + 5 && AloneTo(Step(s, t, CallEnqueue(e)), t, n, goal) && Inv(goal) && t in goal.pcs
    ensures goal.pcs[t] == EnqDone(|Queue(s)| < s.poolSize - 2)
    ensures Queue(goal) == if |Queue(s)| < s.poolSize - 2 then Queue(s) + [e] else Queue(s)
  {
    Refines(s, t, CallEnqueue(e));
    n, goal := EnqueueAlone(Step(s, t, CallEnqueue(e)), t);
  }

  // How many steps a Dequeue needs at most.
  function StepsToTake(s: State, pc: Pc): int {
    var current := s.width + 2;
    match pc
    case DeqLoad => current + 1
    case DeqCommit(oldHead) => if oldHead == s.head then current else s.width + 2 + current
    case DeqRead(oldHead, buf) => s.width - |buf| + 1 + if oldHead == s.head then 0 else current
    case _ => 0
  }

  // Between s and s' thread t has dequeued: it has the oldest element, or there was none.
  predicate Taken(s: State, s': State, t: Tid)
    requires s.head < s.commit <= |s.tickets| + 1 && s'.head < s'.commit <= |s'.tickets| + 1 && t in s'.pcs
  {
    if Queue(s) == [] then s'.pcs[t] == DeqDone(false, []) && Queue(s') == []
    else s'.pcs[t] == DeqDone(true, Queue(s)[0]) && Queue(s') == Queue(s)[1..]
  }

  // One step of a Dequeue completes it, or leaves the queue alone and fewer steps to take.
  lemma DequeueStep(s: State, t: Tid)
    requires Inv(s) && t in s.pcs && (s.pcs[t].DeqLoad? || s.pcs[t].DeqCommit? || s.pcs[t].DeqRead?)
    ensures var s1 := Step(s, t, Go(false));
      && Inv(s1) && s1.width == s.width
      && if s1.pcs[t].DeqDone? then Taken(s, s1, t)
         else Queue(s1) == Queue(s) && (s1.pcs[t].DeqCommit? || s1.pcs[t].DeqRead?)
              && 0 < StepsToTake(s1, s1.pcs[t]) < StepsToTake(s, s.pcs[t])
  {
    assert PcOk(s, s.pcs[t]);
    Refines(s, t, Go(false));
    if s.pcs[t].DeqCommit? { DequeueMissIsExact(s, t, false); }
  }

  /**
   * A Dequeue that runs alone is done within 2 width + 4 of its steps, wherever it stands and however old
   * the head it holds: it takes the oldest element, and finds nothing if and only if nothing is committed.
   */
  lemma {:induction false} DequeueAlone(s: State, t: Tid) returns (n: nat, goal: State)
    requires Inv(s) && t in s.pcs && (s.pcs[t].DeqLoad? || s.pcs[t].DeqCommit? || s.pcs[t].DeqRead?)
    ensures n <= StepsToTake(s, s.pcs[t]) <= 2 * s.width + 4
    ensures AloneTo(s, t, n, goal) && Inv(goal) && t in goal.pcs
    ensures Taken(s, goal, t)
    decreases StepsToTake(s, s.pcs[t])
  {
    assert PcOk(s, s.pcs[t]);
    var s1 := Step(s, t, Go(false));
    DequeueStep(s, t);
    if s1.pcs[t].DeqDone? {
      n, goal := 1, s1;
      AloneOne(s, t);
    } else {
      var m;
      m, goal := DequeueAlone(s1, t);
      AloneFirst(s, t, m, goal);
      n := m + 1;
    }
  }

  // ----- what a retry works with -----

  // Thread t has held the tail that it holds at moment j since its latest load, or failed exchange, at moment i.
  ghost predicate TailLoadedAt(run: seq<State>, t: Tid, i: nat, j: nat) {
    && i < j < |run| && t in run[i].pcs && t in run[j].pcs && run[j].pcs[t].EnqHead?
    && (run[i].pcs[t].EnqLoad? || run[i].pcs[t].EnqCas?) && run[i].pcs[t].e == run[j].pcs[t].e
    && run[i].tail == run[j].pcs[t].oldTail
    && forall k :: i < k <= j ==> t in run[k].pcs && run[k].pcs[t] == run[j].pcs[t]
  }

  // The same for the head that a Dequeue holds.
  ghost predicate HeadLoadedAt(run: seq<State>, t: Tid, i: nat, j: nat) {
    && i < j < |run| && t in run[i].pcs && t in run[j].pcs && run[j].pcs[t].DeqCommit?
    && (run[i].pcs[t].DeqLoad? || run[i].pcs[t].DeqRead?) && run[i].head == run[j].pcs[t].oldHead
    && forall k :: i < k <= j ==> t in run[k].pcs && run[k].pcs[t] == run[j].pcs[t]
  }

  // A step of another thread leaves t where it is; a step of t itself that leads to a test loads the counter.
  lemma StepLoads(s: State, s': State, t: Tid)
    requires Next(s, s') && t in s'.pcs && (s'.pcs[t].EnqHead? || s'.pcs[t].DeqCommit?)
    ensures t in s.pcs && (s.pcs[t] == s'.pcs[t] || Loads(s, s.pcs[t], s'.pcs[t]))
  {
    var u, a :| Enabled(s, u, a) && s' == Step(s, u, a);
    if u != t { OthersStay(s, u, a, t); }
  }

  // From pc to pc' the thread takes over the counter it will compare.
  predicate Loads(s: State, pc: Pc, pc': Pc) {
    || ((pc.EnqLoad? || pc.EnqCas?) && pc' == EnqHead(pc.e, s.tail))
    || ((pc.DeqLoad? || pc.DeqRead?) && pc' == DeqCommit(s.head))
  }

  lemma OthersStay(s: State, u: Tid, a: Action, t: Tid)
    requires Enabled(s, u, a) && u != t
    ensures t in Step(s, u, a).pcs <==> t in s.pcs
    ensures t in s.pcs ==> Step(s, u, a).pcs[t] == s.pcs[t]
  {
  }

  /**
   * The tail that Enqueue compares with the head is the tail counter's value at its latest load or failed
   * exchange: a failed exchange reloads.
   */
  lemma {:induction false} TestUsesLatestTail(run: seq<State>, j: nat, t: Tid) returns (i: nat)
    requires IsRun(Init, Next, run) && j < |run| && t in run[j].pcs && run[j].pcs[t].EnqHead?
    ensures TailLoadedAt(run, t, i, j)
  {
    assert StepAt(Next, run, j - 1);
    StepLoads(run[j - 1], run[j], t);
    if run[j - 1].pcs[t] == run[j].pcs[t] { i := TestUsesLatestTail(run, j - 1, t); } else { i := j - 1; }
  }

  /** The head that Dequeue compares with the commit counter is likewise that of its latest load or failed exchange. */
  lemma {:induction false} TestUsesLatestHead(run: seq<State>, j: nat, t: Tid) returns (i: nat)
    requires IsRun(Init, Next, run) && j < |run| && t in run[j].pcs && run[j].pcs[t].DeqCommit?
    ensures HeadLoadedAt(run, t, i, j)
  {
    assert StepAt(Next, run, j - 1);
    StepLoads(run[j - 1], run[j], t);
    if run[j - 1].pcs[t] == run[j].pcs[t] { i := TestUsesLatestHead(run, j - 1, t); } else { i := j - 1; }
  }

  // One more step of thread t at the end of a run.
  lemma Advance(run: seq<State>, t: Tid, a: Action) returns (run': seq<State>)
    requires IsRun(Init, Next, run) && Enabled(run[|run| - 1], t, a)
    ensures IsRun(Init, Next, run')
    ensures run'[|run'| - 1] == Step(run[|run| - 1], t, a)
  {
    var last := run[|run| - 1];
    assert Next(last, Step(last, t, a));
    run' := Extend(Init, Next, run, Step(last, t, a));
  }

  // One undisturbed enqueue by thread 1 of a zero-word element, on an empty queue.
  lemma EnqueueOnce(run: seq<State>) returns (run': seq<State>)
    requires IsRun(Init, Next, run)
    requires var s := run[|run| - 1];
      Inv(s) && s.poolSize == 3 && s.width == 0 && s.commit == s.tail == s.head + 1
      && (1 in s.pcs ==> s.pcs[1].Idle())
    ensures IsRun(Init, Next, run')
    ensures var s, s' := run[|run| - 1], run'[|run'| - 1];
      Inv(s') && s'.poolSize == 3 && s'.width == 0 && s'.head == s.head && s'.commit == s'.tail == s.tail + 1
      && s'.pcs == s.pcs[1 := EnqDone(true)]
  {
    var s := run[|run| - 1];
    run' := TicketOnce(run);
    run' := Advance(run', 1, Go(false));
    assert run'[|run'| - 1].pcs == s.pcs[1 := EnqDone(true)];
    Safety(run', |run'| - 1);
  }

  // The same up to the commit.
  lemma TicketOnce(run: seq<State>) returns (run': seq<State>)
    requires IsRun(Init, Next, run)
    requires var s := run[|run| - 1];
      Inv(s) && s.poolSize == 3 && s.width == 0 && s.commit == s.tail == s.head + 1
      && (1 in s.pcs ==> s.pcs[1].Idle())
    ensures IsRun(Init, Next, run')
    ensures var s := run[|run| - 1];
      run'[|run'| - 1] ==
        s.(pcs := s.pcs[1 := EnqWrite([], s.tail, 0)], tail := s.tail + 1, tickets := s.tickets + [[]])
  {
    var s := run[|run| - 1];
    Modular.DistinctSlots(s.head, s.tail + 1, 3);
    run' := Advance(run, 1, CallEnqueue([]));
    run' := Advance(run', 1, Go(false));
    run' := Advance(run', 1, Go(false));
    run' := Advance(run', 1, Go(false));
    assert run'[|run'| - 1].pcs == s.pcs[1 := EnqWrite([], s.tail, 0)];
  }

  // One undisturbed dequeue by thread 2.
  lemma DequeueOnce(run: seq<State>) returns (run': seq<State>)
    requires IsRun(Init, Next, run)
    requires var s := run[|run| - 1];
      Inv(s) && s.poolSize == 3 && s.width == 0 && s.commit == s.tail == s.head + 2
      && (2 in s.pcs ==> s.pcs[2].Idle())
    ensures IsRun(Init, Next, run')
    ensures var s, s' := run[|run| - 1], run'[|run'| - 1];
      Inv(s') && s'.poolSize == 3 && s'.width == 0 && s'.head == s.head + 1 && s'.commit == s'.tail == s.tail
      && s'.pcs == s.pcs[2 := DeqDone(true, [])]
  {
    var s := run[|run| - 1];
    run' := Advance(run, 2, CallDequeue);
    run' := Advance(run', 2, Go(false));
    run' := Advance(run', 2, Go(false));
    run' := Advance(run', 2, Go(false));
    assert run'[|run'| - 1].pcs == s.pcs[2 := DeqDone(true, [])];
    Safety(run', |run'| - 1);
  }

  /**
   * With a stale tail the refusal can be wrong: there is a run in which an Enqueue gives up although
   * the queue is empty and no other enqueue is in flight.
   */
  lemma StaleTailRefusal() returns (run: seq<State>)
    ensures IsRun(Init, Next, run)
    ensures var s := run[|run| - 1];
      Inv(s) && 0 in s.pcs && s.pcs[0].EnqHead? && s.pcs[0].oldTail != s.tail
      && Queue(s) == [] && s.tail - s.head - 1 == 0
      && Enabled(s, 0, Go(false)) && Step(s, 0, Go(false)).pcs[0] == EnqDone(false)
  {
    var s0 := State(3, 0, 0, 1, 1, [[], [], []], map[], [], []);
    run := [s0];
    run := Advance(run, 0, CallEnqueue([]));
    run := Advance(run, 0, Go(false));
    Safety(run, |run| - 1);
    run := EnqueueOnce(run);
    run := DequeueOnce(run);
    run := EnqueueOnce(run);
    run := DequeueOnce(run);
  }
}
