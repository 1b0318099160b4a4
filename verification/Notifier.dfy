/**
 * The shared-memory condition notifier: a ring of (sequence number, info) slots.
 *
 * Notify takes a ticket, writes the info and then the sequence number of its slot; Listen compares the
 * slot's number with its own cursor.  First as a step machine with any number of notifiers and one
 * listener (listeners only read, so they do not affect each other), then as sequential objects.
 */
module Notifier {
  import opened Modular
  import opened Options
  import opened Runs

  type Tid = nat
  type Info = int             // host id, block index and channel id of one notification

  const BUF_LENGTH: nat := 4096

  // ----- the step machine -----

  datatype NotifierPc = Idle | WriteInfo(ticket: nat, info: Info) | WriteSeq(ticket: nat)

  datatype ListenerPc = Poll | ReadSeq | ReadInfo(slot: nat, actual: nat)

  // `base` is the value of the ticket counter when the listener attached; `history` holds the infos of the
  // tickets from `base` on, `delivered` what Listen has returned.
  datatype State = State(
    nextSeq: nat, infos: seq<Info>, seqs: seq<nat>, notifiers: map<Tid, NotifierPc>,
    base: nat, cursor: nat, listener: ListenerPc,
    history: seq<Info>, delivered: seq<(nat, Info)>)

  datatype Action = Notify(t: Tid, info: Info) | Listen

  predicate Sized(s: State) {
    |s.infos| == BUF_LENGTH && |s.seqs| == BUF_LENGTH
  }

  // A listener attaches while no Notify is under way; every slot then carries an old ticket, or 0 if unused.
  predicate Attach(s: State) {
    && Sized(s)
    && (forall t :: t in s.notifiers ==> s.notifiers[t] == Idle)
    && (forall i :: 0 <= i < BUF_LENGTH ==> s.seqs[i] < s.nextSeq || s.seqs[i] == 0)
    && s.base == s.cursor == s.nextSeq && s.listener == Poll
    && s.history == [] && s.delivered == []
  }

  predicate Enabled(s: State, a: Action) {
    && Sized(s)
    && (a.Notify? ==> a.t in s.notifiers)
    && (s.listener.ReadInfo? ==> s.listener.slot < BUF_LENGTH)
  }

  function Step(s: State, a: Action): State
    requires Enabled(s, a)
  {
    match a
    case Notify(t, info) =>
      (match s.notifiers[t]
       case Idle =>
         s.(notifiers := s.notifiers[t := WriteInfo(s.nextSeq, info)], nextSeq := s.nextSeq + 1,
            history := s.history + [info])
       case WriteInfo(ticket, i) =>
         s.(notifiers := s.notifiers[t := WriteSeq(ticket)], infos := s.infos[ticket % BUF_LENGTH := i])
       case WriteSeq(ticket) =>
         s.(notifiers := s.notifiers[t := Idle], seqs := s.seqs[ticket % BUF_LENGTH := ticket]))
    case Listen =>
      (match s.listener
       case Poll => s.(listener := if s.nextSeq != s.cursor then ReadSeq else Poll)
       case ReadSeq =>
         var slot := s.cursor % BUF_LENGTH;
         if s.seqs[slot] >= s.cursor then s.(listener := ReadInfo(slot, s.seqs[slot])) else s.(listener := Poll)
       case ReadInfo(slot, actual) =>
         s.(listener := Poll, cursor := actual + 1, delivered := s.delivered + [(actual, s.infos[slot])]))
  }

  ghost predicate Next(s: State, s': State) {
    exists a :: Enabled(s, a) && s' == Step(s, a)
  }

  predicate NotFarBehind(s: State) {
    s.nextSeq <= s.cursor + BUF_LENGTH
  }

  // Runs in which the listener is never more than the ring's length behind.
  ghost predicate NextInTime(s: State, s': State) {
    Next(s, s') && NotFarBehind(s')
  }

  predicate AttachAfterFirst(s: State) {
    Attach(s) && s.nextSeq >= 1
  }

  predicate Busy(pc: NotifierPc, ticket: nat) {
    !pc.Idle? && pc.ticket == ticket
  }

  ghost predicate InFlight(s: State, ticket: nat) {
    exists t :: t in s.notifiers && Busy(s.notifiers[t], ticket)
  }

  predicate Counters(s: State) {
    && Sized(s) && 1 <= s.base <= s.cursor <= s.nextSeq <= s.cursor + BUF_LENGTH
    && |s.history| == s.nextSeq - s.base
    && (forall i :: 0 <= i < BUF_LENGTH ==> s.seqs[i] < s.nextSeq)
  }

  predicate NotifierOk(s: State, pc: NotifierPc)
    requires Counters(s)
  {
    match pc
    case Idle => true
    case WriteInfo(ticket, info) =>
      && s.cursor <= ticket < s.nextSeq && s.seqs[ticket % BUF_LENGTH] < ticket && s.history[ticket - s.base] == info
    case WriteSeq(ticket) =>
      && s.cursor <= ticket < s.nextSeq && s.seqs[ticket % BUF_LENGTH] < ticket
      && s.infos[ticket % BUF_LENGTH] == s.history[ticket - s.base]
  }

  // Every ticket the listener has yet to see is being written by one notifier or stands complete in its slot.
  ghost predicate TicketsOk(s: State)
    requires Counters(s)
  {
    && (forall t :: t in s.notifiers ==> NotifierOk(s, s.notifiers[t]))
    && (forall t, u, ticket ::
          (t in s.notifiers && u in s.notifiers && Busy(s.notifiers[t], ticket) && Busy(s.notifiers[u], ticket))
          ==> t == u)
    && (forall ticket :: s.cursor <= ticket < s.nextSeq ==> InFlight(s, ticket) || Complete(s, ticket))
  }

  predicate Complete(s: State, ticket: nat)
    requires Counters(s)
  {
    && s.base <= ticket < s.nextSeq && s.seqs[ticket % BUF_LENGTH] == ticket
    && s.infos[ticket % BUF_LENGTH] == s.history[ticket - s.base]
  }

  predicate ListenerOk(s: State)
    requires Counters(s)
  {
    && (s.listener.ReadSeq? ==> s.cursor < s.nextSeq)
    && (s.listener.ReadInfo? ==>
          && s.listener.actual == s.cursor && s.listener.slot == s.cursor % BUF_LENGTH
          && s.cursor < s.nextSeq && Complete(s, s.cursor))
    && |s.delivered| == s.cursor - s.base
    && (forall k :: 0 <= k < |s.delivered| ==> s.delivered[k] == (s.base + k, s.history[k]))
  }

  ghost predicate Inv(s: State) {
    Counters(s) && TicketsOk(s) && ListenerOk(s)
  }

  lemma OthersInFlight(s: State, s': State, t: Tid, ticket: nat)
    requires t in s'.notifiers && s'.notifiers == s.notifiers[t := s'.notifiers[t]]
    requires InFlight(s, ticket)
    requires !(t in s.notifiers && Busy(s.notifiers[t], ticket) && !Busy(s'.notifiers[t], ticket))
    ensures InFlight(s', ticket)
  {
    var u :| u in s.notifiers && Busy(s.notifiers[u], ticket);
    assert u in s'.notifiers && Busy(s'.notifiers[u], ticket);
  }

  lemma TicketKeepsInv(s: State, t: Tid, info: Info)
    requires Inv(s) && Enabled(s, Notify(t, info)) && s.notifiers[t].Idle? && NotFarBehind(Step(s, Notify(t, info)))
    ensures Inv(Step(s, Notify(t, info)))
  {
    var s' := Step(s, Notify(t, info));
    forall ticket | s'.cursor <= ticket < s'.nextSeq ensures InFlight(s', ticket) || Complete(s', ticket) {
      if ticket == s.nextSeq {
        assert Busy(s'.notifiers[t], ticket);
      } else if InFlight(s, ticket) {
        OthersInFlight(s, s', t, ticket);
      } else {
        assert Complete(s, ticket);
      }
    }
    forall u | u in s'.notifiers ensures NotifierOk(s', s'.notifiers[u]) {
      if u != t { assert NotifierOk(s, s.notifiers[u]); }
    }
  }

  lemma InfoKeepsTickets(s: State, s': State, t: Tid, mine: nat, info: Info)
    requires Counters(s) && TicketsOk(s) && Counters(s') && t in s.notifiers && s.notifiers[t] == WriteInfo(mine, info)
    requires s' == s.(notifiers := s.notifiers[t := WriteSeq(mine)], infos := s.infos[mine % BUF_LENGTH := info])
    ensures TicketsOk(s')
  {
    assert NotifierOk(s, s.notifiers[t]) && Busy(s.notifiers[t], mine);
    forall ticket | s'.cursor <= ticket < s'.nextSeq ensures InFlight(s', ticket) || Complete(s', ticket) {
      InfoKeepsTicket(s, s', t, mine, info, ticket);
    }
    forall u | u in s'.notifiers ensures NotifierOk(s', s'.notifiers[u]) {
      if u != t { InfoKeepsOthers(s, s', t, mine, info, u); }
    }
  }

  lemma InfoKeepsTicket(s: State, s': State, t: Tid, mine: nat, info: Info, ticket: nat)
    requires Counters(s) && TicketsOk(s) && Counters(s') && t in s.notifiers && s.notifiers[t] == WriteInfo(mine, info)
    requires s' == s.(notifiers := s.notifiers[t := WriteSeq(mine)], infos := s.infos[mine % BUF_LENGTH := info])
    requires s.cursor <= ticket < s.nextSeq
    ensures InFlight(s', ticket) || Complete(s', ticket)
  {
    assert NotifierOk(s, s.notifiers[t]) && Busy(s.notifiers[t], mine);
    if InFlight(s, ticket) {
      OthersInFlight(s, s', t, ticket);
    } else {
      assert Complete(s, ticket) && ticket != mine;
    }
  }

  lemma InfoKeepsOthers(s: State, s': State, t: Tid, mine: nat, info: Info, u: Tid)
    requires Counters(s) && TicketsOk(s) && Counters(s') && t in s.notifiers && s.notifiers[t] == WriteInfo(mine, info)
    requires s' == s.(notifiers := s.notifiers[t := WriteSeq(mine)], infos := s.infos[mine % BUF_LENGTH := info])
    requires u in s.notifiers && u != t
    ensures NotifierOk(s', s'.notifiers[u])
  {
    assert NotifierOk(s, s.notifiers[t]) && Busy(s.notifiers[t], mine);
    assert NotifierOk(s, s.notifiers[u]);
    if !s.notifiers[u].Idle? { assert Busy(s.notifiers[u], s.notifiers[u].ticket); }
  }

  lemma InfoKeepsInv(s: State, t: Tid, info: Info)
    requires Inv(s) && Enabled(s, Notify(t, info)) && s.notifiers[t].WriteInfo?
    ensures Inv(Step(s, Notify(t, info)))
  {
    var s', mine := Step(s, Notify(t, info)), s.notifiers[t].ticket;
    assert NotifierOk(s, s.notifiers[t]);
    InfoKeepsTickets(s, s', t, mine, s.notifiers[t].info);
    if s.listener.ReadInfo? {
      assert Complete(s, s.cursor) && s.seqs[mine % BUF_LENGTH] < mine;
    }
  }

  lemma SeqKeepsTickets(s: State, s': State, t: Tid, mine: nat)
    requires Counters(s) && TicketsOk(s) && Counters(s') && t in s.notifiers && s.notifiers[t] == WriteSeq(mine)
    requires s' == s.(notifiers := s.notifiers[t := Idle], seqs := s.seqs[mine % BUF_LENGTH := mine])
    ensures TicketsOk(s')
  {
    assert NotifierOk(s, s.notifiers[t]) && Busy(s.notifiers[t], mine);
    forall ticket | s'.cursor <= ticket < s'.nextSeq ensures InFlight(s', ticket) || Complete(s', ticket) {
      if ticket != mine {
        if InFlight(s, ticket) { OthersInFlight(s, s', t, ticket); } else { assert Complete(s, ticket); }
      }
    }
    forall u | u in s'.notifiers ensures NotifierOk(s', s'.notifiers[u]) {
      if u != t { SeqKeepsOthers(s, s', t, mine, u); }
    }
  }

  lemma SeqKeepsOthers(s: State, s': State, t: Tid, mine: nat, u: Tid)
    requires Counters(s) && TicketsOk(s) && Counters(s') && t in s.notifiers && s.notifiers[t] == WriteSeq(mine)
    requires s' == s.(notifiers := s.notifiers[t := Idle], seqs := s.seqs[mine % BUF_LENGTH := mine])
    requires u in s.notifiers && u != t
    ensures NotifierOk(s', s'.notifiers[u])
  {
    assert NotifierOk(s, s.notifiers[t]) && Busy(s.notifiers[t], mine);
    assert NotifierOk(s, s.notifiers[u]);
    if !s.notifiers[u].Idle? { assert Busy(s.notifiers[u], s.notifiers[u].ticket); }
  }

  lemma SeqKeepsInv(s: State, t: Tid, info: Info)
    requires Inv(s) && Enabled(s, Notify(t, info)) && s.notifiers[t].WriteSeq?
    ensures Inv(Step(s, Notify(t, info)))
  {
    var s', mine := Step(s, Notify(t, info)), s.notifiers[t].ticket;
    assert NotifierOk(s, s.notifiers[t]);
    SeqKeepsTickets(s, s', t, mine);
    if s.listener.ReadInfo? {
      assert Complete(s, s.cursor) && s.seqs[mine % BUF_LENGTH] < mine;
    }
  }

  lemma ListenKeepsInv(s: State)
    requires Inv(s) && Enabled(s, Listen)
    ensures Inv(Step(s, Listen))
  {
    var s' := Step(s, Listen);
    if s.listener.ReadSeq? && s.seqs[s.cursor % BUF_LENGTH] >= s.cursor {
      forall t | t in s.notifiers ensures !Busy(s.notifiers[t], s.cursor) { assert NotifierOk(s, s.notifiers[t]); }
      assert !InFlight(s, s.cursor) && Complete(s, s.cursor);
    }
    forall ticket | s'.cursor <= ticket < s'.nextSeq ensures InFlight(s', ticket) || Complete(s', ticket) {
      if InFlight(s, ticket) {
        var u :| u in s.notifiers && Busy(s.notifiers[u], ticket);
        assert Busy(s'.notifiers[u], ticket);
      } else {
        assert Complete(s, ticket);
      }
    }
    forall u | u in s'.notifiers ensures NotifierOk(s', s'.notifiers[u]) {
      assert NotifierOk(s, s.notifiers[u]);
    }
  }

  lemma StepKeepsInv(s: State, a: Action)
    requires Inv(s) && Enabled(s, a) && NotFarBehind(Step(s, a))
    ensures Inv(Step(s, a))
  {
    match a
    case Listen => ListenKeepsInv(s);
    case Notify(t, info) =>
      if s.notifiers[t].Idle? { TicketKeepsInv(s, t, info); }
      else if s.notifiers[t].WriteInfo? { InfoKeepsInv(s, t, info); }
      else { SeqKeepsInv(s, t, info); }
  }

  lemma Safety(run: seq<State>, i: nat)
    requires IsRun(AttachAfterFirst, NextInTime, run) && i < |run|
    ensures Inv(run[i])
  {
    forall s, s' | Inv(s) && NextInTime(s, s') ensures Inv(s') {
      var a :| Enabled(s, a) && s' == Step(s, a);
      StepKeepsInv(s, a);
    }
    Always(AttachAfterFirst, NextInTime, Inv, run, i);
  }

  // What has been delivered is the tickets from `base` on, each once, in order, with its own info.
  ghost predicate ReceivedAll(s: State) {
    && |s.delivered| == s.cursor - s.base <= |s.history| == s.nextSeq - s.base
    && forall k :: 0 <= k < |s.delivered| ==> s.delivered[k] == (s.base + k, s.history[k])
  }

  /**
   * A listener that attaches at a quiet moment after the first notification, and is never more than the
   * ring's length behind, receives every notification exactly once, in ticket order, with its own info,
   * however the three steps of any number of notifiers interleave with its own.
   */
  lemma EveryNotificationOnce(run: seq<State>, i: nat)
    requires IsRun(AttachAfterFirst, NextInTime, run) && i < |run|
    ensures ReceivedAll(run[i])
  {
    Safety(run, i);
  }

  /**
   * What one undisturbed Listen delivers, however far the listener is behind: it looks at the slot of its
   * cursor, and if the number there is not below the cursor it delivers that number's info and goes on
   * after it, so that it catches up in one step when it has been overrun.
   */
  lemma PollDecides(s: State)
    requires Enabled(s, Listen) && s.listener == Poll
    ensures var slot, s1 := s.cursor % BUF_LENGTH, Step(s, Listen);
      if s.nextSeq == s.cursor then s1 == s
      else
        var s2 := Step(s1, Listen);
        if s.seqs[slot] < s.cursor then s2 == s
        else
          Enabled(s2, Listen) &&
          Step(s2, Listen) == s.(cursor := s.seqs[slot] + 1, delivered := s.delivered + [(s.seqs[slot], s.infos[slot])])
  {
  }

  /** When no Notify is under way and something is outstanding, the next poll delivers the oldest outstanding ticket. */
  lemma QuietPollDelivers(s: State) returns (s': State)
    requires Inv(s) && s.listener == Poll && s.cursor < s.nextSeq
    requires forall t :: t in s.notifiers ==> s.notifiers[t] == Idle
    ensures Enabled(s, Listen) && Enabled(Step(s, Listen), Listen) && Enabled(Step(Step(s, Listen), Listen), Listen)
    ensures s' == Step(Step(Step(s, Listen), Listen), Listen)
    ensures s'.cursor == s.cursor + 1
    ensures s'.delivered == s.delivered + [(s.cursor, s.history[s.cursor - s.base])]
  {
    assert !InFlight(s, s.cursor) && Complete(s, s.cursor);
    s' := Step(Step(Step(s, Listen), Listen), Listen);
  }

  lemma Advance(run: seq<State>, a: Action) returns (run': seq<State>)
    requires IsRun(Attach, NextInTime, run) && Enabled(run[|run| - 1], a) && NotFarBehind(Step(run[|run| - 1], a))
    ensures IsRun(Attach, NextInTime, run') && run' == run + [Step(run[|run| - 1], a)]
  {
    assert Next(run[|run| - 1], Step(run[|run| - 1], a));
    run' := Extend(Attach, NextInTime, run, Step(run[|run| - 1], a));
  }

  /**
   * A listener that attaches before the first notification can always be served a slot nobody has written:
   * the unused sequence number 0 passes for ticket 0 as soon as any notifier has taken that ticket.
   */
  lemma FirstTicketCanBeStale(s: State, t: Tid) returns (run: seq<State>)
    requires Attach(s) && s.nextSeq == 0 && t in s.notifiers
    ensures IsRun(Attach, NextInTime, run) && run[0] == s
    ensures var last := run[|run| - 1];
      last.delivered == [(0, s.infos[0])] && last.history == [s.infos[0] + 1] && !ReceivedAll(last)
  {
    run := [s];
    run := Advance(run, Notify(t, s.infos[0] + 1));
    run := Advance(run, Listen);
    run := Advance(run, Listen);
    run := Advance(run, Listen);
    assert run[|run| - 1].delivered[0] == (0, s.infos[0]);
  }

  // In every run from s in which the listener is never too far behind, it receives everything.
  ghost predicate AlwaysReceivesAll(s: State) {
    forall run: seq<State>, i: nat ::
      i < |run| && IsRun(Attach, NextInTime, run) && run[0] == s ==> ReceivedAll(run[i])
  }

  /**
   * So the ticket at attach decides: with any notifier around, a listener is sure to receive every
   * notification once, in order and with its own info exactly when at least one ticket was taken before.
   */
  lemma SureExactlyFromTicketOne(s: State)
    requires Attach(s) && s.notifiers != map[]
    ensures AlwaysReceivesAll(s) <==> s.nextSeq >= 1
  {
    if s.nextSeq >= 1 {
      forall run: seq<State>, i: nat | i < |run| && IsRun(Attach, NextInTime, run) && run[0] == s
        ensures ReceivedAll(run[i])
      {
        assert IsRun(AttachAfterFirst, NextInTime, run);
        EveryNotificationOnce(run, i);
      }
    } else {
      var t :| t in s.notifiers;
      var run := FirstTicketCanBeStale(s, t);
      assert !ReceivedAll(run[|run| - 1]);
    }
  }

  // ----- the sequential objects: whole Notify and Listen calls, and no bound on how far a listener lags -----

  // The newest ticket below n that maps to slot i.
  function Newest(n: nat, i: nat): (t: nat)
    requires i < BUF_LENGTH && i < n
    ensures t < n && t % BUF_LENGTH == i && n <= t + BUF_LENGTH
  {
    i + (n - 1 - i) / BUF_LENGTH * BUF_LENGTH
  }

  lemma SameSlotSameTicket(a: nat, b: nat, n: nat)
    requires a < n <= a + BUF_LENGTH && b < n <= b + BUF_LENGTH && a % BUF_LENGTH == b % BUF_LENGTH
    ensures a == b
  {
    if a < b { DistinctSlots(a, b, BUF_LENGTH); }
    if b < a { DistinctSlots(b, a, BUF_LENGTH); }
  }

  // One more ticket is the newest in its own slot, and leaves the other slots' newest as they were.
  lemma NewestMoves(n: nat, i: nat)
    requires i < BUF_LENGTH && i < n + 1
    ensures i == n % BUF_LENGTH ==> Newest(n + 1, i) == n
    ensures i != n % BUF_LENGTH ==> i < n && Newest(n + 1, i) == Newest(n, i)
  {
    if i == n % BUF_LENGTH {
      SameSlotSameTicket(n, Newest(n + 1, i), n + 1);
    } else {
      SameSlotSameTicket(Newest(n, i), Newest(n + 1, i), n);
    }
  }

  class Indicator {
    var nextSeq: nat
    const infos: array<Info>
    const seqs: array<nat>
    ghost var history: seq<Info>

    ghost predicate Valid()
      reads this, infos, seqs
    {
      && infos.Length == BUF_LENGTH && seqs.Length == BUF_LENGTH
      && nextSeq == |history|
      && forall i :: 0 <= i < BUF_LENGTH ==>
        if i < nextSeq then seqs[i] == Newest(nextSeq, i) && infos[i] == history[seqs[i]] else seqs[i] == 0
    }

    constructor ()
      ensures Valid() && history == [] && fresh(infos) && fresh(seqs)
    {
      nextSeq := 0;
      infos := new Info[BUF_LENGTH];
      seqs := new nat[BUF_LENGTH](i => 0);
      history := [];
    }

    method Notify(info: Info)
      requires Valid()
      modifies this, infos, seqs
      ensures Valid() && history == old(history) + [info]
    {
      var seq_ := nextSeq;
      nextSeq := nextSeq + 1;
      var idx := seq_ % BUF_LENGTH;
      forall i | 0 <= i < BUF_LENGTH && i < nextSeq
        ensures Newest(nextSeq, i) == if i == idx then seq_ else Newest(seq_, i)
      {
        NewestMoves(seq_, i);
      }
      infos[idx] := info;
      seqs[idx] := seq_;
      history := history + [info];
    }
  }

  class Listener {
    const indicator: Indicator
    var nextSeq: nat
    var isShutdown: bool
    ghost var delivered: seq<nat>

    ghost predicate Valid()
      reads this, indicator, indicator.infos, indicator.seqs
    {
      && indicator.Valid() && nextSeq <= indicator.nextSeq
      && (forall i, j :: 0 <= i < j < |delivered| ==> delivered[i] < delivered[j])
      && (forall i :: 0 <= i < |delivered| ==> delivered[i] < nextSeq)
    }

    constructor (indicator: Indicator)
      requires indicator.Valid()
      ensures Valid() && this.indicator == indicator && nextSeq == indicator.nextSeq && delivered == [] && !isShutdown
    {
      this.indicator := indicator;
      nextSeq := indicator.nextSeq;
      isShutdown := false;
      delivered := [];
    }

    /**
     * Returns the next notification if there is one.  The ticket it delivers is the newest one in the slot of
     * the cursor: the expected ticket if the listener is at most the ring's length behind, otherwise one of
     * the newest BUF_LENGTH tickets.  Delivered tickets strictly increase and come with their own infos.
     */
    method Listen(timeoutMs: int) returns (ok: bool, info: Option<Info>)
      requires Valid()
      modifies this
      ensures Valid() && isShutdown == old(isShutdown)
      ensures ok <==> old(nextSeq) < indicator.nextSeq && !isShutdown
      ensures !ok ==> nextSeq == old(nextSeq) && delivered == old(delivered) && info == None
      ensures ok ==>
        var ticket := Newest(indicator.nextSeq, old(nextSeq) % BUF_LENGTH);
        && delivered == old(delivered) + [ticket] && info == Some(indicator.history[ticket]) && nextSeq == ticket + 1
        && old(nextSeq) <= ticket
        && (ticket == old(nextSeq) <==> indicator.nextSeq <= old(nextSeq) + BUF_LENGTH)
        && (indicator.nextSeq > old(nextSeq) + BUF_LENGTH ==> indicator.nextSeq - BUF_LENGTH <= ticket)
    {
      var timeoutUs := timeoutMs * 1000;
      while !isShutdown
        invariant nextSeq == old(nextSeq) && delivered == old(delivered) && Valid()
        decreases timeoutUs
      {
        var seq_ := indicator.nextSeq;
        if seq_ != nextSeq {
          var idx := nextSeq % BUF_LENGTH;
          var actual := indicator.seqs[idx];
          if actual >= nextSeq {
            nextSeq := actual;
            info := Some(indicator.infos[idx]);
            delivered := delivered + [actual];
            nextSeq := nextSeq + 1;
            return true, info;
          }
        }
        if timeoutUs > 0 {
          timeoutUs := timeoutUs - 50;
        } else {
          return false, None;
        }
      }
      return false, None;
    }
  }
}
