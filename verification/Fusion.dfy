/**
 * Fusing the newest values of several channels.
 *
 * The primary channel's buffer runs a callback instead of storing: each arriving primary value is paired
 * with the latest value of every secondary channel and the tuple is put into a ring of its own.
 */
module Fusion {
  import opened Options
  import opened Ring

  // One value from the primary channel together with one from each secondary channel, in channel order.
  datatype Tuple<T> = Tuple(primary: T, others: seq<T>)

  datatype Arrival<T> = Primary(value: T) | Secondary(channel: nat, value: T)

  // Everything channel k has received.
  function Received<T>(arrivals: seq<Arrival<T>>, k: nat): seq<T> {
    if arrivals == [] then []
    else
      var before, last := arrivals[..|arrivals| - 1], arrivals[|arrivals| - 1];
      if last.Secondary? && last.channel == k then Received(before, k) + [last.value] else Received(before, k)
  }

  predicate AllHeard<T>(arrivals: seq<Arrival<T>>, n: nat) {
    forall k :: 0 <= k < n ==> Received(arrivals, k) != []
  }

  function Last<T>(s: seq<T>): T
    requires s != []
  {
    s[|s| - 1]
  }

  // The latest value of each of the channels 0 to n - 1, if all of them have received something.
  function Latest<T>(arrivals: seq<Arrival<T>>, n: nat): (r: Option<seq<T>>)
    ensures r.Some? <==> AllHeard(arrivals, n)
    ensures r.Some? ==> |r.value| == n && forall k :: 0 <= k < n ==> r.value[k] == Last(Received(arrivals, k))
  {
    if AllHeard(arrivals, n) then
      Some(seq(n, k requires 0 <= k < n && AllHeard(arrivals, n) => Last(Received(arrivals, k))))
    else None
  }

  // Everything the primary channel has received.
  function Primaries<T>(arrivals: seq<Arrival<T>>): seq<T> {
    if arrivals == [] then []
    else
      var before, last := arrivals[..|arrivals| - 1], arrivals[|arrivals| - 1];
      if last.Primary? then Primaries(before) + [last.value] else Primaries(before)
  }

  // The specification.  The callback is set after the first `start` arrivals; from then on each primary
  // arrival emits one tuple, as soon as every secondary has a value, however early that value came.
  function Fused<T>(arrivals: seq<Arrival<T>>, start: nat, n: nat): seq<Tuple<T>> {
    if |arrivals| <= start then []
    else
      var before, last := arrivals[..|arrivals| - 1], arrivals[|arrivals| - 1];
      if last.Primary? && Latest(before, n).Some? then
        Fused(before, start, n) + [Tuple(last.value, Latest(before, n).value)]
      else Fused(before, start, n)
  }

  class AllLatest<T(0)> {
    const primary: CacheBuffer<T>
    const others: seq<ChannelBuffer<T>>
    const fusion: ChannelBuffer<Option<Tuple<T>>>
    ghost const start: nat
    ghost var arrivals: seq<Arrival<T>>

    ghost predicate Apart() {
      && (forall k :: 0 <= k < |others| ==>
            && others[k].buffer != primary && others[k].buffer.buffer != primary.buffer
            && others[k].buffer as object != fusion.buffer && others[k].buffer.buffer as object != fusion.buffer.buffer)
      && (forall j, k :: 0 <= j < k < |others| ==>
            others[j].buffer != others[k].buffer && others[j].buffer.buffer != others[k].buffer.buffer)
      && primary as object != fusion.buffer && primary.buffer as object != fusion.buffer.buffer
    }

    ghost predicate SecondariesOk()
      reads this
      reads set k | 0 <= k < |others| :: others[k].buffer
      reads set k | 0 <= k < |others| :: others[k].buffer.buffer
    {
      forall k :: 0 <= k < |others| ==>
        && others[k].buffer.Valid() && !others[k].buffer.hasCallback
        && others[k].buffer.history == Received(arrivals, k)
    }

    ghost predicate FusionOk()
      reads this, fusion.buffer, fusion.buffer.buffer
    {
      && fusion.buffer.Valid() && !fusion.buffer.hasCallback
      && |fusion.buffer.history| == |Fused(arrivals, start, |others|)|
      && forall i :: 0 <= i < |fusion.buffer.history| ==>
           fusion.buffer.history[i] == Some(Fused(arrivals, start, |others|)[i])
    }

    ghost predicate Valid()
      reads this, primary, primary.buffer, fusion.buffer, fusion.buffer.buffer
      reads set k | 0 <= k < |others| :: others[k].buffer
      reads set k | 0 <= k < |others| :: others[k].buffer.buffer
    {
      && Apart() && SecondariesOk() && FusionOk()
      && primary.Valid() && primary.hasCallback && fusion.buffer.capacity == primary.capacity
      && start <= |arrivals| && primary.history == Primaries(arrivals[..start])
    }

    /**
     * Sets the callback.  The buffers have been registered before, so they may have received anything
     * meanwhile: `early` is what arrived, in order.
     */
    constructor (primary: CacheBuffer<T>, others: seq<ChannelBuffer<T>>, ghost early: seq<Arrival<T>>)
      requires primary.Valid() && primary.history == Primaries(early)
      requires forall k :: 0 <= k < |others| ==>
        && others[k].buffer.Valid() && !others[k].buffer.hasCallback
        && others[k].buffer.history == Received(early, k)
        && others[k].buffer != primary && others[k].buffer.buffer != primary.buffer
      requires forall j, k :: 0 <= j < k < |others| ==>
        others[j].buffer != others[k].buffer && others[j].buffer.buffer != others[k].buffer.buffer
      modifies primary`hasCallback
      ensures Valid() && this.primary == primary && this.others == others
      ensures arrivals == early && start == |early|
      ensures fresh(fusion.buffer) && fresh(fusion.buffer.buffer)
    {
      this.primary := primary;
      this.others := others;
      fusion := new ChannelBuffer<Option<Tuple<T>>>(primary.capacity - 1);
      arrivals := early;
      start := |early|;
      new;
      primary.SetFusionCallback();
      assert early[..|early|] == early;
    }

    // The callback's chain of tests: stops at the first secondary channel without a value.
    method LatestOfOthers() returns (complete: bool, values: seq<T>)
      requires SecondariesOk()
      ensures complete <==> Latest(arrivals, |others|).Some?
      ensures complete ==> values == Latest(arrivals, |others|).value
    {
      values := [];
      for k := 0 to |others|
        invariant |values| == k
        invariant forall j :: 0 <= j < k ==>
          Received(arrivals, j) != [] && values[j] == Last(Received(arrivals, j))
      {
        var ok, m := others[k].Latest();
        if !ok {
          return false, values;
        }
        values := values + [m.value];
      }
      return true, values;
    }

    /** A value arrives on the primary channel: the ring passes it on to the callback and stays as it is. */
    method FillPrimary(value: T)
      requires Valid()
      modifies this, primary, primary.buffer, fusion.buffer, fusion.buffer.buffer
      ensures Valid() && arrivals == old(arrivals) + [Primary(value)]
      ensures unchanged(primary) && unchanged(primary.buffer)
    {
      var passedOn := primary.Fill(value);
      if passedOn {
        var complete, values := LatestOfOthers();
        if complete {
          var stored := fusion.buffer.Fill(Some(Tuple(value, values)));
        }
      }
      arrivals := arrivals + [Primary(value)];
      assert arrivals[..|arrivals| - 1] == old(arrivals);
      assert arrivals[..start] == old(arrivals)[..start];
    }

    /** A value arrives on a secondary channel and goes into that channel's ring. */
    method FillSecondary(k: nat, value: T)
      requires Valid() && k < |others|
      modifies this, others[k].buffer, others[k].buffer.buffer
      ensures Valid() && arrivals == old(arrivals) + [Secondary(k, value)]
    {
      var passedOn := others[k].buffer.Fill(value);
      arrivals := arrivals + [Secondary(k, value)];
      assert arrivals[..|arrivals| - 1] == old(arrivals);
      assert arrivals[..start] == old(arrivals)[..start];
    }

    /** The reader fetches from the fused ring, so it sees the fold of all arrivals through that ring's window. */
    method Fuse(index: nat) returns (ok: bool, index': nat, data: Option<Tuple<T>>)
      requires Valid() && index <= |Fused(arrivals, start, |others|)| + 1
      ensures FetchFrom(primary.capacity - 1, Fused(arrivals, start, |others|), index) ==
        if ok && data.Some? then Message(index', data.value) else Nothing
      ensures ok ==> data.Some?
    {
      var m;
      ok, index', m := fusion.Fetch(index);
      data := if ok then m.value else None;
    }

    /**
     * The primary channel's own ring holds exactly the newest of what arrived before the callback was set,
     * whatever has arrived since: it never changes again, and it stays empty if nothing had arrived.
     */
    lemma PrimaryRingKeepsEarlyValues(p: nat)
      requires Valid()
      ensures var early := Primaries(arrivals[..start]);
        && primary.Tail() == |early| && primary.Head() == OldestPosition(primary.capacity - 1, |early|)
        && (primary.Head() <= p <= primary.Tail() ==> primary.At(p) == early[p - 1])
        && (early == [] ==> primary.Empty() && primary.Size() == 0)
    {
      primary.HoldsNewest(p);
    }
  }

  /** Whatever the rings have received before the callback is set, there are arrivals that explain it. */
  lemma {:induction false} EarlyArrivalsExist<T>(primary: seq<T>, others: seq<seq<T>>) returns (early: seq<Arrival<T>>)
    ensures Primaries(early) == primary
    ensures forall k :: 0 <= k < |others| ==> Received(early, k) == others[k]
    ensures forall k :: |others| <= k ==> Received(early, k) == []
    decreases |others|, if others == [] then |primary| else |others[|others| - 1]|
  {
    if others == [] {
      if primary == [] { return []; }
      var front := EarlyArrivalsExist(primary[..|primary| - 1], others);
      early := front + [Primary(primary[|primary| - 1])];
      assert early[..|early| - 1] == front;
    } else {
      var k := |others| - 1;
      if others[k] == [] {
        early := EarlyArrivalsExist(primary, others[..k]);
      } else {
        var values := others[k];
        var front := EarlyArrivalsExist(primary, others[k := values[..|values| - 1]]);
        early := front + [Secondary(k, values[|values| - 1])];
        assert early[..|early| - 1] == front;
      }
    }
  }

  lemma {:induction false} HeardStays<T>(arrivals: seq<Arrival<T>>, later: seq<Arrival<T>>, k: nat)
    requires Received(arrivals, k) != []
    ensures Received(arrivals + later, k) != []
  {
    if later == [] {
      assert arrivals + later == arrivals;
    } else {
      HeardStays(arrivals, later[..|later| - 1], k);
      assert (arrivals + later)[..|arrivals + later| - 1] == arrivals + later[..|later| - 1];
    }
  }

  function PrimaryParts<T>(tuples: seq<Tuple<T>>): seq<T> {
    seq(|tuples|, i requires 0 <= i < |tuples| => tuples[i].primary)
  }

  /**
   * Once every secondary channel has been heard and the callback is set, every primary arrival emits exactly
   * one tuple, in order of arrival.
   */
  lemma {:induction false} EmitsOncePerPrimary<T>(arrivals: seq<Arrival<T>>, later: seq<Arrival<T>>, start: nat, n: nat)
    requires AllHeard(arrivals, n) && start <= |arrivals|
    ensures PrimaryParts(Fused(arrivals + later, start, n)) ==
      PrimaryParts(Fused(arrivals, start, n)) + Primaries(later)
  {
    var all := arrivals + later;
    if later == [] {
      assert all == arrivals;
    } else {
      var init, last := later[..|later| - 1], later[|later| - 1];
      EmitsOncePerPrimary(arrivals, init, start, n);
      assert all[..|all| - 1] == arrivals + init && all[|all| - 1] == last;
      forall k | 0 <= k < n ensures Received(arrivals + init, k) != [] { HeardStays(arrivals, init, k); }
      if last.Primary? {
        var t := Tuple(last.value, Latest(arrivals + init, n).value);
        assert Fused(all, start, n) == Fused(arrivals + init, start, n) + [t];
        assert PrimaryParts(Fused(all, start, n)) == PrimaryParts(Fused(arrivals + init, start, n)) + [last.value];
      }
    }
  }

  /**
   * The fold starts from what the secondary channels received early, and from that only: the tuples are
   * those of the primary arrivals after the callback was set, never an earlier one, and the first of them
   * carries the early values.
   */
  lemma FoldStartsFromEarlyValues<T>(early: seq<Arrival<T>>, later: seq<Arrival<T>>, value: T, n: nat)
    requires AllHeard(early, n)
    ensures PrimaryParts(Fused(early + later, |early|, n)) == Primaries(later)
    ensures Fused(early + [Primary(value)], |early|, n) == [Tuple(value, Latest(early, n).value)]
  {
    EmitsOncePerPrimary(early, later, |early|, n);
    assert PrimaryParts(Fused(early, |early|, n)) == [];
    var one := early + [Primary(value)];
    assert one[..|one| - 1] == early;
  }

  // Moment b is the last one before a at which channel k received something.
  predicate IsNewestBefore<T(==)>(arrivals: seq<Arrival<T>>, k: nat, value: T, a: nat, b: nat) {
    && b < a <= |arrivals| && arrivals[b] == Secondary(k, value)
    && forall c :: b < c < a ==> !(arrivals[c].Secondary? && arrivals[c].channel == k)
  }

  lemma {:induction false} NewestArrival<T>(arrivals: seq<Arrival<T>>, k: nat) returns (b: nat)
    requires Received(arrivals, k) != []
    ensures IsNewestBefore(arrivals, k, Last(Received(arrivals, k)), |arrivals|, b)
  {
    var n := |arrivals| - 1;
    if arrivals[n].Secondary? && arrivals[n].channel == k {
      b := n;
    } else {
      b := NewestArrival(arrivals[..n], k);
    }
  }

  /**
   * Every tuple is a snapshot: the i-th one carries the value of a primary arrival after the callback was set,
   * and from each secondary channel the newest value that arrived before it.  The tuples are in the order
   * of those arrivals.
   */
  lemma {:induction false} TupleIsSnapshot<T>(arrivals: seq<Arrival<T>>, start: nat, n: nat, i: nat, k: nat)
    returns (a: nat, b: nat)
    requires i < |Fused(arrivals, start, n)| && k < n
    ensures start <= a < |arrivals| && arrivals[a] == Primary(Fused(arrivals, start, n)[i].primary)
    ensures |Fused(arrivals[..a], start, n)| == i
    ensures |Fused(arrivals, start, n)[i].others| == n
    ensures IsNewestBefore(arrivals, k, Fused(arrivals, start, n)[i].others[k], a, b)
    decreases |arrivals|
  {
    var last := |arrivals| - 1;
    var before := arrivals[..last];
    if i < |Fused(before, start, n)| {
      a, b := TupleIsSnapshot(before, start, n, i, k);
      assert before[..a] == arrivals[..a];
    } else {
      a := last;
      b := NewestArrival(before, k);
    }
  }

  /** While some secondary channel has not been heard, nothing is emitted. */
  lemma {:induction false} NothingBeforeAllHeard<T>(arrivals: seq<Arrival<T>>, start: nat, n: nat, k: nat)
    requires k < n && Received(arrivals, k) == []
    ensures Fused(arrivals, start, n) == []
  {
    if arrivals != [] {
      NothingBeforeAllHeard(arrivals[..|arrivals| - 1], start, n, k);
    }
  }
}
