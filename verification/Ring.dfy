/**
 * The data plane rings against an unbounded history.
 *
 * `CacheBuffer` is the ring, `Fetch` and `Latest` are the channel buffer's reads, `DataVisitor` keeps
 * the reader's cursor.  The ring is proved to stand for the full history of what was filled in; the
 * properties of readers are then proved about histories.
 */
module Ring {
  import opened Options
  import Modular

  // ----- what a reader sees of a history of n values kept in a ring of the given size -----

  function OldestPosition(size: nat, n: nat): nat {
    (if n > size then n - size else 0) + 1
  }

  datatype Fetched<+T> = Nothing | Message(index: nat, value: T)

  // The channel buffer's Fetch: absolute positions count from 1; cursor 0 means "never fetched".
  function FetchFrom<T>(size: nat, history: seq<T>, cursor: nat): (r: Fetched<T>)
    requires cursor <= |history| + 1
  {
    var tail := |history|;
    if tail == 0 then Nothing
    else if cursor == 0 then Message(tail, history[tail - 1])
    else if cursor == tail + 1 then Nothing
    else if cursor < OldestPosition(size, tail) then Message(tail, history[tail - 1])
    else Message(cursor, history[cursor - 1])
  }

  class CacheBuffer<T(0)> {
    var head: nat
    var tail: nat
    const capacity: nat
    const buffer: array<T>
    var hasCallback: bool
    ghost var history: seq<T>

    ghost predicate Valid()
      reads this, buffer
    {
      && capacity > 0 && buffer.Length == capacity
      && tail == |history|
      && head == (if tail > capacity - 1 then tail - (capacity - 1) else 0)
      && forall p: nat :: 1 <= p && head <= p <= tail ==> buffer[p % capacity] == history[p - 1]
    }

    constructor (size: nat)
      ensures Valid() && fresh(buffer) && capacity == size + 1 && history == [] && !hasCallback
    {
      capacity := size + 1;
      hasCallback := false;
      head, tail := 0, 0;
      buffer := new T[size + 1];
      history := [];
    }

    function GetIndex(pos: nat): nat
      requires capacity > 0
    {
      pos % capacity
    }

    // The position of the oldest value still readable, and of the newest.
    function Head(): nat reads this { head + 1 }
    function Tail(): nat reads this { tail }
    function Size(): int reads this { tail - head }
    predicate Empty() reads this { tail == 0 }
    predicate Full() reads this { capacity - 1 == tail - head }

    function At(pos: nat): T
      requires capacity > 0 && buffer.Length == capacity
      reads this, buffer
    {
      buffer[GetIndex(pos)]
    }

    method SetFusionCallback()
      modifies this`hasCallback
      ensures hasCallback
    {
      hasCallback := true;
    }

    /** Stores the value; with a fusion callback set, passes it on to the callback instead. */
    method Fill(value: T) returns (passedOn: bool)
      requires Valid()
      modifies this, buffer
      ensures Valid() && hasCallback == old(hasCallback) && passedOn == hasCallback
      ensures !passedOn ==> history == old(history) + [value]
      ensures passedOn ==> unchanged(this) && unchanged(buffer)
    {
      if hasCallback {
        return true;
      }
      passedOn := false;
      ghost var before := buffer[..];
      ghost var slot := tail + 1;
      if Full() {
        Modular.FullTurn(head, capacity);
        buffer[GetIndex(head)] := value;
        head := head + 1;
        tail := tail + 1;
      } else {
        buffer[GetIndex(tail + 1)] := value;
        tail := tail + 1;
      }
      history := history + [value];
      forall p: nat | 1 <= p && head <= p <= tail ensures buffer[p % capacity] == history[p - 1] {
        if p < slot {
          Modular.DistinctSlots(p, slot, capacity);
          assert buffer[p % capacity] == before[p % capacity];
        }
      }
    }

    /** The ring holds exactly the newest min(size, total) values, each at its own position. */
    lemma HoldsNewest(p: nat)
      requires Valid()
      ensures Size() == if |history| < capacity - 1 then |history| else capacity - 1
      ensures Head() == OldestPosition(capacity - 1, |history|)
      ensures Head() <= p <= Tail() ==> At(p) == history[p - 1]
      ensures !Empty() ==> At(Tail()) == history[|history| - 1]
    {
    }
  }

  class ChannelBuffer<T(0)> {
    const buffer: CacheBuffer<T>

    constructor (size: nat)
      ensures fresh(buffer) && fresh(buffer.buffer) && buffer.Valid() && !buffer.hasCallback
      ensures buffer.capacity == size + 1 && buffer.history == []
    {
      buffer := new CacheBuffer<T>(size);
    }

    method Fetch(index: nat) returns (ok: bool, index': nat, m: Option<T>)
      requires buffer.Valid()
      ensures !ok ==> index' == index && m == None
      ensures index <= |buffer.history| + 1 ==>
        FetchFrom(buffer.capacity - 1, buffer.history, index) ==
          if ok && m.Some? then Message(index', m.value) else Nothing
      ensures ok ==> m.Some?
    {
      index' := index;
      if buffer.Empty() {
        return false, index, None;
      }
      if index == 0 {
        index' := buffer.Tail();
      } else if index == buffer.Tail() + 1 {
        return false, index, None;
      } else if index < buffer.Head() {
        index' := buffer.Tail();
      }
      buffer.HoldsNewest(index');
      return true, index', Some(buffer.At(index'));
    }

    method Latest() returns (ok: bool, m: Option<T>)
      requires buffer.Valid()
      ensures ok <==> buffer.history != []
      ensures m == if ok then Some(buffer.history[|buffer.history| - 1]) else None
    {
      if buffer.Empty() {
        return false, None;
      }
      buffer.HoldsNewest(buffer.Tail());
      return true, Some(buffer.At(buffer.Tail()));
    }

    // The newest min(size, fetchSize) values, oldest first.
    method FetchMulti(fetchSize: nat) returns (ok: bool, vec: seq<T>)
      requires buffer.Valid()
      ensures ok <==> buffer.history != []
      ensures var n := |buffer.history|;
        var num := if buffer.Size() < fetchSize then buffer.Size() else fetchSize;
        vec == if ok then buffer.history[n - num..] else []
    {
      vec := [];
      if buffer.Empty() {
        return false, vec;
      }
      var num := if buffer.Size() < fetchSize then buffer.Size() else fetchSize;
      var index := buffer.Tail() - num + 1;
      while index <= buffer.Tail()
        invariant buffer.Tail() - num + 1 <= index <= buffer.Tail() + 1
        invariant vec == buffer.history[buffer.Tail() - num..index - 1]
      {
        buffer.HoldsNewest(index);
        SliceGrows(buffer.history, buffer.Tail() - num, index - 1);
        vec := vec + [buffer.At(index)];
        index := index + 1;
      }
      return true, vec;
    }
  }

  lemma SliceGrows<T>(s: seq<T>, i: nat, j: nat)
    requires i <= j < |s|
    ensures s[i..j] + [s[j]] == s[i..j + 1]
  {
  }

  // ----- one reader over any interleaving of fills and fetches -----

  // `log` lists what TryFetch delivered, with positions; `dropped` adds up the positions it skipped.
  datatype View<T> = View(size: nat, history: seq<T>, cursor: nat, log: seq<(nat, T)>, dropped: nat)

  datatype Op<T> = Fill(value: T) | TryFetch

  function Apply<T>(v: View<T>, op: Op<T>): View<T>
    requires v.cursor <= |v.history| + 1
  {
    match op
    case Fill(value) => v.(history := v.history + [value])
    case TryFetch =>
      match FetchFrom(v.size, v.history, v.cursor)
      case Nothing => v
      case Message(i, m) =>
        v.(cursor := i + 1, log := v.log + [(i, m)], dropped := v.dropped + if v.cursor == 0 then 0 else i - v.cursor)
  }

  ghost predicate ViewOk<T>(v: View<T>) {
    && v.cursor <= |v.history| + 1
    && (v.log == [] <==> v.cursor == 0) && (v.log == [] ==> v.dropped == 0)
    && (forall i :: 0 <= i < |v.log| ==> 1 <= v.log[i].0 < v.cursor && v.log[i].1 == v.history[v.log[i].0 - 1])
    && (forall i, j :: 0 <= i < j < |v.log| ==> v.log[i].0 < v.log[j].0)
    && (v.log != [] ==>
          && v.cursor == v.log[|v.log| - 1].0 + 1
          && |v.log| + v.dropped == v.cursor - v.log[0].0)
  }

  lemma ApplyKeepsView<T>(v: View<T>, op: Op<T>)
    requires ViewOk(v)
    ensures ViewOk(Apply(v, op))
  {
    var v' := Apply(v, op);
    forall i | 0 <= i < |v'.log| ensures 1 <= v'.log[i].0 < v'.cursor && v'.log[i].1 == v'.history[v'.log[i].0 - 1] {
    }
  }

  ghost function Play<T>(v: View<T>, ops: seq<Op<T>>): (v': View<T>)
    requires ViewOk(v)
    ensures ViewOk(v')
    decreases |ops|
  {
    if ops == [] then v
    else
      ApplyKeepsView(v, ops[0]);
      Play(Apply(v, ops[0]), ops[1..])
  }

  /**
   * A reader that starts with cursor 0, under any interleaving of fills and fetches: the cursor never
   * runs past the newest position plus one; delivered positions strictly increase and each delivered
   * message is the one at its position; and from the first fetch on, delivered plus dropped positions
   * are exactly the span covered.
   */
  lemma ReaderSafety<T>(size: nat, ops: seq<Op<T>>)
    ensures var v := Play(View(size, [], 0, [], 0), ops);
      && v.cursor <= |v.history| + 1
      && (forall i, j :: 0 <= i < j < |v.log| ==> v.log[i].0 < v.log[j].0)
      && (forall i :: 0 <= i < |v.log| ==> 1 <= v.log[i].0 <= |v.history| && v.log[i].1 == v.history[v.log[i].0 - 1])
      && (v.log != [] ==> |v.log| + v.dropped == v.cursor - v.log[0].0)
  {
  }

  /** Messages are skipped exactly when the next one has left the ring, and then the newest is delivered. */
  lemma SkipsOnlyWhenOverrun<T>(v: View<T>)
    requires ViewOk(v) && v.cursor > 0 && FetchFrom(v.size, v.history, v.cursor).Message?
    ensures FetchFrom(v.size, v.history, v.cursor).index > v.cursor <==>
              v.cursor < OldestPosition(v.size, |v.history|) && v.cursor < |v.history|
    ensures FetchFrom(v.size, v.history, v.cursor).index != v.cursor ==>
              FetchFrom(v.size, v.history, v.cursor).index == |v.history|
  {
  }

  /**
   * What a fetch answers: nothing exactly if there is no message yet or the reader has the newest; the newest
   * if the reader has never fetched; else the next one, or the newest if the next one has left the ring.
   */
  lemma FetchAnswers<T>(v: View<T>)
    requires ViewOk(v)
    ensures var n, v' := |v.history|, Apply(v, TryFetch);
      && (v'.log == v.log <==> n == 0 || v.cursor == n + 1)
      && (n > 0 && v.cursor == 0 ==> v'.log == [(n, v.history[n - 1])] && v'.cursor == n + 1)
      && (1 <= v.cursor <= n && n - v.cursor < v.size ==> v'.log == v.log + [(v.cursor, v.history[v.cursor - 1])])
      && (1 <= v.cursor <= n && n - v.cursor >= v.size ==> v'.log == v.log + [(n, v.history[n - 1])])
  {
  }

  // The reader is never more than `size` messages behind while `ops` are played.
  ghost predicate KeepsUp<T>(v: View<T>, ops: seq<Op<T>>)
    requires ViewOk(v)
    decreases |ops|
  {
    && (v.cursor > 0 ==> |v.history| + 1 - v.cursor <= v.size)
    && (ops != [] ==> (ApplyKeepsView(v, ops[0]); KeepsUp(Apply(v, ops[0]), ops[1..])))
  }

  /** A reader that keeps up receives every message from its first one on: nothing is dropped. */
  lemma {:induction false} NoDropWhenKeepingUp<T>(v: View<T>, ops: seq<Op<T>>)
    requires ViewOk(v) && KeepsUp(v, ops)
    ensures Play(v, ops).dropped == v.dropped
    decreases |ops|
  {
    if ops != [] {
      ApplyKeepsView(v, ops[0]);
      NoDropWhenKeepingUp(Apply(v, ops[0]), ops[1..]);
    }
  }

  class DataVisitor<T(0)> {
    const channel: ChannelBuffer<T>
    var nextMsgIndex: nat
    ghost var view: View<T>

    ghost predicate Valid()
      reads this, channel.buffer, channel.buffer.buffer
    {
      && channel.buffer.Valid() && !channel.buffer.hasCallback && ViewOk(view)
      && view.size == channel.buffer.capacity - 1 && view.history == channel.buffer.history
      && view.cursor == nextMsgIndex
    }

    constructor (queueSize: nat)
      ensures Valid() && fresh(channel.buffer) && fresh(channel.buffer.buffer)
      ensures view == View(queueSize, [], 0, [], 0)
    {
      channel := new ChannelBuffer<T>(queueSize);
      nextMsgIndex := 0;
      view := View(queueSize, [], 0, [], 0);
    }

    /** What the dispatcher does to this visitor's buffer when a message arrives. */
    method Receive(value: T)
      requires Valid()
      modifies this, channel.buffer, channel.buffer.buffer
      ensures Valid() && view == Apply(old(view), Fill(value))
    {
      ApplyKeepsView(view, Fill(value));
      var passedOn := channel.buffer.Fill(value);
      view := Apply(view, Fill(value));
    }

    method TryFetch() returns (ok: bool, m: Option<T>)
      requires Valid()
      modifies this
      ensures Valid() && view == Apply(old(view), Op.TryFetch)
      ensures ok <==> |view.log| > |old(view).log|
      ensures m == if ok then Some(view.log[|view.log| - 1].1) else None
    {
      ApplyKeepsView(view, Op.TryFetch);
      var index;
      ok, index, m := channel.Fetch(nextMsgIndex);
      view := Apply(view, Op.TryFetch);
      nextMsgIndex := index;
      if ok {
        nextMsgIndex := nextMsgIndex + 1;
      }
    }
  }
}
