/**
 * The insert-only lock-free hash map as a step machine: a fixed number of buckets, each a sorted chain
 * behind a sentinel.  Every load of a link or of a value pointer and every compare-exchange is one step
 * of one thread.
 */
module HashMap {
  import opened Options
  import opened Runs
  import Modular

  type Tid = nat
  type Id = nat
  type Key = nat
  type Value = int

  // A value cell.  The compare-exchange on a value pointer compares identities, not values.
  datatype Ref = Ref(id: nat, value: Value)

  datatype Entry = Entry(key: Key, cell: Ref, next: Option<Id>)

  datatype Op = Has | Get | Set

  // A call in progress.  A Set that retries keeps the cell and the entry it has allocated.
  datatype Call = Call(op: Op, key: Key, value: Value, cell: Option<Ref>, entry: Option<Id>)

  // `Walk(c, prev, target, absent)` has loaded `target` from prev's link; `absent` records whether the
  // key was missing from the map at the instant of that load.
  datatype Pc =
    | Start(c: Call)
    | Walk(c: Call, prev: Id, target: Option<Id>, absent: bool)
    | Update(c: Call, entry: Id, seen: Ref)
    | Link(c: Call, prev: Id, target: Option<Id>)
    | Done(c: Call, found: bool, result: Value, absent: bool)

  // `heap` holds all entries; entry b < buckets is the sentinel of bucket b.  Two histories are kept
  // beside it: the ids on each chain, and the map the structure stands for.
  datatype State = State(
    buckets: nat, index: Key -> Id, heap: seq<Entry>, cells: nat, pcs: map<Tid, Pc>,
    chains: seq<seq<Id>>, table: map<Key, Value>)

  datatype Action = Begin(op: Op, key: Key, value: Value) | Go

  function Pow2(n: nat): (p: nat)
    ensures p > 0
  {
    if n == 0 then 1 else 2 * Pow2(n - 1)
  }

  // Bitwise and of two unsigned numbers.
  function And(a: nat, b: nat): nat {
    if a == 0 || b == 0 then 0 else (if a % 2 == 1 && b % 2 == 1 then 1 else 0) + 2 * And(a / 2, b / 2)
  }

  // The lowest bit of an odd mask lets the number's lowest bit through.
  lemma AndWithOdd(a: nat, mask: nat, half: nat)
    requires mask == 2 * half + 1
    ensures And(a, mask) == a % 2 + 2 * And(a / 2, half)
  {
    assert mask % 2 == 1 && mask / 2 == half;
  }

  // Dividing by p = 2m is dividing the half by m, with the lowest bit going to the rest.
  lemma OneMoreBit(key: nat, q: nat, m: nat, rest: nat, p: nat, bits: nat)
    requires p == 2 * m && key / 2 == q * m + rest && rest < m && bits == key % 2 + 2 * rest
    ensures key == q * p + bits && bits < p
  {
    assert q * (2 * m) == 2 * (q * m);
  }

  // A power of two less one takes off a number what is below the multiples of that power.
  lemma {:induction false} MaskTakesRest(key: nat, n: nat) returns (q: nat)
    ensures key == q * Pow2(n) + And(key, Pow2(n) - 1) && And(key, Pow2(n) - 1) < Pow2(n)
  {
    if n == 0 {
      q := key;
    } else {
      var m := Pow2(n - 1);
      q := MaskTakesRest(key / 2, n - 1);
      AndWithOdd(key, Pow2(n) - 1, m - 1);
      OneMoreBit(key, q, m, And(key / 2, m - 1), Pow2(n), And(key, Pow2(n) - 1));
    }
  }

  /** Masking with a power of two less one is the remainder, so every key falls into one bucket of the table. */
  lemma MaskIsRemainder(key: Key, n: nat)
    ensures And(key, Pow2(n) - 1) == key % Pow2(n) < Pow2(n)
  {
    var q := MaskTakesRest(key, n);
    Modular.QuotientUnique(key, Pow2(n), q, And(key, Pow2(n) - 1));
  }

  function BucketOf(s: State, key: Key): Id {
    s.index(key)
  }

  ghost predicate Indexes(s: State) {
    s.buckets > 0 && forall k :: s.index(k) < s.buckets
  }

  // The table size is a power of two and the bucket is picked by masking the key.
  ghost predicate Init(s: State) {
    && (exists n :: s.buckets == Pow2(n)) && (forall k :: s.index(k) == And(k, s.buckets - 1))
    && |s.heap| == s.buckets && |s.chains| == s.buckets
    && (forall b :: 0 <= b < s.buckets ==> s.heap[b].next == None && s.chains[b] == [b])
    && s.pcs == map[] && s.table == map[]
  }

  ghost predicate Enabled(s: State, t: Tid, a: Action) {
    && Indexes(s) && s.buckets <= |s.heap| && |s.chains| == s.buckets
    && match a
       case Begin(_, _, _) => t in s.pcs ==> s.pcs[t].Done?
       case Go =>
         t in s.pcs &&
         match s.pcs[t]
         case Start(_) => true
         case Walk(c, prev, target, _) =>
           && (target.Some? ==> target.value < |s.heap|)
           && (c.entry.Some? ==> c.entry.value < |s.heap|)
         case Update(_, e, _) => e < |s.heap|
         case Link(c, prev, _) => prev < |s.heap| && c.entry.Some?
         case Done(_, _, _, _) => false
  }

  function To(s: State, t: Tid, pc: Pc): State {
    s.(pcs := s.pcs[t := pc])
  }

  // The chain of the key's bucket with entry e spliced in after prev.
  function Splice(chain: seq<Id>, prev: Id, e: Id): seq<Id> {
    if chain == [] then [] else if chain[0] == prev then [prev, e] + chain[1..]
    else [chain[0]] + Splice(chain[1..], prev, e)
  }

  // Entry prev now leads to entry e.
  function Relink(heap: seq<Entry>, prev: Id, e: Id): (heap': seq<Entry>)
    requires prev < |heap|
    ensures |heap'| == |heap|
    ensures forall x :: 0 <= x < |heap| ==> heap'[x].key == heap[x].key && heap'[x].cell == heap[x].cell
    ensures forall x :: 0 <= x < |heap| && x != prev ==> heap'[x] == heap[x]
  {
    heap[prev := heap[prev].(next := Some(e))]
  }

  // The key was found in entry e.
  function Found(s: State, t: Tid, c: Call, e: Id): State
    requires e < |s.heap|
  {
    match c.op
    case Has => To(s, t, Done(c, true, 0, false))
    case Get => To(s, t, Done(c, true, s.heap[e].cell.value, false))
    case Set =>
      if c.cell.Some? then To(s, t, Update(c, e, s.heap[e].cell))
      else To(s, t, Update(c.(cell := Some(Ref(s.cells, c.value))), e, s.heap[e].cell)).(cells := s.cells + 1)
  }

  // The key was not found: prev's link leads past it.
  function Missing(s: State, t: Tid, c: Call, prev: Id, target: Option<Id>, absent: bool): State
    requires c.entry.Some? ==> c.entry.value < |s.heap|
  {
    if c.op != Set then To(s, t, Done(c, false, 0, absent))
    else if c.entry.Some? then
      To(s, t, Link(c, prev, target)).(heap := s.heap[c.entry.value := s.heap[c.entry.value].(next := target)])
    else
      To(s, t, Link(c.(entry := Some(|s.heap|)), prev, target))
        .(heap := s.heap + [Entry(c.key, Ref(s.cells, c.value), target)], cells := s.cells + 1)
  }

  ghost function Step(s: State, t: Tid, a: Action): State
    requires Enabled(s, t, a)
  {
    match a
    case Begin(op, key, value) => To(s, t, Start(Call(op, key, value, None, None)))
    case Go =>
      match s.pcs[t]
      case Start(c) =>
        var b := BucketOf(s, c.key);
        To(s, t, Walk(c, b, s.heap[b].next, c.key !in s.table))
      case Walk(c, prev, target, absent) =>
        if target.None? then Missing(s, t, c, prev, target, absent)
        else if s.heap[target.value].key == c.key then Found(s, t, c, target.value)
        else if s.heap[target.value].key > c.key then Missing(s, t, c, prev, target, absent)
        else To(s, t, Walk(c, target.value, s.heap[target.value].next, c.key !in s.table))
      case Update(c, e, seen) =>
        if s.heap[e].cell.id == seen.id && c.cell.Some? then
          To(s, t, Done(c, true, 0, false))
            .(heap := s.heap[e := s.heap[e].(cell := c.cell.value)], table := s.table[c.key := c.value])
        else To(s, t, Start(c))
      case Link(c, prev, target) =>
        if s.heap[prev].next == target then
          var b := BucketOf(s, c.key);
          To(s, t, Done(c, false, 0, true))
            .(heap := Relink(s.heap, prev, c.entry.value),
              chains := s.chains[b := Splice(s.chains[b], prev, c.entry.value)],
              table := s.table[c.key := c.value])
        else To(s, t, Start(c))
      case Done(_, _, _, _) => s
  }

  ghost predicate Next(s: State, s': State) {
    exists t, a :: Enabled(s, t, a) && s' == Step(s, t, a)
  }

  // ----- one chain -----

  function At(chain: seq<Id>, i: nat): Option<Id> {
    if i < |chain| then Some(chain[i]) else None
  }

  predicate Within(heap: seq<Entry>, chain: seq<Id>) {
    forall i :: 0 <= i < |chain| ==> chain[i] < |heap|
  }

  predicate Follows(heap: seq<Entry>, chain: seq<Id>)
    requires Within(heap, chain)
  {
    forall i :: 0 <= i < |chain| ==> heap[chain[i]].next == At(chain, i + 1)
  }

  // Behind the sentinel the keys strictly ascend.
  predicate Ascending(heap: seq<Entry>, chain: seq<Id>)
    requires Within(heap, chain)
  {
    forall i, j :: 0 < i < j < |chain| ==> heap[chain[i]].key < heap[chain[j]].key
  }

  // Chain b starts at its sentinel, follows the links to their end, and is strictly ascending in keys
  // that all belong to bucket b.
  predicate ChainOk(buckets: nat, index: Key -> Id, heap: seq<Entry>, b: Id, chain: seq<Id>) {
    && 0 < |chain| && chain[0] == b && Within(heap, chain)
    && (forall i :: 0 < i < |chain| ==> chain[i] >= buckets && index(heap[chain[i]].key) == b)
    && Follows(heap, chain) && Ascending(heap, chain)
  }

  ghost predicate Chains(s: State) {
    && Indexes(s) && s.buckets <= |s.heap| && |s.chains| == s.buckets
    && forall b :: 0 <= b < s.buckets ==> ChainOk(s.buckets, s.index, s.heap, b, s.chains[b])
  }

  // Entry e is linked and carries a key.
  ghost predicate Linked(s: State, e: Id)
    requires Chains(s)
  {
    s.buckets <= e < |s.heap| && e in s.chains[BucketOf(s, s.heap[e].key)]
  }

  // The map holds exactly the linked keys, each with the value of its entry's cell.
  ghost predicate Represents(s: State)
    requires Chains(s)
  {
    && (forall e: Id :: Linked(s, e) ==> s.heap[e].key in s.table && s.table[s.heap[e].key] == s.heap[e].cell.value)
    && (forall k :: k in s.table ==> HasEntry(s, k))
  }

  ghost predicate HasEntry(s: State, k: Key)
    requires Chains(s)
  {
    exists e: Id :: Linked(s, e) && s.heap[e].key == k
  }

  // ----- threads -----

  // A place to start from: the sentinel of the key's bucket, or a linked entry of that bucket below the key.
  ghost predicate PrevOk(s: State, key: Key, prev: Id)
    requires Chains(s)
  {
    || prev == BucketOf(s, key)
    || (Linked(s, prev) && BucketOf(s, s.heap[prev].key) == BucketOf(s, key) && s.heap[prev].key < key)
  }

  ghost predicate TargetOk(s: State, key: Key, target: Option<Id>)
    requires Chains(s)
  {
    target.Some? ==> Linked(s, target.value) && BucketOf(s, s.heap[target.value].key) == BucketOf(s, key)
  }

  // `target` shows that the key is not between prev and target.
  ghost predicate Past(s: State, key: Key, target: Option<Id>)
    requires Chains(s) && TargetOk(s, key, target)
  {
    target.Some? ==> s.heap[target.value].key > key
  }

  // What a call has allocated: an entry no chain leads to, and a cell only once the key has been found.
  ghost predicate CallOk(s: State, c: Call)
    requires Chains(s)
  {
    && (c.entry.Some? ==>
          && c.op == Set && s.buckets <= c.entry.value < |s.heap| && !Linked(s, c.entry.value)
          && s.heap[c.entry.value].key == c.key && s.heap[c.entry.value].cell.value == c.value)
    && (c.cell.Some? ==> c.op == Set && c.key in s.table && c.cell.value.value == c.value)
  }

  ghost predicate PcOk(s: State, pc: Pc)
    requires Chains(s)
  {
    match pc
    case Start(c) => CallOk(s, c)
    case Walk(c, prev, target, absent) =>
      CallOk(s, c) && PrevOk(s, c.key, prev) && TargetOk(s, c.key, target) && (Past(s, c.key, target) ==> absent)
      && (c.cell.Some? ==> !absent)
    case Update(c, e, seen) => CallOk(s, c) && c.cell.Some? && Linked(s, e) && s.heap[e].key == c.key
    case Link(c, prev, target) =>
      && CallOk(s, c) && c.entry.Some? && PrevOk(s, c.key, prev) && TargetOk(s, c.key, target) && Past(s, c.key, target)
      && s.heap[c.entry.value].next == target
    case Done(c, found, result, absent) => c.op != Set && !found ==> absent
  }

  ghost predicate Threads(s: State)
    requires Chains(s)
  {
    forall t :: t in s.pcs ==> PcOk(s, s.pcs[t])
  }

  // No two calls in progress share an allocated entry.
  predicate OwnEntries(s: State) {
    forall t, u :: t in s.pcs && u in s.pcs && t != u && !s.pcs[t].Done? && !s.pcs[u].Done? && s.pcs[t].c.entry.Some?
      ==> s.pcs[t].c.entry != s.pcs[u].c.entry
  }

  ghost predicate Inv(s: State) {
    Chains(s) && Represents(s) && Threads(s) && OwnEntries(s)
  }

  // ----- facts about one chain -----

  lemma ChainFrame(buckets: nat, index: Key -> Id, heap: seq<Entry>, heap': seq<Entry>, b: Id, chain: seq<Id>)
    requires ChainOk(buckets, index, heap, b, chain) && |heap| <= |heap'|
    requires forall e :: e in chain ==> heap'[e].key == heap[e].key && heap'[e].next == heap[e].next
    ensures ChainOk(buckets, index, heap', b, chain)
  {
    forall i | 0 <= i < |chain|
      ensures heap'[chain[i]].key == heap[chain[i]].key && heap'[chain[i]].next == At(chain, i + 1)
    {
      assert chain[i] in chain && heap[chain[i]].next == At(chain, i + 1);
    }
  }

  lemma PositionOf(s: State, key: Key, prev: Id) returns (i: nat)
    requires Chains(s) && PrevOk(s, key, prev)
    ensures i < |s.chains[BucketOf(s, key)]| && s.chains[BucketOf(s, key)][i] == prev
    ensures i > 0 ==> s.heap[prev].key < key
  {
    var chain := s.chains[BucketOf(s, key)];
    assert ChainOk(s.buckets, s.index, s.heap, BucketOf(s, key), chain);
    if prev == BucketOf(s, key) {
      i := 0;
    } else {
      assert prev in chain;
      i :| 0 <= i < |chain| && chain[i] == prev;
    }
  }

  // Ascending keys skip the key when it lies between those of two neighbours.
  lemma GapInChain(heap: seq<Entry>, chain: seq<Id>, key: Key, i: nat)
    requires Within(heap, chain) && Ascending(heap, chain) && i < |chain|
    requires i > 0 ==> heap[chain[i]].key < key
    requires i + 1 < |chain| ==> heap[chain[i + 1]].key > key
    ensures forall j :: 0 < j < |chain| ==> heap[chain[j]].key != key
  {
    forall j | 0 < j < |chain| ensures heap[chain[j]].key != key {
      if j < i {
        assert heap[chain[j]].key < heap[chain[i]].key;
      } else if i + 1 < j {
        assert heap[chain[i + 1]].key < heap[chain[j]].key;
      }
    }
  }

  // If the link of a place below the key leads past the key, the key is on no chain.
  lemma GapMeansAbsent(s: State, key: Key, prev: Id)
    requires Chains(s) && Represents(s) && PrevOk(s, key, prev)
    requires TargetOk(s, key, s.heap[prev].next) && Past(s, key, s.heap[prev].next)
    ensures key !in s.table
  {
    var b := BucketOf(s, key);
    var chain := s.chains[b];
    assert ChainOk(s.buckets, s.index, s.heap, b, chain);
    var i := PositionOf(s, key, prev);
    assert s.heap[chain[i]].next == At(chain, i + 1);
    GapInChain(s.heap, chain, key, i);
    forall e: Id | Linked(s, e) ensures s.heap[e].key != key {
      if BucketOf(s, s.heap[e].key) == b {
        var j :| 0 <= j < |chain| && chain[j] == e;
        assert j > 0;
      }
    }
    assert !HasEntry(s, key);
  }

  // The link of a linked entry or of the sentinel leads to the end or to a linked entry of the same bucket.
  lemma NextIsTarget(s: State, key: Key, prev: Id)
    requires Chains(s) && PrevOk(s, key, prev)
    ensures prev < |s.heap| && TargetOk(s, key, s.heap[prev].next)
  {
    var b := BucketOf(s, key);
    var i := PositionOf(s, key, prev);
    assert ChainOk(s.buckets, s.index, s.heap, b, s.chains[b]);
    assert s.heap[s.chains[b][i]].next == At(s.chains[b], i + 1);
  }

  // ----- every step keeps the invariant -----

  // A step that leaves linked entries, chains and map alone, and only moves thread t.
  ghost predicate QuietStep(s: State, s': State, t: Tid)
    requires Chains(s)
  {
    && s'.buckets == s.buckets && s'.index == s.index && s'.chains == s.chains && s'.table == s.table
    && |s.heap| <= |s'.heap|
    && (forall e: Id :: e < |s.heap| && (e < s.buckets || Linked(s, e)) ==> s'.heap[e] == s.heap[e])
    && (forall e: Id :: e < |s.heap| ==> s'.heap[e].key == s.heap[e].key && s'.heap[e].cell == s.heap[e].cell)
    && t in s'.pcs && s'.pcs == s.pcs[t := s'.pcs[t]]
  }

  lemma QuietKeepsShared(s: State, s': State, t: Tid)
    requires Chains(s) && Represents(s) && QuietStep(s, s', t)
    ensures Chains(s') && Represents(s')
    ensures forall e: Id :: e < |s.heap| ==> (Linked(s', e) <==> Linked(s, e))
    ensures forall e: Id :: Linked(s', e) ==> e < |s.heap|
  {
    forall b | 0 <= b < s.buckets ensures ChainOk(s.buckets, s.index, s'.heap, b, s.chains[b]) {
      assert ChainOk(s.buckets, s.index, s.heap, b, s.chains[b]);
      forall e | e in s.chains[b] ensures s'.heap[e].key == s.heap[e].key && s'.heap[e].next == s.heap[e].next {
        var i :| 0 <= i < |s.chains[b]| && s.chains[b][i] == e;
        assert i > 0 ==> Linked(s, e);
      }
      ChainFrame(s.buckets, s.index, s.heap, s'.heap, b, s.chains[b]);
    }
    forall e: Id | Linked(s', e) ensures e < |s.heap| {
      var b := BucketOf(s, s'.heap[e].key);
      assert ChainOk(s.buckets, s.index, s.heap, b, s.chains[b]);
    }
    forall k | k in s'.table ensures HasEntry(s', k) {
      assert HasEntry(s, k);
      var e: Id :| Linked(s, e) && s.heap[e].key == k;
      assert Linked(s', e);
    }
  }

  // The other threads do not notice a quiet step: their private entries are not touched.
  lemma QuietKeepsOthers(s: State, s': State, t: Tid, u: Tid)
    requires Inv(s) && QuietStep(s, s', t) && Chains(s') && Represents(s')
    requires forall e: Id :: e < |s.heap| ==> (Linked(s', e) <==> Linked(s, e))
    requires u in s.pcs && u != t
    requires s.pcs[u].Link? && s.pcs[u].c.entry.Some? && s.pcs[u].c.entry.value < |s.heap| ==>
      s'.heap[s.pcs[u].c.entry.value] == s.heap[s.pcs[u].c.entry.value]
    ensures PcOk(s', s.pcs[u])
  {
    assert PcOk(s, s.pcs[u]);
  }

  lemma QuietKeepsInv(s: State, s': State, t: Tid)
    requires Inv(s) && QuietStep(s, s', t)
    requires forall e: Id :: e < |s.heap| && s'.heap[e] != s.heap[e] ==>
      t in s.pcs && !s.pcs[t].Done? && s.pcs[t].c.entry == Some(e)
    requires Chains(s') && Represents(s') && PcOk(s', s'.pcs[t])
    requires !s'.pcs[t].Done? && s'.pcs[t].c.entry.Some? ==>
      || s'.pcs[t].c.entry.value >= |s.heap|
      || (t in s.pcs && !s.pcs[t].Done? && s.pcs[t].c.entry == s'.pcs[t].c.entry)
    ensures Inv(s')
  {
    QuietKeepsShared(s, s', t);
    forall u | u in s'.pcs ensures PcOk(s', s'.pcs[u]) {
      if u != t {
        QuietKeepsOthers(s, s', t, u);
      }
    }
    forall u | u in s.pcs && !s.pcs[u].Done? && s.pcs[u].c.entry.Some? ensures s.pcs[u].c.entry.value < |s.heap| {
      assert PcOk(s, s.pcs[u]);
    }
  }

  // A step that only moves thread t, keeping the entry its call has allocated.
  lemma MoveKeepsInv(s: State, s': State, t: Tid)
    requires Inv(s) && t in s'.pcs && PcOk(s, s'.pcs[t])
    requires s' == s.(pcs := s.pcs[t := s'.pcs[t]], cells := s'.cells)
    requires !s'.pcs[t].Done? && s'.pcs[t].c.entry.Some? ==>
      t in s.pcs && !s.pcs[t].Done? && s.pcs[t].c.entry == s'.pcs[t].c.entry
    ensures Inv(s')
  {
    forall e: Id ensures Linked(s', e) <==> Linked(s, e) {}
    forall k | k in s'.table ensures HasEntry(s', k) {
      assert HasEntry(s, k);
      var e: Id :| Linked(s, e) && s.heap[e].key == k;
      assert Linked(s', e);
    }
    forall u | u in s'.pcs ensures PcOk(s', s'.pcs[u]) {
      SameMemorySamePc(s, s', s'.pcs[u]);
    }
  }

  lemma SameMemorySamePc(s: State, s': State, pc: Pc)
    requires Chains(s) && Chains(s') && PcOk(s, pc)
    requires s' == s.(pcs := s'.pcs, cells := s'.cells)
    ensures PcOk(s', pc)
  {
  }

  lemma StartKeepsInv(s: State, t: Tid, a: Action)
    requires Inv(s) && Enabled(s, t, a)
    requires a.Go? ==> s.pcs[t].Start?
    ensures Inv(Step(s, t, a))
  {
    var s' := Step(s, t, a);
    if a.Go? {
      var c := s.pcs[t].c;
      var b := BucketOf(s, c.key);
      assert PcOk(s, s.pcs[t]) && PrevOk(s, c.key, b);
      NextIsTarget(s, c.key, b);
      if Past(s, c.key, s.heap[b].next) { GapMeansAbsent(s, c.key, b); }
    }
    MoveKeepsInv(s, s', t);
  }

  lemma AdvanceKeepsInv(s: State, t: Tid)
    requires Inv(s) && Enabled(s, t, Go) && s.pcs[t].Walk?
    requires s.pcs[t].target.Some? && s.heap[s.pcs[t].target.value].key < s.pcs[t].c.key
    ensures Inv(Step(s, t, Go))
  {
    var key, e := s.pcs[t].c.key, s.pcs[t].target.value;
    assert PcOk(s, s.pcs[t]) && PrevOk(s, key, e);
    NextIsTarget(s, key, e);
    if Past(s, key, s.heap[e].next) { GapMeansAbsent(s, key, e); }
    MoveKeepsInv(s, Step(s, t, Go), t);
  }

  lemma FoundKeepsInv(s: State, t: Tid)
    requires Inv(s) && Enabled(s, t, Go) && s.pcs[t].Walk?
    requires s.pcs[t].target.Some? && s.heap[s.pcs[t].target.value].key == s.pcs[t].c.key
    ensures Inv(Step(s, t, Go))
  {
    FoundPcOk(s, t);
    FoundMoves(s, t, s.pcs[t].c, s.pcs[t].target.value);
    MoveKeepsInv(s, Step(s, t, Go), t);
  }

  lemma FoundMoves(s: State, t: Tid, c: Call, e: Id)
    requires e < |s.heap|
    ensures var s' := Found(s, t, c, e);
      && t in s'.pcs && s' == s.(pcs := s.pcs[t := s'.pcs[t]], cells := s'.cells)
      && (!s'.pcs[t].Done? ==> s'.pcs[t].c.entry == c.entry)
  {
    match c.op
    case Has =>
    case Get =>
    case Set =>
  }

  lemma FoundPcOk(s: State, t: Tid)
    requires Enabled(s, t, Go) && s.pcs[t].Walk? && Chains(s) && Represents(s) && PcOk(s, s.pcs[t])
    requires s.pcs[t].target.Some? && s.heap[s.pcs[t].target.value].key == s.pcs[t].c.key
    ensures PcOk(s, Step(s, t, Go).pcs[t])
  {
    assert Linked(s, s.pcs[t].target.value);
    FoundAgain(s, s.pcs[t].c, s.pcs[t].target.value);
    match s.pcs[t].c.op
    case Has =>
    case Get =>
    case Set =>
  }

  // A Set that has found its key keeps what it has allocated, and has or now gets a cell.
  lemma FoundAgain(s: State, c: Call, e: Id)
    requires Chains(s) && Represents(s) && CallOk(s, c) && Linked(s, e) && s.heap[e].key == c.key
    ensures c.key in s.table
    ensures c.op == Set && c.cell.None? ==> CallOk(s, c.(cell := Some(Ref(s.cells, c.value))))
  {
  }

  ghost predicate AtGap(s: State, pc: Pc)
    requires Chains(s)
  {
    pc.Walk? && PcOk(s, pc) && Past(s, pc.c.key, pc.target)
  }

  lemma MissKeepsInv(s: State, t: Tid)
    requires Inv(s) && Enabled(s, t, Go) && t in s.pcs && AtGap(s, s.pcs[t]) && s.pcs[t].c.op != Set
    ensures Inv(Step(s, t, Go))
  {
    MoveKeepsInv(s, Step(s, t, Go), t);
  }

  // The entry a Set allocated earlier gets its link rewritten.
  lemma RelinkKeepsInv(s: State, t: Tid)
    requires Inv(s) && Enabled(s, t, Go) && t in s.pcs && AtGap(s, s.pcs[t]) && s.pcs[t].c.entry.Some?
    ensures Inv(Step(s, t, Go))
  {
    var s' := Step(s, t, Go);
    assert PcOk(s, s.pcs[t]);
    QuietKeepsShared(s, s', t);
    QuietKeepsInv(s, s', t);
  }

  lemma AllocateKeepsInv(s: State, t: Tid)
    requires Inv(s) && Enabled(s, t, Go) && t in s.pcs && AtGap(s, s.pcs[t])
    requires s.pcs[t].c.op == Set && s.pcs[t].c.entry.None?
    ensures Inv(Step(s, t, Go))
  {
    var s' := Step(s, t, Go);
    NewEntryIsUnlinked(s);
    QuietKeepsShared(s, s', t);
    QuietKeepsInv(s, s', t);
  }

  lemma WalkKeepsInv(s: State, t: Tid)
    requires Inv(s) && Enabled(s, t, Go) && s.pcs[t].Walk?
    ensures Inv(Step(s, t, Go))
  {
    var pc := s.pcs[t];
    assert PcOk(s, pc);
    if pc.target.Some? && s.heap[pc.target.value].key < pc.c.key { AdvanceKeepsInv(s, t); }
    else if pc.target.Some? && s.heap[pc.target.value].key == pc.c.key { FoundKeepsInv(s, t); }
    else if pc.c.op != Set { MissKeepsInv(s, t); }
    else if pc.c.entry.Some? { RelinkKeepsInv(s, t); }
    else { AllocateKeepsInv(s, t); }
  }

  lemma NewEntryIsUnlinked(s: State)
    requires Chains(s)
    ensures forall b :: 0 <= b < s.buckets ==> |s.heap| !in s.chains[b]
  {
    forall b | 0 <= b < s.buckets ensures |s.heap| !in s.chains[b] {
      assert ChainOk(s.buckets, s.index, s.heap, b, s.chains[b]);
    }
  }

  // Replacing the cell of a linked entry changes the value of its key and nothing else.
  lemma UpdateKeepsInv(s: State, t: Tid)
    requires Inv(s) && Enabled(s, t, Go) && s.pcs[t].Update?
    ensures Inv(Step(s, t, Go))
  {
    var s' := Step(s, t, Go);
    var c, e := s.pcs[t].c, s.pcs[t].entry;
    assert PcOk(s, s.pcs[t]);
    if s.heap[e].cell.id != s.pcs[t].seen.id {
      MoveKeepsInv(s, s', t);
    } else {
      UpdateKeepsShared(s, s', c.key, e, c.cell.value);
      forall u | u in s'.pcs && u != t ensures PcOk(s', s'.pcs[u]) {
        UpdateKeepsOther(s, s', s.pcs[u], c.key, e, c.cell.value);
      }
    }
  }

  lemma UpdateKeepsShared(s: State, s': State, key: Key, e: Id, cell: Ref)
    requires Chains(s) && Represents(s) && Linked(s, e) && s.heap[e].key == key
    requires s'.buckets == s.buckets && s'.index == s.index && s'.chains == s.chains
    requires s'.heap == s.heap[e := s.heap[e].(cell := cell)] && s'.table == s.table[key := cell.value]
    ensures Chains(s') && Represents(s')
    ensures forall x: Id :: Linked(s', x) <==> Linked(s, x)
  {
    forall b | 0 <= b < s.buckets ensures ChainOk(s.buckets, s.index, s'.heap, b, s.chains[b]) {
      assert ChainOk(s.buckets, s.index, s.heap, b, s.chains[b]);
      ChainFrame(s.buckets, s.index, s.heap, s'.heap, b, s.chains[b]);
    }
    forall x: Id ensures Linked(s', x) <==> Linked(s, x) {
      assert x < |s.heap| ==> s'.heap[x].key == s.heap[x].key;
    }
    UpdatedRepresents(s, s', key, e, cell);
  }

  lemma UpdatedRepresents(s: State, s': State, key: Key, e: Id, cell: Ref)
    requires Chains(s) && Represents(s) && Linked(s, e) && s.heap[e].key == key
    requires Chains(s') && (forall x: Id :: Linked(s', x) <==> Linked(s, x))
    requires s'.heap == s.heap[e := s.heap[e].(cell := cell)] && s'.table == s.table[key := cell.value]
    ensures Represents(s')
  {
    forall x: Id | Linked(s', x)
      ensures s'.heap[x].key in s'.table && s'.table[s'.heap[x].key] == s'.heap[x].cell.value
    {
      assert Linked(s, x);
      if s.heap[x].key == key { OneEntryPerKey(s, x, e); }
    }
    forall k | k in s'.table ensures HasEntry(s', k) {
      assert k == key || HasEntry(s, k);
      var x: Id :| Linked(s, x) && s.heap[x].key == k;
      assert Linked(s', x);
    }
  }

  lemma UpdateKeepsOther(s: State, s': State, pc: Pc, key: Key, e: Id, cell: Ref)
    requires Chains(s) && Linked(s, e) && PcOk(s, pc) && Chains(s') && s'.buckets == s.buckets && s'.index == s.index
    requires s'.heap == s.heap[e := s.heap[e].(cell := cell)] && s'.table == s.table[key := cell.value]
    requires forall x: Id :: Linked(s', x) <==> Linked(s, x)
    ensures PcOk(s', pc)
  {
  }

  lemma OneEntryPerKey(s: State, x: Id, e: Id)
    requires Chains(s) && Linked(s, x) && Linked(s, e) && s.heap[x].key == s.heap[e].key
    ensures x == e
  {
    var b := BucketOf(s, s.heap[e].key);
    assert ChainOk(s.buckets, s.index, s.heap, b, s.chains[b]);
    var i :| 0 <= i < |s.chains[b]| && s.chains[b][i] == x;
    var j :| 0 <= j < |s.chains[b]| && s.chains[b][j] == e;
    SameKeySamePlace(s.heap, s.chains[b], i, j);
  }

  lemma SameKeySamePlace(heap: seq<Entry>, chain: seq<Id>, i: nat, j: nat)
    requires Within(heap, chain) && Ascending(heap, chain) && 0 < i < |chain| && 0 < j < |chain|
    requires heap[chain[i]].key == heap[chain[j]].key
    ensures i == j
  {
  }

  // ----- publishing an entry -----

  function InsertAfter(chain: seq<Id>, i: nat, e: Id): (more: seq<Id>)
    requires i < |chain|
    ensures |more| == |chain| + 1
    ensures forall j :: 0 <= j < |more| ==>
      more[j] == if j <= i then chain[j] else if j == i + 1 then e else chain[j - 1]
  {
    chain[..i + 1] + [e] + chain[i + 1..]
  }

  lemma {:induction false} SpliceAt(chain: seq<Id>, prev: Id, e: Id, i: nat)
    requires i < |chain| && chain[i] == prev && forall j :: 0 <= j < i ==> chain[j] != prev
    ensures Splice(chain, prev, e) == InsertAfter(chain, i, e)
  {
    if i > 0 {
      SpliceAt(chain[1..], prev, e, i - 1);
      assert chain[1..][..i] == chain[1..i + 1] && chain[1..][i..] == chain[i + 1..];
    }
  }

  // Entry e may be published after position i: its key lies between the neighbours' and its link already
  // leads to the next one.
  predicate Fits(heap: seq<Entry>, chain: seq<Id>, i: nat, e: Id)
    requires Within(heap, chain)
  {
    && i < |chain| && e < |heap| && e !in chain
    && (i > 0 ==> heap[chain[i]].key < heap[e].key)
    && (i + 1 < |chain| ==> heap[e].key < heap[chain[i + 1]].key)
    && heap[e].next == At(chain, i + 1)
  }

  lemma InsertKeepsOrder(heap: seq<Entry>, chain: seq<Id>, i: nat, e: Id, j: nat, k: nat)
    requires Within(heap, chain) && Ascending(heap, chain) && Fits(heap, chain, i, e)
    requires 0 < j < k < |chain| + 1
    ensures heap[InsertAfter(chain, i, e)[j]].key < heap[InsertAfter(chain, i, e)[k]].key
  {
    var more := InsertAfter(chain, i, e);
    var x, y := more[j], more[k];
    if k == i + 1 {
      assert x == chain[j] && y == e;
      if j < i { assert heap[chain[j]].key < heap[chain[i]].key; }
    } else if j == i + 1 {
      assert x == e && y == chain[k - 1];
      if k > i + 2 { assert heap[chain[i + 1]].key < heap[chain[k - 1]].key; }
    } else {
      assert x == (if j <= i then chain[j] else chain[j - 1]) && y == (if k <= i then chain[k] else chain[k - 1]);
    }
  }

  lemma DistinctIds(heap: seq<Entry>, chain: seq<Id>, i: nat, j: nat)
    requires Within(heap, chain) && Ascending(heap, chain) && i < j < |chain|
    requires forall k :: 0 < k < |chain| ==> chain[k] != chain[0]
    ensures chain[i] != chain[j]
  {
    if i > 0 { assert heap[chain[i]].key < heap[chain[j]].key; }
  }

  lemma InsertKeepsLink(heap: seq<Entry>, chain: seq<Id>, i: nat, e: Id, j: nat)
    requires Within(heap, chain) && Ascending(heap, chain) && Follows(heap, chain) && Fits(heap, chain, i, e)
    requires forall k :: 0 < k < |chain| ==> chain[k] != chain[0]
    requires j < |chain| + 1
    ensures var more := InsertAfter(chain, i, e);
      more[j] < |heap| && Relink(heap, chain[i], e)[more[j]].next == At(more, j + 1)
  {
    if j < i {
      InsertKeepsLinkBefore(heap, chain, i, e, j);
    } else if j == i + 1 {
      assert chain[i] in chain;
    } else if j > i + 1 {
      InsertKeepsLinkBehind(heap, chain, i, e, j);
    }
  }

  lemma InsertKeepsLinkBefore(heap: seq<Entry>, chain: seq<Id>, i: nat, e: Id, j: nat)
    requires Within(heap, chain) && Ascending(heap, chain) && Follows(heap, chain) && Fits(heap, chain, i, e)
    requires forall k :: 0 < k < |chain| ==> chain[k] != chain[0]
    requires j < i
    ensures var more := InsertAfter(chain, i, e);
      more[j] < |heap| && Relink(heap, chain[i], e)[more[j]].next == At(more, j + 1)
  {
    assert heap[chain[j]].next == At(chain, j + 1);
    DistinctIds(heap, chain, j, i);
  }

  lemma InsertKeepsLinkBehind(heap: seq<Entry>, chain: seq<Id>, i: nat, e: Id, j: nat)
    requires Within(heap, chain) && Ascending(heap, chain) && Follows(heap, chain) && Fits(heap, chain, i, e)
    requires forall k :: 0 < k < |chain| ==> chain[k] != chain[0]
    requires i + 1 < j < |chain| + 1
    ensures var more := InsertAfter(chain, i, e);
      more[j] < |heap| && Relink(heap, chain[i], e)[more[j]].next == At(more, j + 1)
  {
    assert heap[chain[j - 1]].next == At(chain, j);
    DistinctIds(heap, chain, i, j - 1);
  }

  lemma InsertAscends(heap: seq<Entry>, chain: seq<Id>, i: nat, e: Id)
    requires Within(heap, chain) && Ascending(heap, chain) && Fits(heap, chain, i, e)
    ensures Within(Relink(heap, chain[i], e), InsertAfter(chain, i, e))
    ensures Ascending(Relink(heap, chain[i], e), InsertAfter(chain, i, e))
  {
    var heap', more := Relink(heap, chain[i], e), InsertAfter(chain, i, e);
    forall j, k | 0 < j < k < |more| ensures heap'[more[j]].key < heap'[more[k]].key {
      InsertKeepsOrder(heap, chain, i, e, j, k);
    }
  }

  lemma InsertFollows(heap: seq<Entry>, chain: seq<Id>, i: nat, e: Id)
    requires Within(heap, chain) && Ascending(heap, chain) && Follows(heap, chain) && Fits(heap, chain, i, e)
    requires forall k :: 0 < k < |chain| ==> chain[k] != chain[0]
    ensures Within(Relink(heap, chain[i], e), InsertAfter(chain, i, e))
    ensures Follows(Relink(heap, chain[i], e), InsertAfter(chain, i, e))
  {
    var heap', more := Relink(heap, chain[i], e), InsertAfter(chain, i, e);
    forall j | 0 <= j < |more| ensures heap'[more[j]].next == At(more, j + 1) {
      InsertKeepsLink(heap, chain, i, e, j);
    }
  }

  lemma InsertKeepsChain(buckets: nat, index: Key -> Id, heap: seq<Entry>, b: Id, chain: seq<Id>, i: nat, e: Id)
    requires b < buckets && ChainOk(buckets, index, heap, b, chain) && Fits(heap, chain, i, e)
    requires e >= buckets && index(heap[e].key) == b
    ensures ChainOk(buckets, index, Relink(heap, chain[i], e), b, InsertAfter(chain, i, e))
  {
    InsertAscends(heap, chain, i, e);
    InsertFollows(heap, chain, i, e);
    var heap', more := Relink(heap, chain[i], e), InsertAfter(chain, i, e);
    forall j | 0 < j < |more| ensures more[j] >= buckets && index(heap'[more[j]].key) == b {
      var x := more[j];
      assert x == e || (j <= i && x == chain[j]) || (j > i + 1 && x == chain[j - 1]);
    }
  }

  // The shared part of publishing entry e under the key after prev.
  ghost predicate Publishes(s: State, s': State, key: Key, prev: Id, e: Id)
    requires Chains(s)
  {
    && s.buckets <= e < |s.heap| && s.heap[e].key == key && !Linked(s, e)
    && PrevOk(s, key, prev) && prev < |s.heap|
    && TargetOk(s, key, s.heap[prev].next) && Past(s, key, s.heap[prev].next)
    && s.heap[e].next == s.heap[prev].next
    && s'.buckets == s.buckets && s'.index == s.index
    && s'.heap == Relink(s.heap, prev, e)
    && s'.chains == s.chains[BucketOf(s, key) := Splice(s.chains[BucketOf(s, key)], prev, e)]
    && s'.table == s.table[key := s.heap[e].cell.value]
  }

  lemma PublishedChain(s: State, s': State, key: Key, prev: Id, e: Id)
    requires Chains(s) && Publishes(s, s', key, prev, e)
    ensures ChainOk(s.buckets, s.index, s'.heap, BucketOf(s, key), s'.chains[BucketOf(s, key)])
    ensures forall x: Id :: x in s'.chains[BucketOf(s, key)] <==> x == e || x in s.chains[BucketOf(s, key)]
  {
    var b := BucketOf(s, key);
    var chain := s.chains[b];
    assert ChainOk(s.buckets, s.index, s.heap, b, chain);
    var i := PositionOf(s, key, prev);
    forall j | 0 <= j < i ensures chain[j] != prev { DistinctIds(s.heap, chain, j, i); }
    SpliceAt(chain, prev, e, i);
    assert s.heap[chain[i]].next == At(chain, i + 1);
    assert Fits(s.heap, chain, i, e);
    InsertKeepsChain(s.buckets, s.index, s.heap, b, chain, i, e);
    forall x: Id ensures x in InsertAfter(chain, i, e) <==> x == e || x in chain { InsertMembers(chain, i, e, x); }
  }

  lemma InsertMembers(chain: seq<Id>, i: nat, e: Id, x: Id)
    requires i < |chain|
    ensures x in InsertAfter(chain, i, e) <==> x == e || x in chain
  {
    var more := InsertAfter(chain, i, e);
    assert more[i + 1] == e;
    if x in chain {
      var j :| 0 <= j < |chain| && chain[j] == x;
      assert more[if j <= i then j else j + 1] == x;
    }
  }

  lemma PublishKeepsChains(s: State, s': State, key: Key, prev: Id, e: Id)
    requires Chains(s) && Publishes(s, s', key, prev, e)
    ensures Chains(s')
    ensures forall x: Id :: Linked(s', x) <==> x == e || Linked(s, x)
  {
    var b := BucketOf(s, key);
    PublishedChain(s, s', key, prev, e);
    forall d | 0 <= d < s.buckets ensures ChainOk(s.buckets, s.index, s'.heap, d, s'.chains[d]) {
      if d != b {
        OtherChainUntouched(s, key, prev, d);
        ChainFrame(s.buckets, s.index, s.heap, s'.heap, d, s.chains[d]);
      }
    }
  }

  lemma OtherChainUntouched(s: State, key: Key, prev: Id, d: Id)
    requires Chains(s) && PrevOk(s, key, prev) && d < s.buckets && d != BucketOf(s, key)
    ensures ChainOk(s.buckets, s.index, s.heap, d, s.chains[d]) && prev !in s.chains[d]
  {
    var chain := s.chains[d];
    assert ChainOk(s.buckets, s.index, s.heap, d, chain);
    forall j | 0 <= j < |chain| ensures chain[j] != prev {
      assert j > 0 ==> s.index(s.heap[chain[j]].key) == d;
    }
  }

  lemma PublishKeepsMap(s: State, s': State, key: Key, prev: Id, e: Id)
    requires Chains(s) && Represents(s) && Publishes(s, s', key, prev, e) && Chains(s')
    requires forall x: Id :: Linked(s', x) <==> x == e || Linked(s, x)
    ensures key !in s.table && Represents(s')
  {
    GapMeansAbsent(s, key, prev);
    forall k | k in s'.table ensures HasEntry(s', k) {
      if k == key {
        assert Linked(s', e);
      } else {
        assert HasEntry(s, k);
        var x: Id :| Linked(s, x) && s.heap[x].key == k;
        assert Linked(s', x);
      }
    }
  }

  lemma PublishKeepsOther(s: State, s': State, pc: Pc, key: Key, prev: Id, e: Id)
    requires Chains(s) && PcOk(s, pc) && Publishes(s, s', key, prev, e) && Chains(s')
    requires forall x: Id :: Linked(s', x) <==> x == e || Linked(s, x)
    requires !pc.Done? && pc.c.entry.Some? ==> pc.c.entry.value != e
    ensures PcOk(s', pc)
  {
    if !pc.Done? { assert CallOk(s', pc.c); }
    if pc.Walk? || pc.Link? {
      PublishKeepsPlace(s, s', pc.c.key, pc.prev, pc.target, key, prev, e);
    }
  }

  lemma PublishKeepsPlace(s: State, s': State, k: Key, place: Id, target: Option<Id>, key: Key, prev: Id, e: Id)
    requires Chains(s) && Publishes(s, s', key, prev, e) && Chains(s')
    requires forall x: Id :: Linked(s', x) <==> x == e || Linked(s, x)
    requires PrevOk(s, k, place) && TargetOk(s, k, target)
    ensures PrevOk(s', k, place) && TargetOk(s', k, target) && (Past(s', k, target) <==> Past(s, k, target))
  {
  }

  lemma LinkKeepsInv(s: State, t: Tid)
    requires Inv(s) && Enabled(s, t, Go) && s.pcs[t].Link?
    ensures Inv(Step(s, t, Go))
  {
    var s' := Step(s, t, Go);
    var c, prev, target := s.pcs[t].c, s.pcs[t].prev, s.pcs[t].target;
    assert PcOk(s, s.pcs[t]);
    if s.heap[prev].next != target {
      MoveKeepsInv(s, s', t);
    } else {
      assert Publishes(s, s', c.key, prev, c.entry.value);
      PublishKeepsChains(s, s', c.key, prev, c.entry.value);
      PublishKeepsMap(s, s', c.key, prev, c.entry.value);
      forall u | u in s'.pcs && u != t ensures PcOk(s', s'.pcs[u]) {
        assert PcOk(s, s.pcs[u]);
        PublishKeepsOther(s, s', s.pcs[u], c.key, prev, c.entry.value);
      }
    }
  }

  lemma StepKeepsInv(s: State, t: Tid, a: Action)
    requires Inv(s) && Enabled(s, t, a)
    ensures Inv(Step(s, t, a))
  {
    if a.Begin? || s.pcs[t].Start? { StartKeepsInv(s, t, a); }
    else if s.pcs[t].Walk? { WalkKeepsInv(s, t); }
    else if s.pcs[t].Update? { UpdateKeepsInv(s, t); }
    else { LinkKeepsInv(s, t); }
  }

  // ----- the theorems -----

  /**
   * In every state of every run each bucket's chain follows the links from its sentinel, strictly
   * ascends, holds only keys of its own residue class, and all chains together hold exactly the
   * keys of the map with their current values.
   */
  lemma Safety(run: seq<State>, i: nat)
    requires IsRun(Init, Next, run) && i < |run|
    ensures Inv(run[i])
  {
    forall s | Init(s) ensures Inv(s) {
      var n :| s.buckets == Pow2(n);
      forall k ensures s.index(k) < s.buckets { MaskIsRemainder(k, n); }
    }
    forall s, s' | Inv(s) && Next(s, s') ensures Inv(s') {
      var t, a :| Enabled(s, t, a) && s' == Step(s, t, a);
      StepKeepsInv(s, t, a);
    }
    Always(Init, Next, Inv, run, i);
  }

  /**
   * The same for one bucket and one key: the chain follows the links from the bucket's sentinel to their
   * end, its keys strictly ascend and belong to the bucket, and a key is in the map exactly when some
   * linked entry carries it, and then with that entry's value.
   */
  lemma ChainsHoldTheMap(run: seq<State>, i: nat, b: Id, k: Key)
    requires IsRun(Init, Next, run) && i < |run| && b < run[i].buckets
    ensures Indexes(run[i]) && |run[i].chains| == run[i].buckets
    ensures var s, chain := run[i], run[i].chains[b];
      && 0 < |chain| && chain[0] == b
      && (forall j :: 0 <= j < |chain| ==> chain[j] < |s.heap| && s.heap[chain[j]].next == At(chain, j + 1))
      && (forall j :: 0 < j < |chain| ==> BucketOf(s, s.heap[chain[j]].key) == b)
      && (forall j, l :: 0 < j < l < |chain| ==> s.heap[chain[j]].key < s.heap[chain[l]].key)
    ensures Chains(run[i])
    ensures k in run[i].table <==> HasEntry(run[i], k)
    ensures forall e: Id :: Linked(run[i], e) && run[i].heap[e].key == k ==>
      run[i].table[k] == run[i].heap[e].cell.value
  {
    Safety(run, i);
    assert ChainOk(run[i].buckets, run[i].index, run[i].heap, b, run[i].chains[b]);
  }

  /**
   * Linearisation of writes.  The map changes only at a compare-exchange that completes a Set, and then
   * exactly by that call's key and value.
   */
  lemma OnlySetChangesMap(s: State, t: Tid, a: Action)
    requires Enabled(s, t, a)
    ensures var s' := Step(s, t, a);
      || (s'.table == s.table && (s'.pcs[t].Done? && s'.pcs[t].c.op == Set ==> s'.pcs == s.pcs))
      || (a.Go? && (s.pcs[t].Update? || s.pcs[t].Link?) && s'.pcs[t].Done? && s'.pcs[t].c == s.pcs[t].c
          && s'.table == s.table[s.pcs[t].c.key := s.pcs[t].c.value])
  {
  }

  // Where thread t stands after its next step.
  ghost function AfterGo(s: State, t: Tid): Pc
    requires Enabled(s, t, Go)
  {
    Step(s, t, Go).pcs[t]
  }

  /**
   * Linearisation of reads: a call answers "found" only when it stands on a linked entry with its key, and
   * then the map holds the key, and the value a Get returns, at that instant.
   */
  lemma FoundIsCurrent(s: State, t: Tid)
    requires Enabled(s, t, Go) && s.pcs[t].Walk? && s.pcs[t].c.op != Set
    requires Chains(s) && Represents(s) && TargetOk(s, s.pcs[t].c.key, s.pcs[t].target)
    ensures var target, pc := s.pcs[t].target, AfterGo(s, t);
      pc.Done? && pc.found <==> target.Some? && s.heap[target.value].key == s.pcs[t].c.key
    ensures var pc := AfterGo(s, t);
      pc.Done? && pc.found ==> pc.c.key in s.table && (pc.c.op == Get ==> pc.result == s.table[pc.c.key])
  {
    if s.pcs[t].target.Some? {
      assert Linked(s, s.pcs[t].target.value);
    }
  }

  /**
   * A "not found" answer was true at some instant inside the call: it is given only by a call that carries
   * the flag "the key was missing when I loaded the last link" ...
   */
  lemma NotFoundWasTrue(s: State, t: Tid)
    requires Enabled(s, t, Go) && Chains(s) && PcOk(s, s.pcs[t])
    ensures var pc := AfterGo(s, t);
      pc.Done? && pc.c.op != Set && !pc.found ==> s.pcs[t].Walk? && s.pcs[t].absent
  {
    match s.pcs[t]
    case Start(_) =>
    case Walk(_, _, _, _) => WalkNotFound(s, t);
    case Update(_, _, _) =>
    case Link(c, _, _) => assert CallOk(s, c);
  }

  lemma WalkNotFound(s: State, t: Tid)
    requires Enabled(s, t, Go) && Chains(s) && s.pcs[t].Walk?
    requires TargetOk(s, s.pcs[t].c.key, s.pcs[t].target)
    requires Past(s, s.pcs[t].c.key, s.pcs[t].target) ==> s.pcs[t].absent
    ensures AfterGo(s, t).Done? && !AfterGo(s, t).found ==> s.pcs[t].absent
  {
  }

  /** ... and that flag is only ever set by a load of the same call made while the key was missing. */
  lemma AbsenceIsObserved(s: State, t: Tid)
    requires Enabled(s, t, Go)
    ensures var pc := AfterGo(s, t);
      pc.Walk? && pc.absent ==> pc.c == s.pcs[t].c && pc.c.key !in s.table
  {
  }

  // Thread t is still inside the same Get or Has of the key.
  ghost predicate StillReading(s: State, t: Tid, c: Call) {
    t in s.pcs && (s.pcs[t] == Start(c) || (s.pcs[t].Walk? && s.pcs[t].c == c))
  }

  // At some moment from i on and before j the key was missing.
  ghost predicate WasMissing(run: seq<State>, i: nat, j: nat, key: Key) {
    exists k :: i <= k < j < |run| && key !in run[k].table
  }

  lemma ReadingStep(s: State, s': State, t: Tid, c: Call)
    requires Next(s, s') && Chains(s) && c.op != Set && StillReading(s, t, c) && PcOk(s, s.pcs[t])
    ensures t in s'.pcs
    ensures s'.pcs[t] == s.pcs[t] || (Enabled(s, t, Go) && s' == Step(s, t, Go) && s'.pcs[t] == AfterGo(s, t))
    ensures StillReading(s', t, c) || s'.pcs[t].Done?
  {
    var u, a :| Enabled(s, u, a) && s' == Step(s, u, a);
    if u == t { OwnReadingStep(s, t, c); } else { OthersStay(s, u, a, t); }
  }

  lemma OthersStay(s: State, u: Tid, a: Action, t: Tid)
    requires Enabled(s, u, a) && t in s.pcs && t != u
    ensures t in Step(s, u, a).pcs && Step(s, u, a).pcs[t] == s.pcs[t]
  {
    match a
    case Begin(_, _, _) =>
    case Go =>
      match s.pcs[u]
      case Start(_) =>
      case Walk(_, _, _, _) =>
      case Update(_, _, _) =>
      case Link(_, _, _) =>
  }

  lemma OwnReadingStep(s: State, t: Tid, c: Call)
    requires Enabled(s, t, Go) && c.op != Set && StillReading(s, t, c)
    ensures t in Step(s, t, Go).pcs && (StillReading(Step(s, t, Go), t, c) || AfterGo(s, t).Done?)
  {
  }

  lemma {:induction false} AbsentFlagIsTrue(run: seq<State>, i: nat, j: nat, t: Tid, c: Call)
    requires IsRun(Init, Next, run) && i <= j < |run| && c.op != Set
    requires t in run[i].pcs && run[i].pcs[t] == Start(c)
    requires forall k :: i <= k <= j ==> StillReading(run[k], t, c)
    ensures t in run[j].pcs && (run[j].pcs[t].Walk? && run[j].pcs[t].absent ==> WasMissing(run, i, j, c.key))
    decreases j - i
  {
    if i < j {
      AbsentFlagIsTrue(run, i, j - 1, t, c);
      FlagOfStep(run, j - 1, t, c);
      MissingBefore(run, i, j, c.key);
    }
  }

  lemma StepOf(run: seq<State>, j: nat)
    requires IsRun(Init, Next, run) && j + 1 < |run|
    ensures Inv(run[j]) && Next(run[j], run[j + 1])
  {
    Safety(run, j);
    assert StepAt(Next, run, j);
  }

  lemma MissingBefore(run: seq<State>, i: nat, j: nat, key: Key)
    requires i < j < |run|
    ensures WasMissing(run, i, j, key) <==> WasMissing(run, i, j - 1, key) || key !in run[j - 1].table
  {
  }

  // A flag that is set was set before, or the key is missing at the step that sets it.
  lemma FlagOfStep(run: seq<State>, j: nat, t: Tid, c: Call)
    requires IsRun(Init, Next, run) && j + 1 < |run| && c.op != Set
    requires StillReading(run[j], t, c) && StillReading(run[j + 1], t, c)
    ensures var s, s' := run[j], run[j + 1];
      s'.pcs[t].Walk? && s'.pcs[t].absent ==> (s.pcs[t].Walk? && s.pcs[t].absent) || c.key !in s.table
  {
    var s, s' := run[j], run[j + 1];
    StepOf(run, j);
    var u, a :| Enabled(s, u, a) && s' == Step(s, u, a);
    if u == t {
      OwnReadingStep(s, t, c);
      AbsenceIsObserved(s, t);
    } else {
      OthersStay(s, u, a, t);
    }
  }

  /**
   * Reads are linearisable: a Get or Has that starts at moment i and is done at moment j answers "found" if
   * at its last step the map held the key, with the value a Get returns, and answers "not found" only if
   * the key was missing at some moment inside the call.
   */
  lemma ReadsLinearise(run: seq<State>, i: nat, j: nat, t: Tid, c: Call)
    requires IsRun(Init, Next, run) && i < j < |run| && c.op != Set
    requires t in run[i].pcs && run[i].pcs[t] == Start(c)
    requires forall k :: i <= k < j ==> StillReading(run[k], t, c)
    requires t in run[j].pcs && run[j].pcs[t].Done?
    ensures run[j].pcs[t].found ==>
      c.key in run[j - 1].table && (c.op == Get ==> run[j].pcs[t].result == run[j - 1].table[c.key])
    ensures !run[j].pcs[t].found ==> WasMissing(run, i, j, c.key)
  {
    var s := run[j - 1];
    AbsentFlagIsTrue(run, i, j - 1, t, c);
    StepOf(run, j - 1);
    ReadingStep(s, run[j], t, c);
    assert PcOk(s, s.pcs[t]);
    if s.pcs[t].Walk? {
      FoundIsCurrent(s, t);
      ReadKeepsCall(s, t);
      NotFoundWasTrue(s, t);
    }
  }

  lemma ReadKeepsCall(s: State, t: Tid)
    requires Enabled(s, t, Go) && s.pcs[t].Walk? && s.pcs[t].c.op != Set
    ensures var pc := AfterGo(s, t); pc.Done? ==> pc.c == s.pcs[t].c
  {
  }

  // Thread t is inside a Set of the key to the value; retries keep what the call has allocated.
  ghost predicate InSet(s: State, t: Tid, key: Key, value: Value) {
    && t in s.pcs && !s.pcs[t].Done?
    && s.pcs[t].c.op == Set && s.pcs[t].c.key == key && s.pcs[t].c.value == value
  }

  lemma OwnSetStep(s: State, t: Tid, key: Key, value: Value)
    requires Enabled(s, t, Go) && InSet(s, t, key, value)
    ensures var s' := Step(s, t, Go); t in s'.pcs && (InSet(s', t, key, value) || s'.pcs[t].Done?)
    ensures InSet(Step(s, t, Go), t, key, value) ==> Step(s, t, Go).table == s.table
    ensures AfterGo(s, t).Done? ==> Step(s, t, Go).table == s.table[key := value]
  {
    match s.pcs[t]
    case Start(_) =>
    case Walk(_, _, _, _) =>
    case Update(_, _, _) =>
    case Link(_, _, _) =>
  }

  lemma SetStep(s: State, s': State, t: Tid, key: Key, value: Value)
    requires Next(s, s') && InSet(s, t, key, value)
    ensures t in s'.pcs && (InSet(s', t, key, value) || s'.pcs[t].Done?)
    ensures s'.pcs[t].Done? ==> s'.table == s.table[key := value]
    ensures !s'.pcs[t].Done? && s'.pcs[t] != s.pcs[t] ==> s'.table == s.table
  {
    var u, a :| Enabled(s, u, a) && s' == Step(s, u, a);
    if u == t { OwnSetStep(s, t, key, value); } else { OthersStay(s, u, a, t); }
  }

  lemma {:induction false} SetKeepsArguments(run: seq<State>, i: nat, j: nat, t: Tid, key: Key, value: Value)
    requires IsRun(Init, Next, run) && i <= j < |run| && InSet(run[i], t, key, value)
    requires forall k :: i <= k <= j ==> t in run[k].pcs && !run[k].pcs[t].Done?
    ensures InSet(run[j], t, key, value)
    decreases j - i
  {
    if i < j {
      SetKeepsArguments(run, i, j - 1, t, key, value);
      assert StepAt(Next, run, j - 1);
      SetStep(run[j - 1], run[j], t, key, value);
    }
  }

  /**
   * Writes are linearisable: a Set that starts at moment i and is done at moment j stores its value under
   * its key at its last step, whatever happened meanwhile, and no earlier step of the call touches the map.
   */
  lemma WritesLinearise(run: seq<State>, i: nat, j: nat, t: Tid, c: Call)
    requires IsRun(Init, Next, run) && i < j < |run| && c.op == Set
    requires t in run[i].pcs && run[i].pcs[t] == Start(c)
    requires forall k :: i <= k < j ==> t in run[k].pcs && !run[k].pcs[t].Done?
    requires t in run[j].pcs && run[j].pcs[t].Done?
    ensures run[j].table == run[j - 1].table[c.key := c.value]
    ensures forall k :: i <= k < j - 1 && run[k + 1].pcs[t] != run[k].pcs[t] ==> run[k + 1].table == run[k].table
  {
    SetKeepsArguments(run, i, j - 1, t, c.key, c.value);
    assert StepAt(Next, run, j - 1);
    SetStep(run[j - 1], run[j], t, c.key, c.value);
    forall k | i <= k < j - 1 && run[k + 1].pcs[t] != run[k].pcs[t] ensures run[k + 1].table == run[k].table {
      SetKeepsArguments(run, i, k, t, c.key, c.value);
      assert StepAt(Next, run, k);
      SetStep(run[k], run[k + 1], t, c.key, c.value);
    }
  }

  /** Keys never vanish. */
  lemma {:induction false} KeysStay(run: seq<State>, i: nat, j: nat)
    requires IsRun(Init, Next, run) && i <= j < |run|
    ensures run[i].table.Keys <= run[j].table.Keys
  {
    if i < j {
      KeysStay(run, i, j - 1);
      assert StepAt(Next, run, j - 1);
    }
  }

  /**
   * A retrying Set that has already moved its argument into a value cell never reaches the branch that
   * would copy the argument into a new entry: once its key was found, every later search finds it.
   */
  lemma MovedValueIsNotReused(s: State, t: Tid)
    requires Inv(s) && t in s.pcs && s.pcs[t].Walk? && s.pcs[t].c.cell.Some?
    ensures s.pcs[t].target.Some? && s.heap[s.pcs[t].target.value].key <= s.pcs[t].c.key
  {
    assert PcOk(s, s.pcs[t]);
  }
}
