/** The graph object: `edges` and `list` updated in place, the edge count, and the search. */
module GraphIndex {
  import opened Topology

  lemma NoTargets(c: Name)
    ensures Targets(c, {}) == map[]
  {
    assert Targets(c, {}).Keys == {};
  }

  lemma MoreTargets(c: Name, ws: set<Name>, w: Name)
    ensures Targets(c, ws) + Targets(c, {w}) == Targets(c, ws + {w})
  {
    var parts := Targets(c, ws) + Targets(c, {w});
    var all := Targets(c, ws + {w});
    forall k | k in all ensures k in parts && parts[k] == all[k] {
      assert all[k] in ws || all[k] == w;
    }
    forall k | k in parts ensures k in all {
      if k in Targets(c, ws) {
        assert Targets(c, ws)[k] in ws + {w};
      } else {
        assert Targets(c, {w})[k] in ws + {w};
      }
    }
  }

  lemma OutOfLinked(list: Adjacency, us: set<Name>, c: Name, ws: set<Name>, v: Name)
    ensures Out(Linked(list, us, c, ws), v) == OutLinked(list, us, c, ws, v)
  {
    if v !in LinkedVertices(list, us, ws) && v in us { NoTargets(c); }
  }

  lemma OutOfUnlinked(list: Adjacency, us: set<Name>, c: Name, ws: set<Name>, v: Name)
    ensures Out(Unlinked(list, us, c, ws), v) == OutUnlinked(list, us, c, ws, v)
  {
  }

  /** Two adjacencies over the same vertices with the same outgoing edges are one. */
  lemma SameOut(l: Adjacency, m: Adjacency)
    requires l.Keys == m.Keys && forall v :: v in l ==> Out(l, v) == Out(m, v)
    ensures l == m
  {
    forall v | v in l ensures l[v] == m[v] { assert Out(l, v) == Out(m, v); }
  }

  lemma LinkedNothing(list: Adjacency, us: set<Name>, c: Name, ws: set<Name>)
    requires us == {} || ws == {}
    ensures Linked(list, us, c, ws) == list
  {
    NoTargets(c);
    SameOut(Linked(list, us, c, ws), list);
  }

  lemma AddedInTurn<K, V>(a: map<K, V>, b: map<K, V>, c: map<K, V>)
    ensures a + b + c == a + (b + c)
  {
  }

  lemma LinkedMoreTargets(list: Adjacency, u: Name, c: Name, ws: set<Name>, w: Name)
    ensures Linked(Linked(list, {u}, c, ws), {u}, c, {w}) == Linked(list, {u}, c, ws + {w})
  {
    var l := Linked(list, {u}, c, ws);
    var more := Linked(l, {u}, c, {w});
    var all := Linked(list, {u}, c, ws + {w});
    MoreTargets(c, ws, w);
    forall v | v in more ensures Out(more, v) == Out(all, v) {
      OutOfLinked(list, {u}, c, ws, v);
      OutOfLinked(l, {u}, c, {w}, v);
      OutOfLinked(list, {u}, c, ws + {w}, v);
      AddedInTurn(Out(list, v), Targets(c, ws), Targets(c, {w}));
    }
    SameOut(more, all);
  }

  lemma LinkedMoreSources(list: Adjacency, us: set<Name>, c: Name, w: Name, u: Name)
    requires u !in us
    ensures Linked(Linked(list, us, c, {w}), {u}, c, {w}) == Linked(list, us + {u}, c, {w})
  {
    var l := Linked(list, us, c, {w});
    var more := Linked(l, {u}, c, {w});
    var all := Linked(list, us + {u}, c, {w});
    forall v | v in more ensures Out(more, v) == Out(all, v) {
      OutOfLinked(list, us, c, {w}, v);
      OutOfLinked(l, {u}, c, {w}, v);
      OutOfLinked(list, us + {u}, c, {w}, v);
    }
    SameOut(more, all);
  }

  lemma UnlinkedNothing(list: Adjacency, us: set<Name>, c: Name, ws: set<Name>)
    requires us == {} || ws == {}
    ensures Unlinked(list, us, c, ws) == list
  {
    NoTargets(c);
    SameOut(Unlinked(list, us, c, ws), list);
  }

  lemma UnlinkedMoreTargets(list: Adjacency, u: Name, c: Name, ws: set<Name>, w: Name)
    ensures Unlinked(Unlinked(list, {u}, c, ws), {u}, c, {w}) == Unlinked(list, {u}, c, ws + {w})
  {
    var l := Unlinked(list, {u}, c, ws);
    var more := Unlinked(l, {u}, c, {w});
    var all := Unlinked(list, {u}, c, ws + {w});
    MoreTargets(c, ws, w);
    forall v | v in more ensures Out(more, v) == Out(all, v) {
      OutOfUnlinked(list, {u}, c, ws, v);
      OutOfUnlinked(l, {u}, c, {w}, v);
      OutOfUnlinked(list, {u}, c, ws + {w}, v);
      if v == u {
        assert Out(list, u) - Targets(c, ws).Keys - Targets(c, {w}).Keys
            == Out(list, u) - (Targets(c, ws) + Targets(c, {w})).Keys;
      }
    }
    SameOut(more, all);
  }

  lemma UnlinkedMoreSources(list: Adjacency, us: set<Name>, c: Name, w: Name, u: Name)
    requires u !in us
    ensures Unlinked(Unlinked(list, us, c, {w}), {u}, c, {w}) == Unlinked(list, us + {u}, c, {w})
  {
    var l := Unlinked(list, us, c, {w});
    var more := Unlinked(l, {u}, c, {w});
    var all := Unlinked(list, us + {u}, c, {w});
    forall v | v in more ensures Out(more, v) == Out(all, v) {
      OutOfUnlinked(list, us, c, {w}, v);
      OutOfUnlinked(l, {u}, c, {w}, v);
      OutOfUnlinked(list, us + {u}, c, {w}, v);
    }
    SameOut(more, all);
  }

  lemma OneTarget(c: Name, w: Name)
    ensures Targets(c, {w}) == map[EdgeKey(c, w) := w]
  {
    var m := Targets(c, {w});
    assert m.Keys == {EdgeKey(c, w)};
  }

  /** What is left of n in 32 bits. */
  function Wrap(n: nat): (r: nat)
    ensures r < 0x1_0000_0000
  {
    if n < 0x1_0000_0000 then n else Wrap(n - 0x1_0000_0000)
  }

  lemma {:induction false} WrapIsRemainder(n: nat)
    ensures Wrap(n) == n % 0x1_0000_0000
  {
    if n >= 0x1_0000_0000 { WrapIsRemainder(n - 0x1_0000_0000); }
  }

  lemma {:induction false} WrapAdds(a: nat, b: nat)
    ensures Wrap(Wrap(a) + b) == Wrap(a + b)
  {
    if a >= 0x1_0000_0000 { WrapAdds(a - 0x1_0000_0000, b); }
  }

  /** Dropping known entries from the list leaves a part of it. */
  ghost predicate Part(rest: Adjacency, list: Adjacency) {
    forall u :: u in rest ==> u in list && rest[u] == list[u]
  }

  lemma PartShrinks(rest: Adjacency, list: Adjacency, u: Name)
    requires Part(rest, list) && u in rest
    ensures Part(rest - {u}, list) && |rest - {u}| < |rest|
  {
    assert (rest - {u}).Keys == rest.Keys - {u};
    assert |rest.Keys| == |rest| && |(rest - {u}).Keys| == |rest - {u}|;
  }

  /** The list has the edges of `was`, possibly with more vertices. */
  ghost predicate SameEdges(list: Adjacency, was: Adjacency) {
    forall u :: Out(list, u) == Out(was, u)
  }

  lemma AddingBareVertex(list: Adjacency, was: Adjacency, v: Name)
    requires SameEdges(list, was) && v !in list
    ensures SameEdges(list[v := map[]], was)
  {
    assert Out(list, v) == Out(was, v);
  }

  lemma SameEdgesLeads(list: Adjacency, was: Adjacency, u: Name)
    requires SameEdges(list, was)
    ensures forall w :: Leads(list, u, w) <==> Leads(was, u, w)
  {
    assert Out(list, u) == Out(was, u);
  }

  lemma NoEntries(list: Adjacency)
    requires list == map[]
    ensures EntryCount(list) == 0
  {
    var sizes := map u | u in list :: |list[u]|;
    assert |sizes| == 0;
  }

  lemma EntryCountTakes(list: Adjacency, u: Name)
    requires u in list
    ensures EntryCount(list) == |list[u]| + EntryCount(list - {u})
  {
    var sizes := map v | v in list :: |list[v]|;
    TotalTakes(sizes, u);
    var rest := list - {u};
    assert sizes - {u} == map v | v in rest :: |rest[v]|;
  }

  /** Every vertex a search from `start` can meet. */
  ghost function Meetable(list: Adjacency, start: Name): set<Name> {
    {start} + set u, k | u in list && k in list[u] :: list[u][k]
  }

  /** Everything one hop from a marked vertex is marked or queued. */
  ghost predicate Frontier(list: Adjacency, marked: set<Name>, queue: seq<Name>) {
    forall u, w :: u in marked && Leads(list, u, w) ==> w in marked || w in queue
  }

  /** What holds between two rounds of the search: only reachable vertices are marked or queued,
      and nothing one hop from a marked vertex was forgotten. */
  ghost predicate Searched(list: Adjacency, start: Name, marked: set<Name>, queue: seq<Name>) {
    && marked <= Meetable(list, start)
    && (forall v :: v in queue ==> v in Meetable(list, start))
    && (forall v :: v in marked || v in queue ==> Reaches(list, start, v))
    && (start in marked || start in queue)
    && Frontier(list, marked, queue)
  }

  lemma Visit(list: Adjacency, start: Name, marked: set<Name>, curr: Name, rest: seq<Name>, longer: seq<Name>)
    requires Searched(list, start, marked, [curr] + rest) && rest <= longer
    requires forall v :: v in longer <==> v in rest || Leads(list, curr, v)
    ensures Searched(list, start, marked + {curr}, longer)
  {
    assert curr in [curr] + rest;
    assert forall v :: v in rest ==> v in [curr] + rest;
    forall v | Leads(list, curr, v) ensures Reaches(list, start, v) && v in Meetable(list, start) {
      ReachesFurther(list, start, curr, v);
      LeadsMeetable(list, start, curr, v);
    }
  }

  lemma Skip(list: Adjacency, start: Name, marked: set<Name>, curr: Name, rest: seq<Name>)
    requires Searched(list, start, marked, [curr] + rest) && curr in marked
    ensures Searched(list, start, marked, rest)
  {
    assert forall v :: v in rest ==> v in [curr] + rest;
  }

  lemma MarkingShrinks(all: set<Name>, marked: set<Name>, v: Name)
    requires v in all && v !in marked
    ensures |all - (marked + {v})| < |all - marked|
  {
    assert all - (marked + {v}) == all - marked - {v};
  }

  lemma QueuedIsReached(list: Adjacency, start: Name, marked: set<Name>, curr: Name, rest: seq<Name>)
    requires Searched(list, start, marked, [curr] + rest)
    ensures Reaches(list, start, curr)
  {
    assert curr in [curr] + rest;
  }

  /** The vertices the visited map holds as true. */
  ghost predicate Marks(visited: map<Name, bool>, marked: set<Name>) {
    forall v :: v in marked <==> v in visited && visited[v]
  }

  lemma Marking(visited: map<Name, bool>, marked: set<Name>, v: Name)
    requires Marks(visited, marked)
    ensures Marks(visited[v := true], marked + {v})
  {
  }

  lemma SplitFirst(queue: seq<Name>)
    requires queue != []
    ensures queue == [queue[0]] + queue[1..]
  {
  }

  lemma SearchEnds(list: Adjacency, start: Name, marked: set<Name>, end: Name)
    requires Searched(list, start, marked, []) && end !in marked
    ensures !Reaches(list, start, end)
  {
    ClosedSetHoldsReachable(list, marked, start, end);
  }

  lemma LeadsMeetable(list: Adjacency, start: Name, u: Name, w: Name)
    requires Leads(list, u, w)
    ensures w in Meetable(list, start)
  {
    var k :| k in Out(list, u) && Out(list, u)[k] == w;
    assert k in list[u] && list[u][k] == w;
  }

  lemma MeetableKnown(list: Adjacency, start: Name, w: Name)
    requires Closed(list) && start in list && w in Meetable(list, start)
    ensures w in list
  {
    if w != start {
      var u, k :| u in list && k in list[u] && list[u][k] == w;
      assert Out(list, u)[k] in list;
    }
  }

  class Graph {
    var edges: map<Name, Related>
    var list: Adjacency

    ghost function Current(): Index reads this { Index(edges, list) }

    ghost predicate Valid() reads this { Closed(list) }

    constructor ()
      ensures Valid() && Current() == Play([])
    {
      edges, list := map[], map[];
    }

    method Insert(e: Edge)
      requires Valid()
      modifies this
      ensures Valid() && Current() == Inserted(old(Current()), e)
    {
      ChangeClosed(Current(), Join(e));
      if !e.IsValid() { return; }
      if e.value !in edges { edges := edges[e.value := Related({}, {})]; }
      if e.src != "" { InsertOutgoingEdge(e); }
      if e.dst != "" { InsertIncomingEdge(e); }
    }

    method Delete(e: Edge)
      requires Valid()
      modifies this
      ensures Valid() && Current() == Deleted(old(Current()), e)
    {
      ChangeClosed(Current(), Leave(e));
      if !e.IsValid() { return; }
      if e.value !in edges { return; }
      if e.src != "" { DeleteOutgoingEdge(e); }
      if e.dst != "" { DeleteIncomingEdge(e); }
    }

    method InsertCompleteEdge(e: Edge)
      modifies this`list
      ensures list == Linked(old(list), {e.src}, e.value, {e.dst})
    {
      var k := EdgeKey(e.value, e.dst);
      if e.src !in list { list := list[e.src := map[]]; }
      if e.dst !in list { list := list[e.dst := map[]]; }
      list := list[e.src := list[e.src][k := e.dst]];
      OneTarget(e.value, e.dst);
      assert list[e.src] == Out(old(list), e.src) + map[k := e.dst];
      SameOut(list, Linked(old(list), {e.src}, e.value, {e.dst}));
    }

    method DeleteCompleteEdge(e: Edge)
      modifies this`list
      ensures list == Unlinked(old(list), {e.src}, e.value, {e.dst})
    {
      var k := EdgeKey(e.value, e.dst);
      if e.src !in list { list := list[e.src := map[]]; }
      list := list[e.src := list[e.src] - {k}];
      OneTarget(e.value, e.dst);
      assert list[e.src] == Out(old(list), e.src) - {k};
      SameOut(list, Unlinked(old(list), {e.src}, e.value, {e.dst}));
    }

    method InsertOutgoingEdge(e: Edge)
      requires e.value in edges
      modifies this
      ensures Current() == WithSource(old(Current()), e.value, e.src)
    {
      var c, u := e.value, e.src;
      if u in edges[c].src { return; }
      edges := edges[c := edges[c].(src := edges[c].src + {u})];
      var rest := edges[c].dst;
      ghost var done: set<Name> := {};
      LinkedNothing(list, {u}, c, done);
      while rest != {}
        invariant edges == old(edges)[c := Related(old(edges[c].src) + {u}, old(edges[c].dst))]
        invariant done + rest == edges[c].dst && done !! rest
        invariant list == Linked(old(list), {u}, c, done)
        decreases |rest|
      {
        var w :| w in rest;
        LinkedMoreTargets(old(list), u, c, done, w);
        InsertCompleteEdge(Edge(u, w, c));
        rest := rest - {w};
        done := done + {w};
      }
      assert done == edges[c].dst;
    }

    method InsertIncomingEdge(e: Edge)
      requires e.value in edges
      modifies this
      ensures Current() == WithTarget(old(Current()), e.value, e.dst)
    {
      var c, w := e.value, e.dst;
      if w in edges[c].dst { return; }
      edges := edges[c := edges[c].(dst := edges[c].dst + {w})];
      var rest := edges[c].src;
      ghost var done: set<Name> := {};
      LinkedNothing(list, done, c, {w});
      while rest != {}
        invariant edges == old(edges)[c := Related(old(edges[c].src), old(edges[c].dst) + {w})]
        invariant done + rest == edges[c].src && done !! rest
        invariant list == Linked(old(list), done, c, {w})
        decreases |rest|
      {
        var u :| u in rest;
        LinkedMoreSources(old(list), done, c, w, u);
        InsertCompleteEdge(Edge(u, w, c));
        rest := rest - {u};
        done := done + {u};
      }
      assert done == edges[c].src;
    }

    method DeleteOutgoingEdge(e: Edge)
      requires e.value in edges
      modifies this
      ensures Current() == WithoutSource(old(Current()), e.value, e.src)
    {
      var c, u := e.value, e.src;
      if u !in edges[c].src { return; }
      edges := edges[c := edges[c].(src := edges[c].src - {u})];
      var rest := edges[c].dst;
      ghost var done: set<Name> := {};
      UnlinkedNothing(list, {u}, c, done);
      while rest != {}
        invariant edges == old(edges)[c := Related(old(edges[c].src) - {u}, old(edges[c].dst))]
        invariant done + rest == edges[c].dst && done !! rest
        invariant list == Unlinked(old(list), {u}, c, done)
        decreases |rest|
      {
        var w :| w in rest;
        UnlinkedMoreTargets(old(list), u, c, done, w);
        DeleteCompleteEdge(Edge(u, w, c));
        rest := rest - {w};
        done := done + {w};
      }
      assert done == edges[c].dst;
    }

    method DeleteIncomingEdge(e: Edge)
      requires e.value in edges
      modifies this
      ensures Current() == WithoutTarget(old(Current()), e.value, e.dst)
    {
      var c, w := e.value, e.dst;
      if w !in edges[c].dst { return; }
      edges := edges[c := edges[c].(dst := edges[c].dst - {w})];
      var rest := edges[c].src;
      ghost var done: set<Name> := {};
      UnlinkedNothing(list, done, c, {w});
      while rest != {}
        invariant edges == old(edges)[c := Related(old(edges[c].src), old(edges[c].dst) - {w})]
        invariant done + rest == edges[c].src && done !! rest
        invariant list == Unlinked(old(list), done, c, {w})
        decreases |rest|
      {
        var u :| u in rest;
        UnlinkedMoreSources(old(list), done, c, w, u);
        DeleteCompleteEdge(Edge(u, w, c));
        rest := rest - {u};
        done := done + {u};
      }
      assert done == edges[c].src;
    }

    static method Accumulate(num: nat, size: nat, ghost counted: nat) returns (sum: nat)
      requires num == Wrap(counted)
      ensures sum == Wrap(counted + size)
    {
      WrapAdds(counted, size);
      sum := Wrap(num + size);
    }

    /** Counts in 32 bits; with a list that agrees with the edges, counts writer-reader pairs. */
    method GetNumOfEdge() returns (num: nat)
      ensures num == Wrap(EntryCount(list))
      ensures Agrees(Current()) ==> num == Wrap(JoinCount(edges))
    {
      num := 0;
      var rest := list;
      ghost var counted: nat := 0;
      while rest != map[]
        invariant Part(rest, list)
        invariant counted + EntryCount(rest) == EntryCount(list)
        invariant num == Wrap(counted)
        decreases |rest|
      {
        var u :| u in rest;
        EntryCountTakes(rest, u);
        PartShrinks(rest, list, u);
        var size := |rest[u]|;
        rest := rest - {u};
        num := Accumulate(num, size, counted);
        counted := counted + size;
      }
      NoEntries(rest);
      if Agrees(Current()) { CountIsJoinSize(Current()); }
    }

    /** Breadth-first search. True exactly when `end` can be reached; a search from a known vertex
        leaves the list as it was. */
    method LevelTraverse(start: Name, end: Name) returns (found: bool)
      requires Valid()
      modifies this`list
      ensures found <==> Reaches(old(list), start, end)
      ensures start in old(list) ==> list == old(list)
      ensures SameEdges(list, old(list))
    {
      ghost var was := list;
      ghost var marked: set<Name> := {};
      var visited := map[end := false];
      var unvisited := [start];
      ReachesItself(was, start);
      while unvisited != []
        invariant start in was ==> list == was
        invariant SameEdges(list, was)
        invariant end in visited && Marks(visited, marked)
        invariant end !in marked && Searched(was, start, marked, unvisited)
        decreases |Meetable(was, start) - marked|, |unvisited|
      {
        var curr := unvisited[0];
        ghost var rest := unvisited[1..];
        SplitFirst(unvisited);
        unvisited := unvisited[1..];
        if curr in visited && visited[curr] {
          Skip(was, start, marked, curr, rest);
          continue;
        }
        if curr == end { QueuedIsReached(was, start, marked, curr, rest); }
        Marking(visited, marked, curr);
        visited := visited[curr := true];
        if curr == end { break; }
        if start in was { MeetableKnown(was, start, curr); }
        if curr !in list {
          AddingBareVertex(list, was, curr);
          list := list[curr := map[]];
        }
        SameEdgesLeads(list, was, curr);
        unvisited := EnqueueNeighbours(curr, unvisited);
        Visit(was, start, marked, curr, rest, unvisited);
        MarkingShrinks(Meetable(was, start), marked, curr);
        marked := marked + {curr};
      }
      found := visited[end];
      if !found { SearchEnds(was, start, marked, end); }
    }

    /** Appends every neighbour of curr, in the order the list yields them. */
    method EnqueueNeighbours(curr: Name, unvisited: seq<Name>) returns (longer: seq<Name>)
      requires curr in list
      ensures unvisited <= longer
      ensures forall v :: v in longer <==> v in unvisited || Leads(list, curr, v)
    {
      longer := unvisited;
      var rest := list[curr].Keys;
      while rest != {}
        invariant rest <= list[curr].Keys
        invariant unvisited <= longer
        invariant forall v :: v in longer <==>
          v in unvisited || exists k :: k in list[curr].Keys - rest && list[curr][k] == v
        decreases |rest|
      {
        var k :| k in rest;
        longer := longer + [list[curr][k]];
        rest := rest - {k};
      }
    }

    /** The direction is what the path relation says; nothing is changed. */
    method GetDirectionOf(lhs: Name, rhs: Name) returns (d: Direction)
      requires Valid()
      modifies this`list
      ensures list == old(list)
      ensures d.Upstream? <==> lhs != "" && rhs != "" && lhs in list && rhs in list && Reaches(list, lhs, rhs)
      ensures d.Downstream? <==> lhs != "" && rhs != "" && lhs in list && rhs in list
                                 && Reaches(list, rhs, lhs) && !Reaches(list, lhs, rhs)
    {
      if lhs == "" || rhs == "" { return Unreachable; }
      if lhs !in list || rhs !in list { return Unreachable; }
      var forwards := LevelTraverse(lhs, rhs);
      if forwards { return Upstream; }
      var backwards := LevelTraverse(rhs, lhs);
      if backwards { return Downstream; }
      return Unreachable;
    }
  }
}
