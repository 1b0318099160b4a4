/** The topology graph: who writes and who reads each channel (`edges`), and the adjacency
    list derived from it (`list`), which is maintained edge by edge and searched breadth first. */
module Topology {
  type Name = string

  /** An edge of the graph: a channel with a writer, a reader, or both. "" is the dummy vertex. */
  datatype Edge = Edge(src: Name, dst: Name, value: Name) {
    predicate IsValid() { value != "" && !(src == "" && dst == "") }
  }

  datatype Related = Related(src: set<Name>, dst: set<Name>)

  /** Adjacency: per vertex, the edge key of each outgoing edge and the vertex it leads to. */
  type Adjacency = map<Name, map<string, Name>>

  datatype Index = Index(edges: map<Name, Related>, list: Adjacency)

  datatype Change = Join(e: Edge) | Leave(e: Edge)

  datatype Direction = Unreachable | Upstream | Downstream

  function EdgeKey(channel: Name, node: Name): string { channel + "_" + node }

  lemma SameChannelKeys(c: Name, w: Name, x: Name)
    requires EdgeKey(c, w) == EdgeKey(c, x)
    ensures w == x
  {
    assert EdgeKey(c, w)[|c| + 1..] == w;
    assert EdgeKey(c, x)[|c| + 1..] == x;
  }

  lemma SameNodeKeys(c: Name, d: Name, w: Name)
    requires EdgeKey(c, w) == EdgeKey(d, w)
    ensures c == d
  {
    assert |c| == |d|;
    assert EdgeKey(c, w)[..|c|] == c;
    assert EdgeKey(d, w)[..|d|] == d;
  }

  lemma KeysOfOneChannel(c: Name)
    ensures forall w, x :: EdgeKey(c, w) == EdgeKey(c, x) ==> w == x
  {
    forall w, x | EdgeKey(c, w) == EdgeKey(c, x) ensures w == x { SameChannelKeys(c, w, x); }
  }

  /** A longer channel under the same key swallows a '_' of the other edge's node. */
  lemma LongerChannelMeansUnderscore(c: Name, w: Name, d: Name, x: Name)
    requires EdgeKey(c, w) == EdgeKey(d, x) && |c| < |d|
    ensures '_' in w
  {
    assert EdgeKey(d, x)[|d|] == '_';
    assert w[|d| - |c| - 1] == EdgeKey(c, w)[|d|];
  }

  /** The last '_' of the key separates channel and node when the node has none. */
  lemma KeysWithoutUnderscore(c: Name, w: Name, d: Name, x: Name)
    requires '_' !in w && '_' !in x
    requires EdgeKey(c, w) == EdgeKey(d, x)
    ensures c == d && w == x
  {
    if |c| < |d| { LongerChannelMeansUnderscore(c, w, d, x); }
    if |d| < |c| { LongerChannelMeansUnderscore(d, x, c, w); }
    assert EdgeKey(c, w)[..|c|] == c && EdgeKey(d, x)[..|d|] == d;
    SameChannelKeys(c, w, x);
  }

  // ---- the edges and the list, as relations ----

  ghost predicate Joined(edges: map<Name, Related>, u: Name, c: Name, w: Name) {
    c in edges && u in edges[c].src && w in edges[c].dst
  }

  function Out(list: Adjacency, u: Name): map<string, Name> {
    if u in list then list[u] else map[]
  }

  ghost predicate Recorded(list: Adjacency, u: Name, c: Name, w: Name) {
    var k := EdgeKey(c, w);
    k in Out(list, u) && Out(list, u)[k] == w
  }

  ghost predicate IsKeyTo(k: string, w: Name) {
    exists c :: k == EdgeKey(c, w)
  }

  /** Every entry sits under the key of an edge that leads where the entry says. */
  ghost predicate WellKeyed(list: Adjacency) {
    forall u, k :: k in Out(list, u) ==> IsKeyTo(k, Out(list, u)[k])
  }

  /** The list is the join of writers and readers. */
  ghost predicate Agrees(s: Index) {
    && (forall u, c, w :: Joined(s.edges, u, c, w) <==> Recorded(s.list, u, c, w))
    && WellKeyed(s.list)
  }

  /** No writer has two outgoing edges that share a key. */
  ghost predicate Distinct(edges: map<Name, Related>) {
    forall u, c, w, d, x :: Joined(edges, u, c, w) && Joined(edges, u, d, x) && EdgeKey(c, w) == EdgeKey(d, x)
      ==> c == d && w == x
  }

  /** Every vertex an edge leads to is known. */
  ghost predicate Closed(list: Adjacency) {
    forall u, k :: k in Out(list, u) ==> Out(list, u)[k] in list
  }

  // ---- what linking and unlinking do to the list ----

  function Targets(c: Name, ws: set<Name>): (m: map<string, Name>)
    ensures forall w :: w in ws ==> EdgeKey(c, w) in m && m[EdgeKey(c, w)] == w
    ensures forall k :: k in m ==> m[k] in ws && k == EdgeKey(c, m[k])
  {
    KeysOfOneChannel(c);
    map w | w in ws :: EdgeKey(c, w) := w
  }

  /** All of `us` lead to all of `ws` over channel c. */
  function Linked(list: Adjacency, us: set<Name>, c: Name, ws: set<Name>): Adjacency {
    map v | v in LinkedVertices(list, us, ws) :: OutLinked(list, us, c, ws, v)
  }

  function LinkedVertices(list: Adjacency, us: set<Name>, ws: set<Name>): set<Name> {
    list.Keys + if us == {} || ws == {} then {} else us + ws
  }

  function OutLinked(list: Adjacency, us: set<Name>, c: Name, ws: set<Name>, v: Name): map<string, Name> {
    if v in us then Out(list, v) + Targets(c, ws) else Out(list, v)
  }

  /** None of `us` leads to any of `ws` over channel c. */
  function Unlinked(list: Adjacency, us: set<Name>, c: Name, ws: set<Name>): Adjacency {
    map v | v in UnlinkedVertices(list, us, ws) :: OutUnlinked(list, us, c, ws, v)
  }

  function UnlinkedVertices(list: Adjacency, us: set<Name>, ws: set<Name>): set<Name> {
    list.Keys + if ws == {} then {} else us
  }

  function OutUnlinked(list: Adjacency, us: set<Name>, c: Name, ws: set<Name>, v: Name): map<string, Name> {
    if v in us then Out(list, v) - Targets(c, ws).Keys else Out(list, v)
  }

  function Opened(s: Index, c: Name): Index {
    if c in s.edges then s else s.(edges := s.edges[c := Related({}, {})])
  }

  function WithSource(s: Index, c: Name, u: Name): Index
    requires c in s.edges
  {
    var r := s.edges[c];
    if u in r.src then s
    else Index(s.edges[c := Related(r.src + {u}, r.dst)], Linked(s.list, {u}, c, r.dst))
  }

  function WithTarget(s: Index, c: Name, w: Name): Index
    requires c in s.edges
  {
    var r := s.edges[c];
    if w in r.dst then s
    else Index(s.edges[c := Related(r.src, r.dst + {w})], Linked(s.list, r.src, c, {w}))
  }

  function WithoutSource(s: Index, c: Name, u: Name): Index
    requires c in s.edges
  {
    var r := s.edges[c];
    if u !in r.src then s
    else Index(s.edges[c := Related(r.src - {u}, r.dst)], Unlinked(s.list, {u}, c, r.dst))
  }

  function WithoutTarget(s: Index, c: Name, w: Name): Index
    requires c in s.edges
  {
    var r := s.edges[c];
    if w !in r.dst then s
    else Index(s.edges[c := Related(r.src, r.dst - {w})], Unlinked(s.list, r.src, c, {w}))
  }

  function Inserted(s: Index, e: Edge): Index {
    if !e.IsValid() then s else
    var s0 := Opened(s, e.value);
    var s1 := if e.src == "" then s0 else WithSource(s0, e.value, e.src);
    if e.dst == "" then s1 else WithTarget(s1, e.value, e.dst)
  }

  function Deleted(s: Index, e: Edge): Index {
    if !e.IsValid() || e.value !in s.edges then s else
    var s1 := if e.src == "" then s else WithoutSource(s, e.value, e.src);
    if e.dst == "" then s1 else WithoutTarget(s1, e.value, e.dst)
  }

  function Apply(s: Index, change: Change): Index {
    match change
    case Join(e) => Inserted(s, e)
    case Leave(e) => Deleted(s, e)
  }

  /** An edge without a channel, or with neither a writer nor a reader, changes nothing. */
  lemma InvalidEdgesAreIgnored(s: Index, e: Edge)
    requires e.value == "" || (e.src == "" && e.dst == "")
    ensures Apply(s, Join(e)) == Apply(s, Leave(e)) == s
  {
  }

  /** The graph after a history of joins and leaves. */
  function Play(changes: seq<Change>): Index {
    if |changes| == 0 then Index(map[], map[])
    else Apply(Play(changes[..|changes| - 1]), changes[|changes| - 1])
  }

  // ---- the list follows the edges ----

  lemma LinkedRecords(list: Adjacency, us: set<Name>, c: Name, ws: set<Name>, u: Name, d: Name, x: Name)
    requires u in us && d == c && x in ws
    ensures Recorded(Linked(list, us, c, ws), u, d, x)
  {
  }

  lemma LinkedKeepsOthers(list: Adjacency, us: set<Name>, c: Name, ws: set<Name>, u: Name, d: Name, x: Name)
    requires u in us ==> forall w :: w in ws ==> EdgeKey(c, w) != EdgeKey(d, x)
    ensures Recorded(Linked(list, us, c, ws), u, d, x) <==> Recorded(list, u, d, x)
  {
  }

  lemma LinkedWellKeyed(list: Adjacency, us: set<Name>, c: Name, ws: set<Name>)
    requires WellKeyed(list)
    ensures WellKeyed(Linked(list, us, c, ws))
  {
    var l := Linked(list, us, c, ws);
    forall u, k | k in Out(l, u) ensures IsKeyTo(k, Out(l, u)[k]) {
      if u in us && k in Targets(c, ws) {
        assert k == EdgeKey(c, Out(l, u)[k]);
      } else {
        assert k in Out(list, u);
      }
    }
  }

  /** Linking adds exactly the pairs us x ws on c, unless a key of another edge is overwritten. */
  lemma LinkingAgrees(s: Index, t: Index, us: set<Name>, c: Name, ws: set<Name>)
    requires Agrees(s) && Distinct(t.edges)
    requires t.list == Linked(s.list, us, c, ws)
    requires forall u, d, x :: Joined(t.edges, u, d, x) <==> Joined(s.edges, u, d, x) || (u in us && d == c && x in ws)
    ensures Agrees(t)
  {
    LinkedWellKeyed(s.list, us, c, ws);
    forall u, d, x ensures Joined(t.edges, u, d, x) <==> Recorded(t.list, u, d, x) {
      LinkingAgreesAt(s, t, us, c, ws, u, d, x);
    }
  }

  lemma LinkingAgreesAt(s: Index, t: Index, us: set<Name>, c: Name, ws: set<Name>, u: Name, d: Name, x: Name)
    requires Agrees(s) && Distinct(t.edges)
    requires t.list == Linked(s.list, us, c, ws)
    requires forall u, d, x :: Joined(t.edges, u, d, x) <==> Joined(s.edges, u, d, x) || (u in us && d == c && x in ws)
    ensures Joined(t.edges, u, d, x) <==> Recorded(t.list, u, d, x)
  {
    if u in us && d == c && x in ws {
      LinkedRecords(s.list, us, c, ws, u, d, x);
    } else if u in us && exists w :: w in ws && EdgeKey(c, w) == EdgeKey(d, x) {
      var w :| w in ws && EdgeKey(c, w) == EdgeKey(d, x);
      assert Joined(t.edges, u, c, w);
      assert Out(t.list, u)[EdgeKey(c, w)] == w;
      if w == x { SameNodeKeys(c, d, w); }
    } else {
      LinkedKeepsOthers(s.list, us, c, ws, u, d, x);
    }
  }

  /** Unlinking removes exactly the pairs us x ws on c. */
  lemma UnlinkingAgrees(s: Index, t: Index, us: set<Name>, c: Name, ws: set<Name>)
    requires Agrees(s)
    requires forall u, w :: u in us && w in ws ==> Joined(s.edges, u, c, w)
    requires t.list == Unlinked(s.list, us, c, ws)
    requires forall u, d, x :: Joined(t.edges, u, d, x) <==> Joined(s.edges, u, d, x) && !(u in us && d == c && x in ws)
    ensures Agrees(t)
  {
    forall u, k | k in Out(t.list, u) ensures IsKeyTo(k, Out(t.list, u)[k]) {
      assert k in Out(s.list, u);
    }
    forall u, d, x ensures Joined(t.edges, u, d, x) <==> Recorded(t.list, u, d, x) {
      UnlinkingAgreesAt(s, t, us, c, ws, u, d, x);
    }
  }

  lemma UnlinkingAgreesAt(s: Index, t: Index, us: set<Name>, c: Name, ws: set<Name>, u: Name, d: Name, x: Name)
    requires Agrees(s)
    requires forall u, w :: u in us && w in ws ==> Joined(s.edges, u, c, w)
    requires t.list == Unlinked(s.list, us, c, ws)
    requires forall u, d, x :: Joined(t.edges, u, d, x) <==> Joined(s.edges, u, d, x) && !(u in us && d == c && x in ws)
    ensures Joined(t.edges, u, d, x) <==> Recorded(t.list, u, d, x)
  {
    var k := EdgeKey(d, x);
    if u in us && k in Targets(c, ws) {
      var w := Targets(c, ws)[k];
      assert Joined(s.edges, u, c, w);
      assert Recorded(s.list, u, c, w);
      if Recorded(s.list, u, d, x) { SameNodeKeys(c, d, w); }
    } else {
      assert Recorded(t.list, u, d, x) <==> Recorded(s.list, u, d, x);
    }
  }

  /** An index that agrees has no two edges under one key. */
  lemma AgreesIsDistinct(s: Index)
    requires Agrees(s)
    ensures Distinct(s.edges)
  {
    forall u, c, w, d, x | Joined(s.edges, u, c, w) && Joined(s.edges, u, d, x) && EdgeKey(c, w) == EdgeKey(d, x)
      ensures c == d && w == x
    {
      assert Recorded(s.list, u, c, w) && Recorded(s.list, u, d, x);
      SameNodeKeys(c, d, w);
    }
  }

  lemma FewerEdgesDistinct(edges: map<Name, Related>, fewer: map<Name, Related>)
    requires Distinct(edges)
    requires forall u, c, w :: Joined(fewer, u, c, w) ==> Joined(edges, u, c, w)
    ensures Distinct(fewer)
  {
  }

  lemma WithSourceAgrees(s: Index, c: Name, u: Name)
    requires c in s.edges && Agrees(s) && Distinct(WithSource(s, c, u).edges)
    ensures Agrees(WithSource(s, c, u))
  {
    var t := WithSource(s, c, u);
    if t != s { LinkingAgrees(s, t, {u}, c, s.edges[c].dst); }
  }

  lemma WithTargetAgrees(s: Index, c: Name, w: Name)
    requires c in s.edges && Agrees(s) && Distinct(WithTarget(s, c, w).edges)
    ensures Agrees(WithTarget(s, c, w))
  {
    var t := WithTarget(s, c, w);
    if t != s { LinkingAgrees(s, t, s.edges[c].src, c, {w}); }
  }

  lemma WithoutSourceAgrees(s: Index, c: Name, u: Name)
    requires c in s.edges && Agrees(s)
    ensures Agrees(WithoutSource(s, c, u))
  {
    var t := WithoutSource(s, c, u);
    if t != s { UnlinkingAgrees(s, t, {u}, c, s.edges[c].dst); }
  }

  lemma WithoutTargetAgrees(s: Index, c: Name, w: Name)
    requires c in s.edges && Agrees(s)
    ensures Agrees(WithoutTarget(s, c, w))
  {
    var t := WithoutTarget(s, c, w);
    if t != s { UnlinkingAgrees(s, t, s.edges[c].src, c, {w}); }
  }

  lemma OpenedAgrees(s: Index, c: Name)
    requires Agrees(s)
    ensures Agrees(Opened(s, c))
  {
    var t := Opened(s, c);
    assert forall u, d, x :: Joined(t.edges, u, d, x) <==> Joined(s.edges, u, d, x);
  }

  lemma InsertAgrees(s: Index, e: Edge)
    requires Agrees(s) && Distinct(Inserted(s, e).edges)
    ensures Agrees(Inserted(s, e))
  {
    if e.IsValid() {
      var s0 := Opened(s, e.value);
      OpenedAgrees(s, e.value);
      var s1 := if e.src == "" then s0 else WithSource(s0, e.value, e.src);
      var s2 := if e.dst == "" then s1 else WithTarget(s1, e.value, e.dst);
      assert s2 == Inserted(s, e);
      FewerEdgesDistinct(s2.edges, s1.edges);
      if e.src != "" { WithSourceAgrees(s0, e.value, e.src); }
      if e.dst != "" { WithTargetAgrees(s1, e.value, e.dst); }
    }
  }

  lemma DeleteAgrees(s: Index, e: Edge)
    requires Agrees(s)
    ensures Agrees(Deleted(s, e))
  {
    if e.IsValid() && e.value in s.edges {
      var s1 := if e.src == "" then s else WithoutSource(s, e.value, e.src);
      if e.src != "" { WithoutSourceAgrees(s, e.value, e.src); }
      if e.dst != "" { WithoutTargetAgrees(s1, e.value, e.dst); }
    }
  }

  /** One change keeps the list equal to the join exactly when it leaves no two edges of one
      writer under one key; a leave always does. */
  lemma ChangeAgreesExactlyWhenDistinct(s: Index, change: Change)
    requires Agrees(s)
    ensures Agrees(Apply(s, change)) <==> Distinct(Apply(s, change).edges)
    ensures change.Leave? ==> Agrees(Apply(s, change))
  {
    var t := Apply(s, change);
    if Agrees(t) { AgreesIsDistinct(t); }
    match change
    case Join(e) => if Distinct(t.edges) { InsertAgrees(s, e); }
    case Leave(e) => DeleteAgrees(s, e); AgreesIsDistinct(t);
  }

  ghost predicate AlwaysDistinct(changes: seq<Change>) {
    forall i :: 0 <= i <= |changes| ==> Distinct(Play(changes[..i]).edges)
  }

  ghost predicate AlwaysAgrees(changes: seq<Change>) {
    forall i :: 0 <= i <= |changes| ==> Agrees(Play(changes[..i]))
  }

  /** The list is the join all along a history exactly when no writer ever has two edges under one key. */
  lemma HistoryAgreesExactlyWhenDistinct(changes: seq<Change>)
    ensures AlwaysAgrees(changes) <==> AlwaysDistinct(changes)
    decreases |changes|
  {
    if AlwaysAgrees(changes) {
      forall i | 0 <= i <= |changes| ensures Distinct(Play(changes[..i]).edges) {
        AgreesIsDistinct(Play(changes[..i]));
      }
    }
    if AlwaysDistinct(changes) { DistinctHistoryAgrees(changes); }
  }

  lemma {:induction false} DistinctHistoryAgrees(changes: seq<Change>)
    requires AlwaysDistinct(changes)
    ensures AlwaysAgrees(changes)
    decreases |changes|
  {
    var n := |changes|;
    assert changes[..n] == changes;
    if n == 0 {
      assert Agrees(Play(changes));
    } else {
      var before := changes[..n - 1];
      assert forall i :: 0 <= i <= n - 1 ==> before[..i] == changes[..i];
      DistinctHistoryAgrees(before);
      assert before[..n - 1] == before;
      ChangeAgreesExactlyWhenDistinct(Play(before), changes[n - 1]);
      forall i | 0 <= i <= n ensures Agrees(Play(changes[..i])) {
        if i < n { assert before[..i] == changes[..i]; }
      }
    }
  }

  // ---- what the edges mean: the last word of each node counts ----

  /** u's last announcement as a writer of c was a join. */
  predicate Writes(changes: seq<Change>, c: Name, u: Name)
    decreases |changes|
  {
    if |changes| == 0 then false
    else
      var last := changes[|changes| - 1];
      if last.e.IsValid() && last.e.value == c && last.e.src == u then last.Join?
      else Writes(changes[..|changes| - 1], c, u)
  }

  predicate Reads(changes: seq<Change>, c: Name, w: Name)
    decreases |changes|
  {
    if |changes| == 0 then false
    else
      var last := changes[|changes| - 1];
      if last.e.IsValid() && last.e.value == c && last.e.dst == w then last.Join?
      else Reads(changes[..|changes| - 1], c, w)
  }

  ghost predicate IsSource(edges: map<Name, Related>, c: Name, u: Name) { c in edges && u in edges[c].src }
  ghost predicate IsTarget(edges: map<Name, Related>, c: Name, w: Name) { c in edges && w in edges[c].dst }

  lemma {:induction false} EdgesAreLastWords(changes: seq<Change>, c: Name, v: Name)
    requires v != ""
    ensures IsSource(Play(changes).edges, c, v) <==> Writes(changes, c, v)
    ensures IsTarget(Play(changes).edges, c, v) <==> Reads(changes, c, v)
    decreases |changes|
  {
    if |changes| > 0 {
      EdgesAreLastWords(changes[..|changes| - 1], c, v);
    }
  }

  lemma {:induction false} NoDummyEnds(changes: seq<Change>, c: Name)
    ensures !IsSource(Play(changes).edges, c, "") && !IsTarget(Play(changes).edges, c, "")
    decreases |changes|
  {
    if |changes| > 0 { NoDummyEnds(changes[..|changes| - 1], c); }
  }

  predicate NoUnderscore(changes: seq<Change>) {
    forall i :: 0 <= i < |changes| ==> '_' !in changes[i].e.dst
  }

  lemma {:induction false} ReadersAreNamed(changes: seq<Change>, c: Name, w: Name)
    requires NoUnderscore(changes) && Reads(changes, c, w)
    ensures '_' !in w
    decreases |changes|
  {
    if |changes| > 0 {
      var last := changes[|changes| - 1];
      if !(last.e.IsValid() && last.e.value == c && last.e.dst == w) {
        ReadersAreNamed(changes[..|changes| - 1], c, w);
      }
    }
  }

  lemma UnderscoreFreeIsDistinct(changes: seq<Change>)
    requires NoUnderscore(changes)
    ensures AlwaysDistinct(changes)
  {
    forall i | 0 <= i <= |changes| ensures Distinct(Play(changes[..i]).edges) {
      var edges := Play(changes[..i]).edges;
      forall u, c, w, d, x | Joined(edges, u, c, w) && Joined(edges, u, d, x) && EdgeKey(c, w) == EdgeKey(d, x)
        ensures c == d && w == x
      {
        NoDummyEnds(changes[..i], c);
        NoDummyEnds(changes[..i], d);
        EdgesAreLastWords(changes[..i], c, w);
        EdgesAreLastWords(changes[..i], d, x);
        ReadersAreNamed(changes[..i], c, w);
        ReadersAreNamed(changes[..i], d, x);
        KeysWithoutUnderscore(c, w, d, x);
      }
    }
  }

  /** While node names hold no '_', the list has the edge u -c-> w exactly when the last word of u
      about writing c and the last word of w about reading c were joins, in whatever order they came. */
  lemma IndexIsTheJoin(changes: seq<Change>, u: Name, c: Name, w: Name)
    requires NoUnderscore(changes) && u != "" && w != ""
    ensures Recorded(Play(changes).list, u, c, w) <==> Writes(changes, c, u) && Reads(changes, c, w)
  {
    UnderscoreFreeIsDistinct(changes);
    DistinctHistoryAgrees(changes);
    assert changes[..|changes|] == changes;
    EdgesAreLastWords(changes, c, u);
    EdgesAreLastWords(changes, c, w);
  }

  /** Two indexes that agree with the same edges hold the same entries. */
  lemma SameEdgesSameEntries(s: Index, t: Index, u: Name)
    requires Agrees(s) && Agrees(t) && s.edges == t.edges
    ensures Out(s.list, u) == Out(t.list, u)
  {
    SameEdgesEntriesIn(s, t, u);
    SameEdgesEntriesIn(t, s, u);
  }

  lemma SameEdgesEntriesIn(s: Index, t: Index, u: Name)
    requires Agrees(s) && Agrees(t) && s.edges == t.edges
    ensures forall k :: k in Out(s.list, u) ==> k in Out(t.list, u) && Out(s.list, u)[k] == Out(t.list, u)[k]
  {
    forall k | k in Out(s.list, u) ensures k in Out(t.list, u) && Out(s.list, u)[k] == Out(t.list, u)[k] {
      var w := Out(s.list, u)[k];
      assert IsKeyTo(k, w);
      var c :| k == EdgeKey(c, w);
      assert Recorded(s.list, u, c, w);
      assert Joined(t.edges, u, c, w);
      assert Recorded(t.list, u, c, w);
    }
  }

  /** Channel "a" read by "b_c" and channel "a_b" read by "c" share the key "a_b_c": once one
      node writes both channels, the list is no longer the join. */
  lemma CollidingNamesLoseAnEdge(changes: seq<Change>)
    requires changes == [Join(Edge("w", "", "a")), Join(Edge("w", "", "a_b")),
                         Join(Edge("", "b_c", "a")), Join(Edge("", "c", "a_b"))]
    ensures !Agrees(Play(changes))
  {
    EdgesAreLastWords(changes, "a", "w");
    EdgesAreLastWords(changes, "a_b", "w");
    EdgesAreLastWords(changes, "a", "b_c");
    EdgesAreLastWords(changes, "a_b", "c");
    var edges := Play(changes).edges;
    var two := [Join(Edge("w", "", "a")), Join(Edge("w", "", "a_b"))];
    var three := two + [Join(Edge("", "b_c", "a"))];
    assert changes[..3] == three && three[..2] == two && two[..1] == [Join(Edge("w", "", "a"))];
    assert Writes(two[..1], "a", "w") && Writes(two, "a", "w") && Writes(two, "a_b", "w");
    assert Writes(three, "a", "w") && Writes(three, "a_b", "w") && Reads(three, "a", "b_c");
    assert Joined(edges, "w", "a", "b_c") && Joined(edges, "w", "a_b", "c");
    assert EdgeKey("a", "b_c") == EdgeKey("a_b", "c");
    assert !Distinct(edges);
    if Agrees(Play(changes)) { AgreesIsDistinct(Play(changes)); }
  }

  // ---- counting ----

  ghost function Total<K>(m: map<K, nat>): nat
    decreases |m|
  {
    if |m| == 0 then 0
    else
      m[Pick(m)] + Total(m - {Pick(m)})
  }

  ghost function Pick<K, V>(m: map<K, V>): (k: K)
    requires |m| > 0
    ensures k in m
  {
    var k :| k in m;
    k
  }

  lemma {:induction false} TotalTakes<K>(m: map<K, nat>, k: K)
    requires k in m
    ensures Total(m) == m[k] + Total(m - {k})
    decreases |m|
  {
    var first := Pick(m);
    if first != k {
      var rest := m - {first};
      var others := m - {k};
      assert rest - {k} == others - {first};
      TotalTakes(rest, k);
      TotalTakes(others, first);
    }
  }

  ghost function Under<K(!new), V(!new)>(pairs: set<(K, V)>, k: K): set<(K, V)> {
    set p | p in pairs && p.0 == k
  }

  /** Counting pairs by their first component counts them all. */
  lemma {:induction false} CountByFirst<K(!new), V(!new)>(m: map<K, nat>, pairs: set<(K, V)>)
    requires forall p :: p in pairs ==> p.0 in m
    requires forall k :: k in m ==> m[k] == |Under(pairs, k)|
    ensures Total(m) == |pairs|
    decreases |m|
  {
    if |m| == 0 {
      assert pairs == {};
    } else {
      var k :| k in m;
      var rest := pairs - Under(pairs, k);
      forall j | j in m - {k} ensures (m - {k})[j] == |Under(rest, j)| {
        assert Under(rest, j) == Under(pairs, j);
      }
      CountByFirst(m - {k}, rest);
      TotalTakes(m, k);
      assert |rest| == |pairs| - |Under(pairs, k)|;
    }
  }

  lemma {:induction false} ImageSize<A(!new), B(!new)>(f: A -> B, from: set<A>, to: set<B>)
    requires forall a :: a in from ==> f(a) in to
    requires forall a, b :: a in from && b in from && f(a) == f(b) ==> a == b
    requires forall b :: b in to ==> exists a :: a in from && f(a) == b
    ensures |from| == |to|
    decreases |from|
  {
    if from == {} {
      assert to == {};
    } else {
      var a :| a in from;
      ImageSize(f, from - {a}, to - {f(a)});
    }
  }

  ghost function Product<A(!new), B(!new)>(xs: set<A>, ys: set<B>): set<(A, B)> {
    set x, y | x in xs && y in ys :: (x, y)
  }

  ghost function Row<A(!new), B(!new)>(a: A, ys: set<B>): set<(A, B)> { set y | y in ys :: (a, y) }

  lemma RowSize<A(!new), B(!new)>(a: A, ys: set<B>)
    ensures |Row(a, ys)| == |ys|
  {
    ImageSize((y: B) => (a, y), ys, Row(a, ys));
  }

  lemma MulSplits(n: int, m: int)
    ensures (n - 1) * m + m == n * m
  {
  }

  lemma {:induction false} ProductSize<A(!new), B(!new)>(xs: set<A>, ys: set<B>)
    ensures |Product(xs, ys)| == |xs| * |ys|
    decreases |xs|
  {
    var all := Product(xs, ys);
    if xs == {} {
      assert all == {};
    } else {
      var a :| a in xs;
      var row := Row(a, ys);
      var others := Product(xs - {a}, ys);
      RowSize(a, ys);
      ProductSize(xs - {a}, ys);
      MulSplits(|xs|, |ys|);
      assert all == row + others && row !! others;
    }
  }

  ghost function EntryCount(list: Adjacency): nat { Total(map u | u in list :: |list[u]|) }

  ghost function JoinCount(edges: map<Name, Related>): nat {
    Total(map c | c in edges :: |edges[c].src| * |edges[c].dst|)
  }

  ghost function Entries(list: Adjacency): set<(Name, string)> {
    set u, k | u in list && k in list[u] :: (u, k)
  }

  ghost function Joins(edges: map<Name, Related>): set<(Name, (Name, Name))> {
    set c, u, w | c in edges && u in edges[c].src && w in edges[c].dst :: (c, (u, w))
  }

  lemma EntriesCounted(list: Adjacency)
    ensures EntryCount(list) == |Entries(list)|
  {
    var m := map u | u in list :: |list[u]|;
    forall u | u in m ensures m[u] == |Under(Entries(list), u)| {
      assert |list[u].Keys| == |list[u]|;
      ImageSize(k => (u, k), list[u].Keys, Under(Entries(list), u));
    }
    CountByFirst(m, Entries(list));
  }

  lemma JoinsCounted(edges: map<Name, Related>)
    ensures JoinCount(edges) == |Joins(edges)|
  {
    var m := map c | c in edges :: |edges[c].src| * |edges[c].dst|;
    forall c | c in m ensures m[c] == |Under(Joins(edges), c)| {
      var pairs := Product(edges[c].src, edges[c].dst);
      ProductSize(edges[c].src, edges[c].dst);
      var f := (p: (Name, Name)) => (c, p);
      var mine := Under(Joins(edges), c);
      forall j | j in mine ensures exists p :: p in pairs && f(p) == j { assert j.1 in pairs && f(j.1) == j; }
      assert forall p :: p in pairs ==> f(p) in mine;
      ImageSize(f, pairs, mine);
      assert |pairs| == m[c];
    }
    CountByFirst(m, Joins(edges));
  }

  /** The number of entries is the number of writer-reader pairs, channel by channel. */
  lemma CountIsJoinSize(s: Index)
    requires Agrees(s)
    ensures EntryCount(s.list) == JoinCount(s.edges)
  {
    EntriesCounted(s.list);
    JoinsCounted(s.edges);
    AgreesIsDistinct(s);
    var f := (j: (Name, (Name, Name))) => (j.1.0, EdgeKey(j.0, j.1.1));
    forall j | j in Joins(s.edges) ensures f(j) in Entries(s.list) {
      assert Recorded(s.list, j.1.0, j.0, j.1.1);
    }
    forall j, i | j in Joins(s.edges) && i in Joins(s.edges) && f(j) == f(i) ensures j == i {
      assert Joined(s.edges, j.1.0, j.0, j.1.1) && Joined(s.edges, i.1.0, i.0, i.1.1);
    }
    forall x | x in Entries(s.list) ensures exists j :: j in Joins(s.edges) && f(j) == x {
      var w := Out(s.list, x.0)[x.1];
      assert IsKeyTo(x.1, w);
      var c :| x.1 == EdgeKey(c, w);
      assert Recorded(s.list, x.0, c, w) && Joined(s.edges, x.0, c, w);
      assert f((c, (x.0, w))) == x;
    }
    ImageSize(f, Joins(s.edges), Entries(s.list));
  }

  /** Along every history without clashing keys the entries number writers times readers, summed over channels. */
  lemma CountAlongHistory(changes: seq<Change>)
    requires AlwaysDistinct(changes)
    ensures EntryCount(Play(changes).list) == JoinCount(Play(changes).edges)
  {
    DistinctHistoryAgrees(changes);
    assert changes[..|changes|] == changes;
    CountIsJoinSize(Play(changes));
  }

  // ---- paths ----

  ghost predicate Leads(list: Adjacency, u: Name, w: Name) { w in Out(list, u).Values }

  ghost predicate IsPath(list: Adjacency, p: seq<Name>) {
    |p| > 0 && forall i :: 0 < i < |p| ==> Leads(list, p[i - 1], p[i])
  }

  /** The reflexive-transitive closure of Leads. */
  ghost predicate Reaches(list: Adjacency, a: Name, b: Name) {
    exists p :: IsPath(list, p) && p[0] == a && p[|p| - 1] == b
  }

  lemma ReachesItself(list: Adjacency, a: Name)
    ensures Reaches(list, a, a)
  {
    assert IsPath(list, [a]);
  }

  lemma ReachesFurther(list: Adjacency, a: Name, b: Name, c: Name)
    requires Reaches(list, a, b) && Leads(list, b, c)
    ensures Reaches(list, a, c)
  {
    var p :| IsPath(list, p) && p[0] == a && p[|p| - 1] == b;
    assert IsPath(list, p + [c]);
  }

  /** A set closed under Leads that holds the start holds all it reaches. */
  lemma {:induction false} ClosedSetHoldsPath(list: Adjacency, seen: set<Name>, p: seq<Name>)
    requires IsPath(list, p) && p[0] in seen
    requires forall u, w :: u in seen && Leads(list, u, w) ==> w in seen
    ensures p[|p| - 1] in seen
    decreases |p|
  {
    if |p| > 1 {
      ClosedSetHoldsPath(list, seen, p[..|p| - 1]);
    }
  }

  lemma ClosedSetHoldsReachable(list: Adjacency, seen: set<Name>, a: Name, b: Name)
    requires a in seen
    requires forall u, w :: u in seen && Leads(list, u, w) ==> w in seen
    ensures Reaches(list, a, b) ==> b in seen
  {
    if Reaches(list, a, b) {
      var p :| IsPath(list, p) && p[0] == a && p[|p| - 1] == b;
      ClosedSetHoldsPath(list, seen, p);
    }
  }

  ghost predicate Feeds(edges: map<Name, Related>, u: Name, w: Name) {
    exists c :: Joined(edges, u, c, w)
  }

  /** One hop in the list is one channel that u writes and w reads. */
  lemma HopsAreChannels(s: Index, u: Name, w: Name)
    requires Agrees(s)
    ensures Leads(s.list, u, w) <==> Feeds(s.edges, u, w)
  {
    if Leads(s.list, u, w) {
      var k :| k in Out(s.list, u) && Out(s.list, u)[k] == w;
      assert IsKeyTo(k, w);
      var c :| k == EdgeKey(c, w);
      assert Recorded(s.list, u, c, w);
      assert Joined(s.edges, u, c, w);
    }
    if Feeds(s.edges, u, w) {
      var c :| Joined(s.edges, u, c, w);
      assert Recorded(s.list, u, c, w);
    }
  }

  // ---- keys of the list are never lost, and edges lead to known vertices ----

  lemma LinkedClosed(list: Adjacency, us: set<Name>, c: Name, ws: set<Name>)
    requires Closed(list)
    ensures Closed(Linked(list, us, c, ws))
  {
    var l := Linked(list, us, c, ws);
    forall u, k | k in Out(l, u) ensures Out(l, u)[k] in l {
      if u in us && k in Targets(c, ws) {
      } else {
        assert k in Out(list, u);
      }
    }
  }

  lemma UnlinkedClosed(list: Adjacency, us: set<Name>, c: Name, ws: set<Name>)
    requires Closed(list)
    ensures Closed(Unlinked(list, us, c, ws))
  {
    var l := Unlinked(list, us, c, ws);
    forall u, k | k in Out(l, u) ensures Out(l, u)[k] in l {
      assert k in Out(list, u);
    }
  }

  lemma ChangeClosed(s: Index, change: Change)
    requires Closed(s.list)
    ensures Closed(Apply(s, change).list)
    ensures s.list.Keys <= Apply(s, change).list.Keys
  {
    var e := change.e;
    if e.IsValid() && (change.Join? || e.value in s.edges) {
      match change
      case Join(_) =>
        var s0 := Opened(s, e.value);
        var s1 := if e.src == "" then s0 else WithSource(s0, e.value, e.src);
        LinkedClosed(s0.list, {e.src}, e.value, s0.edges[e.value].dst);
        LinkedClosed(s1.list, s1.edges[e.value].src, e.value, {e.dst});
      case Leave(_) =>
        var s1 := if e.src == "" then s else WithoutSource(s, e.value, e.src);
        UnlinkedClosed(s.list, {e.src}, e.value, s.edges[e.value].dst);
        UnlinkedClosed(s1.list, s1.edges[e.value].src, e.value, {e.dst});
    }
  }
}
