/** The difference of two JSON values as a JSON Patch, and what applying it does. */
module JsonDiff {
  import opened JsonText
  import opened Json

  // ---- what the patch of s and t makes of s ----

  /** t, except that numbers the library holds for equal are left as they are in s. */
  function Merged(s: Json, t: Json): Json
    decreases t
  {
    if Same(s, t) then s
    else if s.Arr? && t.Arr? then
      Arr(seq(|t.items|, i requires 0 <= i < |t.items| =>
        if i < |s.items| then Merged(s.items[i], t.items[i]) else t.items[i]))
    else if s.Obj? && t.Obj? then
      Obj(map k | k in t.members :: if k in s.members then Merged(s.members[k], t.members[k]) else t.members[k])
    else t
  }

  /** The result equals the target in the library's sense. */
  lemma {:induction false} MergedIsSame(s: Json, t: Json)
    ensures Same(Merged(s, t), t)
    decreases t
  {
    SameReflexive(t);
    if !Same(s, t) {
      if s.Arr? && t.Arr? {
        forall i | 0 <= i < |t.items| ensures Same(Merged(s, t).items[i], t.items[i]) {
          if i < |s.items| { MergedIsSame(s.items[i], t.items[i]); } else { SameReflexive(t.items[i]); }
        }
      } else if s.Obj? && t.Obj? {
        forall k | k in t.members ensures Same(Merged(s, t).members[k], t.members[k]) {
          if k in s.members { MergedIsSame(s.members[k], t.members[k]); } else { SameReflexive(t.members[k]); }
        }
      }
    }
  }

  lemma {:induction false} ClearGivesTarget(s: Json, t: Json)
    requires Clear(s, t)
    ensures Merged(s, t) == t
    decreases t
  {
    SameIsEqual(s, t);
    if !Same(s, t) {
      if s.Arr? && t.Arr? {
        forall i | 0 <= i < |t.items| ensures Merged(s, t).items[i] == t.items[i] {
          if i < |s.items| { ClearGivesTarget(s.items[i], t.items[i]); }
        }
      } else if s.Obj? && t.Obj? {
        forall k | k in t.members ensures Merged(s, t).members[k] == t.members[k] {
          if k in s.members { ClearGivesTarget(s.members[k], t.members[k]); }
        }
        assert Merged(s, t).members == t.members;
      }
    }
  }

  lemma {:induction false} TargetNeedsClear(s: Json, t: Json)
    requires Merged(s, t) == t
    ensures Clear(s, t)
    decreases t
  {
    if Same(s, t) {
      ClearReflexive(t);
    } else if s.Arr? && t.Arr? {
      forall i | 0 <= i < |s.items| && i < |t.items| ensures Clear(s.items[i], t.items[i]) {
        assert Merged(s, t).items[i] == Merged(s.items[i], t.items[i]);
        TargetNeedsClear(s.items[i], t.items[i]);
      }
    } else if s.Obj? && t.Obj? {
      forall k | k in s.members && k in t.members ensures Clear(s.members[k], t.members[k]) {
        assert Merged(s, t).members[k] == Merged(s.members[k], t.members[k]);
        TargetNeedsClear(s.members[k], t.members[k]);
      }
    }
  }

  /** The result is the target itself exactly when no two numbers in the same place compare equal
      across signedness. */
  lemma MergedIsTargetExactlyWhenClear(s: Json, t: Json)
    ensures Merged(s, t) == t <==> Clear(s, t)
  {
    if Clear(s, t) { ClearGivesTarget(s, t); }
    if Merged(s, t) == t { TargetNeedsClear(s, t); }
  }

  /** -1 and 2^64 - 1 compare equal, so their difference is empty and the patch leaves -1. */
  lemma WrappedNumberIsKept()
    ensures Same(Integer(-1), Unsigned(MAX_UNSIGNED))
    ensures Merged(Integer(-1), Unsigned(MAX_UNSIGNED)) != Unsigned(MAX_UNSIGNED)
  {
  }

  // ---- the operations a difference is made of ----

  function ReplaceOp(path: string, value: Json): Json {
    Obj(map["op" := Str("replace"), "path" := Str(path), "value" := value])
  }

  function AddOp(path: string, value: Json): Json {
    Obj(map["op" := Str("add"), "path" := Str(path), "value" := value])
  }

  function RemoveOp(path: string): Json {
    Obj(map["op" := Str("remove"), "path" := Str(path)])
  }

  /** In every document that holds s at `at`, the operations put u there and change nothing else. */
  ghost predicate Effect(items: seq<Json>, at: seq<string>, s: Json, u: Json) {
    forall doc :: At(doc, at) == Ok(s) ==> ApplyAll(doc, items) == Done(Put(doc, at, u))
  }

  lemma NoEffect(at: seq<string>, s: Json)
    ensures Effect([], at, s, s)
  {
    forall doc | At(doc, at) == Ok(s) ensures ApplyAll(doc, []) == Done(Put(doc, at, s)) {
      AtOfPut(doc, at, s, s);
    }
  }

  lemma EffectsInTurn(first: seq<Json>, second: seq<Json>, at: seq<string>, s: Json, u: Json, v: Json)
    requires Effect(first, at, s, u) && Effect(second, at, u, v)
    ensures Effect(first + second, at, s, v)
  {
    forall doc | At(doc, at) == Ok(s) ensures ApplyAll(doc, first + second) == Done(Put(doc, at, v)) {
      ApplyInTurn(doc, first, second);
      AtOfPut(doc, at, u, v);
    }
  }

  /** What happens to a child happens to the parent around it. */
  lemma EffectAround(items: seq<Json>, at: seq<string>, token: string, s: Json, c: Json, d: Json)
    requires Child(s, token) == Ok(c) && Effect(items, at + [token], c, d)
    ensures Effect(items, at, s, WithChild(s, token, d))
  {
    forall doc | At(doc, at) == Ok(s) ensures ApplyAll(doc, items) == Done(Put(doc, at, WithChild(s, token, d))) {
      AtLonger(doc, at, token);
      PutLonger(doc, at, token, d);
    }
  }

  lemma OneItem(doc: Json, item: Json)
    ensures ApplyAll(doc, [item]) == ApplyItem(doc, item)
  {
    assert [item][1..] == [];
  }

  lemma AddOpApplied(doc: Json, ptr: seq<string>, v: Json)
    ensures ApplyItem(doc, AddOp(Join(ptr), v)) == Add(doc, ptr, v)
  {
    SplitOfJoin(ptr);
    assert PointerMember(AddOp(Join(ptr), v), "path") == Ok(ptr);
    assert Member(AddOp(Join(ptr), v), "value") == Ok(v);
  }

  lemma RemoveOpApplied(doc: Json, ptr: seq<string>)
    ensures ApplyItem(doc, RemoveOp(Join(ptr))) == Remove(doc, ptr)
  {
    SplitOfJoin(ptr);
    assert PointerMember(RemoveOp(Join(ptr)), "path") == Ok(ptr);
  }

  lemma ReplaceOpApplied(doc: Json, ptr: seq<string>, v: Json)
    ensures ApplyItem(doc, ReplaceOp(Join(ptr), v)) == Replace(doc, ptr, Ok(v))
  {
    SplitOfJoin(ptr);
    assert PointerMember(ReplaceOp(Join(ptr), v), "path") == Ok(ptr);
    assert Member(ReplaceOp(Join(ptr), v), "value") == Ok(v);
  }

  lemma ReplaceEffect(at: seq<string>, s: Json, t: Json)
    ensures Effect([ReplaceOp(Join(at), t)], at, s, t)
  {
    var item := ReplaceOp(Join(at), t);
    forall doc | At(doc, at) == Ok(s) ensures ApplyAll(doc, [item]) == Done(Put(doc, at, t)) {
      OneItem(doc, item);
      ReplaceOpApplied(doc, at, t);
    }
  }

  /** The first step towards a value that can be found can be taken. */
  lemma FirstStepFound(doc: Json, at: seq<string>)
    requires at != [] && At(doc, at).Ok?
    ensures At(doc, at[..1]).Ok?
  {
    assert at[..1][1..] == [];
  }

  lemma AddEffect(at: seq<string>, token: string, s: Json, v: Json, u: Json)
    requires AddedTo(s, token, v) == Ok(u)
    ensures Effect([AddOp(Join(at + [token]), v)], at, s, u)
  {
    var ptr := at + [token];
    var item := AddOp(Join(ptr), v);
    forall doc | At(doc, at) == Ok(s) ensures ApplyAll(doc, [item]) == Done(Put(doc, at, u)) {
      OneItem(doc, item);
      AddOpApplied(doc, ptr, v);
      assert Front(ptr) == at && Back(ptr) == token;
      if at != [] {
        FirstStepFound(doc, at);
        assert ptr[..1] == at[..1];
      }
    }
  }

  lemma RemoveEffect(at: seq<string>, token: string, s: Json, u: Json)
    requires RemovedFrom(s, token) == Ok(u)
    ensures Effect([RemoveOp(Join(at + [token]))], at, s, u)
  {
    var ptr := at + [token];
    var item := RemoveOp(Join(ptr));
    forall doc | At(doc, at) == Ok(s) ensures ApplyAll(doc, [item]) == Done(Put(doc, at, u)) {
      OneItem(doc, item);
      RemoveOpApplied(doc, ptr);
      assert Front(ptr) == at && Back(ptr) == token;
    }
  }

  lemma JoinLonger(at: seq<string>, token: string)
    ensures Join(at + [token]) == Join(at) + "/" + Escaped(token)
  {
    var all := at + [token];
    assert all[..|all| - 1] == at;
  }

  lemma {:induction false} NothingToEscape(s: string)
    requires '~' !in s && '/' !in s
    ensures Escaped(s) == s
    decreases |s|
  {
    if s != "" {
      assert s == [s[0]] + s[1..];
      EscapedStep(s[0], s[1..]);
      NothingToEscape(s[1..]);
    }
  }

  lemma IndexPath(at: seq<string>, n: nat)
    ensures Join(at + [Decimal(n)]) == Join(at) + "/" + Decimal(n)
  {
    JoinLonger(at, Decimal(n));
    DecimalRoundTrip(n);
    assert forall i :: 0 <= i < |Decimal(n)| ==> IsDigit(Decimal(n)[i]);
    NothingToEscape(Decimal(n));
  }

  lemma DashPath(at: seq<string>)
    ensures Join(at + ["-"]) == Join(at) + "/-"
  {
    JoinLonger(at, "-");
    NothingToEscape("-");
    assert Join(at) + "/" + "-" == Join(at) + "/-";
  }

  // ---- arrays ----

  /** The first n elements already turned towards the target. */
  function Begun(xs: seq<Json>, ts: seq<Json>, n: nat): seq<Json>
    requires n <= |xs| && n <= |ts|
  {
    seq(|xs|, i requires 0 <= i < |xs| => if i < n then Merged(xs[i], ts[i]) else xs[i])
  }

  lemma ElementEffect(items: seq<Json>, at: seq<string>, xs: seq<Json>, ts: seq<Json>, n: nat)
    requires n < |xs| && n < |ts| && |xs| <= MAX_SIZE
    requires Effect(items, at + [Decimal(n)], xs[n], Merged(xs[n], ts[n]))
    ensures Effect(items, at, Arr(Begun(xs, ts, n)), Arr(Begun(xs, ts, n + 1)))
  {
    IndexOfDecimal(n);
    var now := Arr(Begun(xs, ts, n));
    assert Child(now, Decimal(n)) == Ok(xs[n]);
    EffectAround(items, at, Decimal(n), now, xs[n], Merged(xs[n], ts[n]));
    assert Begun(xs, ts, n)[n := Merged(xs[n], ts[n])] == Begun(xs, ts, n + 1);
  }

  lemma RemoveLastEffect(at: seq<string>, xs: seq<Json>, n: nat)
    requires n < |xs| && |xs| <= MAX_SIZE
    ensures Effect([RemoveOp(Join(at + [Decimal(n)]))], at, Arr(xs[..n + 1]), Arr(xs[..n]))
  {
    IndexOfDecimal(n);
    assert RemoveAt(xs[..n + 1], n) == xs[..n];
    RemoveEffect(at, Decimal(n), Arr(xs[..n + 1]), Arr(xs[..n]));
  }

  lemma AppendEffect(at: seq<string>, xs: seq<Json>, v: Json)
    ensures Effect([AddOp(Join(at + ["-"]), v)], at, Arr(xs), Arr(xs + [v]))
  {
    AddEffect(at, "-", Arr(xs), v, Arr(xs + [v]));
  }

  // ---- objects ----

  /** The keys in `seen` already turned towards the target or removed. */
  function Swept(m: map<string, Json>, t: map<string, Json>, seen: set<string>): map<string, Json> {
    map k | k in m && (k in seen ==> k in t) :: if k in seen then Merged(m[k], t[k]) else m[k]
  }

  /** All of m swept, and the keys in `added` taken from the target. */
  function Grown(m: map<string, Json>, t: map<string, Json>, added: set<string>): map<string, Json> {
    map k | k in t && (k in m || k in added) :: if k in m then Merged(m[k], t[k]) else t[k]
  }

  lemma KeyEffect(items: seq<Json>, at: seq<string>, m: map<string, Json>, t: map<string, Json>,
                  seen: set<string>, k: string)
    requires k in m && k in t && k !in seen
    requires Effect(items, at + [k], m[k], Merged(m[k], t[k]))
    ensures Effect(items, at, Obj(Swept(m, t, seen)), Obj(Swept(m, t, seen + {k})))
  {
    EffectAround(items, at, k, Obj(Swept(m, t, seen)), m[k], Merged(m[k], t[k]));
    assert Swept(m, t, seen)[k := Merged(m[k], t[k])] == Swept(m, t, seen + {k});
  }

  lemma RemoveKeyEffect(at: seq<string>, m: map<string, Json>, t: map<string, Json>, seen: set<string>, k: string)
    requires k in m && k !in t && k !in seen
    ensures Effect([RemoveOp(Join(at + [k]))], at, Obj(Swept(m, t, seen)), Obj(Swept(m, t, seen + {k})))
  {
    assert Swept(m, t, seen) - {k} == Swept(m, t, seen + {k});
    RemoveEffect(at, k, Obj(Swept(m, t, seen)), Obj(Swept(m, t, seen + {k})));
  }

  lemma AddKeyEffect(at: seq<string>, m: map<string, Json>, t: map<string, Json>, added: set<string>, k: string)
    requires k in t && k !in m
    ensures Effect([AddOp(Join(at + [k]), t[k])], at, Obj(Grown(m, t, added)), Obj(Grown(m, t, added + {k})))
  {
    assert Grown(m, t, added)[k := t[k]] == Grown(m, t, added + {k});
    AddEffect(at, k, Obj(Grown(m, t, added)), t[k], Obj(Grown(m, t, added + {k})));
  }

  lemma NothingSwept(m: map<string, Json>, t: map<string, Json>)
    ensures Swept(m, t, {}) == m
  {
  }

  lemma AllSwept(m: map<string, Json>, t: map<string, Json>)
    ensures Swept(m, t, m.Keys) == Grown(m, t, {})
  {
  }

  lemma AllGrown(m: map<string, Json>, t: map<string, Json>)
    requires !Same(Obj(m), Obj(t))
    ensures Obj(Grown(m, t, t.Keys)) == Merged(Obj(m), Obj(t))
  {
    assert Grown(m, t, t.Keys) == Merged(Obj(m), Obj(t)).members;
  }

  // ---- the difference ----

  /** The loop over the elements both arrays have. */
  method DiffElements(xs: seq<Json>, ts: seq<Json>, path: string, ghost at: seq<string>)
    returns (items: seq<Json>, n: nat)
    requires Fits(Arr(xs)) && path == Join(at)
    ensures n == if |xs| < |ts| then |xs| else |ts|
    ensures Effect(items, at, Arr(xs), Arr(Begun(xs, ts, n)))
    decreases Arr(xs), 0
  {
    items, n := [], 0;
    assert Begun(xs, ts, 0) == xs;
    NoEffect(at, Arr(xs));
    while n < |xs| && n < |ts|
      invariant n <= |xs| && n <= |ts|
      invariant Effect(items, at, Arr(xs), Arr(Begun(xs, ts, n)))
    {
      IndexPath(at, n);
      var patch := Diff(xs[n], ts[n], path + "/" + Decimal(n), at + [Decimal(n)]);
      ElementEffect(patch.items, at, xs, ts, n);
      EffectsInTurn(items, patch.items, at, Arr(xs), Arr(Begun(xs, ts, n)), Arr(Begun(xs, ts, n + 1)));
      items := items + patch.items;
      n := n + 1;
    }
  }

  /** Removals of what the target does not have, last element first. */
  method RemoveRest(size: nat, from: nat, path: string, ghost at: seq<string>, ghost xs: seq<Json>)
    returns (removals: seq<Json>)
    requires from <= size == |xs| <= MAX_SIZE && path == Join(at)
    ensures Effect(removals, at, Arr(xs), Arr(xs[..from]))
  {
    removals := [];
    var i := from;
    NoEffect(at, Arr(xs[..from]));
    while i < size
      invariant from <= i <= size
      invariant Effect(removals, at, Arr(xs[..i]), Arr(xs[..from]))
    {
      IndexPath(at, i);
      RemoveLastEffect(at, xs, i);
      var op := RemoveOp(path + "/" + Decimal(i));
      EffectsInTurn([op], removals, at, Arr(xs[..i + 1]), Arr(xs[..i]), Arr(xs[..from]));
      removals := [op] + removals;
      i := i + 1;
    }
    assert xs[..|xs|] == xs;
  }

  lemma AppendOneMore(additions: seq<Json>, op: Json, at: seq<string>, xs: seq<Json>, ts: seq<Json>, from: nat, i: nat)
    requires from <= i < |ts| && op == AddOp(Join(at + ["-"]), ts[i])
    requires Effect(additions, at, Arr(xs), Arr(xs + ts[from..i]))
    ensures Effect(additions + [op], at, Arr(xs), Arr(xs + ts[from..i + 1]))
  {
    AppendEffect(at, xs + ts[from..i], ts[i]);
    assert xs + ts[from..i] + [ts[i]] == xs + ts[from..i + 1];
    EffectsInTurn(additions, [op], at, Arr(xs), Arr(xs + ts[from..i]), Arr(xs + ts[from..i + 1]));
  }

  method AppendRest(ts: seq<Json>, from: nat, path: string, ghost at: seq<string>, ghost xs: seq<Json>)
    returns (additions: seq<Json>)
    requires from <= |ts| && path == Join(at)
    ensures Effect(additions, at, Arr(xs), Arr(xs + ts[from..]))
  {
    additions := [];
    var i := from;
    assert xs + ts[from..from] == xs;
    NoEffect(at, Arr(xs));
    while i < |ts|
      invariant from <= i <= |ts|
      invariant Effect(additions, at, Arr(xs), Arr(xs + ts[from..i]))
    {
      DashPath(at);
      var op := AddOp(path + "/-", ts[i]);
      AppendOneMore(additions, op, at, xs, ts, from, i);
      additions := additions + [op];
      i := i + 1;
    }
    assert ts[from..|ts|] == ts[from..];
  }

  /** The loop over the source's keys, in any order. */
  method DiffMembers(m: map<string, Json>, t: map<string, Json>, path: string, ghost at: seq<string>)
    returns (items: seq<Json>)
    requires Fits(Obj(m)) && path == Join(at)
    ensures Effect(items, at, Obj(m), Obj(Grown(m, t, {})))
    decreases Obj(m), 0
  {
    items := [];
    var left := m.Keys;
    ghost var seen: set<string> := {};
    NothingSwept(m, t);
    NoEffect(at, Obj(m));
    while left != {}
      invariant seen + left == m.Keys && seen !! left
      invariant Effect(items, at, Obj(m), Obj(Swept(m, t, seen)))
      decreases |left|
    {
      var k :| k in left;
      var e := Escape(k);
      JoinLonger(at, k);
      if k in t {
        var patch := Diff(m[k], t[k], path + "/" + e, at + [k]);
        KeyEffect(patch.items, at, m, t, seen, k);
        EffectsInTurn(items, patch.items, at, Obj(m), Obj(Swept(m, t, seen)), Obj(Swept(m, t, seen + {k})));
        items := items + patch.items;
      } else {
        var op := RemoveOp(path + "/" + e);
        RemoveKeyEffect(at, m, t, seen, k);
        EffectsInTurn(items, [op], at, Obj(m), Obj(Swept(m, t, seen)), Obj(Swept(m, t, seen + {k})));
        items := items + [op];
      }
      left := left - {k};
      seen := seen + {k};
    }
    assert seen == m.Keys;
    AllSwept(m, t);
  }

  /** The loop over the target's keys, in any order. */
  method AddMembers(m: map<string, Json>, t: map<string, Json>, path: string, ghost at: seq<string>)
    returns (items: seq<Json>)
    requires path == Join(at)
    ensures Effect(items, at, Obj(Grown(m, t, {})), Obj(Grown(m, t, t.Keys)))
  {
    items := [];
    var left := t.Keys;
    ghost var added: set<string> := {};
    NoEffect(at, Obj(Grown(m, t, {})));
    while left != {}
      invariant added + left == t.Keys && added !! left
      invariant Effect(items, at, Obj(Grown(m, t, {})), Obj(Grown(m, t, added)))
      decreases |left|
    {
      var k :| k in left;
      if k !in m {
        var e := Escape(k);
        JoinLonger(at, k);
        var op := AddOp(path + "/" + e, t[k]);
        AddKeyEffect(at, m, t, added, k);
        EffectsInTurn(items, [op], at, Obj(Grown(m, t, {})), Obj(Grown(m, t, added)), Obj(Grown(m, t, added + {k})));
        items := items + [op];
      } else {
        assert Grown(m, t, added) == Grown(m, t, added + {k});
      }
      left := left - {k};
      added := added + {k};
    }
    assert added == t.Keys;
  }

  /** The patch from source to target, for a source that sits at `path` in a larger document:
      applied to any such document, it replaces just the source, by the target. It is empty
      exactly when the two compare equal. */
  method Diff(source: Json, target: Json, path: string, ghost at: seq<string>) returns (patch: Json)
    requires Fits(source) && path == Join(at)
    ensures patch.Arr? && Effect(patch.items, at, source, Merged(source, target))
    ensures patch.items == [] <==> Same(source, target)
    decreases source, 1
  {
    if Same(source, target) {
      NoEffect(at, source);
      return Arr([]);
    }
    var items: seq<Json>;
    if !SameType(source, target) {
      items := [ReplaceOp(path, target)];
      ReplaceEffect(at, source, target);
      return Arr(items);
    }
    match source {
      case Arr(xs) =>
        var ts := target.items;
        var n: nat;
        items, n := DiffElements(xs, ts, path, at);
        ghost var now := Begun(xs, ts, n);
        var removals := RemoveRest(|xs|, n, path, at, now);
        EffectsInTurn(items, removals, at, source, Arr(now), Arr(now[..n]));
        items := items + removals;
        var additions := AppendRest(ts, n, path, at, now[..n]);
        EffectsInTurn(items, additions, at, source, Arr(now[..n]), Arr(now[..n] + ts[n..]));
        items := items + additions;
        assert now[..n] + ts[n..] == Merged(source, target).items;
      case Obj(m) =>
        var t := target.members;
        items := DiffMembers(m, t, path, at);
        var more := AddMembers(m, t, path, at);
        EffectsInTurn(items, more, at, source, Obj(Grown(m, t, {})), Obj(Grown(m, t, t.Keys)));
        items := items + more;
        AllGrown(m, t);
      case _ =>
        items := [ReplaceOp(path, target)];
        ReplaceEffect(at, source, target);
    }
    EmptyMeansSame(items, at, source, target);
    patch := Arr(items);
  }

  /** A patch that turns source into target cannot be empty unless they compare equal. */
  lemma EmptyMeansSame(items: seq<Json>, at: seq<string>, source: Json, target: Json)
    requires Effect(items, at, source, Merged(source, target)) && !Same(source, target)
    ensures items != []
  {
    var doc := Nested(at, source);
    AtOfPut(doc, at, Merged(source, target), source);
    MergedIsSame(source, target);
  }

  /** A document that holds s at the end of the path, and nothing else. */
  ghost function Nested(at: seq<string>, s: Json): (doc: Json)
    ensures At(doc, at) == Ok(s)
    decreases |at|
  {
    if at == [] then s else Obj(map[at[0] := Nested(at[1..], s)])
  }

  /** Patching the source with the difference gives the target. */
  method PatchWithDiff(source: Json, target: Json) returns (result: Json)
    requires Fits(source)
    ensures Same(result, target)
    ensures result == target <==> Clear(source, target)
  {
    var patch := Diff(source, target, "", []);
    var document := new Document(source);
    var patched := document.Patch(patch);
    assert At(source, []) == Ok(source);
    MergedIsSame(source, target);
    MergedIsTargetExactlyWhenClear(source, target);
    result := patched.value;
  }
}
