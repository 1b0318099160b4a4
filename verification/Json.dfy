/** JSON values, resolving pointers in them, and applying a JSON Patch operation by operation. */
module Json {
  import opened JsonText
  import opened Options

  const MAX_UNSIGNED: nat := 0xFFFF_FFFF_FFFF_FFFF
  const MAX_SIGNED: nat := 0x7FFF_FFFF_FFFF_FFFF

  type int64 = x: int | -(MAX_SIGNED + 1) <= x <= MAX_SIGNED
  type uint64 = x: nat | x <= MAX_UNSIGNED

  datatype Json =
    | Null
    | Boolean(b: bool)
    | Integer(i: int64)
    | Unsigned(u: uint64)
    | Str(s: string)
    | Arr(items: seq<Json>)
    | Obj(members: map<string, Json>)

  // Exception numbers besides those of the pointer text.
  const ASSERTION_FAILED: nat := 0
  const PATCH_NOT_OBJECTS: nat := 104
  const BAD_OPERATION: nat := 105
  const INDEX_OUT_OF_RANGE: nat := 401
  const DASH_OUT_OF_RANGE: nat := 402
  const KEY_NOT_FOUND: nat := 403
  const NO_PARENT: nat := 405
  const TEST_FAILED: nat := 501

  predicate SameType(a: Json, b: Json) {
    match a
    case Null => b.Null?
    case Boolean(_) => b.Boolean?
    case Integer(_) => b.Integer?
    case Unsigned(_) => b.Unsigned?
    case Str(_) => b.Str?
    case Arr(_) => b.Arr?
    case Obj(_) => b.Obj?
  }

  /** An unsigned number reinterpreted in two's complement. */
  function AsSigned(u: uint64): int64 {
    if u <= MAX_SIGNED then u else u - (MAX_UNSIGNED + 1)
  }

  /** Equality as the library compares: an unsigned number is cast before it is compared to a signed one. */
  predicate Same(a: Json, b: Json)
    decreases a
  {
    match a
    case Integer(i) => (b.Integer? && b.i == i) || (b.Unsigned? && AsSigned(b.u) == i)
    case Unsigned(u) => (b.Unsigned? && b.u == u) || (b.Integer? && AsSigned(u) == b.i)
    case Arr(xs) => b.Arr? && |xs| == |b.items| && forall i :: 0 <= i < |xs| ==> Same(xs[i], b.items[i])
    case Obj(m) => b.Obj? && m.Keys == b.members.Keys && forall k :: k in m ==> Same(m[k], b.members[k])
    case _ => a == b
  }

  lemma {:induction false} SameReflexive(a: Json)
    ensures Same(a, a)
    decreases a
  {
    match a
    case Arr(xs) => forall i | 0 <= i < |xs| ensures Same(xs[i], xs[i]) { SameReflexive(xs[i]); }
    case Obj(m) => forall k | k in m ensures Same(m[k], m[k]) { SameReflexive(m[k]); }
    case _ =>
  }

  /** Wherever both values have a number at the same place, the two do not compare equal across signedness. */
  predicate Clear(a: Json, b: Json)
    decreases a
  {
    match a
    case Integer(i) => b.Unsigned? ==> AsSigned(b.u) != i
    case Unsigned(u) => b.Integer? ==> AsSigned(u) != b.i
    case Arr(xs) => b.Arr? ==> forall i :: 0 <= i < |xs| && i < |b.items| ==> Clear(xs[i], b.items[i])
    case Obj(m) => b.Obj? ==> forall k :: k in m && k in b.members ==> Clear(m[k], b.members[k])
    case _ => true
  }

  lemma {:induction false} ClearReflexive(a: Json)
    ensures Clear(a, a)
    decreases a
  {
    match a
    case Arr(xs) => forall i | 0 <= i < |xs| ensures Clear(xs[i], xs[i]) { ClearReflexive(xs[i]); }
    case Obj(m) => forall k | k in m ensures Clear(m[k], m[k]) { ClearReflexive(m[k]); }
    case _ =>
  }

  /** Between such values the library's equality is equality. */
  lemma {:induction false} SameIsEqual(a: Json, b: Json)
    requires Clear(a, b)
    ensures Same(a, b) <==> a == b
    decreases a
  {
    SameReflexive(a);
    if Same(a, b) {
      match a
      case Arr(xs) =>
        forall i | 0 <= i < |xs| ensures xs[i] == b.items[i] { SameIsEqual(xs[i], b.items[i]); }
      case Obj(m) =>
        forall k | k in m ensures m[k] == b.members[k] { SameIsEqual(m[k], b.members[k]); }
        assert m == b.members;
      case _ =>
    }
  }

  /** Numbers as a parser makes them, below the sign bit: negative ones signed, the others unsigned. */
  predicate Plain(a: Json) {
    match a
    case Integer(i) => i < 0
    case Unsigned(u) => u <= MAX_SIGNED
    case Arr(xs) => forall i :: 0 <= i < |xs| ==> Plain(xs[i])
    case Obj(m) => forall k :: k in m ==> Plain(m[k])
    case _ => true
  }

  lemma {:induction false} PlainIsClear(a: Json, b: Json)
    requires Plain(a) && Plain(b)
    ensures Clear(a, b)
    decreases a
  {
    match a
    case Arr(xs) =>
      if b.Arr? {
        forall i | 0 <= i < |xs| && i < |b.items| ensures Clear(xs[i], b.items[i]) { PlainIsClear(xs[i], b.items[i]); }
      }
    case Obj(m) =>
      if b.Obj? {
        forall k | k in m && k in b.members ensures Clear(m[k], b.members[k]) { PlainIsClear(m[k], b.members[k]); }
      }
    case _ =>
  }

  /** Every array is short enough for its indices to be read back from a pointer. */
  predicate Fits(a: Json) {
    match a
    case Arr(xs) => |xs| <= MAX_SIZE && forall i :: 0 <= i < |xs| ==> Fits(xs[i])
    case Obj(m) => forall k :: k in m ==> Fits(m[k])
    case _ => true
  }

  // ---- resolving pointers ----

  function Child(j: Json, token: string): Result<Json> {
    match j
    case Obj(m) => if token in m then Ok(m[token]) else Err(KEY_NOT_FOUND)
    case Arr(xs) =>
      if token == "-" then Err(DASH_OUT_OF_RANGE)
      else (match ArrayIndex(token)
        case Err(e) => Err(e)
        case Ok(i) => if i < |xs| then Ok(xs[i]) else Err(INDEX_OUT_OF_RANGE))
    case _ => Err(UNRESOLVED)
  }

  function WithChild(j: Json, token: string, v: Json): Json
    requires Child(j, token).Ok?
  {
    match j
    case Obj(m) => Obj(m[token := v])
    case Arr(xs) => Arr(xs[ArrayIndex(token).value := v])
  }

  function At(j: Json, tokens: seq<string>): Result<Json>
    decreases |tokens|
  {
    if tokens == [] then Ok(j)
    else match Child(j, tokens[0])
      case Err(e) => Err(e)
      case Ok(c) => At(c, tokens[1..])
  }

  function Put(j: Json, tokens: seq<string>, v: Json): Json
    requires At(j, tokens).Ok?
    decreases |tokens|
  {
    if tokens == [] then v
    else WithChild(j, tokens[0], Put(Child(j, tokens[0]).value, tokens[1..], v))
  }

  lemma ChildOfWithChild(j: Json, token: string, v: Json, w: Json)
    requires Child(j, token).Ok?
    ensures Child(WithChild(j, token, v), token) == Ok(v)
    ensures WithChild(WithChild(j, token, v), token, w) == WithChild(j, token, w)
    ensures WithChild(j, token, Child(j, token).value) == j
  {
    match j
    case Obj(m) => assert m[token := v][token := w] == m[token := w] && m[token := m[token]] == m;
    case Arr(xs) =>
      var i := ArrayIndex(token).value;
      assert xs[i := v][i := w] == xs[i := w] && xs[i := xs[i]] == xs;
  }

  /** What was put is found; a second put hides the first; putting back what is there changes nothing. */
  lemma {:induction false} AtOfPut(j: Json, tokens: seq<string>, v: Json, w: Json)
    requires At(j, tokens).Ok?
    ensures At(Put(j, tokens, v), tokens) == Ok(v)
    ensures Put(Put(j, tokens, v), tokens, w) == Put(j, tokens, w)
    ensures Put(j, tokens, At(j, tokens).value) == j
    decreases |tokens|
  {
    if tokens != [] {
      var c := Child(j, tokens[0]).value;
      AtOfPut(c, tokens[1..], v, w);
      ChildOfWithChild(j, tokens[0], Put(c, tokens[1..], v), Put(c, tokens[1..], w));
    }
  }

  /** One more token is one more step down. */
  lemma {:induction false} AtLonger(j: Json, tokens: seq<string>, token: string)
    ensures At(j, tokens + [token]) == if At(j, tokens).Ok? then Child(At(j, tokens).value, token) else At(j, tokens)
    decreases |tokens|
  {
    var all := tokens + [token];
    if tokens == [] {
      assert all[1..] == [];
    } else {
      assert all[1..] == tokens[1..] + [token];
      if Child(j, tokens[0]).Ok? { AtLonger(Child(j, tokens[0]).value, tokens[1..], token); }
    }
  }

  lemma {:induction false} PutLonger(j: Json, tokens: seq<string>, token: string, v: Json)
    requires At(j, tokens).Ok? && Child(At(j, tokens).value, token).Ok?
    ensures At(j, tokens + [token]).Ok?
    ensures Put(j, tokens + [token], v) == Put(j, tokens, WithChild(At(j, tokens).value, token, v))
    decreases |tokens|
  {
    AtLonger(j, tokens, token);
    var all := tokens + [token];
    if tokens == [] {
      assert all[1..] == [];
    } else {
      assert all[1..] == tokens[1..] + [token];
      PutLonger(Child(j, tokens[0]).value, tokens[1..], token, v);
    }
  }

  // ---- the operations ----

  /** The document after an operation, and the exception if it threw. */
  datatype Outcome = Done(doc: Json) | Thrown(doc: Json, error: nat)

  function Back(ptr: seq<string>): string
    requires ptr != []
  {
    ptr[|ptr| - 1]
  }

  function Front(ptr: seq<string>): seq<string>
    requires ptr != []
  {
    ptr[..|ptr| - 1]
  }

  function InsertAt(xs: seq<Json>, i: nat, v: Json): seq<Json>
    requires i <= |xs|
  {
    xs[..i] + [v] + xs[i..]
  }

  function RemoveAt(xs: seq<Json>, i: nat): seq<Json>
    requires i < |xs|
  {
    xs[..i] + xs[i + 1..]
  }

  /** The parent of an added value, with the value in it. */
  function AddedTo(parent: Json, last: string, v: Json): Result<Json> {
    match parent
    case Null => Ok(Obj(map[last := v]))
    case Obj(m) => Ok(Obj(m[last := v]))
    case Arr(xs) =>
      if last == "-" then Ok(Arr(xs + [v]))
      else (match ArrayIndex(last)
        case Err(e) => Err(e)
        case Ok(i) => if i > |xs| then Err(INDEX_OUT_OF_RANGE) else Ok(Arr(InsertAt(xs, i, v))))
    case _ => Err(ASSERTION_FAILED)
  }

  function RemovedFrom(parent: Json, last: string): Result<Json> {
    match parent
    case Obj(m) => if last in m then Ok(Obj(m - {last})) else Err(KEY_NOT_FOUND)
    case Arr(xs) =>
      (match ArrayIndex(last)
        case Err(e) => Err(e)
        case Ok(i) => if i >= |xs| then Err(INDEX_OUT_OF_RANGE) else Ok(Arr(RemoveAt(xs, i))))
    case _ => Ok(parent)
  }

  function Changed(doc: Json, ptr: seq<string>, parent: Result<Json>): Outcome
    requires At(doc, ptr).Ok?
  {
    match parent
    case Err(e) => Thrown(doc, e)
    case Ok(p) => Done(Put(doc, ptr, p))
  }

  function Add(doc: Json, ptr: seq<string>, v: Json): Outcome {
    if ptr == [] then Done(v)
    else if |ptr| > 1 && At(doc, ptr[..1]).Err? then Thrown(doc, At(doc, ptr[..1]).error)
    else match At(doc, Front(ptr))
      case Err(e) => Thrown(doc, e)
      case Ok(parent) => Changed(doc, Front(ptr), AddedTo(parent, Back(ptr), v))
  }

  function Remove(doc: Json, ptr: seq<string>): Outcome {
    if ptr == [] then Thrown(doc, NO_PARENT)
    else match At(doc, Front(ptr))
      case Err(e) => Thrown(doc, e)
      case Ok(parent) => Changed(doc, Front(ptr), RemovedFrom(parent, Back(ptr)))
  }

  /** The assigned value is looked up before the location, the order C++17 prescribes. */
  function Replace(doc: Json, ptr: seq<string>, value: Result<Json>): Outcome {
    match value
    case Err(e) => Thrown(doc, e)
    case Ok(v) =>
      match At(doc, ptr)
      case Err(e) => Thrown(doc, e)
      case Ok(_) => Done(Put(doc, ptr, v))
  }

  function Move(doc: Json, ptr: seq<string>, from: seq<string>): Outcome {
    match At(doc, from)
    case Err(e) => Thrown(doc, e)
    case Ok(v) =>
      match Remove(doc, from)
      case Thrown(d, e) => Thrown(d, e)
      case Done(d) => Add(d, ptr, v)
  }

  function Copy(doc: Json, ptr: seq<string>, from: seq<string>): Outcome {
    match At(doc, from)
    case Err(e) => Thrown(doc, e)
    case Ok(v) => Add(doc, ptr, v)
  }

  /** Out-of-range exceptions, which a test swallows; parse errors it does not. */
  predicate IsOutOfRange(e: nat) { 401 <= e <= 410 }

  function Test(doc: Json, ptr: seq<string>, value: Result<Json>): Outcome {
    match At(doc, ptr)
    case Err(e) => Thrown(doc, if IsOutOfRange(e) then TEST_FAILED else e)
    case Ok(found) =>
      match value
      case Err(e) => Thrown(doc, e)
      case Ok(v) => if Same(found, v) then Done(doc) else Thrown(doc, TEST_FAILED)
  }

  function Member(item: Json, member: string): Result<Json>
    requires item.Obj?
  {
    if member in item.members then Ok(item.members[member]) else Err(BAD_OPERATION)
  }

  function StringMember(item: Json, member: string): Result<string>
    requires item.Obj?
  {
    match Member(item, member)
    case Err(e) => Err(e)
    case Ok(v) => if v.Str? then Ok(v.s) else Err(BAD_OPERATION)
  }

  /** A string member read as a pointer. */
  function PointerMember(item: Json, member: string): Result<seq<string>>
    requires item.Obj?
  {
    match StringMember(item, member)
    case Err(e) => Err(e)
    case Ok(s) => Split(s)
  }

  function Operate(doc: Json, item: Json, op: string, ptr: seq<string>): Outcome
    requires item.Obj?
  {
    if op == "add" then
      match Member(item, "value")
      case Err(e) => Thrown(doc, e)
      case Ok(v) => Add(doc, ptr, v)
    else if op == "remove" then Remove(doc, ptr)
    else if op == "replace" then Replace(doc, ptr, Member(item, "value"))
    else if op == "move" || op == "copy" then
      match PointerMember(item, "from")
      case Err(e) => Thrown(doc, e)
      case Ok(from) => if op == "move" then Move(doc, ptr, from) else Copy(doc, ptr, from)
    else if op == "test" then Test(doc, ptr, Member(item, "value"))
    else Thrown(doc, BAD_OPERATION)
  }

  function ApplyItem(doc: Json, item: Json): Outcome {
    if !item.Obj? then Thrown(doc, PATCH_NOT_OBJECTS)
    else match StringMember(item, "op")
      case Err(e) => Thrown(doc, e)
      case Ok(op) =>
        match PointerMember(item, "path")
        case Err(e) => Thrown(doc, e)
        case Ok(ptr) => Operate(doc, item, op, ptr)
  }

  function ApplyAll(doc: Json, items: seq<Json>): Outcome
    decreases |items|
  {
    if items == [] then Done(doc)
    else match ApplyItem(doc, items[0])
      case Thrown(d, e) => Thrown(d, e)
      case Done(d) => ApplyAll(d, items[1..])
  }

  lemma {:induction false} ApplyInTurn(doc: Json, first: seq<Json>, second: seq<Json>)
    ensures ApplyAll(doc, first + second)
         == if ApplyAll(doc, first).Done? then ApplyAll(ApplyAll(doc, first).doc, second) else ApplyAll(doc, first)
    decreases |first|
  {
    if first == [] {
      assert first + second == second;
    } else {
      assert (first + second)[1..] == first[1..] + second;
      if ApplyItem(doc, first[0]).Done? { ApplyInTurn(ApplyItem(doc, first[0]).doc, first[1..], second); }
    }
  }

  lemma AddFailure(doc: Json, ptr: seq<string>, v: Json)
    requires Add(doc, ptr, v).Thrown?
    ensures Add(doc, ptr, v).doc == doc
  {
  }

  lemma RemoveFailure(doc: Json, ptr: seq<string>)
    requires Remove(doc, ptr).Thrown?
    ensures Remove(doc, ptr).doc == doc
  {
  }

  lemma OperateFailure(doc: Json, item: Json, op: string, ptr: seq<string>)
    requires item.Obj? && op != "move" && Operate(doc, item, op, ptr).Thrown?
    ensures Operate(doc, item, op, ptr).doc == doc
  {
    if op == "add" {
      if Member(item, "value").Ok? { AddFailure(doc, ptr, Member(item, "value").value); }
    } else if op == "remove" {
      RemoveFailure(doc, ptr);
    } else if op == "copy" {
      if PointerMember(item, "from").Ok? && At(doc, PointerMember(item, "from").value).Ok? {
        AddFailure(doc, ptr, At(doc, PointerMember(item, "from").value).value);
      }
    }
  }

  /** An operation that throws leaves the document as it was, unless it is a move. */
  lemma FailureChangesNothing(doc: Json, item: Json)
    requires ApplyItem(doc, item).Thrown?
    requires item.Obj? ==> StringMember(item, "op") != Ok("move")
    ensures ApplyItem(doc, item).doc == doc
  {
    if item.Obj? && StringMember(item, "op").Ok? && PointerMember(item, "path").Ok? {
      OperateFailure(doc, item, StringMember(item, "op").value, PointerMember(item, "path").value);
    }
  }

  /** What can be found below the root can be removed, and then the document is another one. */
  lemma FoundCanBeRemoved(doc: Json, ptr: seq<string>)
    requires ptr != [] && At(doc, ptr).Ok?
    ensures Remove(doc, ptr).Done? && Remove(doc, ptr).doc != doc
  {
    assert ptr == Front(ptr) + [Back(ptr)];
    AtLonger(doc, Front(ptr), Back(ptr));
    var parent := At(doc, Front(ptr)).value;
    ChildCanBeRemoved(parent, Back(ptr));
    var less := RemovedFrom(parent, Back(ptr)).value;
    AtOfPut(doc, Front(ptr), less, less);
  }

  /**
   * A remove succeeds exactly when its target is there, or when the parent is neither an object nor an
   * array; in the second case it does nothing, where RFC 6902, section 4.2 asks for an error.
   */
  lemma RemoveSucceedsExactly(doc: Json, ptr: seq<string>)
    ensures Remove(doc, ptr).Done? <==>
              ptr != [] && (At(doc, ptr).Ok? || (At(doc, Front(ptr)).Ok? && IsPrimitive(At(doc, Front(ptr)).value)))
    ensures Remove(doc, ptr).Done? ==> (Remove(doc, ptr).doc == doc <==> At(doc, ptr).Err?)
  {
    if ptr != [] {
      assert ptr == Front(ptr) + [Back(ptr)];
      AtLonger(doc, Front(ptr), Back(ptr));
      if At(doc, ptr).Ok? {
        FoundCanBeRemoved(doc, ptr);
      } else if At(doc, Front(ptr)).Ok? {
        MissingCannotBeRemoved(At(doc, Front(ptr)).value, Back(ptr));
        AtOfPut(doc, Front(ptr), Null, Null);
      }
    }
  }

  predicate IsPrimitive(j: Json) { !j.Obj? && !j.Arr? }

  lemma MissingCannotBeRemoved(parent: Json, last: string)
    requires Child(parent, last).Err?
    ensures RemovedFrom(parent, last).Ok? <==> IsPrimitive(parent)
    ensures IsPrimitive(parent) ==> RemovedFrom(parent, last) == Ok(parent)
  {
  }

  /** Removing "/a" from null succeeds. */
  lemma RemoveBelowNullExample()
    ensures Remove(Null, ["a"]) == Done(Null)
  {
    assert Front(["a"]) == [];
  }

  lemma ChildCanBeRemoved(parent: Json, last: string)
    requires Child(parent, last).Ok?
    ensures RemovedFrom(parent, last).Ok? && RemovedFrom(parent, last).value != parent
  {
    match parent
    case Obj(m) => assert last !in (m - {last});
    case Arr(xs) => assert |RemoveAt(xs, ArrayIndex(last).value)| == |xs| - 1;
  }

  /** A move that throws has changed the document exactly when the value to move was there to be
      removed: the removal is not undone when the addition fails. */
  lemma FailedMoveLosesTheValue(doc: Json, ptr: seq<string>, from: seq<string>)
    requires Move(doc, ptr, from).Thrown?
    ensures Move(doc, ptr, from).doc != doc <==> from != [] && At(doc, from).Ok?
  {
    if At(doc, from).Ok? {
      if from != [] {
        FoundCanBeRemoved(doc, from);
        AddFailure(Remove(doc, from).doc, ptr, At(doc, from).value);
      }
    }
  }

  /** Moving member "a" under a missing parent throws, and "a" is gone. */
  lemma FailedMoveExample()
    ensures Move(Obj(map["a" := Null]), ["x", "y"], ["a"]) == Thrown(Obj(map[]), KEY_NOT_FOUND)
  {
    var doc := Obj(map["a" := Null]);
    var from := ["a"];
    assert Front(from) == [] && from[1..] == [];
    assert At(doc, from) == Ok(Null);
    assert map["a" := Null] - {"a"} == map[];
    assert Remove(doc, from) == Done(Obj(map[]));
    assert At(Obj(map[]), ["x", "y"][..1]) == Err(KEY_NOT_FOUND);
  }

  /** A patch whose operations are to be applied to the document in place. */
  class Document {
    var root: Json

    constructor (j: Json)
      ensures root == j
    {
      root := j;
    }

    /** The operations before the one that throws stay applied. */
    method PatchInPlace(patch: Json) returns (error: Option<nat>)
      modifies this
      ensures !patch.Arr? ==> error == Some(PATCH_NOT_OBJECTS) && root == old(root)
      ensures patch.Arr? ==> root == ApplyAll(old(root), patch.items).doc
      ensures patch.Arr? ==> error == match ApplyAll(old(root), patch.items)
                                      case Done(_) => None
                                      case Thrown(_, e) => Some(e)
    {
      if !patch.Arr? { return Some(PATCH_NOT_OBJECTS); }
      var items := patch.items;
      assert items[..0] == [] && items[..|items|] == items;
      for n := 0 to |items|
        invariant ApplyAll(old(root), items[..n]) == Done(root)
      {
        assert items[..n + 1] == items[..n] + [items[n]];
        assert items == items[..n + 1] + items[n + 1..];
        ApplyInTurn(old(root), items[..n], [items[n]]);
        ApplyInTurn(old(root), items[..n + 1], items[n + 1..]);
        match ApplyItem(root, items[n]) {
          case Done(doc) => root := doc;
          case Thrown(doc, e) =>
            root := doc;
            return Some(e);
        }
      }
      error := None;
    }

    /** The patched copy; this document stays. */
    method Patch(patch: Json) returns (result: Result<Json>)
      ensures result == if !patch.Arr? then Err(PATCH_NOT_OBJECTS)
                        else match ApplyAll(root, patch.items)
                          case Done(doc) => Ok(doc)
                          case Thrown(_, e) => Err(e)
    {
      var copy := new Document(root);
      var error := copy.PatchInPlace(patch);
      result := if error.Some? then Err(error.value) else Ok(copy.root);
    }
  }
}
