/** What the operations of a JSON Patch do to a document (RFC 6902, section 4), and what they leave alone. */
module JsonEffect {
  import opened Json
  import opened JsonText
  import opened Options

  // ---- one parent ----

  /** ys is xs with v at place i: the elements before it stay, those from it on move up by one. */
  ghost predicate HasInserted(xs: seq<Json>, i: nat, v: Json, ys: seq<Json>) {
    && i <= |xs| && |ys| == |xs| + 1 && ys[i] == v
    && (forall k :: 0 <= k < i ==> ys[k] == xs[k])
    && forall k :: i <= k < |xs| ==> ys[k + 1] == xs[k]
  }

  /** Where the last token of a path adds to an array: at the index it is, or behind the end. */
  function PlaceIn(xs: seq<Json>, last: string): Result<nat> {
    if last == "-" then Ok(|xs|) else ArrayIndex(last)
  }

  ghost predicate SameBut(key: string, m: map<string, Json>, n: map<string, Json>) {
    forall k :: k != key ==> (k in m <==> k in n) && (k in m ==> m[k] == n[k])
  }

  /** An array has v inserted; an object, or null taken for an empty one, has the member set to v. */
  ghost predicate HasAdded(parent: Json, last: string, v: Json, parent': Json) {
    match parent
    case Null => parent'.Obj? && parent'.members.Keys == {last} && parent'.members[last] == v
    case Obj(m) =>
      parent'.Obj? && last in parent'.members && parent'.members[last] == v && SameBut(last, m, parent'.members)
    case Arr(xs) =>
      parent'.Arr? && PlaceIn(xs, last).Ok? && HasInserted(xs, PlaceIn(xs, last).value, v, parent'.items)
    case _ => false
  }

  /** An array from which the element was taken would have it back by inserting it; an object lacks the member. */
  ghost predicate HasRemoved(parent: Json, last: string, parent': Json) {
    match parent
    case Obj(m) => last in m && parent'.Obj? && last !in parent'.members && SameBut(last, m, parent'.members)
    case Arr(xs) =>
      && parent'.Arr? && ArrayIndex(last).Ok? && ArrayIndex(last).value < |xs|
      && HasInserted(parent'.items, ArrayIndex(last).value, xs[ArrayIndex(last).value], xs)
    case _ => parent' == parent
  }

  lemma InsertedExactly(xs: seq<Json>, i: nat, v: Json, ys: seq<Json>)
    requires i <= |xs|
    ensures HasInserted(xs, i, v, ys) <==> ys == InsertAt(xs, i, v)
  {
    if HasInserted(xs, i, v, ys) {
      var zs := InsertAt(xs, i, v);
      forall k | 0 <= k < |ys| ensures ys[k] == zs[k] {
        if k > i { assert ys[k - 1 + 1] == xs[k - 1]; }
      }
    }
  }

  lemma AddedExactly(parent: Json, last: string, v: Json, parent': Json)
    ensures AddedTo(parent, last, v) == Ok(parent') <==> HasAdded(parent, last, v, parent')
  {
    match parent
    case Null =>
      if HasAdded(parent, last, v, parent') { assert parent'.members == map[last := v]; }
    case Obj(m) =>
      if HasAdded(parent, last, v, parent') { assert parent'.members == m[last := v]; }
    case Arr(xs) =>
      if PlaceIn(xs, last).Ok? && PlaceIn(xs, last).value <= |xs| && parent'.Arr? {
        InsertedExactly(xs, PlaceIn(xs, last).value, v, parent'.items);
        assert InsertAt(xs, |xs|, v) == xs + [v];
      }
    case _ =>
  }

  lemma RemovedExactly(parent: Json, last: string, parent': Json)
    ensures RemovedFrom(parent, last) == Ok(parent') <==> HasRemoved(parent, last, parent')
  {
    match parent
    case Obj(m) =>
      if HasRemoved(parent, last, parent') { assert parent'.members == m - {last}; }
    case Arr(xs) =>
      if ArrayIndex(last).Ok? && ArrayIndex(last).value < |xs| && parent'.Arr? {
        RemovedIsInsertedBack(xs, ArrayIndex(last).value, parent'.items);
      }
    case _ =>
  }

  lemma RemovedIsInsertedBack(xs: seq<Json>, i: nat, ys: seq<Json>)
    requires i < |xs|
    ensures HasInserted(ys, i, xs[i], xs) <==> ys == RemoveAt(xs, i)
  {
    if HasInserted(ys, i, xs[i], xs) {
      forall k | 0 <= k < |ys| ensures ys[k] == RemoveAt(xs, i)[k] {
        if k >= i { assert xs[k + 1] == ys[k]; }
      }
    }
  }

  // ---- a whole document ----

  /** v has been added to the document at the path: its parent has it, and nothing beside the parent changed. */
  ghost predicate IsAdded(doc: Json, ptr: seq<string>, v: Json, doc': Json) {
    if ptr == [] then doc' == v
    else
      && At(doc, Front(ptr)).Ok? && At(doc', Front(ptr)).Ok?
      && HasAdded(At(doc, Front(ptr)).value, Back(ptr), v, At(doc', Front(ptr)).value)
      && doc' == Put(doc, Front(ptr), At(doc', Front(ptr)).value)
  }

  ghost predicate IsRemoved(doc: Json, ptr: seq<string>, doc': Json) {
    && ptr != [] && At(doc, Front(ptr)).Ok? && At(doc', Front(ptr)).Ok?
    && HasRemoved(At(doc, Front(ptr)).value, Back(ptr), At(doc', Front(ptr)).value)
    && doc' == Put(doc, Front(ptr), At(doc', Front(ptr)).value)
  }

  lemma StartIsThere(doc: Json, tokens: seq<string>)
    requires tokens != [] && At(doc, tokens).Ok?
    ensures At(doc, tokens[..1]).Ok?
  {
    assert tokens[..1][1..] == [];
  }

  // Looking up the first token beforehand finds no other fault than looking up the parent does.
  lemma AddBelow(doc: Json, ptr: seq<string>, v: Json)
    requires ptr != [] && At(doc, Front(ptr)).Ok?
    ensures Add(doc, ptr, v) == Changed(doc, Front(ptr), AddedTo(At(doc, Front(ptr)).value, Back(ptr), v))
  {
    if |ptr| > 1 {
      StartIsThere(doc, Front(ptr));
      assert Front(ptr)[..1] == ptr[..1];
    }
  }

  /** An addition succeeds with a document exactly if that document has the value added at the path. */
  lemma AddExactly(doc: Json, ptr: seq<string>, v: Json, doc': Json)
    ensures Add(doc, ptr, v) == Done(doc') <==> IsAdded(doc, ptr, v, doc')
  {
    if ptr != [] && At(doc, Front(ptr)).Ok? {
      AddBelow(doc, ptr, v);
      var parent, last := At(doc, Front(ptr)).value, Back(ptr);
      if AddedTo(parent, last, v).Ok? {
        var parent' := AddedTo(parent, last, v).value;
        AddedExactly(parent, last, v, parent');
        AtOfPut(doc, Front(ptr), parent', parent');
      }
      if At(doc', Front(ptr)).Ok? { AddedExactly(parent, last, v, At(doc', Front(ptr)).value); }
    }
  }

  /** The same for a removal; below a parent that is neither an object nor an array it does nothing. */
  lemma RemoveExactly(doc: Json, ptr: seq<string>, doc': Json)
    ensures Remove(doc, ptr) == Done(doc') <==> IsRemoved(doc, ptr, doc')
  {
    if ptr != [] && At(doc, Front(ptr)).Ok? {
      var parent, last := At(doc, Front(ptr)).value, Back(ptr);
      if RemovedFrom(parent, last).Ok? {
        var parent' := RemovedFrom(parent, last).value;
        RemovedExactly(parent, last, parent');
        AtOfPut(doc, Front(ptr), parent', parent');
      }
      if At(doc', Front(ptr)).Ok? { RemovedExactly(parent, last, At(doc', Front(ptr)).value); }
    }
  }

  /** Where an added value ends up: at the path, with "-" standing for the length of the array. */
  function AddedAt(doc: Json, ptr: seq<string>): seq<string>
    requires ptr != [] && At(doc, Front(ptr)).Ok?
  {
    var parent := At(doc, Front(ptr)).value;
    if parent.Arr? && Back(ptr) == "-" then Front(ptr) + [Decimal(|parent.items|)] else ptr
  }

  lemma PlaceOfToken(xs: seq<Json>, last: string)
    requires last == "-" ==> |xs| < MAX_SIZE
    ensures var token := if last == "-" then Decimal(|xs|) else last;
      token != "-" && ArrayIndex(token) == PlaceIn(xs, last)
  {
    if last == "-" { IndexOfDecimal(|xs|); }
  }

  /** An added value is found where it was added ... */
  lemma AddedIsFound(doc: Json, ptr: seq<string>, v: Json, doc': Json)
    requires ptr != [] && IsAdded(doc, ptr, v, doc')
    requires var parent := At(doc, Front(ptr)).value; parent.Arr? ==> |parent.items| < MAX_SIZE
    ensures At(doc', AddedAt(doc, ptr)) == Ok(v)
  {
    var front, parent, place := Front(ptr), At(doc, Front(ptr)).value, AddedAt(doc, ptr);
    assert ptr == front + [Back(ptr)] && place == front + [Back(place)];
    AtLonger(doc', front, Back(place));
    if parent.Arr? { PlaceOfToken(parent.items, Back(ptr)); }
  }

  /** ... and removing it from there gives the old document back, unless it took the place of another value. */
  lemma RemoveUndoesAdd(doc: Json, ptr: seq<string>, v: Json, doc': Json)
    requires ptr != [] && IsAdded(doc, ptr, v, doc')
    requires match At(doc, Front(ptr)).value
             case Arr(xs) => |xs| < MAX_SIZE
             case Obj(m) => Back(ptr) !in m
             case _ => false
    ensures Remove(doc', AddedAt(doc, ptr)) == Done(doc)
  {
    var front, place := Front(ptr), AddedAt(doc, ptr);
    var parent, parent' := At(doc, front).value, At(doc', front).value;
    assert Front(place) == front;
    if parent.Arr? { PlaceOfToken(parent.items, Back(ptr)); }
    AtOfPut(doc, front, parent', parent);
    RemoveExactly(doc', place, doc);
  }

  // ---- what lies elsewhere ----

  /** The two paths part at some token: neither is the beginning of the other. */
  ghost predicate Apart(a: seq<string>, b: seq<string>) {
    exists k :: 0 <= k < |a| && k < |b| && a[..k] == b[..k] && a[k] != b[k]
  }

  lemma OtherChildStays(j: Json, token: string, v: Json, other: string)
    requires Child(j, token).Ok? && other != token
    ensures Child(WithChild(j, token, v), other) == Child(j, other)
  {
    if j.Arr? && ArrayIndex(other).Ok? {
      DecimalOfIndex(token);
      DecimalOfIndex(other);
    }
  }

  /** A change at one path is not seen on a path that parts from it. */
  lemma {:induction false} PutElsewhere(j: Json, a: seq<string>, v: Json, b: seq<string>)
    requires At(j, a).Ok? && Apart(a, b)
    ensures At(Put(j, a, v), b) == At(j, b)
    decreases |a|
  {
    var k :| 0 <= k < |a| && k < |b| && a[..k] == b[..k] && a[k] != b[k];
    var c := Child(j, a[0]).value;
    var c' := Put(c, a[1..], v);
    ChildOfWithChild(j, a[0], c', c');
    if k == 0 {
      OtherChildStays(j, a[0], c', b[0]);
    } else {
      assert a[0] == a[..k][0] == b[..k][0] == b[0];
      assert a[1..][..k - 1] == a[..k][1..] == b[..k][1..] == b[1..][..k - 1];
      assert Apart(a[1..], b[1..]);
      PutElsewhere(c, a[1..], v, b[1..]);
    }
  }

  // ---- all operations ----

  /** The value at one path is now `v` and nothing else has changed. */
  ghost predicate IsReplaced(doc: Json, ptr: seq<string>, v: Json, doc': Json) {
    At(doc, ptr).Ok? && doc' == Put(doc, ptr, v)
  }

  ghost predicate IsMoved(doc: Json, from: seq<string>, ptr: seq<string>, doc': Json) {
    At(doc, from).Ok? && exists mid :: IsRemoved(doc, from, mid) && IsAdded(mid, ptr, At(doc, from).value, doc')
  }

  /** A move takes the value away and adds it at the other path, which is looked up in what is left. */
  lemma MoveExactly(doc: Json, from: seq<string>, ptr: seq<string>, doc': Json)
    ensures Move(doc, ptr, from) == Done(doc') <==> IsMoved(doc, from, ptr, doc')
  {
    if At(doc, from).Ok? {
      var v := At(doc, from).value;
      if Remove(doc, from).Done? {
        var mid := Remove(doc, from).doc;
        RemoveExactly(doc, from, mid);
        AddExactly(mid, ptr, v, doc');
      }
      if IsMoved(doc, from, ptr, doc') {
        var mid :| IsRemoved(doc, from, mid) && IsAdded(mid, ptr, v, doc');
        RemoveExactly(doc, from, mid);
      }
    }
  }

  ghost predicate IsCopied(doc: Json, from: seq<string>, ptr: seq<string>, doc': Json) {
    At(doc, from).Ok? && IsAdded(doc, ptr, At(doc, from).value, doc')
  }

  /** A copy adds the value found at the other path. */
  lemma CopyExactly(doc: Json, from: seq<string>, ptr: seq<string>, doc': Json)
    ensures Copy(doc, ptr, from) == Done(doc') <==> IsCopied(doc, from, ptr, doc')
  {
    if At(doc, from).Ok? { AddExactly(doc, ptr, At(doc, from).value, doc'); }
  }

  ghost predicate HasText(item: Json, name: string, text: string) {
    item.Obj? && name in item.members && item.members[name] == Str(text)
  }

  /** The item has the member, and it is the text of the pointer. */
  ghost predicate HasPointer(item: Json, name: string, ptr: seq<string>) {
    item.Obj? && name in item.members && item.members[name].Str? && Split(item.members[name].s) == Ok(ptr)
  }

  ghost predicate HasValue(item: Json, v: Json) {
    item.Obj? && "value" in item.members && item.members["value"] == v
  }

  /** What an item of a patch asks for is what has been done to the document at the path. */
  ghost predicate IsDone(doc: Json, item: Json, op: string, ptr: seq<string>, doc': Json) {
    if op == "add" then exists v :: HasValue(item, v) && IsAdded(doc, ptr, v, doc')
    else if op == "remove" then IsRemoved(doc, ptr, doc')
    else if op == "replace" then exists v :: HasValue(item, v) && IsReplaced(doc, ptr, v, doc')
    else if op == "move" then exists from :: HasPointer(item, "from", from) && IsMoved(doc, from, ptr, doc')
    else if op == "copy" then exists from :: HasPointer(item, "from", from) && IsCopied(doc, from, ptr, doc')
    else if op == "test" then exists v :: HasValue(item, v) && IsEqualAt(doc, ptr, v) && doc' == doc
    else false
  }

  ghost predicate IsEqualAt(doc: Json, ptr: seq<string>, v: Json) {
    At(doc, ptr).Ok? && Same(At(doc, ptr).value, v)
  }

  lemma MoveItem(doc: Json, item: Json, ptr: seq<string>, doc': Json)
    requires item.Obj?
    ensures Operate(doc, item, "move", ptr) == Done(doc') <==> IsDone(doc, item, "move", ptr, doc')
  {
    if PointerMember(item, "from").Ok? {
      var from := PointerMember(item, "from").value;
      assert HasPointer(item, "from", from);
      MoveExactly(doc, from, ptr, doc');
    }
  }

  lemma CopyItem(doc: Json, item: Json, ptr: seq<string>, doc': Json)
    requires item.Obj?
    ensures Operate(doc, item, "copy", ptr) == Done(doc') <==> IsDone(doc, item, "copy", ptr, doc')
  {
    if PointerMember(item, "from").Ok? {
      var from := PointerMember(item, "from").value;
      assert HasPointer(item, "from", from);
      CopyExactly(doc, from, ptr, doc');
    }
  }

  lemma ValueItem(doc: Json, item: Json, op: string, ptr: seq<string>, doc': Json)
    requires item.Obj? && (op == "add" || op == "replace" || op == "test")
    ensures Operate(doc, item, op, ptr) == Done(doc') <==> IsDone(doc, item, op, ptr, doc')
  {
    if "value" in item.members {
      var v := item.members["value"];
      assert HasValue(item, v);
      AddExactly(doc, ptr, v, doc');
    }
  }

  lemma OperationExactly(doc: Json, item: Json, op: string, ptr: seq<string>, doc': Json)
    requires item.Obj?
    ensures Operate(doc, item, op, ptr) == Done(doc') <==> IsDone(doc, item, op, ptr, doc')
  {
    if op == "move" { MoveItem(doc, item, ptr, doc'); }
    else if op == "copy" { CopyItem(doc, item, ptr, doc'); }
    else if op == "remove" { RemoveExactly(doc, ptr, doc'); }
    else if op == "add" || op == "replace" || op == "test" { ValueItem(doc, item, op, ptr, doc'); }
  }

  ghost predicate ItemIsDone(doc: Json, item: Json, doc': Json) {
    exists op, ptr :: HasText(item, "op", op) && HasPointer(item, "path", ptr) && IsDone(doc, item, op, ptr, doc')
  }

  /**
   * One item of a patch succeeds with a document exactly if it names its operation and its path, and what
   * it asks for is what distinguishes that document from the old one.
   */
  lemma ItemExactly(doc: Json, item: Json, doc': Json)
    ensures ApplyItem(doc, item) == Done(doc') <==> ItemIsDone(doc, item, doc')
  {
    if item.Obj? && StringMember(item, "op").Ok? && PointerMember(item, "path").Ok? {
      var op, ptr := StringMember(item, "op").value, PointerMember(item, "path").value;
      assert HasText(item, "op", op) && HasPointer(item, "path", ptr);
      OperationExactly(doc, item, op, ptr, doc');
    }
  }

  /** The items have been done one after the other. */
  ghost predicate AllDone(doc: Json, items: seq<Json>, doc': Json)
    decreases |items|
  {
    if items == [] then doc' == doc
    else exists mid :: ItemIsDone(doc, items[0], mid) && AllDone(mid, items[1..], doc')
  }

  /** A patch succeeds with a document exactly if doing all its items in turn leads there. */
  lemma {:induction false} PatchExactly(doc: Json, items: seq<Json>, doc': Json)
    ensures ApplyAll(doc, items) == Done(doc') <==> AllDone(doc, items, doc')
    decreases |items|
  {
    if items != [] {
      if ApplyItem(doc, items[0]).Done? {
        var mid := ApplyItem(doc, items[0]).doc;
        ItemExactly(doc, items[0], mid);
        PatchExactly(mid, items[1..], doc');
      }
      if AllDone(doc, items, doc') {
        var mid :| ItemIsDone(doc, items[0], mid) && AllDone(mid, items[1..], doc');
        ItemExactly(doc, items[0], mid);
      }
    }
  }

  /** Why one step down a path fails. */
  lemma LookupNumbers(j: Json, token: string)
    ensures Child(j, token).Err? ==>
      Child(j, token).error == match j
                               case Obj(_) => 403
                               case Arr(_) =>
                                 if token == "-" then 402
                                 else if ArrayIndex(token).Ok? then 401 else ArrayIndex(token).error
                               case _ => 404
  {
  }

  /** A path that cannot be followed is what every operation complains about first, a test in its own way. */
  lemma FirstFault(doc: Json, ptr: seq<string>, v: Json, from: seq<string>)
    ensures At(doc, from).Err? ==> Move(doc, ptr, from) == Copy(doc, ptr, from) == Thrown(doc, At(doc, from).error)
    ensures ptr != [] && At(doc, Front(ptr)).Err? ==>
              Add(doc, ptr, v) == Remove(doc, ptr) == Thrown(doc, At(doc, Front(ptr)).error)
    ensures At(doc, ptr).Err? ==> Replace(doc, ptr, Ok(v)) == Thrown(doc, At(doc, ptr).error)
    ensures At(doc, ptr).Err? ==>
      Test(doc, ptr, Ok(v)) == Thrown(doc, if 401 <= At(doc, ptr).error <= 410 then 501 else At(doc, ptr).error)
  {
    if |ptr| > 1 && At(doc, ptr[..1]).Err? {
      assert Front(ptr)[..1] == ptr[..1];
      FirstTokenFails(doc, Front(ptr));
    }
  }

  lemma FirstTokenFails(doc: Json, tokens: seq<string>)
    requires tokens != [] && At(doc, tokens[..1]).Err?
    ensures At(doc, tokens) == At(doc, tokens[..1])
  {
    assert tokens[..1][1..] == [];
  }

  /** The numbers of the exceptions. */
  lemma ErrorNumbers(doc: Json, item: Json, ptr: seq<string>)
    ensures Remove(doc, []) == Thrown(doc, 405)
    ensures !item.Obj? ==> ApplyItem(doc, item) == Thrown(doc, 104)
    ensures item.Obj? && (forall op :: !HasText(item, "op", op)) ==> ApplyItem(doc, item) == Thrown(doc, 105)
    ensures ptr != [] && At(doc, Front(ptr)).Ok? ==>
      match At(doc, Front(ptr)).value
      case Obj(m) => Back(ptr) !in m ==> Remove(doc, ptr) == Thrown(doc, 403)
      case Arr(xs) =>
        && (ArrayIndex(Back(ptr)).Ok? && ArrayIndex(Back(ptr)).value >= |xs| ==> Remove(doc, ptr) == Thrown(doc, 401))
        && (Back(ptr) != "-" && ArrayIndex(Back(ptr)).Ok? && ArrayIndex(Back(ptr)).value > |xs| ==>
              Add(doc, ptr, item) == Thrown(doc, 401))
      case _ => true
    ensures At(doc, ptr).Ok? && !Same(At(doc, ptr).value, item) ==> Test(doc, ptr, Ok(item)) == Thrown(doc, 501)
  {
    if ptr != [] && At(doc, Front(ptr)).Ok? { AddBelow(doc, ptr, item); }
    if item.Obj? && StringMember(item, "op").Ok? { assert HasText(item, "op", StringMember(item, "op").value); }
  }
}
