/** The tagged serializer: what each value looks like on the wire, how it is read back, and the
    stream object that writes and reads. */
module DataStream {
  import opened Bytes
  import opened Options

  /** The static type that picks the overload of `write` or `read`. A struct has the types of the
      fields it lists for serialization. */
  datatype Ty =
    | TBool | TChar | TInt32 | TInt64 | TUint32 | TUint64 | TEnum | TString | TBytes
    | TList(elem: Ty) | TMap(key: Ty, value: Ty) | TSet(elem: Ty)
    | TStruct(fields: seq<Ty>)

  /** Values; maps and sets hold their elements in the order the containers iterate them. */
  datatype Val =
    | VBool(b: bool) | VChar(c: byte)
    | VInt32(i: int) | VInt64(i: int) | VUint32(n: nat) | VUint64(n: nat)
    | VEnum(i: int)
    | VString(bytes: seq<byte>) | VBytes(bytes: seq<byte>)
    | VList(elems: seq<Val>)
    | VMap(entries: seq<Entry>)
    | VSet(elems: seq<Val>)
    | VStruct(fields: seq<Val>)

  datatype Entry = Entry(key: Val, value: Val)

  type Order = (Val, Val) -> bool

  const MAX_LENGTH: nat := 0x7FFF_FFFF

  predicate IsInt32(i: int) { -0x8000_0000 <= i <= 0x7FFF_FFFF }
  predicate IsInt64(i: int) { -0x8000_0000_0000_0000 <= i <= 0x7FFF_FFFF_FFFF_FFFF }

  ghost predicate Ascending(less: Order, xs: seq<Val>) {
    forall i, j :: 0 <= i < j < |xs| ==> less(xs[i], xs[j])
  }

  ghost predicate AscendingKeys(less: Order, es: seq<Entry>) {
    forall i, j :: 0 <= i < j < |es| ==> less(es[i].key, es[j].key)
  }

  /** v is a value of type ty: in range, shorter than 2^31, its maps and sets in order. */
  ghost predicate Fits(less: Order, v: Val, ty: Ty)
    decreases v
  {
    match v
    case VBool(_) => ty.TBool?
    case VChar(_) => ty.TChar?
    case VInt32(i) => ty.TInt32? && IsInt32(i)
    case VInt64(i) => ty.TInt64? && IsInt64(i)
    case VUint32(n) => ty.TUint32? && n < 0x1_0000_0000
    case VUint64(n) => ty.TUint64? && n < 0x1_0000_0000_0000_0000
    case VEnum(i) => ty.TEnum? && IsInt32(i)
    case VString(s) => ty.TString? && |s| <= MAX_LENGTH
    case VBytes(s) => ty.TBytes? && |s| <= MAX_LENGTH
    case VList(xs) => ty.TList? && |xs| <= MAX_LENGTH && forall i :: 0 <= i < |xs| ==> Fits(less, xs[i], ty.elem)
    case VMap(es) =>
      && ty.TMap? && |es| <= MAX_LENGTH && AscendingKeys(less, es)
      && forall i :: 0 <= i < |es| ==> Fits(less, es[i].key, ty.key) && Fits(less, es[i].value, ty.value)
    case VSet(xs) =>
      && ty.TSet? && |xs| <= MAX_LENGTH && Ascending(less, xs)
      && forall i :: 0 <= i < |xs| ==> Fits(less, xs[i], ty.elem)
    case VStruct(fs) =>
      ty.TStruct? && |fs| == |ty.fields| && forall i :: 0 <= i < |fs| ==> Fits(less, fs[i], ty.fields[i])
  }

  // ---- tags ----

  const BOOL: byte := 0
  const CHAR: byte := 1
  const INT32: byte := 2
  const INT64: byte := 3
  const UINT32: byte := 4
  const UINT64: byte := 5
  const STRING: byte := 9
  const VECTOR: byte := 10
  const LIST: byte := 11
  const MAP: byte := 12
  const SET: byte := 13
  const CUSTOM: byte := 14

  /** An enum goes out as the integer it is. */
  function Tag(ty: Ty): byte {
    match ty
    case TBool => BOOL
    case TChar => CHAR
    case TInt32 => INT32
    case TInt64 => INT64
    case TUint32 => UINT32
    case TUint64 => UINT64
    case TEnum => INT32
    case TString => STRING
    case TBytes => VECTOR
    case TList(_) => LIST
    case TMap(_, _) => MAP
    case TSet(_) => SET
    case TStruct(_) => CUSTOM
  }

  // ---- the wire format ----

  /** A signed integer that does not fit is not written by any caller; 0 stands in for it. */
  function SignedBytes(i: int, size: nat): (b: seq<byte>)
    ensures |b| == size
  {
    LittleBytes(if IsSigned(i, size) then ToUnsigned(i, size) else 0, size)
  }

  function LengthBytes(len: nat): seq<byte> { [INT32] + SignedBytes(len, 4) }

  function Enc(v: Val): (b: seq<byte>)
    ensures |b| > 0
    decreases v
  {
    match v
    case VBool(b) => [BOOL, if b then 1 else 0]
    case VChar(c) => [CHAR, c]
    case VInt32(i) => [INT32] + SignedBytes(i, 4)
    case VInt64(i) => [INT64] + SignedBytes(i, 8)
    case VUint32(n) => [UINT32] + LittleBytes(n, 4)
    case VUint64(n) => [UINT64] + LittleBytes(n, 8)
    case VEnum(i) => [INT32] + SignedBytes(i, 4)
    case VString(s) => [STRING] + LengthBytes(|s|) + s
    case VBytes(s) => [VECTOR] + LengthBytes(|s|) + s
    case VList(xs) => [LIST] + LengthBytes(|xs|) + EncAll(xs)
    case VMap(es) => [MAP] + LengthBytes(|es|) + EncEntries(es)
    case VSet(xs) => [SET] + LengthBytes(|xs|) + EncAll(xs)
    case VStruct(fs) => [CUSTOM] + EncAll(fs)
  }

  function EncAll(vs: seq<Val>): seq<byte>
    decreases vs
  {
    if vs == [] then [] else EncAll(vs[..|vs| - 1]) + Enc(vs[|vs| - 1])
  }

  function EncEntries(es: seq<Entry>): seq<byte>
    decreases es
  {
    if es == [] then []
    else EncEntries(es[..|es| - 1]) + EncEntry(es[|es| - 1])
  }

  function EncEntry(e: Entry): seq<byte>
    decreases e
  {
    Enc(e.key) + Enc(e.value)
  }

  // ---- reading ----

  /** Insertion into an ordered set: a duplicate is dropped. */
  function Inserted(less: Order, xs: seq<Val>, v: Val): seq<Val> {
    if xs == [] then [v]
    else
      var last := xs[|xs| - 1];
      if less(last, v) then xs + [v]
      else if less(v, last) then Inserted(less, xs[..|xs| - 1], v) + [last]
      else xs
  }

  function InsertedAll(less: Order, xs: seq<Val>): seq<Val> {
    if xs == [] then [] else Inserted(less, InsertedAll(less, xs[..|xs| - 1]), xs[|xs| - 1])
  }

  /** Assignment to a key of an ordered map: the last value of a key stays. */
  function Assigned(less: Order, es: seq<Entry>, e: Entry): seq<Entry> {
    if es == [] then [e]
    else
      var last := es[|es| - 1];
      if less(last.key, e.key) then es + [e]
      else if less(e.key, last.key) then Assigned(less, es[..|es| - 1], e) + [last]
      else es[|es| - 1 := last.(value := e.value)]
  }

  function AssignedAll(less: Order, es: seq<Entry>): seq<Entry> {
    if es == [] then [] else Assigned(less, AssignedAll(less, es[..|es| - 1]), es[|es| - 1])
  }

  datatype Got<+T> = Got(value: T, rest: seq<byte>)

  /** What a reading depends on besides the bytes: the order of maps and sets, and what a variable of a
      type holds before anything has been read into it. */
  datatype Context = Context(less: Order, unset: Ty -> Val)

  function DecSigned(b: seq<byte>, size: nat): Option<Got<int>> {
    if |b| < size then None else Some(Got(ToSigned(FromLittle(b[..size]), size), b[size..]))
  }

  function DecUnsigned(b: seq<byte>, size: nat): Option<Got<nat>> {
    if |b| < size then None else Some(Got(FromLittle(b[..size]), b[size..]))
  }

  // Compared as slices: a test on b[0] would have the solver index into concatenations.
  predicate Starts(b: seq<byte>, tag: byte) { |b| > 0 && b[..1] == [tag] }

  /** A length: a tagged integer. Without the tag the source goes on with a length it never set. */
  function DecLength(b: seq<byte>): (r: Option<Got<int>>)
    ensures r.Some? ==> |r.value.rest| < |b|
  {
    if !Starts(b, INT32) then None else DecSigned(b[1..], 4)
  }

  function DecBlob(b: seq<byte>): (r: Option<Got<seq<byte>>>)
    ensures r.Some? ==> |r.value.rest| < |b|
  {
    var r := DecLength(b);
    if r.None? || r.value.value < 0 || r.value.value > |r.value.rest| then None
    else Some(Got(r.value.rest[..r.value.value], r.value.rest[r.value.value..]))
  }

  /** A string with a negative length is left as it was, behind its length. */
  function DecString(b: seq<byte>, prior: Val): (r: Option<Got<Val>>)
    ensures r.Some? ==> |r.value.rest| <= |b|
  {
    var len := DecLength(b);
    if len.Some? && len.value.value < 0 then Some(Got(prior, len.value.rest))
    else
      var r := DecBlob(b);
      if r.None? then None else Some(Got(VString(r.value.value), r.value.rest))
  }

  /** What follows the tag of a value that holds no other values. */
  function DecScalar(b: seq<byte>, ty: Ty, prior: Val): (r: Option<Got<Val>>)
    ensures r.Some? ==> |r.value.rest| <= |b|
  {
    match ty
    case TBool => if |b| < 1 then None else Some(Got(VBool(b[0] != 0), b[1..]))
    case TChar => if |b| < 1 then None else Some(Got(VChar(b[0]), b[1..]))
    case TInt32 =>
      var r := DecSigned(b, 4);
      if r.None? then None else Some(Got(VInt32(r.value.value), r.value.rest))
    case TInt64 =>
      var r := DecSigned(b, 8);
      if r.None? then None else Some(Got(VInt64(r.value.value), r.value.rest))
    case TUint32 =>
      var r := DecUnsigned(b, 4);
      if r.None? then None else Some(Got(VUint32(r.value.value), r.value.rest))
    case TUint64 =>
      var r := DecUnsigned(b, 8);
      if r.None? then None else Some(Got(VUint64(r.value.value), r.value.rest))
    case TEnum =>
      var r := DecSigned(b, 4);
      if r.None? then None else Some(Got(VEnum(r.value.value), r.value.rest))
    case TString => DecString(b, prior)
    case TBytes =>
      var r := DecBlob(b);
      if r.None? then None else Some(Got(VBytes(r.value.value), r.value.rest))
    case _ => None
  }

  /** What the variable holds after a read that met another tag: a container has been cleared already,
      anything else is as it was. */
  function Refused(ty: Ty, prior: Val): Val {
    match ty
    case TBytes => VBytes([])
    case TList(_) => VList([])
    case TMap(_, _) => VMap([])
    case TSet(_) => VSet([])
    case _ => prior
  }

  /** What a read answers: the tag is the expected one, and a string's length is not negative. */
  predicate Accepts(b: seq<byte>, ty: Ty) {
    && Starts(b, Tag(ty))
    && (ty.TString? ==> DecLength(b[1..]).Some? && DecLength(b[1..]).value.value >= 0)
  }

  /**
   * What reading a variable of the type that held `prior` leaves in it and in the stream; None if the
   * source reads past the buffer, uses a length it never set, or asks for a negative size. The reads
   * inside a container or a struct go on whatever they answer, as the source's do.
   */
  function Dec(c: Context, b: seq<byte>, ty: Ty, prior: Val): (r: Option<Got<Val>>)
    ensures r.Some? ==> |r.value.rest| <= |b|
    decreases |b|, 0
  {
    if |b| == 0 then None
    else if Starts(b, Tag(ty)) then DecBody(c, b[1..], ty, prior)
    else Some(Got(Refused(ty, prior), if ty.TStruct? then b[1..] else b))
  }

  /** A loop up to a negative count does nothing. */
  function Count(n: int): nat { if n < 0 then 0 else n }

  /** The fields a struct variable holds. */
  function FieldsOf(c: Context, prior: Val, tys: seq<Ty>): (priors: seq<Val>)
    ensures |priors| == |tys|
  {
    if prior.VStruct? && |prior.fields| == |tys| then prior.fields
    else seq(|tys|, i requires 0 <= i < |tys| => c.unset(tys[i]))
  }

  function DecBody(c: Context, b: seq<byte>, ty: Ty, prior: Val): (r: Option<Got<Val>>)
    ensures r.Some? ==> |r.value.rest| <= |b|
    decreases |b|, 4
  {
    match ty
    case TStruct(tys) =>
      var r := DecFields(c, b, tys, FieldsOf(c, prior, tys));
      if r.None? then None else Some(Got(VStruct(r.value.value), r.value.rest))
    case _ =>
      if !IsCounted(ty) then DecScalar(b, ty, prior)
      else
        var len := DecLength(b);
        if len.None? then None else DecCounted(c, len.value.rest, ty, Count(len.value.value))
  }

  predicate IsCounted(ty: Ty) { ty.TList? || ty.TSet? || ty.TMap? }

  /** The elements of a container, behind its length. */
  function DecCounted(c: Context, b: seq<byte>, ty: Ty, n: nat): (r: Option<Got<Val>>)
    requires IsCounted(ty)
    ensures r.Some? ==> |r.value.rest| <= |b|
    decreases |b|, 3
  {
    match ty
    case TList(e) =>
      var r := DecMany(c, b, e, n);
      if r.None? then None else Some(Got(VList(r.value.value), r.value.rest))
    case TSet(e) =>
      var r := DecMany(c, b, e, n);
      if r.None? then None else Some(Got(VSet(InsertedAll(c.less, r.value.value)), r.value.rest))
    case TMap(k, v) =>
      var r := DecEntries(c, b, k, v, n);
      if r.None? then None else Some(Got(VMap(AssignedAll(c.less, r.value.value)), r.value.rest))
  }

  function DecMany(c: Context, b: seq<byte>, e: Ty, n: nat): (r: Option<Got<seq<Val>>>)
    ensures r.Some? ==> |r.value.rest| <= |b| && |r.value.value| == n
    decreases |b|, 2, n
  {
    if n == 0 then Some(Got([], b))
    else
      var others := DecMany(c, b, e, n - 1);
      if others.None? then None
      else
        var last := Dec(c, others.value.rest, e, c.unset(e));
        if last.None? then None else Some(Got(others.value.value + [last.value.value], last.value.rest))
  }

  function DecEntry(c: Context, b: seq<byte>, k: Ty, v: Ty): (r: Option<Got<Entry>>)
    ensures r.Some? ==> |r.value.rest| <= |b|
    decreases |b|, 1
  {
    var key := Dec(c, b, k, c.unset(k));
    if key.None? then None
    else
      var value := Dec(c, key.value.rest, v, c.unset(v));
      if value.None? then None else Some(Got(Entry(key.value.value, value.value.value), value.value.rest))
  }

  function DecEntries(c: Context, b: seq<byte>, k: Ty, v: Ty, n: nat): (r: Option<Got<seq<Entry>>>)
    ensures r.Some? ==> |r.value.rest| <= |b| && |r.value.value| == n
    decreases |b|, 2, n
  {
    if n == 0 then Some(Got([], b))
    else
      var others := DecEntries(c, b, k, v, n - 1);
      if others.None? then None
      else
        var last := DecEntry(c, others.value.rest, k, v);
        if last.None? then None else Some(Got(others.value.value + [last.value.value], last.value.rest))
  }

  function DecFields(c: Context, b: seq<byte>, tys: seq<Ty>, priors: seq<Val>): (r: Option<Got<seq<Val>>>)
    requires |priors| == |tys|
    ensures r.Some? ==> |r.value.rest| <= |b| && |r.value.value| == |tys|
    decreases |b|, 2, |tys|
  {
    if tys == [] then Some(Got([], b))
    else
      var first := Dec(c, b, tys[0], priors[0]);
      if first.None? then None
      else
        var others := DecFields(c, first.value.rest, tys[1..], priors[1..]);
        if others.None? then None
        else Some(Got([first.value.value] + others.value.value, others.value.rest))
  }

  // ---- the round trip ----

  lemma SignedBytesRead(i: int, size: nat, rest: seq<byte>)
    requires IsSigned(i, size)
    ensures DecSigned(SignedBytes(i, size) + rest, size) == Some(Got(i, rest))
  {
    SignedRoundTrip(i, size);
    FromLittleBytes(ToUnsigned(i, size), size);
    assert (SignedBytes(i, size) + rest)[..size] == SignedBytes(i, size);
  }

  lemma UnsignedBytesRead(n: nat, size: nat, rest: seq<byte>)
    requires n < Range(size)
    ensures DecUnsigned(LittleBytes(n, size) + rest, size) == Some(Got(n, rest))
  {
    FromLittleBytes(n, size);
    assert (LittleBytes(n, size) + rest)[..size] == LittleBytes(n, size);
  }

  lemma LengthRead(len: nat, rest: seq<byte>)
    requires len <= MAX_LENGTH
    ensures DecLength(LengthBytes(len) + rest) == Some(Got(len, rest))
  {
    Ranges();
    SignedBytesRead(len, 4, rest);
    assert (LengthBytes(len) + rest)[1..] == SignedBytes(len, 4) + rest;
  }

  lemma BlobRead(s: seq<byte>, rest: seq<byte>)
    requires |s| <= MAX_LENGTH
    ensures DecBlob(LengthBytes(|s|) + s + rest) == Some(Got(s, rest))
    ensures DecLength(LengthBytes(|s|) + s + rest) == Some(Got(|s|, s + rest))
  {
    LengthRead(|s|, s + rest);
    assert LengthBytes(|s|) + s + rest == LengthBytes(|s|) + (s + rest);
  }

  lemma {:induction false} AscendingInsertedAll(less: Order, xs: seq<Val>)
    requires Ascending(less, xs)
    ensures InsertedAll(less, xs) == xs
    decreases |xs|
  {
    if xs != [] {
      AscendingInsertedAll(less, xs[..|xs| - 1]);
      assert xs == xs[..|xs| - 1] + [xs[|xs| - 1]];
    }
  }

  lemma {:induction false} AscendingAssignedAll(less: Order, es: seq<Entry>)
    requires AscendingKeys(less, es)
    ensures AssignedAll(less, es) == es
    decreases |es|
  {
    if es != [] {
      AscendingAssignedAll(less, es[..|es| - 1]);
      assert es == es[..|es| - 1] + [es[|es| - 1]];
    }
  }

  lemma Regroup(a: seq<byte>, b: seq<byte>, c: seq<byte>)
    ensures a + b + c == a + (b + c)
  {
  }

  lemma {:induction false} EncAllFirst(vs: seq<Val>)
    requires vs != []
    ensures EncAll(vs) == Enc(vs[0]) + EncAll(vs[1..])
    decreases |vs|
  {
    var n := |vs| - 1;
    EncAllLast(vs, n);
    assert vs[..n + 1] == vs;
    if n == 0 {
      assert vs[..0] == [] && vs[1..] == [];
    } else {
      var front, later := vs[..n], vs[1..];
      EncAllFirst(front);
      EncAllLast(later, n - 1);
      assert later[..n - 1] == front[1..] && later[..n] == later;
      Regroup(Enc(vs[0]), EncAll(front[1..]), Enc(vs[n]));
    }
  }

  lemma EncAllLast(vs: seq<Val>, i: nat)
    requires i < |vs|
    ensures EncAll(vs[..i + 1]) == EncAll(vs[..i]) + Enc(vs[i])
  {
    assert vs[..i + 1][..i] == vs[..i];
  }

  lemma EncEntriesLast(es: seq<Entry>, i: nat)
    requires i < |es|
    ensures EncEntries(es[..i + 1]) == EncEntries(es[..i]) + EncEntry(es[i])
  {
    assert es[..i + 1][..i] == es[..i];
  }

  lemma TagFirst(tag: byte, body: seq<byte>, rest: seq<byte>)
    ensures Starts([tag] + body + rest, tag) && ([tag] + body + rest)[1..] == body + rest
  {
    assert [tag] + body + rest == [tag] + (body + rest);
  }

  // ---- values that hold no other values ----

  /** Reading a variable of the type from b answers true, leaves v in it, and then `rest` is left. */
  ghost predicate Reads(c: Context, b: seq<byte>, ty: Ty, prior: Val, v: Val, rest: seq<byte>) {
    Accepts(b, ty) && Dec(c, b, ty, prior) == Some(Got(v, rest))
  }

  lemma SignedRoundTrips(c: Context, v: Val, ty: Ty, prior: Val, rest: seq<byte>)
    requires Fits(c.less, v, ty)
    requires v.VInt32? || v.VInt64? || v.VEnum?
    ensures Reads(c, Enc(v) + rest, ty, prior, v, rest)
  {
    Ranges();
    var size := if v.VInt64? then 8 else 4;
    var body := SignedBytes(v.i, size);
    SignedBytesRead(v.i, size, rest);
    TagFirst(Tag(ty), body, rest);
    assert Enc(v) == [Tag(ty)] + body;
  }

  lemma UnsignedRoundTrips(c: Context, v: Val, ty: Ty, prior: Val, rest: seq<byte>)
    requires Fits(c.less, v, ty)
    requires v.VUint32? || v.VUint64?
    ensures Reads(c, Enc(v) + rest, ty, prior, v, rest)
  {
    Ranges();
    var size := if v.VUint64? then 8 else 4;
    var body := LittleBytes(v.n, size);
    UnsignedBytesRead(v.n, size, rest);
    TagFirst(Tag(ty), body, rest);
    assert Enc(v) == [Tag(ty)] + body;
  }

  lemma BlobRoundTrips(c: Context, v: Val, ty: Ty, prior: Val, rest: seq<byte>)
    requires Fits(c.less, v, ty)
    requires v.VString? || v.VBytes?
    ensures Reads(c, Enc(v) + rest, ty, prior, v, rest)
  {
    var body := LengthBytes(|v.bytes|) + v.bytes;
    BlobRead(v.bytes, rest);
    TagFirst(Tag(ty), body, rest);
    BlobEnc(v, Tag(ty));
    BlobDec(c, Enc(v) + rest, ty, prior);
  }

  lemma BlobEnc(v: Val, tag: byte)
    requires (v.VString? && tag == STRING) || (v.VBytes? && tag == VECTOR)
    ensures Enc(v) == [tag] + (LengthBytes(|v.bytes|) + v.bytes)
  {
  }

  lemma BlobDec(c: Context, b: seq<byte>, ty: Ty, prior: Val)
    requires Starts(b, Tag(ty)) && (ty.TString? || ty.TBytes?) && DecBlob(b[1..]).Some?
    ensures var r := DecBlob(b[1..]).value;
      Reads(c, b, ty, prior, if ty.TString? then VString(r.value) else VBytes(r.value), r.rest)
  {
  }

  lemma ByteRoundTrips(c: Context, v: Val, ty: Ty, prior: Val, rest: seq<byte>)
    requires Fits(c.less, v, ty)
    requires v.VBool? || v.VChar?
    ensures Reads(c, Enc(v) + rest, ty, prior, v, rest)
  {
    assert (Enc(v) + rest)[..1] == [Tag(ty)];
    assert (Enc(v) + rest)[1..][1..] == rest;
  }

  lemma ScalarRoundTrip(c: Context, v: Val, ty: Ty, prior: Val, rest: seq<byte>)
    requires Fits(c.less, v, ty)
    requires !v.VList? && !v.VSet? && !v.VMap? && !v.VStruct?
    ensures Reads(c, Enc(v) + rest, ty, prior, v, rest)
  {
    match v
    case VBool(_) => ByteRoundTrips(c, v, ty, prior, rest);
    case VChar(_) => ByteRoundTrips(c, v, ty, prior, rest);
    case VUint32(_) => UnsignedRoundTrips(c, v, ty, prior, rest);
    case VUint64(_) => UnsignedRoundTrips(c, v, ty, prior, rest);
    case VString(_) => BlobRoundTrips(c, v, ty, prior, rest);
    case VBytes(_) => BlobRoundTrips(c, v, ty, prior, rest);
    case _ => SignedRoundTrips(c, v, ty, prior, rest);
  }

  // ---- containers, given that their elements are read back ----

  /** A container's bytes: tag, length, and then `tail`. */
  lemma CountedBody(tag: byte, len: nat, tail: seq<byte>)
    requires len <= MAX_LENGTH
    ensures var b := [tag] + LengthBytes(len) + tail;
      Starts(b, tag) && DecLength(b[1..]) == Some(Got(len, tail))
  {
    LengthRead(len, tail);
    TagFirst(tag, LengthBytes(len), tail);
  }

  /** A container is read as its length and then its elements. */
  lemma CountedDec(c: Context, b: seq<byte>, ty: Ty, prior: Val, n: nat, tail: seq<byte>, v: Val, rest: seq<byte>)
    requires IsCounted(ty) && n <= MAX_LENGTH && b == [Tag(ty)] + LengthBytes(n) + tail
    requires DecCounted(c, tail, ty, n) == Some(Got(v, rest))
    ensures Reads(c, b, ty, prior, v, rest)
  {
    CountedBody(Tag(ty), n, tail);
    assert DecBody(c, b[1..], ty, prior) == DecCounted(c, tail, ty, n);
  }

  lemma Continued(head: seq<byte>, elems: seq<byte>, rest: seq<byte>, tail: seq<byte>)
    requires tail == elems + rest
    ensures head + elems + rest == head + tail
  {
    Regroup(head, elems, rest);
  }

  lemma ListBytes(xs: seq<Val>, rest: seq<byte>)
    ensures Enc(VList(xs)) + rest == [LIST] + LengthBytes(|xs|) + Remaining(xs, 0, rest)
    ensures Enc(VSet(xs)) + rest == [SET] + LengthBytes(|xs|) + Remaining(xs, 0, rest)
    ensures Enc(VStruct(xs)) + rest == [CUSTOM] + Remaining(xs, 0, rest)
  {
    AllRemaining(xs, rest);
    Continued([LIST] + LengthBytes(|xs|), EncAll(xs), rest, Remaining(xs, 0, rest));
    Continued([SET] + LengthBytes(|xs|), EncAll(xs), rest, Remaining(xs, 0, rest));
    Continued([CUSTOM], EncAll(xs), rest, Remaining(xs, 0, rest));
  }

  lemma MapBytes(es: seq<Entry>, rest: seq<byte>)
    ensures Enc(VMap(es)) + rest == [MAP] + LengthBytes(|es|) + RemainingEntries(es, 0, rest)
  {
    AllEntriesRemaining(es, rest);
    Continued([MAP] + LengthBytes(|es|), EncEntries(es), rest, RemainingEntries(es, 0, rest));
  }

  lemma ListDecoded(c: Context, xs: seq<Val>, e: Ty, prior: Val, rest: seq<byte>)
    requires |xs| <= MAX_LENGTH && DecMany(c, Remaining(xs, 0, rest), e, |xs|) == Some(Got(xs, rest))
    ensures Reads(c, Enc(VList(xs)) + rest, TList(e), prior, VList(xs), rest)
  {
    ListBytes(xs, rest);
    CountedDec(c, Enc(VList(xs)) + rest, TList(e), prior, |xs|, Remaining(xs, 0, rest), VList(xs), rest);
  }

  lemma SetDecoded(c: Context, xs: seq<Val>, e: Ty, prior: Val, rest: seq<byte>)
    requires |xs| <= MAX_LENGTH && DecMany(c, Remaining(xs, 0, rest), e, |xs|) == Some(Got(xs, rest))
    requires InsertedAll(c.less, xs) == xs
    ensures Reads(c, Enc(VSet(xs)) + rest, TSet(e), prior, VSet(xs), rest)
  {
    ListBytes(xs, rest);
    CountedDec(c, Enc(VSet(xs)) + rest, TSet(e), prior, |xs|, Remaining(xs, 0, rest), VSet(xs), rest);
  }

  lemma MapDecoded(c: Context, es: seq<Entry>, k: Ty, v: Ty, prior: Val, rest: seq<byte>)
    requires |es| <= MAX_LENGTH && DecEntries(c, RemainingEntries(es, 0, rest), k, v, |es|) == Some(Got(es, rest))
    requires AssignedAll(c.less, es) == es
    ensures Reads(c, Enc(VMap(es)) + rest, TMap(k, v), prior, VMap(es), rest)
  {
    MapBytes(es, rest);
    CountedDec(c, Enc(VMap(es)) + rest, TMap(k, v), prior, |es|, RemainingEntries(es, 0, rest), VMap(es), rest);
  }

  lemma StructDec(c: Context, b: seq<byte>, tys: seq<Ty>, prior: Val, tail: seq<byte>, fs: seq<Val>, rest: seq<byte>)
    requires b == [CUSTOM] + tail
    requires DecFields(c, tail, tys, FieldsOf(c, prior, tys)) == Some(Got(fs, rest))
    ensures Reads(c, b, TStruct(tys), prior, VStruct(fs), rest)
  {
    assert b[..1] == [CUSTOM] && b[1..] == tail;
  }

  lemma StructDecoded(c: Context, fs: seq<Val>, tys: seq<Ty>, prior: Val, rest: seq<byte>)
    requires DecFields(c, Remaining(fs, 0, rest), tys, FieldsOf(c, prior, tys)) == Some(Got(fs, rest))
    ensures Reads(c, Enc(VStruct(fs)) + rest, TStruct(tys), prior, VStruct(fs), rest)
  {
    ListBytes(fs, rest);
    StructDec(c, Enc(VStruct(fs)) + rest, tys, prior, Remaining(fs, 0, rest), fs, rest);
  }

  // ---- every value ----

  /** The value's bytes, followed by anything, are read back as the value, whatever the variable held. */
  ghost predicate Decodes(c: Context, v: Val, ty: Ty) {
    forall prior, rest :: Reads(c, Enc(v) + rest, ty, prior, v, rest)
  }

  ghost predicate AllDecode(c: Context, vs: seq<Val>, e: Ty) {
    forall i :: 0 <= i < |vs| ==> Decodes(c, vs[i], e)
  }

  ghost predicate FieldsDecode(c: Context, vs: seq<Val>, tys: seq<Ty>)
    requires |vs| == |tys|
  {
    forall i :: 0 <= i < |vs| ==> Decodes(c, vs[i], tys[i])
  }

  ghost predicate EntryDecodes(c: Context, e: Entry, k: Ty, t: Ty) {
    Decodes(c, e.key, k) && Decodes(c, e.value, t)
  }

  ghost predicate EntriesDecode(c: Context, es: seq<Entry>, k: Ty, t: Ty) {
    forall i :: 0 <= i < |es| ==> EntryDecodes(c, es[i], k, t)
  }

  lemma {:induction false} FittingDecodes(c: Context, v: Val, ty: Ty)
    requires Fits(c.less, v, ty)
    ensures Decodes(c, v, ty)
    decreases v
  {
    match v
    case VList(xs) =>
      forall i | 0 <= i < |xs| ensures Decodes(c, xs[i], ty.elem) { FittingDecodes(c, xs[i], ty.elem); }
      ListDecodes(c, xs, ty.elem);
    case VSet(xs) =>
      forall i | 0 <= i < |xs| ensures Decodes(c, xs[i], ty.elem) { FittingDecodes(c, xs[i], ty.elem); }
      SetDecodes(c, xs, ty.elem);
    case VMap(es) =>
      forall i | 0 <= i < |es| ensures EntryDecodes(c, es[i], ty.key, ty.value) {
        FittingDecodes(c, es[i].key, ty.key);
        FittingDecodes(c, es[i].value, ty.value);
      }
      MapDecodes(c, es, ty.key, ty.value);
    case VStruct(fs) =>
      forall i | 0 <= i < |fs| ensures Decodes(c, fs[i], ty.fields[i]) { FittingDecodes(c, fs[i], ty.fields[i]); }
      StructDecodes(c, fs, ty.fields);
    case _ =>
      forall prior, rest ensures Reads(c, Enc(v) + rest, ty, prior, v, rest) {
        ScalarRoundTrip(c, v, ty, prior, rest);
      }
  }

  lemma ListDecodes(c: Context, xs: seq<Val>, e: Ty)
    requires |xs| <= MAX_LENGTH && AllDecode(c, xs, e)
    ensures Decodes(c, VList(xs), TList(e))
  {
    forall prior, rest ensures Reads(c, Enc(VList(xs)) + rest, TList(e), prior, VList(xs), rest) {
      ManyRoundTrip(c, xs, e, rest);
      ListDecoded(c, xs, e, prior, rest);
    }
  }

  lemma SetDecodes(c: Context, xs: seq<Val>, e: Ty)
    requires |xs| <= MAX_LENGTH && AllDecode(c, xs, e) && Ascending(c.less, xs)
    ensures Decodes(c, VSet(xs), TSet(e))
  {
    AscendingInsertedAll(c.less, xs);
    forall prior, rest ensures Reads(c, Enc(VSet(xs)) + rest, TSet(e), prior, VSet(xs), rest) {
      ManyRoundTrip(c, xs, e, rest);
      SetDecoded(c, xs, e, prior, rest);
    }
  }

  lemma MapDecodes(c: Context, es: seq<Entry>, k: Ty, t: Ty)
    requires |es| <= MAX_LENGTH && EntriesDecode(c, es, k, t) && AscendingKeys(c.less, es)
    ensures Decodes(c, VMap(es), TMap(k, t))
  {
    AscendingAssignedAll(c.less, es);
    forall prior, rest ensures Reads(c, Enc(VMap(es)) + rest, TMap(k, t), prior, VMap(es), rest) {
      EntriesRoundTrip(c, es, k, t, rest);
      MapDecoded(c, es, k, t, prior, rest);
    }
  }

  lemma StructDecodes(c: Context, fs: seq<Val>, tys: seq<Ty>)
    requires |fs| == |tys| && FieldsDecode(c, fs, tys)
    ensures Decodes(c, VStruct(fs), TStruct(tys))
  {
    forall prior, rest ensures Reads(c, Enc(VStruct(fs)) + rest, TStruct(tys), prior, VStruct(fs), rest) {
      FieldsRoundTrip(c, fs, tys, FieldsOf(c, prior, tys), rest);
      StructDecoded(c, fs, tys, prior, rest);
    }
  }

  /** Reading what was written answers true, gives the value back whatever the variable held, and leaves
      what follows. */
  lemma RoundTrip(c: Context, v: Val, ty: Ty, prior: Val, rest: seq<byte>)
    requires Fits(c.less, v, ty)
    ensures Accepts(Enc(v) + rest, ty)
    ensures Dec(c, Enc(v) + rest, ty, prior) == Some(Got(v, rest))
  {
    FittingDecodes(c, v, ty);
    assert Reads(c, Enc(v) + rest, ty, prior, v, rest);
  }

  // ---- sequences of elements, entries and fields ----

  lemma ManyStep(c: Context, b: seq<byte>, e: Ty, n: nat, vs: seq<Val>, mid: seq<byte>, v: Val, rest: seq<byte>)
    requires DecMany(c, b, e, n) == Some(Got(vs, mid)) && Dec(c, mid, e, c.unset(e)) == Some(Got(v, rest))
    ensures DecMany(c, b, e, n + 1) == Some(Got(vs + [v], rest))
  {
  }

  lemma EntriesStep(c: Context, b: seq<byte>, k: Ty, t: Ty, n: nat, es: seq<Entry>, mid: seq<byte>,
                    e: Entry, rest: seq<byte>)
    requires DecEntries(c, b, k, t, n) == Some(Got(es, mid)) && DecEntry(c, mid, k, t) == Some(Got(e, rest))
    ensures DecEntries(c, b, k, t, n + 1) == Some(Got(es + [e], rest))
  {
  }

  /** Whatever comes before the n-th element of a readable sequence can be read, and so can that element. */
  lemma {:induction false} ManyPrefix(c: Context, b: seq<byte>, e: Ty, i: nat, n: nat)
    requires i < n && DecMany(c, b, e, n).Some?
    ensures var r := DecMany(c, b, e, i); r.Some? && Dec(c, r.value.rest, e, c.unset(e)).Some?
    decreases n
  {
    if i < n - 1 { ManyPrefix(c, b, e, i, n - 1); }
  }

  lemma {:induction false} EntriesPrefix(c: Context, b: seq<byte>, k: Ty, t: Ty, i: nat, n: nat)
    requires i < n && DecEntries(c, b, k, t, n).Some?
    ensures var r := DecEntries(c, b, k, t, i); r.Some? && DecEntry(c, r.value.rest, k, t).Some?
    decreases n
  {
    if i < n - 1 { EntriesPrefix(c, b, k, t, i, n - 1); }
  }

  /** The bytes of the elements from the n-th on, and what follows them. */
  function Remaining(vs: seq<Val>, n: nat, rest: seq<byte>): seq<byte>
    requires n <= |vs|
    decreases |vs| - n
  {
    if n == |vs| then rest else Enc(vs[n]) + Remaining(vs, n + 1, rest)
  }

  lemma {:induction false} RemainingFrom(vs: seq<Val>, n: nat, rest: seq<byte>)
    requires n <= |vs|
    ensures EncAll(vs[..n]) + Remaining(vs, n, rest) == EncAll(vs) + rest
    decreases |vs| - n
  {
    if n == |vs| {
      assert vs[..n] == vs;
    } else {
      RemainingFrom(vs, n + 1, rest);
      EncAllLast(vs, n);
      Regroup(EncAll(vs[..n]), Enc(vs[n]), Remaining(vs, n + 1, rest));
    }
  }

  lemma AllRemaining(vs: seq<Val>, rest: seq<byte>)
    ensures Remaining(vs, 0, rest) == EncAll(vs) + rest
  {
    RemainingFrom(vs, 0, rest);
    assert vs[..0] == [];
  }

  lemma NextDecodes(c: Context, b: seq<byte>, e: Ty, n: nat, front: seq<Val>, last: Val, more: seq<byte>)
    requires DecMany(c, b, e, n) == Some(Got(front, Enc(last) + more)) && Decodes(c, last, e)
    ensures DecMany(c, b, e, n + 1) == Some(Got(front + [last], more))
  {
    assert Reads(c, Enc(last) + more, e, c.unset(e), last, more);
    ManyStep(c, b, e, n, front, Enc(last) + more, last, more);
  }

  lemma {:induction false} SomeRoundTrip(c: Context, vs: seq<Val>, n: nat, e: Ty, rest: seq<byte>)
    requires n <= |vs| && AllDecode(c, vs, e)
    ensures DecMany(c, Remaining(vs, 0, rest), e, n) == Some(Got(vs[..n], Remaining(vs, n, rest)))
    decreases n
  {
    if n > 0 {
      SomeRoundTrip(c, vs, n - 1, e, rest);
      assert Decodes(c, vs[n - 1], e);
      NextDecodes(c, Remaining(vs, 0, rest), e, n - 1, vs[..n - 1], vs[n - 1], Remaining(vs, n, rest));
      assert vs[..n] == vs[..n - 1] + [vs[n - 1]];
    }
  }

  lemma ManyRoundTrip(c: Context, vs: seq<Val>, e: Ty, rest: seq<byte>)
    requires AllDecode(c, vs, e)
    ensures DecMany(c, Remaining(vs, 0, rest), e, |vs|) == Some(Got(vs, rest))
  {
    SomeRoundTrip(c, vs, |vs|, e, rest);
    assert vs[..|vs|] == vs;
  }

  lemma FieldsStep(c: Context, b: seq<byte>, tys: seq<Ty>, priors: seq<Val>, v: Val, mid: seq<byte>,
                   vs: seq<Val>, rest: seq<byte>)
    requires tys != [] && |priors| == |tys|
    requires Dec(c, b, tys[0], priors[0]) == Some(Got(v, mid))
    requires DecFields(c, mid, tys[1..], priors[1..]) == Some(Got(vs, rest))
    ensures DecFields(c, b, tys, priors) == Some(Got([v] + vs, rest))
  {
  }

  lemma FirstFieldDecodes(c: Context, tys: seq<Ty>, priors: seq<Val>, first: Val, more: seq<byte>,
                          others: seq<Val>, rest: seq<byte>)
    requires tys != [] && |priors| == |tys| && Decodes(c, first, tys[0])
    requires DecFields(c, more, tys[1..], priors[1..]) == Some(Got(others, rest))
    ensures DecFields(c, Enc(first) + more, tys, priors) == Some(Got([first] + others, rest))
  {
    assert Reads(c, Enc(first) + more, tys[0], priors[0], first, more);
    FieldsStep(c, Enc(first) + more, tys, priors, first, more, others, rest);
  }

  lemma {:induction false} LastFieldsRoundTrip(c: Context, vs: seq<Val>, n: nat, tys: seq<Ty>, priors: seq<Val>,
                                               rest: seq<byte>)
    requires |vs| == |tys| == |priors| && n <= |vs| && FieldsDecode(c, vs, tys)
    ensures DecFields(c, Remaining(vs, n, rest), tys[n..], priors[n..]) == Some(Got(vs[n..], rest))
    decreases |vs| - n
  {
    if n < |vs| {
      LastFieldsRoundTrip(c, vs, n + 1, tys, priors, rest);
      assert Decodes(c, vs[n], tys[n]);
      assert tys[n..][1..] == tys[n + 1..] && priors[n..][1..] == priors[n + 1..];
      FirstFieldDecodes(c, tys[n..], priors[n..], vs[n], Remaining(vs, n + 1, rest), vs[n + 1..], rest);
      assert vs[n..] == [vs[n]] + vs[n + 1..];
    } else {
      assert vs[n..] == [] && tys[n..] == [];
    }
  }

  lemma FieldsRoundTrip(c: Context, vs: seq<Val>, tys: seq<Ty>, priors: seq<Val>, rest: seq<byte>)
    requires |vs| == |tys| == |priors| && FieldsDecode(c, vs, tys)
    ensures DecFields(c, Remaining(vs, 0, rest), tys, priors) == Some(Got(vs, rest))
  {
    LastFieldsRoundTrip(c, vs, 0, tys, priors, rest);
    assert vs[0..] == vs && tys[0..] == tys && priors[0..] == priors;
  }

  lemma EntryStep(c: Context, b: seq<byte>, k: Ty, v: Ty, e: Entry, mid: seq<byte>, rest: seq<byte>)
    requires Dec(c, b, k, c.unset(k)) == Some(Got(e.key, mid)) && Dec(c, mid, v, c.unset(v)) == Some(Got(e.value, rest))
    ensures DecEntry(c, b, k, v) == Some(Got(e, rest))
  {
  }

  lemma EntryRoundTrip(c: Context, e: Entry, k: Ty, v: Ty, more: seq<byte>)
    requires EntryDecodes(c, e, k, v)
    ensures DecEntry(c, EncEntry(e) + more, k, v) == Some(Got(e, more))
  {
    Regroup(Enc(e.key), Enc(e.value), more);
    assert Reads(c, Enc(e.key) + (Enc(e.value) + more), k, c.unset(k), e.key, Enc(e.value) + more);
    assert Reads(c, Enc(e.value) + more, v, c.unset(v), e.value, more);
    EntryStep(c, EncEntry(e) + more, k, v, e, Enc(e.value) + more, more);
  }

  function RemainingEntries(es: seq<Entry>, n: nat, rest: seq<byte>): seq<byte>
    requires n <= |es|
    decreases |es| - n
  {
    if n == |es| then rest else EncEntry(es[n]) + RemainingEntries(es, n + 1, rest)
  }

  lemma {:induction false} RemainingEntriesFrom(es: seq<Entry>, n: nat, rest: seq<byte>)
    requires n <= |es|
    ensures EncEntries(es[..n]) + RemainingEntries(es, n, rest) == EncEntries(es) + rest
    decreases |es| - n
  {
    if n == |es| {
      assert es[..n] == es;
    } else {
      RemainingEntriesFrom(es, n + 1, rest);
      EncEntriesLast(es, n);
      Regroup(EncEntries(es[..n]), EncEntry(es[n]), RemainingEntries(es, n + 1, rest));
    }
  }

  lemma AllEntriesRemaining(es: seq<Entry>, rest: seq<byte>)
    ensures RemainingEntries(es, 0, rest) == EncEntries(es) + rest
  {
    RemainingEntriesFrom(es, 0, rest);
    assert es[..0] == [];
  }

  lemma NextEntryDecodes(c: Context, b: seq<byte>, k: Ty, t: Ty, n: nat, front: seq<Entry>, last: Entry,
                         more: seq<byte>)
    requires DecEntries(c, b, k, t, n) == Some(Got(front, EncEntry(last) + more)) && EntryDecodes(c, last, k, t)
    ensures DecEntries(c, b, k, t, n + 1) == Some(Got(front + [last], more))
  {
    EntryRoundTrip(c, last, k, t, more);
    EntriesStep(c, b, k, t, n, front, EncEntry(last) + more, last, more);
  }

  lemma {:induction false} SomeEntriesRoundTrip(c: Context, es: seq<Entry>, n: nat, k: Ty, v: Ty, rest: seq<byte>)
    requires n <= |es| && EntriesDecode(c, es, k, v)
    ensures DecEntries(c, RemainingEntries(es, 0, rest), k, v, n) == Some(Got(es[..n], RemainingEntries(es, n, rest)))
    decreases n
  {
    if n > 0 {
      SomeEntriesRoundTrip(c, es, n - 1, k, v, rest);
      assert EntryDecodes(c, es[n - 1], k, v);
      NextEntryDecodes(c, RemainingEntries(es, 0, rest), k, v, n - 1, es[..n - 1], es[n - 1],
                       RemainingEntries(es, n, rest));
      assert es[..n] == es[..n - 1] + [es[n - 1]];
    }
  }

  lemma EntriesRoundTrip(c: Context, es: seq<Entry>, k: Ty, v: Ty, rest: seq<byte>)
    requires EntriesDecode(c, es, k, v)
    ensures DecEntries(c, RemainingEntries(es, 0, rest), k, v, |es|) == Some(Got(es, rest))
  {
    SomeEntriesRoundTrip(c, es, |es|, k, v, rest);
    assert es[..|es|] == es;
  }

  /** No value's bytes are the beginning of another value's bytes of the same type. */
  lemma WireIsPrefixFree(c: Context, v: Val, w: Val, ty: Ty, a: seq<byte>, b: seq<byte>)
    requires Fits(c.less, v, ty) && Fits(c.less, w, ty)
    requires Enc(v) + a == Enc(w) + b
    ensures v == w && a == b
  {
    RoundTrip(c, v, ty, v, a);
    RoundTrip(c, w, ty, v, b);
  }

  // ---- values of other types ----

  /** The types whose values look alike on the wire: an enum goes out as an integer. */
  predicate SameKind(a: Ty, b: Ty) {
    match a
    case TBool => b.TBool?
    case TChar => b.TChar?
    case TInt32 => b.TInt32? || b.TEnum?
    case TInt64 => b.TInt64?
    case TUint32 => b.TUint32?
    case TUint64 => b.TUint64?
    case TEnum => b.TInt32? || b.TEnum?
    case TString => b.TString?
    case TBytes => b.TBytes?
    case TList(_) => b.TList?
    case TMap(_, _) => b.TMap?
    case TSet(_) => b.TSet?
    case TStruct(_) => b.TStruct?
  }

  /** Every value begins with the number that the source's enumeration gives its type. */
  lemma FirstByte(less: Order, v: Val, ty: Ty)
    requires Fits(less, v, ty)
    ensures Enc(v)[0] == match ty
                         case TBool => 0
                         case TChar => 1
                         case TInt32 => 2
                         case TInt64 => 3
                         case TUint32 => 4
                         case TUint64 => 5
                         case TEnum => 2
                         case TString => 9
                         case TBytes => 10
                         case TList(_) => 11
                         case TMap(_, _) => 12
                         case TSet(_) => 13
                         case TStruct(_) => 14
  {
  }

  lemma ForeignTag(less: Order, v: Val, ty: Ty, other: Ty, rest: seq<byte>)
    requires Fits(less, v, ty) && !SameKind(ty, other)
    ensures var b := Enc(v) + rest; |b| > 0 && !Starts(b, Tag(other))
  {
    FirstByte(less, v, ty);
    assert (Enc(v) + rest)[..1] == [Enc(v)[0]];
  }

  /**
   * A value is never taken for one of another kind.  Reading it into a variable of a type of another kind
   * answers false and consumes nothing, except that a struct has already taken the one byte it looked at;
   * a container or a vector is left empty, and any other variable holds what it held.
   */
  lemma ForeignIsRefused(c: Context, v: Val, ty: Ty, other: Ty, prior: Val, rest: seq<byte>)
    requires Fits(c.less, v, ty) && !SameKind(ty, other)
    ensures !Accepts(Enc(v) + rest, other)
    ensures var r := Dec(c, Enc(v) + rest, other, prior);
      && r.Some?
      && r.value.rest == (if other.TStruct? then Enc(v)[1..] + rest else Enc(v) + rest)
      && r.value.value == match other
                          case TBytes => VBytes([])
                          case TList(_) => VList([])
                          case TMap(_, _) => VMap([])
                          case TSet(_) => VSet([])
                          case _ => prior
  {
    ForeignTag(c.less, v, ty, other, rest);
    assert (Enc(v) + rest)[1..] == Enc(v)[1..] + rest;
  }

  /** And a value of the same kind, but for the types inside, is taken for one: kinds are all the tags tell. */
  lemma SameKindIsAccepted(c: Context, v: Val, ty: Ty, other: Ty, rest: seq<byte>)
    requires Fits(c.less, v, ty)
    ensures Accepts(Enc(v) + rest, other) <==> SameKind(ty, other)
  {
    if SameKind(ty, other) {
      RoundTrip(c, v, ty, v, rest);
    } else {
      ForeignIsRefused(c, v, ty, other, v, rest);
    }
  }

  // ---- sets and maps from bytes in any order ----

  /** The order of a set or a map: of two different values exactly one comes first. */
  ghost predicate IsTotal(less: Order) {
    && (forall a, b :: less(a, b) ==> !less(b, a) && a != b)
    && (forall a, b :: a != b ==> less(a, b) || less(b, a))
    && (forall a, b, c :: less(a, b) && less(b, c) ==> less(a, c))
  }

  lemma {:induction false} InsertedIsIn(less: Order, xs: seq<Val>, v: Val)
    requires IsTotal(less) && Ascending(less, xs)
    ensures Ascending(less, Inserted(less, xs, v))
    ensures forall w :: w in Inserted(less, xs, v) <==> w == v || w in xs
    decreases |xs|
  {
    if xs != [] {
      var front, last := xs[..|xs| - 1], xs[|xs| - 1];
      assert xs == front + [last];
      assert forall w :: w in front ==> less(w, last);
      InsertedIsIn(less, front, v);
    }
  }

  /** Whatever the order of the elements read, and however often each comes, the set holds exactly them, in order. */
  lemma {:induction false} SetHoldsWhatWasRead(less: Order, xs: seq<Val>)
    requires IsTotal(less)
    ensures Ascending(less, InsertedAll(less, xs))
    ensures forall v :: v in InsertedAll(less, xs) <==> v in xs
    decreases |xs|
  {
    if xs != [] {
      var front, last := xs[..|xs| - 1], xs[|xs| - 1];
      assert xs == front + [last];
      SetHoldsWhatWasRead(less, front);
      InsertedIsIn(less, InsertedAll(less, front), last);
    }
  }

  lemma {:induction false} AssignedIsIn(less: Order, es: seq<Entry>, e: Entry)
    requires IsTotal(less) && AscendingKeys(less, es)
    ensures AscendingKeys(less, Assigned(less, es, e))
    ensures forall d :: d in Assigned(less, es, e) <==> d == e || (d in es && d.key != e.key)
    decreases |es|
  {
    if es != [] {
      var front, last := es[..|es| - 1], es[|es| - 1];
      assert es == front + [last];
      assert forall d :: d in front ==> less(d.key, last.key);
      if less(e.key, last.key) {
        AssignedIsIn(less, front, e);
      } else if e.key == last.key {
        assert Assigned(less, es, e) == front + [e];
      }
    }
  }

  /** The last entry with the key has this value. */
  ghost predicate IsLastValue(es: seq<Entry>, d: Entry) {
    exists i :: 0 <= i < |es| && es[i] == d && forall j :: i < j < |es| ==> es[j].key != d.key
  }

  lemma LastValueStays(front: seq<Entry>, last: Entry, d: Entry)
    ensures IsLastValue(front + [last], d) <==> d == last || (IsLastValue(front, d) && d.key != last.key)
  {
    var es := front + [last];
    assert es[|front|] == last;
    if IsLastValue(front, d) && d.key != last.key {
      var i :| 0 <= i < |front| && front[i] == d && forall j :: i < j < |front| ==> front[j].key != d.key;
      assert es[i] == d;
    }
    if IsLastValue(es, d) && d != last {
      var i :| 0 <= i < |es| && es[i] == d && forall j :: i < j < |es| ==> es[j].key != d.key;
      assert front[i] == d && forall j :: i < j < |front| ==> front[j] == es[j];
    }
  }

  /** Whatever the order of the entries read, the map holds each key once, in order, with its last value. */
  lemma {:induction false} MapHoldsLastValues(less: Order, es: seq<Entry>)
    requires IsTotal(less)
    ensures AscendingKeys(less, AssignedAll(less, es))
    ensures forall d :: d in AssignedAll(less, es) <==> IsLastValue(es, d)
    decreases |es|
  {
    if es != [] {
      var front, last := es[..|es| - 1], es[|es| - 1];
      assert es == front + [last];
      MapHoldsLastValues(less, front);
      AssignedIsIn(less, AssignedAll(less, front), last);
      forall d ensures IsLastValue(es, d) <==> d == last || (IsLastValue(front, d) && d.key != last.key) {
        LastValueStays(front, last, d);
      }
    }
  }

  /** A type whose variables keep what they hold when a read meets another tag. */
  predicate Keeps(ty: Ty) { !IsCounted(ty) && !ty.TBytes? && !ty.TStruct? }

  /** n variables that nothing has been read into. */
  function Unread(c: Context, e: Ty, n: nat): (vs: seq<Val>)
    ensures |vs| == n && forall i :: 0 <= i < n ==> vs[i] == c.unset(e)
  {
    if n == 0 then [] else Unread(c, e, n - 1) + [c.unset(e)]
  }

  lemma {:induction false} ForeignMany(c: Context, b: seq<byte>, e: Ty, n: nat)
    requires |b| > 0 && !Starts(b, Tag(e)) && Keeps(e)
    ensures DecMany(c, b, e, n) == Some(Got(Unread(c, e, n), b))
    decreases n
  {
    if n > 0 {
      ForeignMany(c, b, e, n - 1);
      ManyStep(c, b, e, n - 1, Unread(c, e, n - 1), b, c.unset(e), b);
    }
  }

  /**
   * The answers inside a container are not looked at.  A list read as a list of another kind of element
   * answers true: it has as many elements as were written, none of them read, and their bytes are left.
   */
  lemma ForeignElements(c: Context, xs: seq<Val>, e: Ty, other: Ty, prior: Val, rest: seq<byte>)
    requires Fits(c.less, VList(xs), TList(e)) && !SameKind(e, other) && Keeps(other) && xs != []
    ensures Accepts(Enc(VList(xs)) + rest, TList(other))
    ensures Dec(c, Enc(VList(xs)) + rest, TList(other), prior) ==
              Some(Got(VList(Unread(c, other, |xs|)), EncAll(xs) + rest))
  {
    var tail := Remaining(xs, 0, rest);
    AllRemaining(xs, rest);
    ForeignTag(c.less, xs[0], e, other, Remaining(xs, 1, rest));
    ForeignMany(c, tail, other, |xs|);
    ListBytes(xs, rest);
    CountedDec(c, Enc(VList(xs)) + rest, TList(other), prior, |xs|, tail, VList(Unread(c, other, |xs|)), tail);
  }

  /** A string whose length is negative is refused behind its length, and the variable keeps what it held. */
  lemma NegativeLength(c: Context, len: int, prior: Val, rest: seq<byte>)
    requires IsInt32(len) && len < 0
    ensures var b := [STRING] + ([INT32] + SignedBytes(len, 4)) + rest;
      !Accepts(b, TString) && Dec(c, b, TString, prior) == Some(Got(prior, rest))
  {
    Ranges();
    var body := [INT32] + SignedBytes(len, 4);
    SignedBytesRead(len, 4, rest);
    TagFirst(STRING, body, rest);
    assert (body + rest)[1..] == SignedBytes(len, 4) + rest;
    assert Starts(body + rest, INT32);
  }

  lemma FourBytes(low: byte, high: byte)
    ensures LittleBytes(low + 256 * high, 4) == [low, high, 0, 0]
    ensures SignedBytes(low + 256 * high, 4) == [low, high, 0, 0]
  {
    Ranges();
    assert LittleBytes(0, 2) == [0] + LittleBytes(0, 1);
    assert LittleBytes(high, 3) == [high] + LittleBytes(0, 2);
  }

  /** A map from 258 to true, byte by byte: tag, length, and the key before its value. */
  lemma MapExample()
    ensures Enc(VMap([Entry(VInt32(258), VBool(true))])) == [12, 2, 1, 0, 0, 0, 2, 2, 1, 0, 0, 0, 1]
  {
    FourBytes(1, 0);
    FourBytes(2, 1);
    var e := Entry(VInt32(258), VBool(true));
    assert EncEntry(e) == [2, 2, 1, 0, 0, 0, 1];
    EncEntriesLast([e], 0);
    assert [e][..0] == [] && [e][..1] == [e];
  }

  /** A struct of a string and a character: its own tag, no length, and its fields in order. */
  lemma StructExample()
    ensures Enc(VStruct([VString([104, 105]), VChar(7)])) == [14, 9, 2, 2, 0, 0, 0, 104, 105, 1, 7]
  {
    FourBytes(2, 0);
    var s, c := VString([104, 105]), VChar(7);
    assert Enc(s) == [9, 2, 2, 0, 0, 0, 104, 105];
    EncAllFirst([s, c]);
    assert [s, c][1..] == [c] && [c][1..] == [];
    EncAllFirst([c]);
  }
}
