/** The stream object: a growing buffer, a read position, and the byte order of its host. */
module StreamBuffer {
  import opened Bytes
  import opened DataStream
  import opened Options

  ghost predicate AllFit(less: Order, whole: Val, vs: seq<Val>, e: Ty) {
    forall i :: 0 <= i < |vs| ==> vs[i] < whole && Fits(less, vs[i], e)
  }

  ghost predicate EntriesFit(less: Order, whole: Val, es: seq<Entry>, k: Ty, v: Ty) {
    forall i :: 0 <= i < |es| ==>
      es[i].key < whole && es[i].value < whole && Fits(less, es[i].key, k) && Fits(less, es[i].value, v)
  }

  class Stream {
    var buf: seq<byte>
    var pos: nat
    const host: ByteOrder
    var order: ByteOrder
    const context: Context

    predicate Valid() reads this { pos <= |buf| && order == host }

    /** What has not been read yet. */
    function Left(): seq<byte>
      reads this
      requires pos <= |buf|
    {
      buf[pos..]
    }

    /** A stream over received bytes, on a host of either byte order. */
    constructor (host: ByteOrder, context: Context, data: seq<byte>)
      ensures Valid() && this.host == host && this.context == context
      ensures buf == data && pos == 0
    {
      this.host, this.context := host, context;
      buf, pos := data, 0;
      new;
      var o := HostOrder(host);
      order := o;
    }

    // ---- writing ----

    method WriteRaw(data: seq<byte>)
      modifies this`buf
      ensures buf == old(buf) + data
    {
      buf := buf + data;
    }

    /** One integer of `size` bytes: the bytes in memory, reversed on big-endian hosts. */
    method WriteInteger(tag: byte, n: nat, size: nat)
      requires Valid()
      modifies this`buf
      ensures Valid() && buf == old(buf) + ([tag] + LittleBytes(n, size))
    {
      WriteRaw([tag]);
      var bytes := InMemory(host, n, size);
      if order == BigEndian { bytes := Reversed(bytes); }
      SameOnEveryHost(host, n, size);
      WriteRaw(bytes);
    }

    method WriteSigned(tag: byte, i: int, size: nat)
      requires Valid() && IsSigned(i, size)
      modifies this`buf
      ensures Valid() && buf == old(buf) + ([tag] + SignedBytes(i, size))
    {
      WriteInteger(tag, ToUnsigned(i, size), size);
    }

    method WriteLength(len: nat)
      requires Valid() && len <= MAX_LENGTH
      modifies this`buf
      ensures Valid() && buf == old(buf) + LengthBytes(len)
    {
      Ranges();
      WriteSigned(INT32, len, 4);
    }

    method WriteInt32(i: int)
      requires Valid() && IsInt32(i)
      modifies this`buf
      ensures Valid() && buf == old(buf) + ([INT32] + SignedBytes(i, 4))
    {
      Ranges();
      WriteSigned(INT32, i, 4);
    }

    method WriteInt64(i: int)
      requires Valid() && IsInt64(i)
      modifies this`buf
      ensures Valid() && buf == old(buf) + ([INT64] + SignedBytes(i, 8))
    {
      Ranges();
      WriteSigned(INT64, i, 8);
    }

    method WriteByte(tag: byte, b: byte)
      requires Valid()
      modifies this`buf
      ensures Valid() && buf == old(buf) + [tag, b]
    {
      WriteRaw([tag]);
      WriteRaw([b]);
    }

    /** Appends exactly the wire form of the value, the same on every host. */
    method Write(v: Val, ghost ty: Ty)
      requires Valid() && Fits(context.less, v, ty)
      modifies this`buf
      ensures Valid() && buf == old(buf) + Enc(v)
      decreases v, 3
    {
      match v {
        case VBool(b) => WriteByte(BOOL, if b then 1 else 0);
        case VChar(c) => WriteByte(CHAR, c);
        case VString(s) => WriteBlob(STRING, s);
        case VBytes(s) => WriteBlob(VECTOR, s);
        case VUint32(n) => WriteInteger(UINT32, n, 4);
        case VUint64(n) => WriteInteger(UINT64, n, 8);
        case VInt32(i) => WriteInt32(i);
        case VInt64(i) => WriteInt64(i);
        case VEnum(i) => WriteInt32(i);
        case VList(xs) => WriteCounted(LIST, xs, ty.elem, v);
        case VSet(xs) => WriteCounted(SET, xs, ty.elem, v);
        case VMap(es) => WriteEntries(es, ty.key, ty.value, v);
        case VStruct(fs) =>
          WriteRaw([CUSTOM]);
          WriteArgs(fs, ty.fields, v);
      }
    }

    method WriteBlob(tag: byte, s: seq<byte>)
      requires Valid() && |s| <= MAX_LENGTH
      modifies this`buf
      ensures Valid() && buf == old(buf) + ([tag] + LengthBytes(|s|) + s)
    {
      WriteRaw([tag]);
      WriteLength(|s|);
      WriteRaw(s);
    }

    method WriteCounted(tag: byte, xs: seq<Val>, ghost e: Ty, ghost whole: Val)
      requires Valid() && |xs| <= MAX_LENGTH && AllFit(context.less, whole, xs, e)
      modifies this`buf
      ensures Valid() && buf == old(buf) + ([tag] + LengthBytes(|xs|) + EncAll(xs))
      decreases whole, 1
    {
      WriteRaw([tag]);
      WriteLength(|xs|);
      WriteEach(xs, e, whole);
    }

    method WriteEach(xs: seq<Val>, ghost e: Ty, ghost whole: Val)
      requires Valid() && AllFit(context.less, whole, xs, e)
      modifies this`buf
      ensures Valid() && buf == old(buf) + EncAll(xs)
      decreases whole, 0
    {
      for i := 0 to |xs|
        invariant Valid() && buf == old(buf) + EncAll(xs[..i])
      {
        Write(xs[i], e);
        OneMore(old(buf), xs, i);
      }
      assert xs[..|xs|] == xs;
    }

    method WriteEntry(e: Entry, ghost k: Ty, ghost t: Ty, ghost whole: Val)
      requires Valid() && e.key < whole && e.value < whole
      requires Fits(context.less, e.key, k) && Fits(context.less, e.value, t)
      modifies this`buf
      ensures Valid() && buf == old(buf) + EncEntry(e)
      decreases whole, 0, 0
    {
      Write(e.key, k);
      Write(e.value, t);
    }

    method WriteEntries(es: seq<Entry>, ghost k: Ty, ghost t: Ty, ghost whole: Val)
      requires Valid() && |es| <= MAX_LENGTH && EntriesFit(context.less, whole, es, k, t)
      modifies this`buf
      ensures Valid() && buf == old(buf) + ([MAP] + LengthBytes(|es|) + EncEntries(es))
      decreases whole, 2
    {
      WriteRaw([MAP]);
      WriteLength(|es|);
      WriteEachEntry(es, k, t, whole);
    }

    method WriteEachEntry(es: seq<Entry>, ghost k: Ty, ghost t: Ty, ghost whole: Val)
      requires Valid() && EntriesFit(context.less, whole, es, k, t)
      modifies this`buf
      ensures Valid() && buf == old(buf) + EncEntries(es)
      decreases whole, 1
    {
      for i := 0 to |es|
        invariant Valid() && buf == old(buf) + EncEntries(es[..i])
      {
        WriteEntry(es[i], k, t, whole);
        OneMoreEntry(old(buf), es, i);
      }
      assert es[..|es|] == es;
    }

    /** The fields of a struct, head first. */
    method WriteArgs(vs: seq<Val>, ghost tys: seq<Ty>, ghost whole: Val)
      requires Valid() && |vs| == |tys|
      requires forall i :: 0 <= i < |vs| ==> vs[i] < whole && Fits(context.less, vs[i], tys[i])
      modifies this`buf
      ensures Valid() && buf == old(buf) + EncAll(vs)
      decreases whole, 0, |vs|
    {
      if vs != [] {
        EncAllFirst(vs);
        Write(vs[0], tys[0]);
        WriteArgs(vs[1..], tys[1..], whole);
      }
    }

    // ---- reading ----

    method ReadInteger(size: nat) returns (n: nat)
      requires Valid() && pos + size <= |buf|
      modifies this`pos
      ensures Valid() && pos == old(pos) + size && n == FromLittle(buf[old(pos)..pos])
    {
      var bytes := buf[pos..pos + size];
      ReadOnEveryHost(host, bytes);
      n := if order == BigEndian then FromMemory(host, Reversed(bytes)) else FromMemory(host, bytes);
      pos := pos + size;
    }

    method ReadLength() returns (len: int)
      requires Valid() && DecLength(Left()).Some?
      modifies this`pos
      ensures Valid() && Some(Got(len, Left())) == DecLength(old(Left()))
    {
      ghost var was := Left();
      pos := pos + 1;
      assert Left() == was[1..];
      var n := ReadInteger(4);
      assert buf[old(pos) + 1..pos] == was[1..][..4];
      assert Left() == was[1..][4..];
      len := ToSigned(n, 4);
    }

    /** `len` raw bytes. */
    method ReadRaw(len: nat) returns (s: seq<byte>)
      requires Valid() && pos + len <= |buf|
      modifies this`pos
      ensures Valid() && s == old(Left())[..len] && Left() == old(Left())[len..]
    {
      s := buf[pos..pos + len];
      pos := pos + len;
    }

    method ReadBlob() returns (s: seq<byte>)
      requires Valid() && DecBlob(Left()).Some?
      modifies this`pos
      ensures Valid() && Some(Got(s, Left())) == DecBlob(old(Left()))
    {
      var len := ReadLength();
      s := ReadRaw(len);
    }

    /** A negative length is refused, and the variable stays as it was. */
    method ReadString(prior: Val) returns (ok: bool, v: Val)
      requires Valid() && DecString(Left(), prior).Some?
      modifies this`pos
      ensures Valid() && Some(Got(v, Left())) == DecString(old(Left()), prior)
      ensures ok <==> DecLength(old(Left())).value.value >= 0
    {
      var len := ReadLength();
      if len < 0 { return false, prior; }
      var s := ReadRaw(len);
      return true, VString(s);
    }

    /** Reads a variable of the type that holds `prior`. With another tag at the front the call answers
        false and the position stays, except that a struct has already taken the tag. Inside containers
        and structs the answers are not looked at. */
    method Read(ty: Ty, prior: Val) returns (ok: bool, v: Val)
      requires Valid() && Dec(context, Left(), ty, prior).Some?
      modifies this`pos
      ensures Valid() && ok == Accepts(old(Left()), ty)
      ensures Dec(context, old(Left()), ty, prior) == Some(Got(v, Left()))
      decreases ty, 4
    {
      FrontByte(Left(), Tag(ty));
      var tag := buf[pos];
      if tag != Tag(ty) && !ty.TStruct? { return false, Refused(ty, prior); }
      ghost var was := Left();
      pos := pos + 1;
      assert Left() == was[1..];
      if tag != Tag(ty) { return false, prior; }
      ok, v := ReadBody(ty, prior);
    }

    method ReadBody(ty: Ty, prior: Val) returns (ok: bool, v: Val)
      requires Valid() && DecBody(context, Left(), ty, prior).Some?
      modifies this`pos
      ensures Valid() && DecBody(context, old(Left()), ty, prior) == Some(Got(v, Left()))
      ensures ok <==> (ty.TString? ==> DecLength(old(Left())).Some? && DecLength(old(Left())).value.value >= 0)
      decreases ty, 3
    {
      ok := true;
      if ty.TList? || ty.TSet? || ty.TMap? {
        v := ReadContainer(ty, prior);
      } else if ty.TStruct? {
        var fields := ReadArgs(ty.fields, FieldsOf(context, prior, ty.fields), ty);
        v := VStruct(fields);
      } else if ty.TString? {
        ok, v := ReadString(prior);
      } else {
        v := ReadScalar(ty, prior);
      }
    }

    method ReadScalar(ty: Ty, ghost prior: Val) returns (v: Val)
      requires Valid() && !ty.TString? && DecScalar(Left(), ty, prior).Some?
      modifies this`pos
      ensures Valid() && DecScalar(old(Left()), ty, prior) == Some(Got(v, Left()))
    {
      if ty.TBool? {
        var s := ReadRaw(1);
        v := VBool(s[0] != 0);
      } else if ty.TChar? {
        var s := ReadRaw(1);
        v := VChar(s[0]);
      } else if ty.TBytes? {
        var s := ReadBlob();
        v := VBytes(s);
      } else {
        v := ReadNumber(ty, prior);
      }
    }

    method ReadNumber(ty: Ty, ghost prior: Val) returns (v: Val)
      requires Valid() && (ty.TInt32? || ty.TInt64? || ty.TUint32? || ty.TUint64? || ty.TEnum?)
      requires DecScalar(Left(), ty, prior).Some?
      modifies this`pos
      ensures Valid() && DecScalar(old(Left()), ty, prior) == Some(Got(v, Left()))
    {
      ghost var was := Left();
      var size := if ty.TInt64? || ty.TUint64? then 8 else 4;
      var n := ReadInteger(size);
      assert buf[old(pos)..pos] == was[..size];
      assert Left() == was[size..];
      v := if ty.TInt32? then VInt32(ToSigned(n, 4)) else if ty.TEnum? then VEnum(ToSigned(n, 4))
           else if ty.TInt64? then VInt64(ToSigned(n, 8)) else if ty.TUint32? then VUint32(n) else VUint64(n);
    }

    method ReadContainer(ty: Ty, ghost prior: Val) returns (v: Val)
      requires Valid() && (ty.TList? || ty.TSet? || ty.TMap?) && DecBody(context, Left(), ty, prior).Some?
      modifies this`pos
      ensures Valid() && DecBody(context, old(Left()), ty, prior) == Some(Got(v, Left()))
      decreases ty, 2
    {
      var len := ReadLength();
      match ty {
        case TList(e) =>
          var xs := ReadMany(e, len, ty);
          v := VList(xs);
        case TSet(e) =>
          var xs := ReadMany(e, len, ty);
          v := InsertEach(xs);
        case TMap(k, t) =>
          var es := ReadEntries(k, t, len, ty);
          v := AssignEach(es);
      }
    }

    method InsertEach(xs: seq<Val>) returns (v: Val)
      ensures v == VSet(InsertedAll(context.less, xs))
    {
      v := VSet([]);
      for i := 0 to |xs|
        invariant v == VSet(InsertedAll(context.less, xs[..i]))
      {
        assert xs[..i + 1][..i] == xs[..i];
        v := VSet(Inserted(context.less, v.elems, xs[i]));
      }
      assert xs[..|xs|] == xs;
    }

    method AssignEach(es: seq<Entry>) returns (v: Val)
      ensures v == VMap(AssignedAll(context.less, es))
    {
      v := VMap([]);
      for i := 0 to |es|
        invariant v == VMap(AssignedAll(context.less, es[..i]))
      {
        assert es[..i + 1][..i] == es[..i];
        v := VMap(Assigned(context.less, v.entries, es[i]));
      }
      assert es[..|es|] == es;
    }

    method ReadElement(e: Ty, ghost b: seq<byte>, ghost i: nat, ghost n: nat, ghost xs: seq<Val>, ghost whole: Ty)
      returns (v: Val)
      requires Valid() && e < whole && i < n && DecMany(context, b, e, n).Some?
      requires DecMany(context, b, e, i) == Some(Got(xs, Left()))
      modifies this`pos
      ensures Valid() && DecMany(context, b, e, i + 1) == Some(Got(xs + [v], Left()))
      decreases whole, 0
    {
      ghost var mid := Left();
      ManyPrefix(context, b, e, i, n);
      var ok, w := Read(e, context.unset(e));
      v := w;
      ManyStep(context, b, e, i, xs, mid, v, Left());
    }

    /** As many elements as counted, each read into a variable of its own. */
    method ReadMany(e: Ty, len: int, ghost whole: Ty) returns (xs: seq<Val>)
      requires Valid() && e < whole && DecMany(context, Left(), e, Count(len)).Some?
      modifies this`pos
      ensures Valid() && DecMany(context, old(Left()), e, Count(len)) == Some(Got(xs, Left()))
      decreases whole, 1
    {
      ghost var b := Left();
      xs := [];
      var i := 0;
      while i < len
        invariant Valid() && 0 <= i <= Count(len) && DecMany(context, b, e, i) == Some(Got(xs, Left()))
      {
        var v := ReadElement(e, b, i, Count(len), xs, whole);
        xs := xs + [v];
        i := i + 1;
      }
    }

    /** The key and the value of one entry, each read into a variable of its own. */
    method ReadEntry(k: Ty, t: Ty, ghost b: seq<byte>, ghost i: nat, ghost n: nat, ghost es: seq<Entry>,
                     ghost whole: Ty)
      returns (e: Entry)
      requires Valid() && k < whole && t < whole && i < n && DecEntries(context, b, k, t, n).Some?
      requires DecEntries(context, b, k, t, i) == Some(Got(es, Left()))
      modifies this`pos
      ensures Valid() && DecEntries(context, b, k, t, i + 1) == Some(Got(es + [e], Left()))
      decreases whole, 0
    {
      ghost var mid := Left();
      EntriesPrefix(context, b, k, t, i, n);
      var ok, key := Read(k, context.unset(k));
      var ok', value := Read(t, context.unset(t));
      e := Entry(key, value);
      EntriesStep(context, b, k, t, i, es, mid, e, Left());
    }

    method ReadEntries(k: Ty, t: Ty, len: int, ghost whole: Ty) returns (es: seq<Entry>)
      requires Valid() && k < whole && t < whole && DecEntries(context, Left(), k, t, Count(len)).Some?
      modifies this`pos
      ensures Valid() && DecEntries(context, old(Left()), k, t, Count(len)) == Some(Got(es, Left()))
      decreases whole, 1
    {
      ghost var b := Left();
      es := [];
      var i := 0;
      while i < len
        invariant Valid() && 0 <= i <= Count(len) && DecEntries(context, b, k, t, i) == Some(Got(es, Left()))
      {
        var e := ReadEntry(k, t, b, i, Count(len), es, whole);
        es := es + [e];
        i := i + 1;
      }
    }

    /** The fields of a struct, head first, each into the field's own variable. */
    method ReadArgs(tys: seq<Ty>, priors: seq<Val>, ghost whole: Ty) returns (vs: seq<Val>)
      requires Valid() && |priors| == |tys| && (forall i :: 0 <= i < |tys| ==> tys[i] < whole)
      requires DecFields(context, Left(), tys, priors).Some?
      modifies this`pos
      ensures Valid() && DecFields(context, old(Left()), tys, priors) == Some(Got(vs, Left()))
      decreases whole, 0, |tys|
    {
      if tys == [] { return []; }
      var ok, head := Read(tys[0], priors[0]);
      var tail := ReadArgs(tys[1..], priors[1..], whole);
      vs := [head] + tail;
    }
  }

  lemma FrontByte(b: seq<byte>, tag: byte)
    requires |b| > 0
    ensures Starts(b, tag) <==> b[0] == tag
  {
    assert b[..1] == [b[0]];
  }

  lemma OneMore(head: seq<byte>, vs: seq<Val>, i: nat)
    requires i < |vs|
    ensures head + EncAll(vs[..i]) + Enc(vs[i]) == head + EncAll(vs[..i + 1])
  {
    EncAllLast(vs, i);
    Regroup(head, EncAll(vs[..i]), Enc(vs[i]));
  }

  lemma OneMoreEntry(head: seq<byte>, es: seq<Entry>, i: nat)
    requires i < |es|
    ensures head + EncEntries(es[..i]) + EncEntry(es[i]) == head + EncEntries(es[..i + 1])
  {
    EncEntriesLast(es, i);
    Regroup(head, EncEntries(es[..i]), EncEntry(es[i]));
  }

  /** What one host writes, another reads back, whatever their byte orders and whatever the variable held. */
  method AcrossHosts(from: ByteOrder, to: ByteOrder, context: Context, v: Val, ty: Ty, prior: Val, suffix: seq<byte>)
    returns (ok: bool, back: Val, used: nat)
    requires Fits(context.less, v, ty)
    ensures ok && back == v && used == |Enc(v)|
  {
    var sender := new Stream(from, context, []);
    sender.Write(v, ty);
    assert sender.buf == Enc(v);
    var receiver := new Stream(to, context, sender.buf + suffix);
    RoundTrip(context, v, ty, prior, suffix);
    assert receiver.Left() == Enc(v) + suffix;
    ok, back := receiver.Read(ty, prior);
    used := receiver.pos;
    assert |receiver.Left()| == |suffix|;
  }
}
