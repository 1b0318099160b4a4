/** The text side of JSON pointers: escaping of reference tokens, splitting and joining of
    pointer strings, and array indices in decimal. */
module JsonText {
  /** What a call returns, or the number of the exception it throws. */
  datatype Result<+T> = Ok(value: T) | Err(error: nat)

  const BAD_POINTER: nat := 107
  const BAD_ESCAPE: nat := 108
  const LEADING_ZERO: nat := 106
  const NOT_A_NUMBER: nat := 109
  const UNRESOLVED: nat := 404
  const INDEX_TOO_LARGE: nat := 410

  const MAX_SIZE: nat := 0xFFFF_FFFF_FFFF_FFFF

  // ---- replacing substrings ----

  /** The first occurrence of f in s at or after position i; -1 if there is none. */
  function FindFrom(s: string, f: string, i: nat): (pos: int)
    requires |f| > 0
    ensures pos == -1 || i <= pos <= |s| - |f|
    decreases |s| - i
  {
    if i + |f| > |s| then -1
    else if s[i..i + |f|] == f then i
    else FindFrom(s, f, i + 1)
  }

  /** s with every occurrence of f, scanning from the left, replaced by t. */
  function Replaced(s: string, f: string, t: string): string
    requires |f| > 0
    decreases |s|
  {
    if |s| < |f| then s
    else if s[..|f|] == f then t + Replaced(s[|f|..], f, t)
    else [s[0]] + Replaced(s[1..], f, t)
  }

  function ReplacedFrom(s: string, f: string, t: string, i: nat, pos: int): string
    requires |f| > 0 && i <= |s| && (pos == -1 || i <= pos <= |s| - |f|)
  {
    if pos == -1 then s[i..]
    else if pos == i then t + Replaced(s[pos + |f|..], f, t)
    else s[i..pos] + (t + Replaced(s[pos + |f|..], f, t))
  }

  lemma ReplacedFromStep(s: string, f: string, t: string, i: nat, pos: int)
    requires |f| > 0 && i < |s| && (pos == -1 || i + 1 <= pos <= |s| - |f|)
    ensures [s[i]] + ReplacedFrom(s, f, t, i + 1, pos) == ReplacedFrom(s, f, t, i, pos)
  {
    if pos != -1 { SliceStep(s, i, pos, t + Replaced(s[pos + |f|..], f, t)); }
  }

  lemma SliceStep(s: string, i: nat, pos: nat, tail: string)
    requires i < pos <= |s|
    ensures pos == i + 1 ==> [s[i]] + tail == s[i..pos] + tail
    ensures [s[i]] + (s[i + 1..pos] + tail) == s[i..pos] + tail
  {
    assert s[i..pos] == [s[i]] + s[i + 1..pos];
  }

  lemma {:induction false} ReplacedUpToFirst(s: string, f: string, t: string, i: nat)
    requires |f| > 0 && i <= |s|
    ensures Replaced(s[i..], f, t) == ReplacedFrom(s, f, t, i, FindFrom(s, f, i))
    decreases |s| - i
  {
    var rest := s[i..];
    if i + |f| <= |s| {
      assert rest[..|f|] == s[i..i + |f|];
      if rest[..|f|] == f {
        assert rest[|f|..] == s[i + |f|..];
      } else {
        assert rest[1..] == s[i + 1..] && rest[0] == s[i];
        ReplacedUpToFirst(s, f, t, i + 1);
        ReplacedFromStep(s, f, t, i, FindFrom(s, f, i + 1));
        assert Replaced(rest, f, t) == [s[i]] + Replaced(s[i + 1..], f, t);
      }
    }
  }

  /** What the text becomes in the end, when the first `done` characters are final. */
  ghost function Final(r: string, f: string, t: string, done: nat): string
    requires |f| > 0 && done <= |r|
  {
    r[..done] + Replaced(r[done..], f, t)
  }

  lemma ReplaceStep(r: string, f: string, t: string, done: nat, pos: nat, r': string)
    requires |f| > 0 && done <= pos <= |r| - |f| && pos == FindFrom(r, f, done)
    requires r' == r[..pos] + t + r[pos + |f|..]
    ensures Final(r', f, t, pos + |t|) == Final(r, f, t, done)
  {
    ReplacedUpToFirst(r, f, t, done);
    var rest := Replaced(r[pos + |f|..], f, t);
    SplitAfter(r[..pos] + t, r[pos + |f|..]);
    if pos == done { Assoc(r[..pos], t, rest); } else { Regroup(r, t, rest, done, pos); }
  }

  lemma Assoc(a: string, b: string, c: string)
    ensures a + b + c == a + (b + c)
  {
  }

  lemma SplitAfter(a: string, b: string)
    ensures (a + b)[..|a|] == a && (a + b)[|a|..] == b
  {
  }

  lemma Regroup(r: string, t: string, rest: string, done: nat, pos: nat)
    requires done <= pos <= |r|
    ensures r[..pos] + t + rest == r[..done] + (r[done..pos] + (t + rest))
  {
    assert r[..pos] == r[..done] + r[done..pos];
  }

  /** The find-and-replace loop: the text written by a replacement is not searched again. */
  method ReplaceSubstring(s: string, f: string, t: string) returns (r: string)
    requires |f| > 0
    ensures r == Replaced(s, f, t)
  {
    r := s;
    var pos := FindFrom(r, f, 0);
    ghost var done: nat := 0;
    NothingDone(s, f, t);
    while pos != -1
      invariant done <= |r| && pos == FindFrom(r, f, done)
      invariant Final(r, f, t, done) == Replaced(s, f, t)
      decreases |r| - done
    {
      ghost var was := r;
      r := r[..pos] + t + r[pos + |f|..];
      ReplaceStep(was, f, t, done, pos, r);
      done := pos + |t|;
      pos := FindFrom(r, f, pos + |t|);
    }
    NothingMore(r, f, t, done);
  }

  lemma NothingMore(r: string, f: string, t: string, done: nat)
    requires |f| > 0 && done <= |r| && FindFrom(r, f, done) == -1
    ensures Final(r, f, t, done) == r
  {
    ReplacedUpToFirst(r, f, t, done);
    assert r[..done] + r[done..] == r;
  }

  lemma NothingDone(s: string, f: string, t: string)
    requires |f| > 0
    ensures Final(s, f, t, 0) == Replaced(s, f, t)
  {
    assert s[0..] == s && s[..0] == [];
  }

  lemma ReplacedHit(f: string, t: string, rest: string)
    requires |f| > 0
    ensures Replaced(f + rest, f, t) == t + Replaced(rest, f, t)
  {
    assert (f + rest)[..|f|] == f && (f + rest)[|f|..] == rest;
  }

  lemma ReplacedMiss(c: char, rest: string, f: string, t: string)
    requires |f| > 0 && f[0] != c
    ensures Replaced([c] + rest, f, t) == [c] + Replaced(rest, f, t)
  {
    var s := [c] + rest;
    assert s[1..] == rest;
    if |f| <= |s| { assert s[..|f|][0] == c; }
  }

  /** A tilde followed by another digit than the one searched for stays. */
  lemma ReplacedOtherEscape(d: char, rest: string, e: char, t: string)
    requires d != e && d != '~'
    ensures Replaced("~" + [d] + rest, ['~', e], t) == "~" + [d] + Replaced(rest, ['~', e], t)
  {
    var f := ['~', e];
    var s := "~" + [d] + rest;
    assert s[..2][1] == d && f[1] == e;
    assert s[1..] == [d] + rest;
    ReplacedMiss(d, rest, f, t);
  }

  // ---- escaping ----

  function Tildes(s: string): string { Replaced(s, "~", "~0") }
  function Slashes(s: string): string { Replaced(s, "/", "~1") }
  function Escaped(s: string): string { Slashes(Tildes(s)) }

  function Unslashes(s: string): string { Replaced(s, "~1", "/") }
  function Untildes(s: string): string { Replaced(s, "~0", "~") }
  function Unescaped(s: string): string { Untildes(Unslashes(s)) }

  method Escape(s: string) returns (r: string)
    ensures r == Escaped(s)
  {
    r := ReplaceSubstring(s, "~", "~0");
    r := ReplaceSubstring(r, "/", "~1");
  }

  method Unescape(s: string) returns (r: string)
    ensures r == Unescaped(s)
  {
    r := ReplaceSubstring(s, "~1", "/");
    r := ReplaceSubstring(r, "~0", "~");
  }

  /** How one character is escaped. */
  function EscapedChar(c: char): string {
    if c == '~' then "~0" else if c == '/' then "~1" else [c]
  }

  lemma EscapedStep(c: char, rest: string)
    ensures Escaped([c] + rest) == EscapedChar(c) + Escaped(rest)
  {
    if c == '~' {
      ReplacedHit("~", "~0", rest);
      assert Tildes([c] + rest) == ['~'] + (['0'] + Tildes(rest));
      ReplacedMiss('~', ['0'] + Tildes(rest), "/", "~1");
      ReplacedMiss('0', Tildes(rest), "/", "~1");
    } else {
      ReplacedMiss(c, rest, "~", "~0");
      if c == '/' {
        ReplacedHit("/", "~1", Tildes(rest));
      } else {
        ReplacedMiss(c, Tildes(rest), "/", "~1");
      }
    }
  }

  lemma UnescapedStep(c: char, rest: string)
    ensures Unescaped(EscapedChar(c) + rest) == [c] + Unescaped(rest)
  {
    if c == '~' {
      assert EscapedChar(c) + rest == "~" + ['0'] + rest;
      ReplacedOtherEscape('0', rest, '1', "/");
      assert "~" + ['0'] + Unslashes(rest) == "~0" + Unslashes(rest);
      ReplacedHit("~0", "~", Unslashes(rest));
    } else if c == '/' {
      ReplacedHit("~1", "/", rest);
      ReplacedMiss('/', Unslashes(rest), "~0", "~");
    } else {
      ReplacedMiss(c, rest, "~1", "/");
      ReplacedMiss(c, Unslashes(rest), "~0", "~");
    }
  }

  /** An escape's second character stands at i + 1. */
  predicate EscapeAt(s: string, i: nat) {
    i + 1 < |s| && (s[i + 1] == '0' || s[i + 1] == '1')
  }

  /** Every tilde starts an escape. */
  predicate WellEscaped(s: string) {
    forall i :: 0 <= i < |s| && s[i] == '~' ==> EscapeAt(s, i)
  }

  /** Unescaping undoes escaping; an escaped token holds no slash and every tilde in it is an escape. */
  lemma {:induction false} UnescapeEscape(s: string)
    ensures Unescaped(Escaped(s)) == s
    ensures WellEscaped(Escaped(s)) && '/' !in Escaped(s)
    decreases |s|
  {
    if s != "" {
      var c, rest := s[0], s[1..];
      assert s == [c] + rest;
      EscapedStep(c, rest);
      UnescapedStep(c, Escaped(rest));
      UnescapeEscape(rest);
      WellEscapedStep(c, Escaped(rest));
    }
  }

  // The escape of a character in front of a well-escaped text.
  lemma WellEscapedStep(c: char, e: string)
    requires WellEscaped(e) && '/' !in e
    ensures WellEscaped(EscapedChar(c) + e) && '/' !in EscapedChar(c) + e
  {
    var all, n := EscapedChar(c) + e, |EscapedChar(c)|;
    forall i | 0 <= i < |all| && all[i] == '~' ensures EscapeAt(all, i) {
      if i >= n {
        assert all[i] == e[i - n];
        assert EscapeAt(e, i - n);
      }
    }
  }

  /** Escaping undoes unescaping on every token that can stand in a pointer. */
  lemma {:induction false} EscapeUnescape(e: string)
    requires WellEscaped(e) && '/' !in e
    ensures Escaped(Unescaped(e)) == e
    decreases |e|
  {
    if e != "" {
      var c := if e[0] != '~' then e[0] else if e[1] == '0' then '~' else '/';
      var n := |EscapedChar(c)|;
      var rest := e[n..];
      assert e[..n] == EscapedChar(c);
      assert e == EscapedChar(c) + rest;
      forall i | 0 <= i < |rest| && rest[i] == '~' ensures EscapeAt(rest, i) {
        assert e[i + n] == '~';
        assert EscapeAt(e, i + n);
      }
      UnescapedStep(c, rest);
      EscapeUnescape(rest);
      EscapedStep(c, Unescaped(rest));
    }
  }

  // ---- pointers as text ----

  function Join(tokens: seq<string>): string {
    if |tokens| == 0 then ""
    else Join(tokens[..|tokens| - 1]) + "/" + Escaped(tokens[|tokens| - 1])
  }

  /** The text between slashes. */
  function Fields(s: string): (fields: seq<string>)
    ensures |fields| > 0
    decreases |s|
  {
    var pos := FindFrom(s, "/", 0);
    if pos == -1 then [s] else [s[..pos]] + Fields(s[pos + 1..])
  }

  predicate AllWellEscaped(fields: seq<string>) {
    forall i :: 0 <= i < |fields| ==> WellEscaped(fields[i])
  }

  function UnescapedAll(fields: seq<string>): (tokens: seq<string>)
    ensures |tokens| == |fields|
  {
    seq(|fields|, i requires 0 <= i < |fields| => Unescaped(fields[i]))
  }

  function Split(s: string): Result<seq<string>> {
    if s == "" then Ok([])
    else if s[0] != '/' then Err(BAD_POINTER)
    else
      var fields := Fields(s[1..]);
      if AllWellEscaped(fields) then Ok(UnescapedAll(fields)) else Err(BAD_ESCAPE)
  }

  method ToString(tokens: seq<string>) returns (s: string)
    ensures s == Join(tokens)
  {
    s := "";
    for i := 0 to |tokens|
      invariant s == Join(tokens[..i])
    {
      var e := Escape(tokens[i]);
      assert tokens[..i + 1][..i] == tokens[..i];
      s := s + "/" + e;
    }
    assert tokens[..|tokens|] == tokens;
  }

  /** Whether every '~' of the token is followed by '0' or '1', found tilde by tilde. */
  method CheckEscapes(token: string) returns (ok: bool)
    ensures ok <==> WellEscaped(token)
  {
    var pos := FindFrom(token, "~", 0);
    NoneBeforeFirst(token, '~', 0);
    while pos != -1
      invariant -1 <= pos < |token|
      invariant pos == -1 ==> WellEscaped(token)
      invariant pos != -1 ==> token[pos] == '~'
      invariant forall i :: 0 <= i < pos && token[i] == '~' ==> EscapeAt(token, i)
      decreases if pos == -1 then 0 else |token| - pos
    {
      if pos == |token| - 1 || (token[pos + 1] != '0' && token[pos + 1] != '1') {
        assert !EscapeAt(token, pos);
        return false;
      }
      NoneBeforeFirst(token, '~', pos + 1);
      pos := FindFrom(token, "~", pos + 1);
    }
    ok := true;
  }

  lemma {:induction false} NoneBeforeFirst(s: string, c: char, i: nat)
    ensures var pos := FindFrom(s, [c], i);
            && (pos == -1 ==> forall k :: i <= k < |s| ==> s[k] != c)
            && (pos != -1 ==> s[pos] == c && forall k :: i <= k < pos ==> s[k] != c)
    decreases |s| - i
  {
    if i < |s| {
      assert s[i..i + 1] == [s[i]];
      if s[i] != c { NoneBeforeFirst(s, c, i + 1); }
    }
  }

  lemma FindShifted(s: string, f: string, i: nat)
    requires |f| > 0 && i <= |s|
    ensures var pos := FindFrom(s[i..], f, 0);
            FindFrom(s, f, i) == if pos == -1 then -1 else pos + i
  {
    FindShiftedFrom(s, f, i, 0);
  }

  lemma {:induction false} FindShiftedFrom(s: string, f: string, i: nat, k: nat)
    requires |f| > 0 && i <= |s|
    ensures var pos := FindFrom(s[i..], f, k);
            FindFrom(s, f, i + k) == if pos == -1 then -1 else pos + i
    decreases |s| - i - k
  {
    if i + k + |f| <= |s| {
      assert s[i..][k..k + |f|] == s[i + k..i + k + |f|];
      FindShiftedFrom(s, f, i, k + 1);
    }
  }

  lemma FieldsAt(s: string, start: nat)
    requires start <= |s|
    ensures var slash := FindFrom(s, "/", start);
            Fields(s[start..]) == if slash == -1 then [s[start..]] else [s[start..slash]] + Fields(s[slash + 1..])
  {
    FindShifted(s, "/", start);
    var slash := FindFrom(s, "/", start);
    if slash != -1 {
      assert s[start..][slash - start + 1..] == s[slash + 1..];
      assert s[start..][..slash - start] == s[start..slash];
    }
  }

  /** The loop of the pointer constructor over the slashes of the text. */
  method SplitPointer(reference: string) returns (result: Result<seq<string>>)
    ensures result == Split(reference)
  {
    if reference == "" { return Ok([]); }
    if reference[0] != '/' { return Err(BAD_POINTER); }
    ghost var left := Fields(reference[1..]);
    NothingTaken(reference);
    var tokens: seq<string> := [];
    var start, slash := 1, FindFrom(reference, "/", 1);
    while start != 0
      invariant 0 <= start <= |reference|
      invariant slash == FindFrom(reference, "/", start)
      invariant left == if start == 0 then [] else Fields(reference[start..])
      invariant Split(reference) == Answer(tokens, left)
      decreases if start == 0 then 0 else |reference| + 1 - start
    {
      FieldsAt(reference, start);
      var token := if slash == -1 then reference[start..] else reference[start..slash];
      left := if slash == -1 then [] else Fields(reference[slash + 1..]);
      if slash == -1 { AnswerLast(tokens, token); } else { AnswerNext(tokens, token, left); }
      var read := ReadToken(token);
      if read.Err? { return Err(read.error); }
      tokens := tokens + [read.value];
      start := if slash == -1 then 0 else slash + 1;
      slash := FindFrom(reference, "/", start);
    }
    result := Ok(tokens);
  }

  /** The tokens read so far, followed by those of the fields not read yet. */
  ghost function UnescapedAfter(tokens: seq<string>, left: seq<string>): seq<string>
    decreases |left|
  {
    if left == [] then tokens else UnescapedAfter(tokens + [Unescaped(left[0])], left[1..])
  }

  lemma {:induction false} UnescapedAfterIsAll(tokens: seq<string>, left: seq<string>)
    ensures UnescapedAfter(tokens, left) == tokens + UnescapedAll(left)
    decreases |left|
  {
    if left != [] {
      UnescapedAfterIsAll(tokens + [Unescaped(left[0])], left[1..]);
    }
  }

  /** What the pointer is split into, if what comes before `left` has been read as `tokens`. */
  ghost function Answer(tokens: seq<string>, left: seq<string>): Result<seq<string>> {
    if AllWellEscaped(left) then Ok(UnescapedAfter(tokens, left)) else Err(BAD_ESCAPE)
  }

  lemma NothingTaken(reference: string)
    requires reference != "" && reference[0] == '/'
    ensures Answer([], Fields(reference[1..])) == Split(reference)
  {
    UnescapedAfterNone(Fields(reference[1..]));
  }

  lemma UnescapedAfterNone(fields: seq<string>)
    ensures UnescapedAfter([], fields) == UnescapedAll(fields)
  {
    UnescapedAfterIsAll([], fields);
    assert [] + UnescapedAll(fields) == UnescapedAll(fields);
  }

  lemma AnswerNext(tokens: seq<string>, field: string, left: seq<string>)
    ensures Answer(tokens, [field] + left)
         == if WellEscaped(field) then Answer(tokens + [Unescaped(field)], left) else Err(BAD_ESCAPE)
  {
    var all := [field] + left;
    assert all[0] == field && all[1..] == left;
    FirstAndRest(field, left);
  }

  lemma FirstAndRest(field: string, left: seq<string>)
    ensures AllWellEscaped([field] + left) <==> WellEscaped(field) && AllWellEscaped(left)
  {
    var all := [field] + left;
    assert all[0] == field;
    if WellEscaped(field) && AllWellEscaped(left) {
      forall i | 0 <= i < |all| ensures WellEscaped(all[i]) {
        if i > 0 { assert all[i] == left[i - 1]; }
      }
    }
    if AllWellEscaped(all) { HeadAndTail(field, left); }
  }

  lemma AnswerLast(tokens: seq<string>, field: string)
    ensures Answer(tokens, [field])
         == if WellEscaped(field) then Answer(tokens + [Unescaped(field)], []) else Err(BAD_ESCAPE)
  {
    assert [field] == [field] + [];
    AnswerNext(tokens, field, []);
  }

  /** The token a field stands for, unless an escape in it is malformed. */
  method ReadToken(field: string) returns (r: Result<string>)
    ensures r == if WellEscaped(field) then Ok(Unescaped(field)) else Err(BAD_ESCAPE)
  {
    var ok := CheckEscapes(field);
    if !ok { return Err(BAD_ESCAPE); }
    var token := Unescape(field);
    r := Ok(token);
  }

  lemma OneField(s: string)
    requires '/' !in s
    ensures FindFrom(s, "/", 0) == -1 && Fields(s) == [s]
  {
    NoneBeforeFirst(s, '/', 0);
  }

  /** Where the first slash of s + "/" + last stands. */
  lemma FirstSlash(s: string, last: string)
    ensures var pos := FindFrom(s, "/", 0);
      FindFrom(s + "/" + last, "/", 0) == if pos == -1 then |s| else pos
  {
    var whole := s + "/" + last;
    NoneBeforeFirst(whole, '/', 0);
    NoneBeforeFirst(s, '/', 0);
    assert whole[|s|] == '/';
    assert forall k :: 0 <= k < |s| ==> whole[k] == s[k];
  }

  lemma {:induction false} FieldsAppend(s: string, last: string)
    requires '/' !in last
    ensures Fields(s + "/" + last) == Fields(s) + [last]
    decreases |s|
  {
    var whole := s + "/" + last;
    var pos := FindFrom(s, "/", 0);
    FirstSlash(s, last);
    if pos == -1 {
      assert whole[..|s|] == s && whole[|s| + 1..] == last;
      OneField(last);
    } else {
      assert whole[..pos] == s[..pos] && whole[pos + 1..] == s[pos + 1..] + "/" + last;
      FieldsAppend(s[pos + 1..], last);
    }
  }

  lemma {:induction false} JoinStartsWithSlash(tokens: seq<string>)
    requires |tokens| > 0
    ensures |Join(tokens)| > 0 && Join(tokens)[0] == '/'
    decreases |tokens|
  {
    if |tokens| > 1 { JoinStartsWithSlash(tokens[..|tokens| - 1]); }
  }

  function EscapedAll(tokens: seq<string>): (fields: seq<string>)
    ensures |fields| == |tokens|
  {
    seq(|tokens|, i requires 0 <= i < |tokens| => Escaped(tokens[i]))
  }

  /** The fields of a pointer's text behind its first slash are its escaped tokens. */
  lemma {:induction false} FieldsOfJoin(tokens: seq<string>, text: string)
    requires |tokens| > 0 && Join(tokens) == "/" + text
    ensures Fields(text) == EscapedAll(tokens)
    decreases |tokens|
  {
    var n := |tokens|;
    var front, last := tokens[..n - 1], Escaped(tokens[n - 1]);
    UnescapeEscape(tokens[n - 1]);
    if n == 1 {
      assert ("/" + text)[1..] == text && (Join(front) + "/" + last)[1..] == last;
      OneField(last);
      assert [last] == EscapedAll(tokens);
    } else {
      JoinStartsWithSlash(front);
      var before := Join(front)[1..];
      assert Join(front) == "/" + before;
      assert "/" + text == "/" + (before + "/" + last);
      assert text == before + "/" + last by { assert ("/" + text)[1..] == ("/" + (before + "/" + last))[1..]; }
      FieldsAppend(before, last);
      FieldsOfJoin(front, before);
      assert EscapedAll(front) + [last] == EscapedAll(tokens);
    }
  }

  /** Every list of tokens survives being written as a pointer and read back. */
  lemma SplitOfJoin(tokens: seq<string>)
    ensures Split(Join(tokens)) == Ok(tokens)
  {
    if |tokens| > 0 {
      JoinStartsWithSlash(tokens);
      var text := Join(tokens)[1..];
      assert Join(tokens) == "/" + text;
      FieldsOfJoin(tokens, text);
      EscapedAllUnescapes(tokens);
    }
  }

  lemma EscapedAllUnescapes(tokens: seq<string>)
    ensures AllWellEscaped(EscapedAll(tokens)) && UnescapedAll(EscapedAll(tokens)) == tokens
  {
    forall i | 0 <= i < |tokens|
      ensures WellEscaped(EscapedAll(tokens)[i]) && Unescaped(EscapedAll(tokens)[i]) == tokens[i]
    {
      UnescapeEscape(tokens[i]);
    }
  }

  lemma {:induction false} JoinOfFields(s: string, tokens: seq<string>)
    requires AllWellEscaped(Fields(s)) && tokens == UnescapedAll(Fields(s))
    ensures Join(tokens) == "/" + s
    decreases |s|
  {
    var pos := FindFrom(s, "/", 0);
    if pos == -1 {
      LastField(s, tokens);
    } else {
      FieldsAroundSlash(s, pos);
      TokensAroundSlash(Fields(s), s[..pos], Fields(s[pos + 1..]));
      JoinOfFields(s[pos + 1..], UnescapedAll(Fields(s[pos + 1..])));
      FirstField(s, pos, s[..pos], UnescapedAll(Fields(s[pos + 1..])), tokens);
    }
  }

  lemma LastField(s: string, tokens: seq<string>)
    requires FindFrom(s, "/", 0) == -1 && AllWellEscaped(Fields(s)) && tokens == UnescapedAll(Fields(s))
    ensures Join(tokens) == "/" + s
  {
    NoneBeforeFirst(s, '/', 0);
    assert Fields(s)[0] == s;
    assert tokens == [Unescaped(s)];
    JoinOne(Unescaped(s));
    EscapeUnescape(s);
  }

  lemma FieldsAroundSlash(s: string, pos: nat)
    requires FindFrom(s, "/", 0) == pos
    ensures pos < |s| && s[pos] == '/' && '/' !in s[..pos]
    ensures Fields(s) == [s[..pos]] + Fields(s[pos + 1..])
  {
    NoneBeforeFirst(s, '/', 0);
    FirstOfFields(s, pos, s[pos + 1..]);
  }

  lemma FirstOfFields(s: string, pos: nat, rest: string)
    requires FindFrom(s, "/", 0) == pos && rest == s[pos + 1..]
    ensures Fields(s) == [s[..pos]] + Fields(rest)
  {
  }

  // The same for the tokens: `all` are the fields of a text, `first` the one before its first slash.
  lemma TokensAroundSlash(all: seq<string>, first: string, rest: seq<string>)
    requires all == [first] + rest && AllWellEscaped(all)
    ensures WellEscaped(first) && AllWellEscaped(rest)
    ensures UnescapedAll(all) == UnescapedAll([first]) + UnescapedAll(rest)
  {
    HeadAndTail(first, rest);
    assert UnescapedAll([first]) == [Unescaped(first)];
  }

  lemma FirstField(s: string, pos: nat, first: string, others: seq<string>, tokens: seq<string>)
    requires pos < |s| && s[pos] == '/' && first == s[..pos] && WellEscaped(first) && '/' !in first
    requires Join(others) == "/" + s[pos + 1..] && tokens == UnescapedAll([first]) + others
    ensures Join(tokens) == "/" + s
  {
    assert UnescapedAll([first]) == [Unescaped(first)];
    EscapeUnescape(first);
    JoinPrepends(Unescaped(first), others);
    AroundSlash(s, pos);
  }

  lemma AroundSlash(s: string, pos: nat)
    requires pos < |s| && s[pos] == '/'
    ensures "/" + s == "/" + s[..pos] + ("/" + s[pos + 1..])
  {
    assert s == s[..pos] + ("/" + s[pos + 1..]);
  }

  lemma JoinOne(token: string)
    ensures Join([token]) == "/" + Escaped(token)
  {
    assert [token][..0] == [];
  }

  lemma HeadAndTail(first: string, rest: seq<string>)
    requires AllWellEscaped([first] + rest)
    ensures WellEscaped(first) && AllWellEscaped(rest)
    ensures UnescapedAll([first] + rest) == [Unescaped(first)] + UnescapedAll(rest)
  {
    var all := [first] + rest;
    assert all[0] == first;
    forall i | 0 <= i < |rest| ensures WellEscaped(rest[i]) { assert all[i + 1] == rest[i]; }
  }

  lemma {:induction false} JoinPrepends(first: string, rest: seq<string>)
    ensures Join([first] + rest) == "/" + Escaped(first) + Join(rest)
    decreases |rest|
  {
    var all := [first] + rest;
    if |rest| == 0 {
      assert all[..0] == [];
    } else {
      var front, last := rest[..|rest| - 1], "/" + Escaped(rest[|rest| - 1]);
      assert all[..|all| - 1] == [first] + front;
      JoinPrepends(first, front);
      JoinTakesLast(all);
      JoinTakesLast(rest);
      Associates("/" + Escaped(first), Join(front), last);
    }
  }

  lemma JoinTakesLast(tokens: seq<string>)
    requires tokens != []
    ensures Join(tokens) == Join(tokens[..|tokens| - 1]) + ("/" + Escaped(tokens[|tokens| - 1]))
  {
    Associates(Join(tokens[..|tokens| - 1]), "/", Escaped(tokens[|tokens| - 1]));
  }

  lemma Associates(a: string, b: string, c: string)
    ensures a + b + c == a + (b + c)
  {
  }

  /** Every pointer text that is accepted is the text of the tokens it was read as. */
  lemma JoinOfSplit(s: string)
    requires Split(s).Ok?
    ensures Join(Split(s).value) == s
  {
    if s != "" { JoinOfFields(s[1..], Split(s).value); }
  }

  // ---- array indices ----

  function Digit(d: nat): char
    requires d < 10
  {
    '0' + d as char
  }

  predicate IsDigit(c: char) { '0' <= c <= '9' }

  function Decimal(n: nat): string {
    if n < 10 then [Digit(n)] else Decimal(n / 10) + [Digit(n % 10)]
  }

  predicate AllDigits(s: string) {
    forall i :: 0 <= i < |s| ==> IsDigit(s[i])
  }

  function Number(s: string): nat
    requires AllDigits(s)
  {
    if s == "" then 0 else 10 * Number(s[..|s| - 1]) + (s[|s| - 1] as int - '0' as int)
  }

  function ArrayIndex(s: string): Result<nat> {
    if |s| > 1 && s[0] == '0' then Err(LEADING_ZERO)
    else if |s| > 1 && !('1' <= s[0] <= '9') then Err(NOT_A_NUMBER)
    else if s == "" || !AllDigits(s) then Err(UNRESOLVED)
    else if Number(s) > MAX_SIZE then Err(UNRESOLVED)
    else if Number(s) >= MAX_SIZE then Err(INDEX_TOO_LARGE)
    else Ok(Number(s))
  }

  lemma {:induction false} DecimalRoundTrip(n: nat)
    ensures Decimal(n) != "" && AllDigits(Decimal(n)) && Number(Decimal(n)) == n
    ensures |Decimal(n)| > 1 ==> Decimal(n)[0] != '0'
    ensures n > 0 ==> Decimal(n)[0] != '0'
  {
    if n < 10 {
      assert Decimal(n)[..0] == "";
      assert Number("") == 0;
    } else {
      DecimalRoundTrip(n / 10);
      assert Decimal(n)[..|Decimal(n)| - 1] == Decimal(n / 10);
    }
  }

  /** Every index below the maximal size is read back from its decimal text; "-" never is. */
  lemma IndexOfDecimal(n: nat)
    requires n < MAX_SIZE
    ensures ArrayIndex(Decimal(n)) == Ok(n)
    ensures Decimal(n) != "-"
  {
    DecimalRoundTrip(n);
    assert IsDigit(Decimal(n)[0]);
  }

  lemma {:induction false} DecimalOfNumber(s: string)
    requires AllDigits(s) && s != "" && (|s| > 1 ==> s[0] != '0')
    ensures Decimal(Number(s)) == s
    ensures s[0] != '0' ==> Number(s) > 0
    decreases |s|
  {
    var front := s[..|s| - 1];
    assert s == front + [s[|s| - 1]];
    if |s| > 1 {
      DecimalOfNumber(front);
    } else {
      assert Number(front) == 0;
    }
  }

  /** Each index has one spelling: the token accepted as i is the decimal text of i. */
  lemma DecimalOfIndex(s: string)
    requires ArrayIndex(s).Ok?
    ensures Decimal(ArrayIndex(s).value) == s
  {
    DecimalOfNumber(s);
  }

  /** The numbers of the exceptions that a token throws when it is read as an index. */
  lemma IndexErrorNumbers(s: string)
    ensures |s| > 1 && s[0] == '0' ==> ArrayIndex(s) == Err(106)
    ensures |s| > 1 && !('0' <= s[0] <= '9') ==> ArrayIndex(s) == Err(109)
    ensures |s| > 1 && '1' <= s[0] <= '9' && !AllDigits(s) ==> ArrayIndex(s) == Err(404)
    ensures |s| <= 1 && !(s != "" && IsDigit(s[0])) ==> ArrayIndex(s) == Err(404)
    ensures s != "" && AllDigits(s) && (|s| > 1 ==> s[0] != '0') ==> ArrayIndex(s) == IndexFor(Number(s))
  {
    if s != "" && AllDigits(s) { assert IsDigit(s[0]); }
  }

  // 2^64 - 1 is an index no array can have, and larger numbers cannot be read.
  function IndexFor(n: nat): Result<nat> {
    if n < 0xFFFF_FFFF_FFFF_FFFF then Ok(n) else Err(if n == 0xFFFF_FFFF_FFFF_FFFF then 410 else 404)
  }

  /** A text is no pointer because it does not begin with a slash, or because of a tilde that starts no escape. */
  lemma PointerErrorNumbers(s: string)
    ensures Split(s) == Err(107) <==> s != "" && s[0] != '/'
    ensures Split(s).Err? && Split(s).error != 107 ==> Split(s).error == 108
    ensures Split(s) == Err(108) <==> s != "" && s[0] == '/' && !AllWellEscaped(Fields(s[1..]))
  {
  }
}
