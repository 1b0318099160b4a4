/** Integers as bytes: the little-endian form on the wire and the host's form in memory. */
module Bytes {
  import Modular

  type byte = x: int | 0 <= x < 256

  datatype ByteOrder = BigEndian | LittleEndian

  /** How many integers fit in `size` bytes. */
  function Range(size: nat): (r: nat)
    ensures r > 0
  {
    if size == 0 then 1 else 256 * Range(size - 1)
  }

  lemma Ranges()
    ensures Range(4) == 0x1_0000_0000
    ensures Range(8) == 0x1_0000_0000_0000_0000
  {
    assert Range(2) == 0x1_0000 && Range(3) == 0x100_0000;
    assert Range(5) == 0x100_0000_0000 && Range(6) == 0x1_0000_0000_0000 && Range(7) == 0x100_0000_0000_0000;
  }

  /** Least significant byte first. */
  function LittleBytes(n: nat, size: nat): (b: seq<byte>)
    ensures |b| == size
  {
    if size == 0 then [] else [n % 256] + LittleBytes(n / 256, size - 1)
  }

  lemma DivideTwice(n: nat, m: nat)
    requires m > 0
    ensures n / (256 * m) == n / 256 / m
  {
    var a := n / 256;
    var q, r := a / m, a % m;
    assert a == m * q + r == q * m + r;
    assert q * (256 * m) == 256 * (q * m);
    Modular.QuotientUnique(n, 256 * m, q, 256 * r + n % 256);
  }

  /** Byte k is the digit of weight 256^k. */
  lemma {:induction false} ByteAt(n: nat, size: nat, k: nat)
    requires k < size
    ensures LittleBytes(n, size)[k] == n / Range(k) % 256
    decreases k
  {
    if k > 0 {
      ByteAt(n / 256, size - 1, k - 1);
      DivideTwice(n, Range(k - 1));
    }
  }

  function FromLittle(b: seq<byte>): nat {
    if |b| == 0 then 0 else b[0] + 256 * FromLittle(b[1..])
  }

  lemma {:induction false} FromLittleBytes(n: nat, size: nat)
    requires n < Range(size)
    ensures FromLittle(LittleBytes(n, size)) == n
    decreases size
  {
    if size > 0 {
      var tail := LittleBytes(n / 256, size - 1);
      assert n / 256 < Range(size - 1);
      FromLittleBytes(n / 256, size - 1);
      assert LittleBytes(n, size)[1..] == tail;
    }
  }

  lemma {:induction false} FromLittleBounded(b: seq<byte>)
    ensures FromLittle(b) < Range(|b|)
    decreases |b|
  {
    if |b| > 0 { FromLittleBounded(b[1..]); }
  }

  function Reversed(b: seq<byte>): (r: seq<byte>)
    ensures |r| == |b|
    ensures forall i :: 0 <= i < |b| ==> r[i] == b[|b| - 1 - i]
  {
    if |b| == 0 then [] else Reversed(b[1..]) + [b[0]]
  }

  lemma ReversedTwice(b: seq<byte>)
    ensures Reversed(Reversed(b)) == b
  {
  }

  /** The bytes of an integer where the host keeps it. */
  function InMemory(host: ByteOrder, n: nat, size: nat): (b: seq<byte>)
    ensures |b| == size
  {
    if host.LittleEndian? then LittleBytes(n, size) else Reversed(LittleBytes(n, size))
  }

  function FromMemory(host: ByteOrder, b: seq<byte>): nat {
    if host.LittleEndian? then FromLittle(b) else FromLittle(Reversed(b))
  }

  /** Reversing on big-endian hosts leaves the same bytes as little-endian hosts have. */
  lemma SameOnEveryHost(host: ByteOrder, n: nat, size: nat)
    ensures LittleBytes(n, size) ==
      if host.BigEndian? then Reversed(InMemory(host, n, size)) else InMemory(host, n, size)
  {
    ReversedTwice(LittleBytes(n, size));
  }

  lemma ReadOnEveryHost(host: ByteOrder, b: seq<byte>)
    ensures FromLittle(b) == FromMemory(host, if host.BigEndian? then Reversed(b) else b)
  {
    ReversedTwice(b);
  }

  /** Two's complement. */
  function ToUnsigned(i: int, size: nat): nat
    requires IsSigned(i, size)
  {
    var r := Range(size);
    if i < 0 then i + r else i
  }

  predicate IsSigned(i: int, size: nat) {
    var r := Range(size);
    0 <= r + i + i && i + i < r
  }

  function ToSigned(n: nat, size: nat): int {
    var r := Range(size);
    if n + n < r then n else n - r
  }

  lemma SignedRoundTrip(i: int, size: nat)
    requires IsSigned(i, size)
    ensures ToUnsigned(i, size) < Range(size)
    ensures ToSigned(ToUnsigned(i, size), size) == i
  {
  }

  /** The probe the stream uses: the first byte in memory of 0x12345678 tells the host's order. */
  method HostOrder(host: ByteOrder) returns (order: ByteOrder)
    ensures order == host
  {
    var b := InMemory(host, 0x12345678, 4);
    ProbeBytes();
    order := if b[0] == 0x12 then BigEndian else LittleEndian;
  }

  lemma ProbeBytes()
    ensures LittleBytes(0x12345678, 4) == [0x78, 0x56, 0x34, 0x12]
  {
    assert LittleBytes(0x12, 1) == [0x12];
    assert LittleBytes(0x1234, 2) == [0x34, 0x12];
    assert LittleBytes(0x123456, 3) == [0x56, 0x34, 0x12];
  }
}
