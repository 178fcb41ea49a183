/** Bytes, powers of two and the big-endian reading of a byte string. */
module Bytes {

  type Byte = x: int | 0 <= x < 256

  function Pow2(k: nat): (r: nat)
    ensures r > 0
  {
    if k == 0 then 1 else 2 * Pow2(k - 1)
  }

  /** The integer a byte string denotes, most significant byte first. */
  function Value(b: seq<Byte>): nat {
    if b == [] then 0 else 256 * Value(b[..|b| - 1]) + b[|b| - 1]
  }

  /** binary.BigEndian.PutUint16(uint16(n)): the count is truncated to 16 bits. */
  function U16(n: nat): (b: seq<Byte>)
    ensures |b| == 2
  {
    [n / 256 % 256, n % 256]
  }

  /** binary.BigEndian.PutUint32(uint32(n)): the count is truncated to 32 bits. */
  function U32(n: nat): (b: seq<Byte>)
    ensures |b| == 4
  {
    [n / 0x1000000 % 256, n / 0x10000 % 256, n / 0x100 % 256, n % 256]
  }

  lemma Value2(b: seq<Byte>)
    requires |b| == 2
    ensures Value(b) == 256 * (b[0] as int) + b[1]
  {
    assert b[..1] == [b[0]];
    assert Value([b[0]]) == b[0];
  }

  lemma Value4(b: seq<Byte>)
    requires |b| == 4
    ensures Value(b) == 0x1000000 * (b[0] as int) + 0x10000 * (b[1] as int) + 0x100 * (b[2] as int) + b[3]
  {
    assert b[..3][..2] == b[..2];
    Value2(b[..2]);
    assert Value(b[..3]) == 256 * Value(b[..2]) + b[2];
  }

  lemma U16Value(n: nat)
    ensures Value(U16(n)) == n % 0x10000
  {
    Value2(U16(n));
    TwoDigits(n);
  }

  lemma TwoDigits(n: nat)
    ensures n % 0x10000 == 256 * (n / 256 % 256) + n % 256
  {
    assert n / 0x10000 == n / 256 / 256;
  }

  lemma U32Value(n: nat)
    ensures Value(U32(n)) == n % 0x1_0000_0000
  {
    Value4(U32(n));
    Digits(n);
  }

  lemma Digits(n: nat)
    ensures n % 0x1_0000_0000
         == 0x1000000 * (n / 0x1000000 % 256) + 0x10000 * (n / 0x10000 % 256) + 0x100 * (n / 0x100 % 256) + n % 256
  {
    var a, b, c := n / 0x100, n / 0x10000, n / 0x1000000;
    assert b == a / 0x100 && c == b / 0x100;
    assert n / 0x1_0000_0000 == c / 0x100;
  }

  lemma {:induction false} ValueBound(b: seq<Byte>)
    ensures Value(b) < Pow2(8 * |b|)
  {
    if b != [] {
      ValueBound(b[..|b| - 1]);
      Pow2Byte(|b| - 1);
    }
  }

  lemma Pow2Plus8(j: nat)
    ensures Pow2(j + 8) == 256 * Pow2(j)
  {
    assert Pow2(j + 4) == 16 * Pow2(j) by { assert Pow2(j + 2) == 4 * Pow2(j); }
    assert Pow2(j + 8) == 16 * Pow2(j + 4) by { assert Pow2(j + 6) == 4 * Pow2(j + 4); }
  }

  lemma Pow2Byte(n: nat)
    ensures Pow2(8 * (n + 1)) == 256 * Pow2(8 * n)
  {
    Pow2Plus8(8 * n);
  }

  lemma Associative<T>(a: seq<T>, b: seq<T>, c: seq<T>)
    ensures (a + b) + c == a + (b + c)
  {}

  /** Two byte strings of one length denote the same integer only when they are the same. */
  lemma {:induction false} ValueInjective(a: seq<Byte>, b: seq<Byte>)
    requires |a| == |b| && Value(a) == Value(b)
    ensures a == b
  {
    if a != [] {
      var n := |a| - 1;
      LastDigit(Value(a[..n]), a[n], Value(b[..n]), b[n]);
      ValueInjective(a[..n], b[..n]);
      assert a == a[..n] + [a[n]] && b == b[..n] + [b[n]];
    }
  }

  lemma LastDigit(v: nat, x: Byte, w: nat, y: Byte)
    requires 256 * v + x == 256 * w + y
    ensures v == w && x == y
  {}

  // ---- Writing ----

  /** What one Write may do: take everything, or take some or all of it and report an error. */
  datatype WriteEvent = Takes | Fails(n: nat)

  /** What writing s does to a stream: all of it and no error, or some or all of it and an error. */
  ghost predicate Put<T>(stream: seq<T>, s: seq<T>, stream': seq<T>, ok: bool) {
    if ok then stream' == stream + s else stream <= stream' <= stream + s
  }

  /** Two successful or one failing write amount to one write of the concatenation. */
  lemma PutConcat<T>(stream: seq<T>, s: seq<T>, stream1: seq<T>, ok1: bool, t: seq<T>, stream2: seq<T>, ok2: bool)
    requires Put(stream, s, stream1, ok1)
    ensures !ok1 ==> Put(stream, s + t, stream1, ok1)
    ensures ok1 && Put(stream1, t, stream2, ok2) ==> Put(stream, s + t, stream2, ok2)
  {
    Associative(stream, s, t);
  }
}
