/** scripts/openpgp_key.go: multiprecision integers, with the reader of section 3.2 of RFC 4880. */
module Mpi {
  import opened Bytes
  import opened Wrappers

  /** The number of binary digits of v. */
  function BitLength(v: nat): nat {
    if v == 0 then 0 else 1 + BitLength(v / 2)
  }

  function Strip(b: seq<Byte>): seq<Byte> {
    if b != [] && b[0] == 0 then Strip(b[1..]) else b
  }

  /** A 16-bit bit count and the bytes from the first nonzero one on. */
  function Encoded(b: seq<Byte>): seq<Byte> {
    var s := Strip(b);
    if s == [] then [0, 0] else U16(8 * (|s| - 1) + BitLength(s[0])) + s
  }

  method LeadingZeros8(x: Byte) returns (n: nat)
    ensures n == 8 - BitLength(x)
  {
    n := 0;
    var i := 7;
    Pow2Table();
    while i >= 0
      invariant -1 <= i <= 7 && n == 7 - i
      invariant x < Pow2(i + 1)
    {
      Halved(x, i);
      if x / Pow2(i) % 2 != 0 {
        LengthIs(x, i + 1);
        return;
      }
      n := n + 1;
      i := i - 1;
    }
  }

  lemma Pow2Table()
    ensures Pow2(8) == 256
  {
    Pow2Byte(0);
  }

  /** Below 2^(i+1), bit i is set exactly when x has reached 2^i. */
  lemma Halved(x: nat, i: nat)
    requires x < Pow2(i + 1)
    ensures x / Pow2(i) % 2 != 0 <==> x >= Pow2(i)
  {
    var p := Pow2(i);
    var q := x / p;
    assert x == p * q + x % p;
    if q >= 2 { Larger(p, q); }
  }

  lemma Larger(p: nat, q: nat)
    requires q >= 2
    ensures p * q >= 2 * p
  {}

  /** The bit length is the least k with v < 2^k. */
  lemma {:induction false} LengthBounds(v: nat, k: nat)
    ensures BitLength(v) <= k <==> v < Pow2(k)
    decreases k
  {
    if k > 0 { LengthBounds(v / 2, k - 1); }
  }

  lemma LengthIs(v: nat, k: nat)
    requires k > 0 ==> Pow2(k - 1) <= v
    requires v < Pow2(k)
    ensures BitLength(v) == k
  {
    LengthBounds(v, k);
    if k > 0 { LengthBounds(v, k - 1); }
  }

  /** mpi */
  method Encode(b: seq<Byte>) returns (out: seq<Byte>)
    ensures out == Encoded(b)
  {
    var i := 0;
    while i < |b| && b[i] == 0
      invariant 0 <= i <= |b|
      invariant Strip(b) == Strip(b[i..])
    {
      assert b[i..][1..] == b[i + 1..];
      i := i + 1;
    }
    var s := b[i..];
    if |s| == 0 {
      return [0, 0];
    }
    var zeros := LeadingZeros8(s[0]);
    out := U16((|s| - 1) * 8 + (8 - zeros)) + s;
  }

  /** Reads one multiprecision integer: the bytes of its body and what follows. */
  function Decode(input: seq<Byte>): Option<(seq<Byte>, seq<Byte>)> {
    if |input| < 2 then None else
      var n := (Value(input[..2]) + 7) / 8;
      if |input| < 2 + n then None else Some((input[2..2 + n], input[2 + n..]))
  }

  lemma {:induction false} StripKeepsValue(b: seq<Byte>)
    ensures Value(Strip(b)) == Value(b)
    ensures |Strip(b)| <= |b|
    ensures Strip(b) != [] ==> Strip(b)[0] != 0
  {
    if b != [] && b[0] == 0 {
      StripKeepsValue(b[1..]);
      LeadingZeroValue(b);
    }
  }

  lemma {:induction false} LeadingZeroValue(b: seq<Byte>)
    requires b != [] && b[0] == 0
    ensures Value(b) == Value(b[1..])
  {
    var n := |b| - 1;
    if n > 0 {
      LeadingZeroValue(b[..n]);
      assert b[1..][..n - 1] == b[..n][1..];
    }
  }

  /** The value lies between the powers of two its leading byte allows. */
  lemma {:induction false} LeadingByteBounds(s: seq<Byte>, k: nat)
    requires s != [] && k <= 8 && s[0] < Pow2(k) && (k > 0 ==> Pow2(k - 1) <= s[0])
    ensures Value(s) < Pow2(8 * (|s| - 1) + k)
    ensures k > 0 ==> Pow2(8 * (|s| - 1) + k - 1) <= Value(s)
  {
    var n := |s| - 1;
    if n == 0 {
      assert s[..0] == [];
    } else {
      LeadingByteBounds(s[..n], k);
      Pow2Plus8(8 * (n - 1) + k);
      if k > 0 { Pow2Plus8(8 * (n - 1) + k - 1); }
    }
  }

  /** The bit count written is the bit length of the integer, and the body is its minimal form. */
  lemma BitCountExact(b: seq<Byte>)
    ensures var s := Strip(b);
      if s == [] then Value(b) == 0
      else BitLength(Value(b)) == 8 * (|s| - 1) + BitLength(s[0])
    ensures |Strip(b)| == (BitLength(Value(b)) + 7) / 8
  {
    var s := Strip(b);
    StripKeepsValue(b);
    if s != [] {
      var k := BitLength(s[0]);
      ByteLength(s[0], k);
      LeadingByteBounds(s, k);
      LengthIs(Value(s), 8 * (|s| - 1) + k);
    }
  }

  lemma ByteLength(x: Byte, k: nat)
    requires x != 0 && k == BitLength(x)
    ensures 1 <= k <= 8 && Pow2(k - 1) <= x < Pow2(k)
  {
    Pow2Table();
    LengthBounds(x, k);
    LengthBounds(x, k - 1);
    LengthBounds(x, 8);
  }

  /** The reader gets the integer back, and stops where it ends, exactly when it has fewer than 65536 bits. */
  lemma RoundTripIff(b: seq<Byte>, rest: seq<Byte>)
    ensures Decode(Encoded(b) + rest) == Some((Strip(b), rest)) <==> BitLength(Value(b)) < 0x10000
  {
    EncodedIs(b);
    BitCountExact(b);
    DecodeHeader(BitLength(Value(b)), Strip(b), rest);
  }

  lemma EncodedIs(b: seq<Byte>)
    ensures Encoded(b) == U16(BitLength(Value(b))) + Strip(b)
  {
    BitCountExact(b);
    CountAndBody(Strip(b), BitLength(Value(b)));
  }

  lemma CountAndBody(s: seq<Byte>, bits: nat)
    requires bits == if s == [] then 0 else 8 * (|s| - 1) + BitLength(s[0])
    ensures U16(bits) + s == if s == [] then [0, 0] else U16(8 * (|s| - 1) + BitLength(s[0])) + s
  {}

  lemma DecodeHeader(bits: nat, s: seq<Byte>, rest: seq<Byte>)
    requires |s| == (bits + 7) / 8
    ensures Decode(U16(bits) + s + rest) == Some((s, rest)) <==> bits < 0x10000
  {
    var input := U16(bits) + s + rest;
    var n := (bits % 0x10000 + 7) / 8;
    assert input[..2] == U16(bits);
    U16Value(bits);
    if bits < 0x10000 {
      assert input[2..2 + n] == s && input[2 + n..] == rest;
    } else {
      assert n < |s|;
    }
  }

  /** Two encodings are the same bytes exactly when they denote the same integer. */
  lemma EqualIff(a: seq<Byte>, b: seq<Byte>)
    ensures Encoded(a) == Encoded(b) <==> Value(a) == Value(b)
  {
    EncodedIs(a);
    EncodedIs(b);
    assert Encoded(a)[2..] == Strip(a) && Encoded(b)[2..] == Strip(b);
    StripKeepsValue(a);
    StripKeepsValue(b);
    if Value(a) == Value(b) {
      BitCountExact(a);
      BitCountExact(b);
      ValueInjective(Strip(a), Strip(b));
    }
  }

  function LeftPad(s: seq<Byte>, n: nat): (r: seq<Byte>)
    requires |s| <= n
    ensures |r| == n
  {
    seq(n - |s|, _ => 0) + s
  }

  /** Padding to the original length restores what stripping took. */
  lemma {:induction false} PadRestores(b: seq<Byte>)
    ensures |Strip(b)| <= |b| && LeftPad(Strip(b), |b|) == b
  {
    if b != [] && b[0] == 0 {
      PadRestores(b[1..]);
      assert b == [0] + b[1..];
      assert LeftPad(Strip(b), |b|) == [0] + LeftPad(Strip(b), |b| - 1);
    }
  }
}
