/** deriveECKey in scripts/generate_keystore.go: from 32 derived bytes to a P-256 private scalar. */
module Scalar {
  import opened Bytes

  /** The order of the P-256 base point. */
  const N: nat := 0xFFFFFFFF00000000FFFFFFFFFFFFFFFFBCE6FAADA7179E84F3B9CAC2FC632551

  /** Appendix D.1.2.3 of FIPS 186-4 gives the order in decimal. */
  const ORDER: nat := 115792089210356248762697446949407573529996955224135760342422259061068512044369

  method Derive(okm: seq<Byte>) returns (d: nat)
    ensures 1 <= d <= ORDER - 1
    ensures d == ScalarOf(okm)
  {
    d := Value(okm);
    d := d % (N - 1);
    d := d + 1;
  }

  function ScalarOf(okm: seq<Byte>): nat { Value(okm) % (N - 1) + 1 }

  /** The bytes of a number: big.Int.FillBytes. */
  function Fill(v: nat, n: nat): (b: seq<Byte>)
    ensures |b| == n
  {
    if n == 0 then [] else Fill(v / 256, n - 1) + [v % 256]
  }

  lemma {:induction false} FillValue(v: nat, n: nat)
    requires v < Pow2(8 * n)
    ensures Value(Fill(v, n)) == v
  {
    if n > 0 {
      Pow2Byte(n - 1);
      FillValue(v / 256, n - 1);
      assert Fill(v, n)[..n - 1] == Fill(v / 256, n - 1);
    }
  }

  lemma FourBytes(n: nat, m: nat)
    requires m == n + 4
    ensures Pow2(8 * m) == 0x1_0000_0000 * Pow2(8 * n)
  {
    Pow2Byte(n);
    Pow2Byte(n + 1);
    Pow2Byte(n + 2);
    Pow2Byte(n + 3);
  }

  lemma Pow256()
    ensures Pow2(8 * 32) == 0x1_0000000000000000_0000000000000000_0000000000000000_0000000000000000
  {
    FourBytes(0, 4);
    FourBytes(4, 8);
    FourBytes(8, 12);
    FourBytes(12, 16);
    FourBytes(16, 20);
    FourBytes(20, 24);
    FourBytes(24, 28);
    FourBytes(28, 32);
  }

  /** How far the scalars reach that have two inputs: 2^256 - (n - 1). */
  const TWICE: nat := 0x1_0000000000000000_0000000000000000_0000000000000000_0000000000000000 - (ORDER - 1)

  /** The inputs of a scalar, as numbers: one, or two exactly for the scalars up to TWICE. */
  lemma InputsOf(v: nat, d: nat)
    requires 1 <= d <= ORDER - 1 && v < Pow2(8 * 32)
    ensures v % (ORDER - 1) + 1 == d <==> v == d - 1 || (d <= TWICE && v == d - 1 + (ORDER - 1))
  {
    Pow256();
  }

  /** Every scalar from 1 to n - 1 comes from one 32-byte input, or from exactly two when d <= TWICE. */
  lemma Preimages(d: nat)
    requires 1 <= d <= ORDER - 1
    ensures var low, high := Fill(d - 1, 32), Fill(d - 1 + (ORDER - 1), 32);
      && ScalarOf(low) == d
      && (d <= TWICE ==> low != high && ScalarOf(high) == d)
      && forall okm: seq<Byte> | |okm| == 32 && ScalarOf(okm) == d :: okm == low || (d <= TWICE && okm == high)
  {
    var v, w := d - 1, d - 1 + (ORDER - 1);
    Reached(v, d);
    if d <= TWICE { Reached(w, d); }
    forall okm: seq<Byte> | |okm| == 32 && ScalarOf(okm) == d
      ensures okm == Fill(v, 32) || (d <= TWICE && okm == Fill(w, 32))
    {
      InputIs(okm, d);
    }
  }

  lemma InputIs(okm: seq<Byte>, d: nat)
    requires |okm| == 32 && 1 <= d <= ORDER - 1 && ScalarOf(okm) == d
    ensures okm == Fill(d - 1, 32) || (d <= TWICE && okm == Fill(d - 1 + (ORDER - 1), 32))
  {
    ValueBound(okm);
    InputsOf(Value(okm), d);
    FillValue(Value(okm), 32);
    ValueInjective(okm, Fill(Value(okm), 32));
  }

  lemma Reached(v: nat, d: nat)
    requires 1 <= d <= ORDER - 1 && (v == d - 1 || (d <= TWICE && v == d - 1 + (ORDER - 1)))
    ensures Value(Fill(v, 32)) == v && ScalarOf(Fill(v, 32)) == d
  {
    Pow256();
    FillValue(v, 32);
    InputsOf(v, d);
  }
}
