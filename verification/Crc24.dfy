/** Polynomials over GF(2): a polynomial is the set of exponents whose coefficient is one. */
module Gf2 {
  import opened Bytes

  datatype Poly = Poly(terms: set<nat>)

  const ZERO := Poly({})

  function Add(a: Poly, b: Poly): Poly { Poly((a.terms - b.terms) + (b.terms - a.terms)) }

  /** p times x^k. */
  function Shift(p: Poly, k: nat): Poly { Poly(set i | i in p.terms :: i + k) }

  /** The product q * g by Horner's rule; q lists coefficients, leading one first. */
  function Times(q: seq<bool>, g: Poly): Poly {
    if q == [] then ZERO else
      var high := Shift(Times(q[..|q| - 1], g), 1);
      if q[|q| - 1] then Add(high, g) else high
  }

  predicate DegreeBelow(p: Poly, n: nat) { forall i | i in p.terms :: i < n }

  ghost predicate Multiple(p: Poly, g: Poly) { exists q :: p == Times(q, g) }

  /** r is what polynomial division of m by g (of degree n) leaves over. */
  ghost predicate IsRemainder(m: Poly, g: Poly, n: nat, r: Poly) {
    DegreeBelow(r, n) && Multiple(Add(m, r), g)
  }

  /** p with a constant term put in when the bit is set. */
  function Join(bit: nat, p: Poly): Poly { Poly((if bit == 1 then {0} else {}) + p.terms) }

  /** The polynomial whose coefficients are the binary digits of v. */
  function Bits(v: nat): Poly {
    if v == 0 then ZERO else Join(v % 2, Shift(Bits(v / 2), 1))
  }

  /** Bitwise exclusive or. */
  function Xor(a: nat, b: nat): (r: nat) {
    if a == 0 && b == 0 then 0 else 2 * Xor(a / 2, b / 2) + if a % 2 != b % 2 then 1 else 0
  }

  lemma {:induction false} XorBits(a: nat, b: nat)
    ensures Bits(Xor(a, b)) == Add(Bits(a), Bits(b))
  {
    if a != 0 || b != 0 {
      XorBits(a / 2, b / 2);
      XorHalves(a, b);
      SumDigit(a, b, Xor(a, b));
    }
  }

  lemma XorHalves(a: nat, b: nat)
    ensures Xor(a, b) / 2 == Xor(a / 2, b / 2) && Xor(a, b) % 2 == if a % 2 != b % 2 then 1 else 0
  {}

  lemma {:induction false} SumDigit(a: nat, b: nat, x: nat)
    requires Bits(x / 2) == Add(Bits(a / 2), Bits(b / 2)) && x % 2 == if a % 2 != b % 2 then 1 else 0
    ensures Bits(x) == Add(Bits(a), Bits(b))
  {
    BitsUnfold(a);
    BitsUnfold(b);
    BitsUnfold(x);
    SumJoined(Bits(a / 2), Bits(b / 2), a % 2, b % 2, x % 2);
  }

  lemma SumJoined(p: Poly, q: Poly, a: nat, b: nat, c: nat)
    requires a < 2 && b < 2 && c == if a != b then 1 else 0
    ensures Join(c, Shift(Add(p, q), 1)) == Add(Join(a, Shift(p, 1)), Join(b, Shift(q, 1)))
  {
    ShiftAdd(p, q, 1);
    ShiftMember(p, 1, 0);
    ShiftMember(q, 1, 0);
    Parities(Shift(p, 1), Shift(q, 1), a, b, c);
  }

  /** The constant term of a sum is the sum of the constant terms. */
  lemma Parities(p: Poly, q: Poly, a: nat, b: nat, c: nat)
    requires 0 !in p.terms && 0 !in q.terms && a < 2 && b < 2 && c == if a != b then 1 else 0
    ensures Join(c, Add(p, q)) == Add(Join(a, p), Join(b, q))
  {}

  lemma Extensional(p: Poly, q: Poly)
    requires forall i: nat :: i in p.terms <==> i in q.terms
    ensures p == q
  {
    assert p.terms == q.terms;
  }

  lemma BitsUnfold(v: nat)
    ensures Bits(v) == Join(v % 2, Shift(Bits(v / 2), 1))
    ensures 0 in Bits(v).terms <==> v % 2 == 1
  {}

  lemma ShiftAdd(a: Poly, b: Poly, k: nat)
    ensures Shift(Add(a, b), k) == Add(Shift(a, k), Shift(b, k))
  {
    forall i ensures i in Shift(Add(a, b), k).terms <==> i in Add(Shift(a, k), Shift(b, k)).terms {
      ShiftMember(Add(a, b), k, i);
      ShiftMember(a, k, i);
      ShiftMember(b, k, i);
    }
  }

  lemma AddAssociative(a: Poly, b: Poly, c: Poly)
    ensures Add(Add(a, b), c) == Add(a, Add(b, c))
  {}

  lemma ShiftMember(p: Poly, k: nat, i: int)
    ensures i in Shift(p, k).terms <==> i >= k && i - k in p.terms
  {
    if i >= k && i - k in p.terms { assert (i - k) + k in Shift(p, k).terms; }
  }

  lemma ShiftShift(p: Poly, a: nat, b: nat)
    ensures Shift(Shift(p, a), b) == Shift(p, a + b)
  {
    forall i ensures i in Shift(Shift(p, a), b).terms <==> i in Shift(p, a + b).terms {
      ShiftMember(Shift(p, a), b, i);
      ShiftMember(p, a, i - b);
      ShiftMember(p, a + b, i);
    }
  }

  lemma ShiftInjective(a: Poly, b: Poly, k: nat)
    requires Shift(a, k) == Shift(b, k)
    ensures a == b
  {
    forall i: nat ensures i in a.terms <==> i in b.terms {
      ShiftMember(a, k, i + k);
      ShiftMember(b, k, i + k);
    }
  }

  /** Appending k binary digits is multiplying by x^k and adding. */
  lemma {:induction false} BitsAppend(v: nat, low: nat, k: nat)
    requires low < Pow2(k)
    ensures Bits(Pow2(k) * v + low) == Add(Shift(Bits(v), k), Bits(low))
    decreases k
  {
    if k == 0 {
      ShiftByNone(Bits(v));
    } else {
      HalfAppend(Pow2(k - 1), Pow2(k), v, low);
      BitsAppend(v, low / 2, k - 1);
      AppendDigit(Pow2(k) * v + low, low, Bits(v), k);
    }
  }

  lemma ShiftByNone(p: Poly)
    ensures Add(Shift(p, 0), ZERO) == p
  {
    assert Shift(p, 0).terms == p.terms;
  }

  lemma {:induction false} AppendDigit(t: nat, low: nat, p: Poly, k: nat)
    requires k > 0 && t % 2 == low % 2 && Bits(t / 2) == Add(Shift(p, k - 1), Bits(low / 2))
    ensures Bits(t) == Add(Shift(p, k), Bits(low))
  {
    ShiftAdd(Shift(p, k - 1), Bits(low / 2), 1);
    ShiftShift(p, k - 1, 1);
    BitsUnfold(t);
    BitsUnfold(low);
    ShiftMember(p, k, 0);
    ShiftMember(Bits(low / 2), 1, 0);
    SameParity(Shift(p, k), Shift(Bits(low / 2), 1), low % 2);
  }

  lemma HalfAppend(half: nat, p: nat, v: nat, low: nat)
    requires p == 2 * half
    ensures 0 <= half * v && 0 <= p * v
    ensures (p * v + low) / 2 == half * v + low / 2 && (p * v + low) % 2 == low % 2
  {
    assert p * v == 2 * (half * v);
  }

  /** A constant term joins a sum of polynomials that have none. */
  lemma SameParity(high: Poly, low: Poly, bit: nat)
    requires 0 !in high.terms && 0 !in low.terms
    ensures Join(bit, Add(high, low)) == Add(high, Join(bit, low))
  {}

  /** The degree is where the binary length says it is. */
  lemma {:induction false} BitsDegree(v: nat, k: nat)
    ensures DegreeBelow(Bits(v), k) <==> v < Pow2(k)
    decreases k
  {
    BitsUnfold(v);
    if k == 0 {
      if v != 0 {
        BitsNonzero(v);
      }
    } else {
      BitsDegree(v / 2, k - 1);
      if DegreeBelow(Bits(v), k) {
        forall i | i in Bits(v / 2).terms ensures i < k - 1 { ShiftMember(Bits(v / 2), 1, i + 1); }
      }
      if DegreeBelow(Bits(v / 2), k - 1) {
        forall i | i in Bits(v).terms ensures i < k { ShiftMember(Bits(v / 2), 1, i); }
      }
    }
  }

  lemma {:induction false} BitsNonzero(v: nat)
    requires v != 0
    ensures Bits(v) != ZERO
  {
    BitsUnfold(v);
    if v % 2 == 0 {
      BitsNonzero(v / 2);
      var i :| i in Bits(v / 2).terms;
      ShiftMember(Bits(v / 2), 1, i + 1);
    }
  }

  lemma {:induction false} BitsInjective(a: nat, b: nat)
    requires Bits(a) == Bits(b)
    ensures a == b
  {
    BitsUnfold(a);
    BitsUnfold(b);
    if a != 0 && b != 0 {
      forall i: nat ensures i in Bits(a / 2).terms <==> i in Bits(b / 2).terms {
        ShiftMember(Bits(a / 2), 1, i + 1);
        ShiftMember(Bits(b / 2), 1, i + 1);
      }
      BitsInjective(a / 2, b / 2);
    } else if a != b {
      BitsNonzero(a + b);
    }
  }

  // ---- Divisibility ----

  /** A nonzero multiple of g has a term at or above the degree of g. */
  lemma {:induction false} MultipleDegree(q: seq<bool>, g: Poly, n: nat)
    requires n in g.terms && DegreeBelow(g, n + 1)
    ensures Times(q, g) == ZERO || exists i :: i in Times(q, g).terms && i >= n
    ensures DegreeBelow(Times(q, g), n + |q|)
    ensures true in q ==> exists i :: i in Times(q, g).terms && i >= n
  {
    if q != [] {
      var h := q[..|q| - 1];
      MultipleDegree(h, g, n);
      var high := Shift(Times(h, g), 1);
      forall i | i in high.terms ensures i < n + |q| { ShiftMember(Times(h, g), 1, i); }
      if true in h {
        var i :| i in Times(h, g).terms && i >= n;
        ShiftMember(Times(h, g), 1, i + 1);
        assert i + 1 in Times(q, g).terms;
      } else {
        AllZero(h, g);
        assert q == h + [q[|q| - 1]];
        assert q[|q| - 1] ==> n in Times(q, g).terms;
      }
    }
  }

  lemma {:induction false} AllZero(q: seq<bool>, g: Poly)
    requires true !in q
    ensures Times(q, g) == ZERO
  {
    if q != [] { AllZero(q[..|q| - 1], g); }
  }

  /** Leading zeros change nothing, so two quotients can be given one length. */
  lemma {:induction false} LeadingZero(q: seq<bool>, g: Poly)
    ensures Times([false] + q, g) == Times(q, g)
  {
    if q == [] {
      assert ([false] + q)[..0] == [];
      assert Times([false], g) == Shift(Times([], g), 1);
    } else {
      LeadingZero(q[..|q| - 1], g);
      assert ([false] + q)[..|q|] == [false] + q[..|q| - 1];
    }
  }

  lemma AppendBit(q: seq<bool>, g: Poly)
    ensures Times(q + [false], g) == Shift(Times(q, g), 1)
    ensures Times(q + [true], g) == Add(Shift(Times(q, g), 1), g)
  {
    assert (q + [false])[..|q|] == q && (q + [true])[..|q|] == q;
  }

  function Zip(p: seq<bool>, q: seq<bool>): (r: seq<bool>)
    requires |p| == |q|
  {
    seq(|p|, i requires 0 <= i < |p| => p[i] != q[i])
  }

  lemma {:induction false} TimesAdd(p: seq<bool>, q: seq<bool>, g: Poly)
    requires |p| == |q|
    ensures Times(Zip(p, q), g) == Add(Times(p, g), Times(q, g))
  {
    if p != [] {
      var n := |p| - 1;
      TimesAdd(p[..n], q[..n], g);
      assert Zip(p, q)[..n] == Zip(p[..n], q[..n]);
      ShiftAdd(Times(p[..n], g), Times(q[..n], g), 1);
    }
  }

  /** Sums of multiples are multiples. */
  lemma {:induction false} MultipleAdd(p: seq<bool>, q: seq<bool>, g: Poly)
    ensures Multiple(Add(Times(p, g), Times(q, g)), g)
    decreases if |p| < |q| then |q| - |p| else |p| - |q|
  {
    if |p| < |q| {
      LeadingZero(p, g);
      MultipleAdd([false] + p, q, g);
    } else if |q| < |p| {
      LeadingZero(q, g);
      MultipleAdd(p, [false] + q, g);
    } else {
      TimesAdd(p, q, g);
    }
  }

  /** Division leaves one remainder only. */
  lemma RemainderUnique(m: Poly, g: Poly, n: nat, r: Poly, s: Poly)
    requires n in g.terms && DegreeBelow(g, n + 1)
    requires IsRemainder(m, g, n, r) && IsRemainder(m, g, n, s)
    ensures r == s
  {
    var p :| Add(m, r) == Times(p, g);
    var q :| Add(m, s) == Times(q, g);
    MultipleAdd(p, q, g);
    assert Add(Times(p, g), Times(q, g)) == Add(r, s);
    var t :| Add(r, s) == Times(t, g);
    MultipleDegree(t, g, n);
    assert Add(r, s) == ZERO;
    assert forall i :: i in r.terms <==> i in s.terms by {
      forall i ensures i in r.terms <==> i in s.terms { assert i !in Add(r, s).terms; }
    }
  }

  /** g has a constant term, so x^k times p is a multiple of g only when p is. */
  lemma {:induction false} CancelX(q: seq<bool>, p: Poly, k: nat, g: Poly)
    requires 0 in g.terms && Times(q, g) == Shift(p, k)
    ensures Multiple(p, g)
    decreases k
  {
    if k == 0 {
      assert Shift(p, 0) == p;
    } else {
      ShiftMember(p, k, 0);
      ShiftShift(p, k - 1, 1);
      if q == [] {
        ShiftEmpty(p, k);
        assert p == Times([], g);
      } else {
        var h := q[..|q| - 1];
        ShiftMember(Times(h, g), 1, 0);
        ShiftInjective(Times(h, g), Shift(p, k - 1), 1);
        CancelX(h, p, k - 1, g);
      }
    }
  }

  lemma ShiftEmpty(p: Poly, k: nat)
    requires Shift(p, k) == ZERO
    ensures p == ZERO
  {
    forall i | i in p.terms ensures false { ShiftMember(p, k, i + k); }
  }

  lemma {:induction false} MultipleShift(q: seq<bool>, k: nat, g: Poly)
    ensures Multiple(Shift(Times(q, g), k), g)
    decreases k
  {
    if k == 0 {
      assert Shift(Times(q, g), 0) == Times(q, g);
    } else {
      assert (q + [false])[..|q|] == q;
      ShiftShift(Times(q, g), 1, k - 1);
      MultipleShift(q + [false], k - 1, g);
    }
  }
}

/** The number of terms modulo two, that is, the value at x = 1. */
module Parity {
  import opened Gf2

  lemma {:induction false} ShiftTerms(p: Poly, k: nat)
    ensures |Shift(p, k).terms| == |p.terms|
    decreases |p.terms|
  {
    if p.terms != {} {
      var m :| m in p.terms;
      var q := Poly(p.terms - {m});
      ShiftTerms(q, k);
      forall j: int ensures j in Shift(p, k).terms <==> j in Shift(q, k).terms + {m + k} {
        ShiftMember(p, k, j);
        ShiftMember(q, k, j);
      }
      assert Shift(p, k).terms == Shift(q, k).terms + {m + k};
      ShiftMember(q, k, m + k);
    }
  }

  /** Terms cancel in pairs. */
  lemma AddTerms(a: Poly, b: Poly)
    ensures |Add(a, b).terms| % 2 == (|a.terms| + |b.terms|) % 2
  {
    var x, y, both := a.terms - b.terms, b.terms - a.terms, a.terms * b.terms;
    assert a.terms == x + both && b.terms == y + both;
    assert |x + y| == |x| + |y| && |x + both| == |x| + |both| && |y + both| == |y| + |both|;
  }

  /** A multiple of a polynomial with an even number of terms has an even number of terms. */
  lemma {:induction false} MultipleEven(q: seq<bool>, g: Poly)
    requires |g.terms| % 2 == 0
    ensures |Times(q, g).terms| % 2 == 0
  {
    if q != [] {
      MultipleEven(q[..|q| - 1], g);
      EvenStep(Times(q[..|q| - 1], g), g);
    }
  }

  lemma EvenStep(h: Poly, g: Poly)
    requires |h.terms| % 2 == 0 && |g.terms| % 2 == 0
    ensures |Shift(h, 1).terms| % 2 == 0 && |Add(Shift(h, 1), g).terms| % 2 == 0
  {
    ShiftTerms(h, 1);
    AddTerms(Shift(h, 1), g);
  }

  function Ones(v: nat): nat { if v == 0 then 0 else v % 2 + Ones(v / 2) }

  lemma {:induction false} BitsTerms(v: nat)
    ensures |Bits(v).terms| == Ones(v)
  {
    if v != 0 {
      BitsTerms(v / 2);
      ShiftTerms(Bits(v / 2), 1);
      ShiftMember(Bits(v / 2), 1, 0);
    }
  }

  lemma {:induction false} OnesBit(v: nat, bit: nat, w: nat)
    requires bit < 2 && w == 2 * v + bit
    ensures Ones(w) == Ones(v) + bit
  {
    assert w / 2 == v && w % 2 == bit;
  }

  /** One hexadecimal digit at a time. */
  lemma {:induction false} OnesDigit(v: nat, b3: nat, b2: nat, b1: nat, b0: nat, w: nat)
    requires b3 < 2 && b2 < 2 && b1 < 2 && b0 < 2 && w == 16 * v + 8 * b3 + 4 * b2 + 2 * b1 + b0
    ensures Ones(w) == Ones(v) + b3 + b2 + b1 + b0
  {
    var x := 2 * v + b3;
    var y := 2 * x + b2;
    var z := 2 * y + b1;
    OnesBit(v, b3, x);
    OnesBit(x, b2, y);
    OnesBit(y, b1, z);
    OnesBit(z, b0, w);
  }

  /** A number with the digits 864CFB after its first has 13 more ones than that. */
  lemma {:induction false} DigitsOf(a: nat, b: nat, c: nat, d: nat, e: nat, f: nat, g: nat)
    requires b == 16 * a + 8 && c == 16 * b + 6 && d == 16 * c + 4
    requires e == 16 * d + 12 && f == 16 * e + 15 && g == 16 * f + 11
    ensures Ones(g) == Ones(a) + 13
  {
    OnesDigit(a, 1, 0, 0, 0, b);
    OnesDigit(b, 0, 1, 1, 0, c);
    OnesDigit(c, 0, 1, 0, 0, d);
    OnesDigit(d, 1, 1, 0, 0, e);
    OnesDigit(e, 1, 1, 1, 1, f);
    OnesDigit(f, 1, 0, 1, 1, g);
  }

  lemma {:induction false} OneMore(a: nat, g: nat)
    requires a == 1 && Ones(g) == Ones(a) + 13
    ensures |Bits(g).terms| % 2 == 0
  {
    BitsTerms(g);
  }
}

/** scripts/openpgp_key.go: the armor checksum, for any register start and any generator of degree 24. */
module CrcRegister {
  import opened Bytes
  import opened Gf2

  /** init * x^(8n) + data * x^24, the polynomial section 6.1 of RFC 4880 has divided. */
  function Message(data: seq<Byte>, init: nat): Poly {
    Add(Shift(Bits(init), 8 * |data|), Shift(Bits(Value(data)), 24))
  }

  /** One turn of the inner loop on the 32-bit register. */
  function BitStep(crc: nat, gen: nat): (r: nat) {
    var doubled := 2 * crc % 0x1_0000_0000;
    if doubled / 0x1000000 % 2 == 1 then Xor(doubled, gen) else doubled
  }

  function Steps(crc: nat, k: nat, gen: nat): (r: nat) {
    if k == 0 then crc else BitStep(Steps(crc, k - 1, gen), gen)
  }

  /** The register once b has been mixed into its top byte. */
  function Mix(crc: nat, b: Byte): nat { Xor(crc, 0x10000 * (b as int)) }

  /** The register after every byte has been mixed in and shifted through. */
  function Register(data: seq<Byte>, init: nat, gen: nat): nat {
    if data == [] then init else
      var n := |data| - 1;
      Steps(Mix(Register(data[..n], init, gen), data[n]), 8, gen)
  }

  predicate Degree24(gen: nat) { 0x1000000 <= gen < 0x2000000 }

  lemma Powers()
    ensures Pow2(8) == 0x100 && Pow2(16) == 0x10000 && Pow2(24) == 0x1000000 && Pow2(25) == 0x2000000
  {
    Pow2Byte(0);
    Pow2Byte(1);
    Pow2Byte(2);
  }

  lemma LeadingTerm(gen: nat)
    requires Degree24(gen)
    ensures 24 in Bits(gen).terms && DegreeBelow(Bits(gen), 25)
  {
    Powers();
    BitsDegree(gen, 24);
    BitsDegree(gen, 25);
  }

  /** The register stays below 2^24, and one step multiplies by x modulo the generator. */
  lemma BitStepDivides(crc: nat, m: Poly, gen: nat)
    requires crc < 0x1000000 && Degree24(gen) && Multiple(Add(m, Bits(crc)), Bits(gen))
    ensures BitStep(crc, gen) < 0x1000000
    ensures Multiple(Add(Shift(m, 1), Bits(BitStep(crc, gen))), Bits(gen))
  {
    var g, d := Bits(gen), 2 * crc;
    var q :| Add(m, Bits(crc)) == Times(q, g);
    DoubledBits(crc);
    StepAlgebra(m, Bits(crc), g);
    AppendBit(q, g);
    BitStepIs(crc, gen);
    if d >= 0x1000000 {
      XorBits(d, gen);
      ReducedDegree(d, gen);
    }
  }

  lemma BitStepIs(crc: nat, gen: nat)
    requires crc < 0x1000000
    ensures BitStep(crc, gen) == if 2 * crc < 0x1000000 then 2 * crc else Xor(2 * crc, gen)
  {
    TopBit(2 * crc);
  }

  lemma TopBit(d: nat)
    requires d < 0x2000000
    ensures d % 0x1_0000_0000 == d && d / 0x1000000 == if d < 0x1000000 then 0 else 1
  {}

  lemma DoubledBits(v: nat)
    ensures Bits(2 * v) == Shift(Bits(v), 1)
  {
    BitsUnfold(2 * v);
    Extensional(Bits(2 * v), Shift(Bits(v), 1));
  }

  lemma StepAlgebra(m: Poly, r: Poly, g: Poly)
    ensures Add(Shift(m, 1), Shift(r, 1)) == Shift(Add(m, r), 1)
    ensures Add(Shift(m, 1), Add(Shift(r, 1), g)) == Add(Shift(Add(m, r), 1), g)
  {
    ShiftAdd(m, r, 1);
    AddAssociative(Shift(m, 1), Shift(r, 1), g);
  }

  /** The top bits of the doubled register and of the generator cancel. */
  lemma ReducedDegree(d: nat, gen: nat)
    requires Degree24(d) && Degree24(gen)
    ensures Xor(d, gen) < 0x1000000
  {
    Powers();
    XorBits(d, gen);
    LeadingTerm(d);
    LeadingTerm(gen);
    BitsDegree(Xor(d, gen), 24);
  }

  lemma {:induction false} StepsDivide(crc: nat, m: Poly, k: nat, gen: nat)
    requires crc < 0x1000000 && Degree24(gen) && Multiple(Add(m, Bits(crc)), Bits(gen))
    ensures Steps(crc, k, gen) < 0x1000000
    ensures Multiple(Add(Shift(m, k), Bits(Steps(crc, k, gen))), Bits(gen))
    decreases k
  {
    if k == 0 {
      assert Shift(m, 0) == m;
    } else {
      StepsDivide(crc, m, k - 1, gen);
      BitStepDivides(Steps(crc, k - 1, gen), Shift(m, k - 1), gen);
      ShiftShift(m, k - 1, 1);
    }
  }

  /** Mixing a byte into the top of the register adds b * x^16. */
  lemma MixByte(crc: nat, b: Byte)
    requires crc < 0x1000000
    ensures Mix(crc, b) < 0x1000000
    ensures Bits(Mix(crc, b)) == Add(Bits(crc), Shift(Bits(b), 16))
  {
    var top := 0x10000 * (b as int);
    TopByte(b, top);
    XorBits(crc, top);
    XorFits(crc, top);
  }

  lemma {:induction false} TopByte(b: nat, top: nat)
    requires top == 0x10000 * b
    ensures Bits(top) == Shift(Bits(b), 16)
  {
    Powers();
    BitsAppend(b, 0, 16);
    AddZero(Shift(Bits(b), 16));
  }

  lemma AddZero(p: Poly)
    ensures Add(p, ZERO) == p
  {}

  lemma {:induction false} XorFits(a: nat, b: nat)
    requires a < 0x1000000 && b < 0x1000000
    ensures Xor(a, b) < 0x1000000
  {
    Powers();
    XorBits(a, b);
    BitsDegree(a, 24);
    BitsDegree(b, 24);
    BitsDegree(Xor(a, b), 24);
  }

  /** A longer message is the shorter one with b * x^16 added, times x^8. */
  lemma MessageAppend(data: seq<Byte>, b: Byte, init: nat)
    ensures Message(data + [b], init) == Shift(Add(Message(data, init), Shift(Bits(b), 16)), 8)
  {
    AppendValue(data, b);
    AppendAlgebra(Bits(init), 8 * |data|, Bits(Value(data)), Bits(b));
  }

  lemma AppendAlgebra(s: Poly, n: nat, v: Poly, b: Poly)
    ensures Shift(Add(Add(Shift(s, n), Shift(v, 24)), Shift(b, 16)), 8)
         == Add(Shift(s, n + 8), Add(Shift(v, 32), Shift(b, 24)))
  {
    ShiftAdd(Add(Shift(s, n), Shift(v, 24)), Shift(b, 16), 8);
    ShiftAdd(Shift(s, n), Shift(v, 24), 8);
    ShiftShift(s, n, 8);
    ShiftShift(v, 24, 8);
    ShiftShift(b, 16, 8);
    AddAssociative(Shift(s, n + 8), Shift(v, 32), Shift(b, 24));
  }

  /** data followed by b, times x^24. */
  lemma AppendValue(data: seq<Byte>, b: Byte)
    ensures Shift(Bits(Value(data + [b])), 24) == Add(Shift(Bits(Value(data)), 32), Shift(Bits(b), 24))
  {
    var v := Value(data);
    assert (data + [b])[..|data|] == data;
    Powers();
    BitsAppend(v, b, 8);
    ShiftShift(Bits(v), 8, 24);
    ShiftAdd(Shift(Bits(v), 8), Bits(b), 24);
  }

  lemma MixCancels(m: Poly, r: Poly, b: Poly)
    ensures Add(Add(m, b), Add(r, b)) == Add(m, r)
  {}

  /** The register ends as the remainder of the message polynomial by the generator. */
  lemma {:induction false} RegisterIsRemainder(data: seq<Byte>, init: nat, gen: nat)
    requires init < 0x1000000 && Degree24(gen)
    ensures Register(data, init, gen) < 0x1000000
    ensures IsRemainder(Message(data, init), Bits(gen), 24, Bits(Register(data, init, gen)))
  {
    if data == [] {
      assert Shift(Bits(init), 0) == Bits(init);
      assert Shift(Bits(Value([])), 24) == ZERO;
      assert Add(Message(data, init), Bits(init)) == Times([], Bits(gen));
    } else {
      var n := |data| - 1;
      var b, m, crc := data[n], Message(data[..n], init), Register(data[..n], init, gen);
      RegisterIsRemainder(data[..n], init, gen);
      MixByte(crc, b);
      MixCancels(m, Bits(crc), Shift(Bits(b), 16));
      StepsDivide(Mix(crc, b), Add(m, Shift(Bits(b), 16)), 8, gen);
      MessageAppend(data[..n], b, init);
      assert data == data[..n] + [b];
    }
    Powers();
    BitsDegree(Register(data, init, gen), 24);
  }

  function Difference(a: seq<Byte>, b: seq<Byte>): Poly { Add(Bits(Value(a)), Bits(Value(b))) }

  lemma MessageDifference(a: seq<Byte>, b: seq<Byte>, init: nat)
    requires |a| == |b|
    ensures Add(Message(a, init), Message(b, init)) == Shift(Difference(a, b), 24)
  {
    var start := Shift(Bits(init), 8 * |a|);
    var x, y := Shift(Bits(Value(a)), 24), Shift(Bits(Value(b)), 24);
    ShiftAdd(Bits(Value(a)), Bits(Value(b)), 24);
    assert Add(Add(start, x), Add(start, y)) == Add(x, y);
  }

  lemma Regroup(a: Poly, b: Poly, r: Poly)
    ensures Add(Add(a, r), Add(a, b)) == Add(b, r)
  {}

  /** Two messages of one length collide exactly when the generator divides their difference. */
  lemma RegisterCollision(a: seq<Byte>, b: seq<Byte>, init: nat, gen: nat)
    requires |a| == |b| && init < 0x1000000 && Degree24(gen) && gen % 2 == 1
    ensures Register(a, init, gen) == Register(b, init, gen) <==> Multiple(Difference(a, b), Bits(gen))
  {
    var g, diff := Bits(gen), Difference(a, b);
    var ma, mb, ra, rb := Message(a, init), Message(b, init), Register(a, init, gen), Register(b, init, gen);
    LeadingTerm(gen);
    BitsUnfold(gen);
    RegisterIsRemainder(a, init, gen);
    RegisterIsRemainder(b, init, gen);
    var p :| Add(ma, Bits(ra)) == Times(p, g);
    var q :| Add(mb, Bits(rb)) == Times(q, g);
    MessageDifference(a, b, init);
    if ra == rb {
      MultipleAdd(p, q, g);
      MixCancels(ma, mb, Bits(ra));
      var t :| Shift(diff, 24) == Times(t, g);
      CancelX(t, diff, 24, g);
    }
    if Multiple(diff, g) {
      var t :| diff == Times(t, g);
      MultipleShift(t, 24, g);
      var u :| Shift(diff, 24) == Times(u, g);
      MultipleAdd(p, u, g);
      Regroup(ma, mb, Bits(ra));
      RemainderUnique(mb, g, 24, Bits(ra), Bits(rb));
      BitsInjective(ra, rb);
    }
  }

  /** All the bits in which a and b differ lie in a window of 24 consecutive bits. */
  ghost predicate Burst(a: seq<Byte>, b: seq<Byte>, lowest: nat) {
    forall i | i in Difference(a, b).terms :: lowest <= i < lowest + 24
  }

  /** The generator divides no nonzero difference that fits in 24 consecutive bits. */
  lemma BurstIsNoMultiple(a: seq<Byte>, b: seq<Byte>, lowest: nat, gen: nat)
    requires |a| == |b| && a != b && Burst(a, b, lowest) && Degree24(gen) && gen % 2 == 1
    ensures !Multiple(Difference(a, b), Bits(gen))
  {
    var g, diff := Bits(gen), Difference(a, b);
    if Multiple(diff, g) {
      LeadingTerm(gen);
      BitsUnfold(gen);
      var q :| diff == Times(q, g);
      var window := Poly(set i | i in diff.terms :: i - lowest);
      forall i ensures i in Shift(window, lowest).terms <==> i in diff.terms {
        ShiftMember(window, lowest, i);
      }
      CancelX(q, window, lowest, g);
      var t :| window == Times(t, g);
      MultipleDegree(t, g, 24);
      SumZero(Bits(Value(a)), Bits(Value(b)));
      BitsInjective(Value(a), Value(b));
      ValueInjective(a, b);
    }
  }

  lemma SumZero(p: Poly, q: Poly)
    requires Add(p, q) == ZERO
    ensures p == q
  {
    forall i ensures i in p.terms <==> i in q.terms { assert i !in Add(p, q).terms; }
  }

  /** An error confined to three consecutive bytes is a burst, wherever it sits. */
  lemma ThreeBytesAreABurst(pre: seq<Byte>, x: seq<Byte>, y: seq<Byte>, post: seq<Byte>)
    requires |x| == |y| <= 3
    ensures Burst(pre + x + post, pre + y + post, 8 * |post|)
  {
    var k := 8 * |post|;
    var px, py := Bits(Value(pre + x)), Bits(Value(pre + y));
    ConcatBits(pre + x, post);
    ConcatBits(pre + y, post);
    MixCancels(Shift(px, k), Shift(py, k), Bits(Value(post)));
    ShiftAdd(px, py, k);
    ConcatBits(pre, x);
    ConcatBits(pre, y);
    var shared := Shift(Bits(Value(pre)), 8 * |x|);
    assert Add(px, py) == Add(Bits(Value(x)), Bits(Value(y))) by {
      Regroup(shared, Bits(Value(x)), Bits(Value(y)));
      assert Add(Add(shared, Bits(Value(x))), Add(shared, Bits(Value(y))))
          == Add(Bits(Value(x)), Bits(Value(y)));
    }
    forall i | i in Difference(pre + x + post, pre + y + post).terms ensures k <= i < k + 24 {
      ShiftMember(Add(px, py), k, i);
      ByteDegree(x, i - k);
      ByteDegree(y, i - k);
    }
  }

  lemma ConcatBits(a: seq<Byte>, b: seq<Byte>)
    ensures Bits(Value(a + b)) == Add(Shift(Bits(Value(a)), 8 * |b|), Bits(Value(b)))
  {
    ConcatValue(a, b);
    ValueBound(b);
    BitsAppend(Value(a), Value(b), 8 * |b|);
  }

  lemma {:induction false} ConcatValue(a: seq<Byte>, b: seq<Byte>)
    ensures Value(a + b) == Pow2(8 * |b|) * Value(a) + Value(b)
  {
    if b == [] {
      assert a + b == a;
    } else {
      var n := |b| - 1;
      ConcatValue(a, b[..n]);
      Pow2Byte(n);
      Times256(Pow2(8 * n), Value(a));
      assert (a + b)[..|a| + n] == a + b[..n];
    }
  }

  lemma Times256(p: nat, v: nat)
    ensures 256 * p * v == 256 * (p * v)
  {}

  lemma ByteDegree(b: seq<Byte>, i: int)
    ensures i in Bits(Value(b)).terms ==> i < 8 * |b|
  {
    ValueBound(b);
    BitsDegree(Value(b), 8 * |b|);
  }

  /** The two nested loops and the closing mask. */
  method Run(data: seq<Byte>, init: nat, gen: nat) returns (crc: nat)
    requires init < 0x1000000 && Degree24(gen)
    ensures crc == Register(data, init, gen) < 0x1000000
  {
    crc := init;
    var i := 0;
    while i < |data|
      invariant 0 <= i <= |data|
      invariant crc == Register(data[..i], init, gen)
    {
      crc := Mix(crc, data[i]);
      ghost var mixed := crc;
      var k := 0;
      while k < 8
        invariant 0 <= k <= 8
        invariant crc == Steps(mixed, k, gen)
      {
        crc := BitStep(crc, gen);
        k := k + 1;
      }
      NextByte(data, i, init, gen, k);
      i := i + 1;
    }
    assert data[..i] == data;
    RegisterFits(data, init, gen);
    crc := crc % 0x1000000;
  }

  lemma RegisterFits(data: seq<Byte>, init: nat, gen: nat)
    requires init < 0x1000000 && Degree24(gen)
    ensures Register(data, init, gen) < 0x1000000
  {
    RegisterIsRemainder(data, init, gen);
  }

  lemma NextByte(data: seq<Byte>, i: nat, init: nat, gen: nat, k: nat)
    requires i < |data| && k == 8
    ensures Register(data[..i + 1], init, gen) == Steps(Mix(Register(data[..i], init, gen), data[i]), k, gen)
  {
    assert data[..i + 1][..i] == data[..i];
  }
}

/** crc24 itself: the constants of section 6.1 of RFC 4880. */
module Crc24 {
  import opened Bytes
  import opened Gf2
  import opened CrcRegister
  import Parity

  const INIT: nat := 0xB704CE
  const GENERATOR: nat := 0x1864CFB

  function Checksum(data: seq<Byte>): nat { Register(data, INIT, GENERATOR) }

  /** Section 6.1 of RFC 4880: the remainder of the message, begun with 0xB704CE, by the polynomial 0x1864CFB. */
  ghost predicate IsChecksum(data: seq<Byte>, r: Poly) {
    IsRemainder(Message(data, 0xB704CE), Bits(0x1864CFB), 24, r)
  }

  /** crc24: the loop computes the only remainder, and its final mask never changes anything. */
  method Compute(data: seq<Byte>) returns (crc: nat)
    ensures crc == Checksum(data) && crc < 0x1000000
    ensures forall r :: IsChecksum(data, r) <==> r == Bits(crc)
  {
    crc := Run(data, INIT, GENERATOR);
    ChecksumIs(data);
  }

  lemma ChecksumIs(data: seq<Byte>)
    ensures Checksum(data) < 0x1000000
    ensures forall r :: IsChecksum(data, r) <==> r == Bits(Checksum(data))
  {
    RegisterIsRemainder(data, INIT, GENERATOR);
    OnlyRemainder(Message(data, INIT), GENERATOR, Bits(Checksum(data)));
  }

  lemma OnlyRemainder(m: Poly, gen: nat, s: Poly)
    requires Degree24(gen) && IsRemainder(m, Bits(gen), 24, s)
    ensures forall r :: IsRemainder(m, Bits(gen), 24, r) ==> r == s
  {
    LeadingTerm(gen);
    forall r | IsRemainder(m, Bits(gen), 24, r) ensures r == s {
      RemainderUnique(m, Bits(gen), 24, r, s);
    }
  }

  /** Equal-length inputs share a checksum exactly when the generator divides their difference. */
  lemma CollisionIff(a: seq<Byte>, b: seq<Byte>)
    requires |a| == |b|
    ensures Checksum(a) == Checksum(b) <==> Multiple(Difference(a, b), Bits(0x1864CFB))
  {
    RegisterCollision(a, b, INIT, GENERATOR);
  }

  /** Every error in an odd number of bits is detected, at every length: the generator has an even number of terms. */
  lemma OddErrorDetected(a: seq<Byte>, b: seq<Byte>)
    requires |a| == |b| && |Difference(a, b).terms| % 2 == 1
    ensures Checksum(a) != Checksum(b)
  {
    RegisterCollision(a, b, INIT, GENERATOR);
    GeneratorEven();
    NoOddMultiple(Difference(a, b), Bits(GENERATOR));
  }

  lemma NoOddMultiple(p: Poly, g: Poly)
    requires |g.terms| % 2 == 0 && |p.terms| % 2 == 1
    ensures !Multiple(p, g)
  {
    if Multiple(p, g) {
      var q :| p == Times(q, g);
      Parity.MultipleEven(q, g);
    }
  }

  lemma GeneratorEven()
    ensures |Bits(GENERATOR).terms| % 2 == 0
  {
    Parity.DigitsOf(0x1, 0x18, 0x186, 0x1864, 0x1864C, 0x1864CF, GENERATOR);
    Parity.OneMore(1, GENERATOR);
  }

  /** Every error burst of at most 24 bits is detected, at every length. */
  lemma BurstDetected(a: seq<Byte>, b: seq<Byte>, lowest: nat)
    requires |a| == |b| && a != b && Burst(a, b, lowest)
    ensures Checksum(a) != Checksum(b)
  {
    RegisterCollision(a, b, INIT, GENERATOR);
    BurstIsNoMultiple(a, b, lowest, GENERATOR);
  }

  /** Two inputs that differ only inside three consecutive bytes never share a checksum. */
  lemma ThreeByteErrorDetected(pre: seq<Byte>, x: seq<Byte>, y: seq<Byte>, post: seq<Byte>)
    requires |x| == |y| <= 3 && x != y
    ensures Checksum(pre + x + post) != Checksum(pre + y + post)
  {
    ThreeBytesAreABurst(pre, x, y, post);
    var a, b := pre + x + post, pre + y + post;
    assert x == a[|pre|..|pre| + |x|] && y == b[|pre|..|pre| + |x|];
    BurstDetected(a, b, 8 * |post|);
  }
}
