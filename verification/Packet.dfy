/** scripts/openpgp_key.go: packet and subpacket framing, with the readers of sections 4.2.2 and 5.2.3.1 of RFC 4880. */
module Packet {
  import opened Bytes
  import opened Wrappers

  /** The new-format length octets of packet, in their three tiers. */
  function LengthOctets(n: nat): (l: seq<Byte>) {
    if n < 192 then [n]
    else if n < 8384 then [(n - 192) / 256 + 192, (n - 192) % 256]
    else [255] + U32(n)
  }

  /** packet: 0xC0 | tag keeps the low six bits of the tag. */
  function Encoded(tag: Byte, body: seq<Byte>): seq<Byte> {
    [192 + tag % 64] + LengthOctets(|body|) + body
  }

  /** subpacket: one length octet, truncated to a byte, that counts the type octet too. */
  function Sub(typ: Byte, data: seq<Byte>): seq<Byte> {
    [(|data| + 1) % 256] + [typ] + data
  }

  datatype Packet = Packet(tag: Byte, body: seq<Byte>)
  datatype Subpacket = Subpacket(typ: Byte, data: seq<Byte>)

  /** Reads a length: its value and what follows its octets. Partial lengths (224 to 254) are refused. */
  function ReadLength(input: seq<Byte>): Option<(nat, seq<Byte>)> {
    if input == [] then None
    else if input[0] < 192 then Some((input[0], input[1..]))
    else if input[0] < 224 then
      if |input| < 2 then None else Some((256 * (input[0] as int - 192) + (input[1] as int) + 192, input[2..]))
    else if input[0] == 255 then
      if |input| < 5 then None else Some((Value(input[1..5]), input[5..]))
    else None
  }

  function Decode(input: seq<Byte>): (r: Option<(Packet, seq<Byte>)>)
    ensures r.Some? ==> |r.value.1| < |input|
  {
    if input == [] || input[0] < 192 then None else
      var (n, rest) :- ReadLength(input[1..]);
      if |rest| < n then None else Some((Packet(input[0] - 192, rest[..n]), rest[n..]))
  }

  function DecodeAll(input: seq<Byte>): Option<seq<Packet>> {
    if input == [] then Some([]) else
      var (p, rest) :- Decode(input);
      var ps :- DecodeAll(rest);
      Some([p] + ps)
  }

  /** Subpacket lengths have tiers of their own: two octets from 192 to 254. */
  function DecodeSub(input: seq<Byte>): (r: Option<(Subpacket, seq<Byte>)>)
    ensures r.Some? ==> |r.value.1| < |input|
  {
    if input == [] then None else
      var (n, rest) :-
        if input[0] < 192 then Some((input[0] as nat, input[1..]))
        else if input[0] < 255 then
          if |input| < 2 then None else Some((256 * (input[0] as int - 192) + (input[1] as int) + 192, input[2..]))
        else if |input| < 5 then None else Some((Value(input[1..5]), input[5..]));
      if n == 0 || |rest| < n then None else Some((Subpacket(rest[0], rest[1..n]), rest[n..]))
  }

  function DecodeSubs(input: seq<Byte>): Option<seq<Subpacket>> {
    if input == [] then Some([]) else
      var (p, rest) :- DecodeSub(input);
      var ps :- DecodeSubs(rest);
      Some([p] + ps)
  }

  // ---- Round trips ----

  lemma LengthRoundTrip(n: nat, rest: seq<Byte>)
    ensures ReadLength(LengthOctets(n) + rest) == Some((if n < 8384 then n else n % 0x1_0000_0000, rest))
  {
    var input := LengthOctets(n) + rest;
    if n < 192 {
      assert input[1..] == rest;
    } else if n < 8384 {
      assert input[2..] == rest;
    } else {
      assert input[1..5] == U32(n) && input[5..] == rest;
      U32Value(n);
    }
  }

  /** A packet is read back, up to its last byte, exactly when its tag and its length fit. */
  lemma RoundTripIff(tag: Byte, body: seq<Byte>, rest: seq<Byte>)
    ensures Decode(Encoded(tag, body) + rest) == Some((Packet(tag, body), rest))
        <==> tag < 64 && |body| < 0x1_0000_0000
  {
    var n := if |body| < 8384 then |body| else |body| % 0x1_0000_0000;
    SplitFirst(192 + tag % 64, LengthOctets(|body|), body, rest);
    LengthRoundTrip(|body|, body + rest);
    Truncated(|body|, n);
    DecodeAfter(Encoded(tag, body) + rest, n, body, rest);
  }

  lemma SplitFirst(b: Byte, length: seq<Byte>, body: seq<Byte>, rest: seq<Byte>)
    ensures var input := [b] + length + body + rest;
      input[0] == b && input[1..] == length + (body + rest)
  {}

  lemma Truncated(m: nat, n: nat)
    requires n == if m < 8384 then m else m % 0x1_0000_0000
    ensures n <= m && (n == m <==> m < 0x1_0000_0000)
  {}

  lemma DecodeAfter(input: seq<Byte>, n: nat, body: seq<Byte>, rest: seq<Byte>)
    requires input != [] && input[0] >= 192 && ReadLength(input[1..]) == Some((n, body + rest)) && n <= |body|
    ensures Decode(input).Some? && Decode(input).value.0.tag == input[0] - 192 && |Decode(input).value.0.body| == n
    ensures n == |body| ==> Decode(input) == Some((Packet(input[0] - 192, body), rest))
  {
    assert n == |body| ==> (body + rest)[..n] == body && (body + rest)[n..] == rest;
  }

  predicate Fits(ps: seq<Packet>) {
    forall i | 0 <= i < |ps| :: ps[i].tag < 64 && |ps[i].body| < 0x1_0000_0000
  }

  function Concat(ps: seq<Packet>): seq<Byte> {
    if ps == [] then [] else Encoded(ps[0].tag, ps[0].body) + Concat(ps[1..])
  }

  /** Concatenated packets split back, across all three length tiers. */
  lemma {:induction false} SplitsBack(ps: seq<Packet>)
    requires Fits(ps)
    ensures DecodeAll(Concat(ps)) == Some(ps)
  {
    if ps != [] {
      RoundTripIff(ps[0].tag, ps[0].body, Concat(ps[1..]));
      SplitsBack(ps[1..]);
      FirstPacket(Concat(ps), ps[0], Concat(ps[1..]), ps[1..]);
      assert [ps[0]] + ps[1..] == ps;
    }
  }

  lemma FirstPacket(input: seq<Byte>, p: Packet, tail: seq<Byte>, ps: seq<Packet>)
    requires Decode(input) == Some((p, tail)) && DecodeAll(tail) == Some(ps)
    ensures DecodeAll(input) == Some([p] + ps)
  {}

  /** So no two different packet lists share an encoding. */
  lemma UniqueSplit(ps: seq<Packet>, qs: seq<Packet>)
    requires Fits(ps) && Fits(qs) && Concat(ps) == Concat(qs)
    ensures ps == qs
  {
    SplitsBack(ps);
    SplitsBack(qs);
  }

  /** A subpacket is read back exactly when its one length octet stays below 192. */
  lemma SubRoundTripIff(typ: Byte, data: seq<Byte>, rest: seq<Byte>)
    ensures DecodeSub(Sub(typ, data) + rest) == Some((Subpacket(typ, data), rest)) <==> |data| + 1 < 192
  {
    var input := Sub(typ, data) + rest;
    assert |input| == |data| + 2 + |rest|;
    if |data| + 1 < 192 {
      var after := input[1..];
      assert after == [typ] + data + rest;
      assert after[1..|data| + 1] == data && after[|data| + 1..] == rest;
    }
  }

  function ConcatSubs(ps: seq<Subpacket>): seq<Byte> {
    if ps == [] then [] else Sub(ps[0].typ, ps[0].data) + ConcatSubs(ps[1..])
  }

  lemma {:induction false} SubsSplitBack(ps: seq<Subpacket>)
    requires forall i | 0 <= i < |ps| :: |ps[i].data| + 1 < 192
    ensures DecodeSubs(ConcatSubs(ps)) == Some(ps)
  {
    if ps != [] {
      SubRoundTripIff(ps[0].typ, ps[0].data, ConcatSubs(ps[1..]));
      SubsSplitBack(ps[1..]);
      FirstSub(ConcatSubs(ps), ps[0], ConcatSubs(ps[1..]), ps[1..]);
      assert [ps[0]] + ps[1..] == ps;
    }
  }

  lemma FirstSub(input: seq<Byte>, p: Subpacket, tail: seq<Byte>, ps: seq<Subpacket>)
    requires DecodeSub(input) == Some((p, tail)) && DecodeSubs(tail) == Some(ps)
    ensures DecodeSubs(input) == Some([p] + ps)
  {}
}
