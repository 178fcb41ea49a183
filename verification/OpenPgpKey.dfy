/** scripts/openpgp_key.go: the transferable key, with a reader from sections 5.2.3, 5.5.2 and 5.5.3 of RFC 4880. */
module OpenPgpKey {
  import opened Bytes
  import opened Wrappers
  import Mpi
  import P = Packet

  const CREATED: nat := 1704067200
  const OID: seq<Byte> := [0x2B, 0x06, 0x01, 0x04, 0x01, 0xDA, 0x47, 0x0F, 0x01]

  /** Ed25519 and the two hashes, as the library functions they are. */
  datatype Crypto = Crypto(
    public: seq<Byte> -> seq<Byte>,
    sign: (seq<Byte>, seq<Byte>) -> seq<Byte>,
    sha1: seq<Byte> -> seq<Byte>,
    sha256: seq<Byte> -> seq<Byte>)
  {
    ghost predicate Lawful() {
      && (forall s :: |public(s)| == 32)
      && (forall s, m :: |sign(s, m)| == 64)
      && (forall m :: |sha1(m)| == 20)
      && (forall m :: |sha256(m)| == 32)
    }
  }

  // ---- The writer ----

  function PublicKeyBody(pub: seq<Byte>): seq<Byte> {
    PublicLayout(U32(CREATED), 22, OID, Mpi.Encoded([0x40] + pub))
  }

  function PublicLayout(created: seq<Byte>, algorithm: Byte, oid: seq<Byte>, point: seq<Byte>): seq<Byte>
    requires |oid| < 256
  {
    [4] + (created + ([algorithm] + ([|oid|] + (oid + point))))
  }

  /** The sum of the bytes in a uint16. */
  function Sum16(b: seq<Byte>): nat {
    if b == [] then 0 else (Sum16(b[..|b| - 1]) + b[|b| - 1]) % 0x10000
  }

  function SecretKeyBody(c: Crypto, seed: seq<Byte>): seq<Byte> {
    var secret := Mpi.Encoded(seed);
    PublicKeyBody(c.public(seed)) + ([0] + (secret + U16(Sum16(secret))))
  }

  /** secretKeyBody, with its checksum loop. */
  method WriteSecretKeyBody(c: Crypto, seed: seq<Byte>) returns (b: seq<Byte>)
    ensures b == SecretKeyBody(c, seed)
  {
    ghost var public := PublicKeyBody(c.public(seed));
    b := PublicKeyBody(c.public(seed)) + [0];
    var secret := Mpi.Encode(seed);
    b := b + secret;
    var sum: nat := 0;
    for i := 0 to |secret|
      invariant sum == Sum16(secret[..i])
    {
      assert secret[..i + 1][..i] == secret[..i];
      sum := (sum + secret[i] as int) % 0x10000;
    }
    assert secret[..|secret|] == secret;
    b := b + U16(sum);
    Associative(public, [0], secret);
    Associative(public, [0] + secret, U16(sum));
    Associative([0], secret, U16(sum));
  }

  function Fingerprint(c: Crypto, pub: seq<Byte>): seq<Byte> {
    c.sha1(KeyMaterial(PublicKeyBody(pub)))
  }

  function KeyMaterial(body: seq<Byte>): seq<Byte> { [0x99] + U16(|body|) + body }

  function KeyId(c: Crypto, pub: seq<Byte>): seq<Byte>
    requires c.Lawful()
  {
    Fingerprint(c, pub)[12..]
  }

  function HashedSubs(c: Crypto, pub: seq<Byte>): seq<P.Subpacket> {
    [P.Subpacket(2, U32(CREATED)), P.Subpacket(27, [3]), P.Subpacket(33, [4] + Fingerprint(c, pub))]
  }

  /** Everything from the version octet through the hashed subpackets. */
  function Signed(c: Crypto, pub: seq<Byte>): seq<Byte> {
    var hashed := P.ConcatSubs(HashedSubs(c, pub));
    [4, 0x13, 22, 8] + U16(|hashed|) + hashed
  }

  /** What the certification is computed over, section 5.2.4 of RFC 4880. */
  function HashInput(keyBody: seq<Byte>, uid: seq<Byte>, signed: seq<Byte>): seq<Byte> {
    KeyMaterial(keyBody) + ([0xB4] + U32(|uid|) + uid + (signed + [4, 0xFF] + U32(|signed|)))
  }

  function Digest(c: Crypto, pub: seq<Byte>, uid: seq<Byte>): seq<Byte> {
    c.sha256(HashInput(PublicKeyBody(pub), uid, Signed(c, pub)))
  }

  function SignatureBody(c: Crypto, seed: seq<Byte>, uid: seq<Byte>): seq<Byte>
    requires c.Lawful()
  {
    var pub := c.public(seed);
    var digest := Digest(c, pub, uid);
    var sig := c.sign(seed, digest);
    var unhashed := P.ConcatSubs([P.Subpacket(16, KeyId(c, pub))]);
    SignatureLayout([4, 0x13, 22, 8], P.ConcatSubs(HashedSubs(c, pub)), unhashed, digest[..2],
                    Mpi.Encoded(sig[..32]), Mpi.Encoded(sig[32..]))
  }

  function SignatureLayout(head: seq<Byte>, hashed: seq<Byte>, unhashed: seq<Byte>, start: seq<Byte>,
                           r: seq<Byte>, s: seq<Byte>): seq<Byte>
  {
    head + (U16(|hashed|) + (hashed + (U16(|unhashed|) + (unhashed + (start + (r + s))))))
  }

  function SecretKeyPackets(c: Crypto, seed: seq<Byte>, uid: seq<Byte>): seq<P.Packet>
    requires c.Lawful()
  {
    [P.Packet(5, SecretKeyBody(c, seed)), P.Packet(13, uid), P.Packet(2, SignatureBody(c, seed, uid))]
  }

  function TransferableSecretKey(c: Crypto, seed: seq<Byte>, uid: seq<Byte>): seq<Byte>
    requires c.Lawful()
  {
    P.Concat(SecretKeyPackets(c, seed, uid))
  }

  function PublicKeyPackets(c: Crypto, seed: seq<Byte>, uid: seq<Byte>): seq<P.Packet>
    requires c.Lawful()
  {
    [P.Packet(6, PublicKeyBody(c.public(seed))), P.Packet(13, uid), P.Packet(2, SignatureBody(c, seed, uid))]
  }

  function TransferablePublicKey(c: Crypto, seed: seq<Byte>, uid: seq<Byte>): seq<Byte>
    requires c.Lawful()
  {
    P.Concat(PublicKeyPackets(c, seed, uid))
  }

  // ---- The reader ----

  datatype PublicKey = PublicKey(created: nat, algorithm: Byte, oid: seq<Byte>, point: seq<Byte>)
  datatype SecretKey = SecretKey(public: PublicKey, publicBody: seq<Byte>, seed: seq<Byte>)
  datatype Signature = Signature(
    sigType: Byte, publicAlgorithm: Byte, hashAlgorithm: Byte,
    hashed: seq<P.Subpacket>, unhashed: seq<P.Subpacket>,
    signed: seq<Byte>, digestStart: seq<Byte>, r: seq<Byte>, s: seq<Byte>)
  datatype Certified<K> = Certified(key: K, uid: seq<Byte>, signature: Signature)

  function Take(input: seq<Byte>, n: nat): Option<(seq<Byte>, seq<Byte>)> {
    if |input| < n then None else Some((input[..n], input[n..]))
  }

  function ReadPublic(input: seq<Byte>): Option<(PublicKey, seq<Byte>)> {
    var (version, a) :- Take(input, 1);
    var (created, b) :- Take(a, 4);
    var (algorithm, d) :- Take(b, 1);
    var (n, e) :- Take(d, 1);
    var (oid, f) :- Take(e, n[0]);
    var (point, rest) :- Mpi.Decode(f);
    if version == [4] then Some((PublicKey(Value(created), algorithm[0], oid, point), rest)) else None
  }

  function ReadSecret(input: seq<Byte>): Option<SecretKey> {
    var (key, a) :- ReadPublic(input);
    var seed :- ReadSeed(a);
    if |a| <= |input| then Some(SecretKey(key, input[..|input| - |a|], seed)) else None
  }

  /** The sum of all octets, of section 5.5.3 of RFC 4880. */
  function Sum(b: seq<Byte>): nat { if b == [] then 0 else b[0] as int + Sum(b[1..]) }

  /** The seed, left-padded to its 32 bytes; the two-octet checksum over its encoding must agree. */
  function ReadSeed(input: seq<Byte>): Option<seq<Byte>> {
    var (usage, a) :- Take(input, 1);
    var (secret, rest) :- Mpi.Decode(a);
    if usage == [0] && |secret| <= 32 && |rest| == 2 <= |a| && Value(rest) == Sum(a[..|a| - 2]) % 65536
    then Some(Mpi.LeftPad(secret, 32)) else None
  }

  function ReadSignature(input: seq<Byte>): Option<Signature> {
    var (head, a) :- Take(input, 4);
    var (length, hashed, b) :- ReadArea(a);
    var (_, unhashed, d) :- ReadArea(b);
    var (start, e) :- Take(d, 2);
    var (r, s) :- ReadHalves(e);
    var hashedSubs :- P.DecodeSubs(hashed);
    var unhashedSubs :- P.DecodeSubs(unhashed);
    if head[0] == 4 then
      Some(Signature(head[1], head[2], head[3], hashedSubs, unhashedSubs, head + length + hashed, start, r, s))
    else None
  }

  /** A two-octet count and the subpacket area it counts. */
  function ReadArea(input: seq<Byte>): Option<(seq<Byte>, seq<Byte>, seq<Byte>)> {
    var (length, a) :- Take(input, 2);
    var (area, rest) :- Take(a, Value(length));
    Some((length, area, rest))
  }

  /** The two integers of an EdDSA signature, each left-padded to 32 bytes, with nothing after them. */
  function ReadHalves(input: seq<Byte>): Option<(seq<Byte>, seq<Byte>)> {
    var (r, a) :- Mpi.Decode(input);
    var (s, rest) :- Mpi.Decode(a);
    if rest == [] && |r| <= 32 && |s| <= 32 then Some((Mpi.LeftPad(r, 32), Mpi.LeftPad(s, 32))) else None
  }

  /** Exactly three packets: a secret key, a user ID and a certification. */
  function ReadSecretKey(input: seq<Byte>): Option<Certified<SecretKey>> {
    var ps :- P.DecodeAll(input);
    if |ps| == 3 && ps[0].tag == 5 && ps[1].tag == 13 && ps[2].tag == 2 then
      var key :- ReadSecret(ps[0].body);
      var sig :- ReadSignature(ps[2].body);
      Some(Certified(key, ps[1].body, sig))
    else None
  }

  function ReadPublicKey(input: seq<Byte>): Option<Certified<PublicKey>> {
    var ps :- P.DecodeAll(input);
    if |ps| == 3 && ps[0].tag == 6 && ps[1].tag == 13 && ps[2].tag == 2 then
      var (key, rest) :- ReadPublic(ps[0].body);
      var sig :- ReadSignature(ps[2].body);
      if rest == [] then Some(Certified(key, ps[1].body, sig)) else None
    else None
  }

  // ---- Round trips ----

  lemma TakeOf(a: seq<Byte>, rest: seq<Byte>)
    ensures Take(a + rest, |a|) == Some((a, rest))
  {}

  lemma ShortMpi(b: seq<Byte>, rest: seq<Byte>)
    requires |b| <= 33
    ensures Mpi.Decode(Mpi.Encoded(b) + rest) == Some((Mpi.Strip(b), rest))
    ensures |Mpi.Encoded(b)| <= 35
  {
    Mpi.RoundTripIff(b, rest);
    Mpi.BitCountExact(b);
    Mpi.StripKeepsValue(b);
    Mpi.EncodedIs(b);
  }

  function Expected(pub: seq<Byte>): PublicKey { PublicKey(CREATED, 22, OID, [0x40] + pub) }

  lemma ReadPublicOf(
      created: seq<Byte>, algorithm: Byte, oid: seq<Byte>, point: seq<Byte>, body: seq<Byte>, rest: seq<Byte>)
    requires |created| == 4 && |oid| < 256 && Mpi.Decode(point + rest) == Some((body, rest))
    ensures ReadPublic(PublicLayout(created, algorithm, oid, point) + rest)
         == Some((PublicKey(Value(created), algorithm, oid, body), rest))
  {
    var e := oid + point;
    var d := [|oid|] + e;
    var b := [algorithm] + d;
    var a := created + b;
    Associative([4], a, rest);
    Associative(created, b, rest);
    Associative([algorithm], d, rest);
    Associative([|oid|], e, rest);
    Associative(oid, point, rest);
    TakeOf([4], a + rest);
    TakeOf(created, b + rest);
    TakeOf([algorithm], d + rest);
    TakeOf([|oid|], e + rest);
    TakeOf(oid, point + rest);
  }

  lemma PublicRoundTrip(pub: seq<Byte>, rest: seq<Byte>)
    requires |pub| == 32
    ensures ReadPublic(PublicKeyBody(pub) + rest) == Some((Expected(pub), rest))
    ensures |PublicKeyBody(pub)| < 100
  {
    PointReads([0x40] + pub, rest);
    CreatedReads();
    ReadPublicOf(U32(CREATED), 22, OID, Mpi.Encoded([0x40] + pub), [0x40] + pub, rest);
  }

  lemma CreatedReads()
    ensures Value(U32(CREATED)) == CREATED
  {
    U32Value(CREATED);
  }

  lemma PointReads(point: seq<Byte>, rest: seq<Byte>)
    requires |point| == 33 && point[0] != 0
    ensures Mpi.Decode(Mpi.Encoded(point) + rest) == Some((point, rest))
    ensures |Mpi.Encoded(point)| <= 35
  {
    ShortMpi(point, rest);
    assert Mpi.Strip(point) == point;
  }

  lemma {:induction false} SumPlus(b: seq<Byte>, x: Byte)
    ensures Sum(b + [x]) == Sum(b) + x as int
  {
    if b == [] {
      assert b + [x] == [x];
    } else {
      SumPlus(b[1..], x);
      assert (b + [x])[1..] == b[1..] + [x];
    }
  }

  lemma ReduceOnce(s: nat, x: nat)
    ensures (s % 65536 + x) % 65536 == (s + x) % 65536
  {
    assert s == 65536 * (s / 65536) + s % 65536;
  }

  /** The loop's sum, reduced at every step, is the sum of all octets reduced once. */
  lemma {:induction false} SumIs(b: seq<Byte>)
    ensures Sum16(b) == Sum(b) % 65536
  {
    if b != [] {
      var n := |b| - 1;
      SumIs(b[..n]);
      SumPlus(b[..n], b[n]);
      ReduceOnce(Sum(b[..n]), b[n] as int);
      assert b[..n] + [b[n]] == b;
    }
  }

  lemma SumWritten(b: seq<Byte>)
    ensures Value(U16(Sum16(b))) == Sum(b) % 65536
  {
    U16Value(Sum16(b));
    SumIs(b);
  }

  lemma ReadSeedOf(secret: seq<Byte>, number: seq<Byte>, sum: seq<Byte>)
    requires |number| <= 32 && |sum| == 2 && Value(sum) == Sum(secret) % 65536
    requires Mpi.Decode(secret + sum) == Some((number, sum))
    ensures ReadSeed([0] + (secret + sum)) == Some(Mpi.LeftPad(number, 32))
  {
    var a := secret + sum;
    TakeOf([0], a);
    assert a[..|a| - 2] == secret;
  }

  lemma AssembleSecret(body: seq<Byte>, a: seq<Byte>, key: PublicKey, seed: seq<Byte>)
    requires ReadPublic(body + a) == Some((key, a)) && ReadSeed(a) == Some(seed)
    ensures ReadSecret(body + a) == Some(SecretKey(key, body, seed))
  {
    assert (body + a)[..|body|] == body;
  }

  lemma SeedRoundTrip(seed: seq<Byte>)
    requires |seed| == 32
    ensures ReadSeed([0] + (Mpi.Encoded(seed) + U16(Sum16(Mpi.Encoded(seed))))) == Some(seed)
    ensures |Mpi.Encoded(seed)| <= 35
  {
    var secret := Mpi.Encoded(seed);
    var sum := U16(Sum16(secret));
    ShortMpi(seed, sum);
    Mpi.PadRestores(seed);
    SumWritten(secret);
    ReadSeedOf(secret, Mpi.Strip(seed), sum);
  }

  lemma SecretRoundTrip(c: Crypto, seed: seq<Byte>)
    requires c.Lawful() && |seed| == 32
    ensures ReadSecret(SecretKeyBody(c, seed))
         == Some(SecretKey(Expected(c.public(seed)), PublicKeyBody(c.public(seed)), seed))
    ensures |SecretKeyBody(c, seed)| < 1000
  {
    var pub, secret := c.public(seed), Mpi.Encoded(seed);
    var a := [0] + (secret + U16(Sum16(secret)));
    PublicRoundTrip(pub, a);
    SeedRoundTrip(seed);
    AssembleSecret(PublicKeyBody(pub), a, Expected(pub), seed);
  }

  function ExpectedSignature(c: Crypto, seed: seq<Byte>, uid: seq<Byte>): Signature
    requires c.Lawful()
  {
    var pub := c.public(seed);
    var digest := Digest(c, pub, uid);
    var sig := c.sign(seed, digest);
    Signature(0x13, 22, 8, HashedSubs(c, pub), [P.Subpacket(16, KeyId(c, pub))],
              Signed(c, pub), digest[..2], sig[..32], sig[32..])
  }

  lemma SubpacketsFit(c: Crypto, pub: seq<Byte>)
    requires c.Lawful()
    ensures forall p | p in HashedSubs(c, pub) :: |p.data| + 1 < 192
    ensures |KeyId(c, pub)| + 1 < 192
    ensures |P.ConcatSubs(HashedSubs(c, pub))| == 32
    ensures |P.ConcatSubs([P.Subpacket(16, KeyId(c, pub))])| == 10
  {
    var s := HashedSubs(c, pub);
    assert s[1..] == [s[1], s[2]] && s[1..][1..] == [s[2]];
    assert P.ConcatSubs([s[2]]) == P.Sub(33, s[2].data) + P.ConcatSubs([]);
  }

  lemma ReadAreaOf(area: seq<Byte>, rest: seq<Byte>)
    requires |area| < 0x10000
    ensures ReadArea(U16(|area|) + (area + rest)) == Some((U16(|area|), area, rest))
  {
    TakeOf(U16(|area|), area + rest);
    U16Value(|area|);
    TakeOf(area, rest);
  }

  lemma ReadHalvesOf(sig: seq<Byte>)
    requires |sig| == 64
    ensures ReadHalves(Mpi.Encoded(sig[..32]) + Mpi.Encoded(sig[32..])) == Some((sig[..32], sig[32..]))
    ensures |Mpi.Encoded(sig[..32])| <= 35 && |Mpi.Encoded(sig[32..])| <= 35
  {
    var r, s := sig[..32], sig[32..];
    ShortMpi(r, Mpi.Encoded(s));
    ShortMpi(s, []);
    assert Mpi.Encoded(s) + [] == Mpi.Encoded(s);
    Mpi.PadRestores(r);
    Mpi.PadRestores(s);
  }

  lemma ReadSignatureOf(
      head: seq<Byte>, hashed: seq<Byte>, unhashed: seq<Byte>, start: seq<Byte>, r: seq<Byte>, s: seq<Byte>,
      hs: seq<P.Subpacket>, us: seq<P.Subpacket>, rn: seq<Byte>, sn: seq<Byte>)
    requires |head| == 4 && head[0] == 4 && |start| == 2 && |hashed| < 0x10000 && |unhashed| < 0x10000
    requires P.DecodeSubs(hashed) == Some(hs) && P.DecodeSubs(unhashed) == Some(us)
    requires ReadHalves(r + s) == Some((rn, sn))
    ensures ReadSignature(SignatureLayout(head, hashed, unhashed, start, r, s))
         == Some(Signature(head[1], head[2], head[3], hs, us, head + U16(|hashed|) + hashed, start, rn, sn))
  {
    var d := start + (r + s);
    var b := U16(|unhashed|) + (unhashed + d);
    TakeOf(head, U16(|hashed|) + (hashed + b));
    ReadAreaOf(hashed, b);
    ReadAreaOf(unhashed, d);
    TakeOf(start, r + s);
  }

  lemma SignatureRoundTrip(c: Crypto, seed: seq<Byte>, uid: seq<Byte>)
    requires c.Lawful()
    ensures ReadSignature(SignatureBody(c, seed, uid)) == Some(ExpectedSignature(c, seed, uid))
    ensures |SignatureBody(c, seed, uid)| < 1000
  {
    var pub := c.public(seed);
    var digest := Digest(c, pub, uid);
    var sig := c.sign(seed, digest);
    var hs, us := HashedSubs(c, pub), [P.Subpacket(16, KeyId(c, pub))];
    SubpacketsFit(c, pub);
    P.SubsSplitBack(hs);
    P.SubsSplitBack(us);
    ReadHalvesOf(sig);
    ReadSignatureOf([4, 0x13, 22, 8], P.ConcatSubs(hs), P.ConcatSubs(us), digest[..2],
                    Mpi.Encoded(sig[..32]), Mpi.Encoded(sig[32..]), hs, us, sig[..32], sig[32..]);
  }

  /** A reader of the exported secret key gets back key, seed, user ID and certification. */
  lemma SecretKeyRoundTrip(c: Crypto, seed: seq<Byte>, uid: seq<Byte>)
    requires c.Lawful() && |seed| == 32 && |uid| < 0x1_0000_0000
    ensures ReadSecretKey(TransferableSecretKey(c, seed, uid))
         == Some(Certified(SecretKey(Expected(c.public(seed)), PublicKeyBody(c.public(seed)), seed),
                           uid, ExpectedSignature(c, seed, uid)))
  {
    var key := SecretKey(Expected(c.public(seed)), PublicKeyBody(c.public(seed)), seed);
    SecretRoundTrip(c, seed);
    SignatureRoundTrip(c, seed, uid);
    AssembleCertified(SecretKeyBody(c, seed), uid, SignatureBody(c, seed, uid), key, ExpectedSignature(c, seed, uid));
  }

  lemma ThreeSplit(a: P.Packet, b: P.Packet, d: P.Packet)
    requires a.tag < 64 && b.tag < 64 && d.tag < 64
    requires |a.body| < 0x1_0000_0000 && |b.body| < 0x1_0000_0000 && |d.body| < 0x1_0000_0000
    ensures P.DecodeAll(P.Concat([a, b, d])) == Some([a, b, d])
  {
    P.SplitsBack([a, b, d]);
  }

  lemma AssembleCertified(body: seq<Byte>, uid: seq<Byte>, sigBody: seq<Byte>, key: SecretKey, sig: Signature)
    requires |body| < 0x1_0000_0000 && |uid| < 0x1_0000_0000 && |sigBody| < 0x1_0000_0000
    requires ReadSecret(body) == Some(key) && ReadSignature(sigBody) == Some(sig)
    ensures ReadSecretKey(P.Concat([P.Packet(5, body), P.Packet(13, uid), P.Packet(2, sigBody)]))
         == Some(Certified(key, uid, sig))
  {
    var ps := [P.Packet(5, body), P.Packet(13, uid), P.Packet(2, sigBody)];
    ThreeSplit(ps[0], ps[1], ps[2]);
    SecretFrom(P.Concat(ps), ps, key, sig);
  }

  lemma SecretFrom(input: seq<Byte>, ps: seq<P.Packet>, key: SecretKey, sig: Signature)
    requires P.DecodeAll(input) == Some(ps) && |ps| == 3 && ps[0].tag == 5 && ps[1].tag == 13 && ps[2].tag == 2
    requires ReadSecret(ps[0].body) == Some(key) && ReadSignature(ps[2].body) == Some(sig)
    ensures ReadSecretKey(input) == Some(Certified(key, ps[1].body, sig))
  {}

  lemma PublicKeyRoundTrip(c: Crypto, seed: seq<Byte>, uid: seq<Byte>)
    requires c.Lawful() && |uid| < 0x1_0000_0000
    ensures ReadPublicKey(TransferablePublicKey(c, seed, uid))
         == Some(Certified(Expected(c.public(seed)), uid, ExpectedSignature(c, seed, uid)))
  {
    var body := PublicKeyBody(c.public(seed));
    PublicRoundTrip(c.public(seed), []);
    assert body + [] == body;
    SignatureRoundTrip(c, seed, uid);
    AssemblePublic(body, uid, SignatureBody(c, seed, uid), Expected(c.public(seed)), ExpectedSignature(c, seed, uid));
  }

  lemma AssemblePublic(body: seq<Byte>, uid: seq<Byte>, sigBody: seq<Byte>, key: PublicKey, sig: Signature)
    requires |body| < 0x1_0000_0000 && |uid| < 0x1_0000_0000 && |sigBody| < 0x1_0000_0000
    requires ReadPublic(body) == Some((key, [])) && ReadSignature(sigBody) == Some(sig)
    ensures ReadPublicKey(P.Concat([P.Packet(6, body), P.Packet(13, uid), P.Packet(2, sigBody)]))
         == Some(Certified(key, uid, sig))
  {
    var ps := [P.Packet(6, body), P.Packet(13, uid), P.Packet(2, sigBody)];
    ThreeSplit(ps[0], ps[1], ps[2]);
    PublicFrom(P.Concat(ps), ps, key, sig);
  }

  lemma PublicFrom(input: seq<Byte>, ps: seq<P.Packet>, key: PublicKey, sig: Signature)
    requires P.DecodeAll(input) == Some(ps) && |ps| == 3 && ps[0].tag == 6 && ps[1].tag == 13 && ps[2].tag == 2
    requires ReadPublic(ps[0].body) == Some((key, [])) && ReadSignature(ps[2].body) == Some(sig)
    ensures ReadPublicKey(input) == Some(Certified(key, ps[1].body, sig))
  {}

  // ---- What the signature covers ----

  /** A public key as section 12.2 of RFC 4880 hashes it: 0x99, a two-octet length and the key body. */
  function ReadKeyMaterial(input: seq<Byte>): Option<(seq<Byte>, seq<Byte>)> {
    var (mark, a) :- Take(input, 1);
    var (length, b) :- Take(a, 2);
    var (body, rest) :- Take(b, Value(length));
    if mark == [0x99] then Some((body, rest)) else None
  }

  /**
   * What a certification is computed over, section 5.2.4 of RFC 4880: the key; 0xB4, a four-octet
   * length and the user ID; the signed part of the signature packet; and the trailer 4, 0xFF and the
   * four-octet length of that part.
   */
  function ReadHashInput(input: seq<Byte>): Option<(seq<Byte>, seq<Byte>, seq<Byte>)> {
    var (keyBody, a) :- ReadKeyMaterial(input);
    var (uid, b) :- ReadUserId(a);
    var signed :- ReadTrailed(b);
    Some((keyBody, uid, signed))
  }

  function ReadUserId(input: seq<Byte>): Option<(seq<Byte>, seq<Byte>)> {
    var (mark, a) :- Take(input, 1);
    var (length, b) :- Take(a, 4);
    var (uid, rest) :- Take(b, Value(length));
    if mark == [0xB4] then Some((uid, rest)) else None
  }

  function ReadTrailed(input: seq<Byte>): Option<seq<Byte>> {
    if |input| < 6 then None else
      var n := |input| - 6;
      if input[n] == 4 && input[n + 1] == 0xFF && Value(input[n + 2..]) == n then Some(input[..n]) else None
  }

  lemma ReadKeyMaterialOf(body: seq<Byte>, rest: seq<Byte>)
    requires |body| < 0x10000
    ensures ReadKeyMaterial([0x99] + U16(|body|) + body + rest) == Some((body, rest))
  {
    U16Value(|body|);
    Associative([0x99] + U16(|body|), body, rest);
    Associative([0x99], U16(|body|), body + rest);
    TakeOf([0x99], U16(|body|) + (body + rest));
    TakeOf(U16(|body|), body + rest);
    TakeOf(body, rest);
  }

  lemma ReadUserIdOf(uid: seq<Byte>, rest: seq<Byte>)
    requires |uid| < 0x1_0000_0000
    ensures ReadUserId([0xB4] + U32(|uid|) + uid + rest) == Some((uid, rest))
  {
    U32Value(|uid|);
    Associative([0xB4] + U32(|uid|), uid, rest);
    Associative([0xB4], U32(|uid|), uid + rest);
    ReadUserIdParts(U32(|uid|), uid, rest);
  }

  lemma ReadUserIdParts(length: seq<Byte>, uid: seq<Byte>, rest: seq<Byte>)
    requires |length| == 4 && Value(length) == |uid|
    ensures ReadUserId([0xB4] + (length + (uid + rest))) == Some((uid, rest))
  {
    TakeOf([0xB4], length + (uid + rest));
    TakeOf(length, uid + rest);
    TakeOf(uid, rest);
  }

  lemma ReadTrailedOf(signed: seq<Byte>)
    requires |signed| < 0x1_0000_0000
    ensures ReadTrailed(signed + [4, 0xFF] + U32(|signed|)) == Some(signed)
  {
    var input, n := signed + [4, 0xFF] + U32(|signed|), |signed|;
    U32Value(n);
    assert input[n + 2..] == U32(n) && input[..n] == signed;
  }

  /** The three things a certification covers are read back from what is hashed. */
  lemma HashInputReads(keyBody: seq<Byte>, uid: seq<Byte>, signed: seq<Byte>)
    requires |keyBody| < 0x10000 && |uid| < 0x1_0000_0000 && |signed| < 0x1_0000_0000
    ensures ReadHashInput(HashInput(keyBody, uid, signed)) == Some((keyBody, uid, signed))
  {
    var trailed := signed + [4, 0xFF] + U32(|signed|);
    var named := [0xB4] + U32(|uid|) + uid + trailed;
    ReadKeyMaterialOf(keyBody, named);
    ReadUserIdOf(uid, trailed);
    ReadTrailedOf(signed);
  }

  /** And nothing else is hashed: only one input reads that way. */
  lemma HashInputUnique(a: seq<Byte>, b: seq<Byte>)
    requires ReadHashInput(a).Some? && ReadHashInput(a) == ReadHashInput(b)
    ensures a == b
  {
    var (k, u, s) := ReadHashInput(a).value;
    KeyMaterialIs(a);
    KeyMaterialIs(b);
    var x, y := ReadKeyMaterial(a).value.1, ReadKeyMaterial(b).value.1;
    UserIdIs(x);
    UserIdIs(y);
    TrailedIs(ReadUserId(x).value.1);
    TrailedIs(ReadUserId(y).value.1);
  }

  lemma KeyMaterialIs(input: seq<Byte>)
    requires ReadKeyMaterial(input).Some?
    ensures var (body, rest) := ReadKeyMaterial(input).value;
      |body| < 0x10000 && input == [0x99] + U16(|body|) + body + rest
  {
    var (body, rest) := ReadKeyMaterial(input).value;
    var length := input[1..][..2];
    ValueBound(length);
    Pow2Byte(0);
    Pow2Byte(1);
    U16Value(|body|);
    ValueInjective(length, U16(|body|));
    assert input == [0x99] + length + body + rest;
  }

  lemma UserIdIs(input: seq<Byte>)
    requires ReadUserId(input).Some?
    ensures var (uid, rest) := ReadUserId(input).value;
      |uid| < 0x1_0000_0000 && input == [0xB4] + U32(|uid|) + uid + rest
  {
    var (uid, rest) := ReadUserId(input).value;
    var length := input[1..][..4];
    FourOctets(length);
    U32Value(|uid|);
    ValueInjective(length, U32(|uid|));
    assert input == [0xB4] + length + uid + rest;
  }

  lemma FourOctets(b: seq<Byte>)
    requires |b| == 4
    ensures Value(b) < 0x1_0000_0000
  {
    Value4(b);
  }

  lemma TrailedIs(input: seq<Byte>)
    requires ReadTrailed(input).Some?
    ensures var signed := ReadTrailed(input).value;
      |signed| < 0x1_0000_0000 && input == signed + [4, 0xFF] + U32(|signed|)
  {
    var signed, length := ReadTrailed(input).value, input[|input| - 4..];
    FourOctets(length);
    U32Value(|signed|);
    ValueInjective(length, U32(|signed|));
    assert input == signed + [4, 0xFF] + length;
  }

  /** The arcs of an object identifier, section 8.19 of X.690. */
  function Arcs(b: seq<Byte>, high: nat): seq<nat> {
    if b == [] then []
    else if b[0] >= 128 then Arcs(b[1..], 128 * (high + b[0] as int - 128))
    else [high + b[0] as int] + Arcs(b[1..], 0)
  }

  lemma ShortArc(b: Byte, rest: seq<Byte>)
    requires b < 128
    ensures Arcs([b] + rest, 0) == [b as int] + Arcs(rest, 0)
  {
    assert ([b] + rest)[1..] == rest;
  }

  lemma LongArc(b: Byte, c: Byte, rest: seq<Byte>)
    requires c < 128 <= b
    ensures Arcs([b] + ([c] + rest), 0) == [128 * (b as int - 128) + c as int] + Arcs(rest, 0)
  {
    assert ([b] + ([c] + rest))[1..] == [c] + rest && ([c] + rest)[1..] == rest;
  }

  /** The curve is 1.3.6.1.4.1.11591.15.1, whose first two arcs share an octet. */
  lemma CurveIsEd25519()
    ensures Arcs(OID, 0) == [40 * 1 + 3, 6, 1, 4, 1, 11591, 15, 1]
  {
    ClosingArcs();
    OpeningArcs(OID, [0xDA] + ([0x47] + ([0x0F] + ([0x01] + []))));
  }

  lemma ClosingArcs()
    ensures Arcs([0xDA] + ([0x47] + ([0x0F] + ([0x01] + []))), 0) == [11591, 15, 1]
  {
    ShortArc(0x01, []);
    ShortArc(0x0F, [0x01] + []);
    LongArc(0xDA, 0x47, [0x0F] + ([0x01] + []));
  }

  lemma OpeningArcs(oid: seq<Byte>, rest: seq<Byte>)
    requires oid == [0x2B] + ([0x06] + ([0x01] + ([0x04] + ([0x01] + rest))))
    ensures Arcs(oid, 0) == [43, 6, 1, 4, 1] + Arcs(rest, 0)
  {
    ShortArc(0x01, rest);
    ShortArc(0x04, [0x01] + rest);
    ShortArc(0x01, [0x04] + ([0x01] + rest));
    ShortArc(0x06, [0x01] + ([0x04] + ([0x01] + rest)));
    ShortArc(0x2B, [0x06] + ([0x01] + ([0x04] + ([0x01] + rest))));
  }

  /**
   * The certification stands on its own: a version 4 EdDSA key of 2024-01-01 for this seed, certified
   * positively with SHA-256, flags certify and sign, and naming the key by its fingerprint and id.
   */
  ghost predicate SelfCertified(c: Crypto, k: Certified<SecretKey>) {
    KeyFor(c, k.key) && exists material, input ::
      ReadKeyMaterial(material) == Some((k.key.publicBody, [])) && CertifiedBy(c, k, c.sha1(material), input)
  }

  ghost predicate KeyFor(c: Crypto, k: SecretKey) {
    && k.public.created == 1704067200 && k.public.algorithm == 22
    && Arcs(k.public.oid, 0) == [43, 6, 1, 4, 1, 11591, 15, 1]
    && k.public.point == [0x40] + c.public(k.seed)
  }

  ghost predicate CertifiedBy(c: Crypto, k: Certified<SecretKey>, fingerprint: seq<Byte>, input: seq<Byte>) {
    var sig, digest := k.signature, c.sha256(input);
    && |fingerprint| == 20 && |digest| == 32
    && ReadHashInput(input) == Some((k.key.publicBody, k.uid, sig.signed))
    && sig.sigType == 0x13 && sig.publicAlgorithm == 22 && sig.hashAlgorithm == 8
    && sig.hashed == [P.Subpacket(2, U32(1704067200)), P.Subpacket(27, [3]), P.Subpacket(33, [4] + fingerprint)]
    && sig.unhashed == [P.Subpacket(16, fingerprint[12..])]
    && sig.digestStart == digest[..2] && sig.r + sig.s == c.sign(k.key.seed, digest)
  }

  /** What a verifier hashes, rebuilt from the exported packets, is what was signed with the exported seed. */
  lemma CertificationCoversKey(c: Crypto, seed: seq<Byte>, uid: seq<Byte>)
    requires c.Lawful() && |seed| == 32 && |uid| < 0x1_0000_0000
    ensures var read := ReadSecretKey(TransferableSecretKey(c, seed, uid));
      read.Some? && read.value.key.seed == seed && read.value.uid == uid && SelfCertified(c, read.value)
  {
    SecretKeyRoundTrip(c, seed, uid);
    Covered(c, seed, uid, ReadSecretKey(TransferableSecretKey(c, seed, uid)).value);
  }

  lemma KeyIsForSeed(c: Crypto, seed: seq<Byte>, k: SecretKey)
    requires k.public == Expected(c.public(seed)) && k.seed == seed
    ensures KeyFor(c, k)
  {
    CurveIsEd25519();
  }

  lemma Covered(c: Crypto, seed: seq<Byte>, uid: seq<Byte>, k: Certified<SecretKey>)
    requires c.Lawful() && |uid| < 0x1_0000_0000
    requires k.key == SecretKey(Expected(c.public(seed)), PublicKeyBody(c.public(seed)), seed)
    requires k.uid == uid && k.signature == ExpectedSignature(c, seed, uid)
    ensures SelfCertified(c, k)
  {
    var pub := c.public(seed);
    var body, signed := PublicKeyBody(pub), Signed(c, pub);
    PublicRoundTrip(pub, []);
    SubpacketsFit(c, pub);
    HashInputReads(body, uid, signed);
    var material := KeyMaterial(body);
    ReadKeyMaterialOf(body, []);
    assert material + [] == material;
    KeyIsForSeed(c, seed, k.key);
    var sig := c.sign(seed, Digest(c, pub, uid));
    assert sig[..32] + sig[32..] == sig;
    assert CertifiedBy(c, k, c.sha1(material), HashInput(body, uid, signed));
  }
}
