/** scripts/openpgp_key.go: radix-64 and ASCII armor, with the decoder of sections 6.2 to 6.4 of RFC 4880. */
module Armor {
  import opened Bytes
  import opened Wrappers
  import Crc24
  import Gf2

  // ---- The encoder ----

  /** The radix-64 alphabet. */
  function Char64(i: int): char
    requires 0 <= i < 64
  {
    if i < 26 then ('A' as int + i) as char
    else if i < 52 then ('a' as int + i - 26) as char
    else if i < 62 then ('0' as int + i - 52) as char
    else if i == 62 then '+' else '/'
  }

  /** The table the source spells out, in rows of sixteen. */
  lemma Alphabet(i: int)
    requires 0 <= i < 64
    ensures Char64(i) ==
      if i < 16 then "ABCDEFGHIJKLMNOP"[i]
      else if i < 32 then "QRSTUVWXYZabcdef"[i - 16]
      else if i < 48 then "ghijklmnopqrstuv"[i - 32]
      else "wxyz0123456789+/"[i - 48]
  {}

  /** The 24-bit word of up to three bytes; missing ones count as zero. */
  function Word(b: seq<Byte>): (v: nat)
    requires 1 <= |b| <= 3
    ensures v < 0x1000000
  {
    0x10000 * (b[0] as int)
    + (if |b| > 1 then 0x100 * (b[1] as int) else 0)
    + (if |b| > 2 then b[2] as int else 0)
  }

  /** The four characters for one to three bytes. */
  function Group(b: seq<Byte>): (s: string)
    requires 1 <= |b| <= 3
    ensures |s| == 4
  {
    var v := Word(b);
    Quad(v / 0x40000, v / 0x1000 % 64, v / 0x40 % 64, v % 64, |b|)
  }

  /** Four alphabet characters, the last ones replaced by padding when n bytes do not reach them. */
  function Quad(a: nat, b: nat, c: nat, d: nat, n: nat): (s: string)
    requires a < 64 && b < 64 && c < 64 && d < 64
    ensures |s| == 4
  {
    [Char64(a), Char64(b), if n > 1 then Char64(c) else '=', if n > 2 then Char64(d) else '=']
  }

  function Encode64(src: seq<Byte>): string {
    if src == [] then "" else
      var n := if |src| < 3 then |src| else 3;
      Group(src[..n]) + Encode64(src[n..])
  }

  /** The lines of at most 64 characters, each with its newline. */
  function Wrap(body: string): string {
    if body == "" then "" else
      var n := if |body| < 64 then |body| else 64;
      body[..n] + "\n" + Wrap(body[n..])
  }

  function SumBytes(c: nat): (b: seq<Byte>) { [c / 0x10000 % 256, c / 0x100 % 256, c % 256] }

  function Text(blockType: string, data: seq<Byte>): string {
    Header(blockType) + Wrap(Encode64(data)) + Footer(blockType, Encode64(SumBytes(Crc24.Checksum(data))))
  }

  function Header(blockType: string): string { "-----BEGIN " + blockType + "-----\n\n" }

  function Footer(blockType: string, sum: string): string {
    "=" + sum + "\n-----END " + blockType + "-----\n"
  }

  lemma EncodeStep(src: seq<Byte>, i: nat, n: nat)
    requires i < |src| && n == if |src| - i < 3 then |src| - i else 3
    ensures Encode64(src[i..]) == Group(src[i..i + n]) + Encode64(src[i + n..])
  {
    assert src[i..][..n] == src[i..i + n] && src[i..][n..] == src[i + n..];
  }

  /** The encode closure of armor. */
  method Encode(src: seq<Byte>) returns (s: string)
    ensures s == Encode64(src)
  {
    s := "";
    var i := 0;
    while i < |src|
      invariant 0 <= i <= |src|
      invariant Encode64(src) == s + Encode64(src[i..])
    {
      var n := if |src| - i < 3 then |src| - i else 3;
      EncodeStep(src, i, n);
      Associative(s, Group(src[i..i + n]), Encode64(src[i + n..]));
      s := s + Group(src[i..i + n]);
      i := i + n;
    }
    assert src[i..] == [];
  }

  /** An io.Writer that plays out its script and then takes everything. */
  class Writer {
    var text: string
    var failed: bool
    var script: seq<WriteEvent>

    constructor (script: seq<WriteEvent>)
      ensures text == "" && !failed && this.script == script
    {
      text, failed, this.script := "", false, script;
    }

    method Write(s: string) returns (ok: bool)
      modifies this
      ensures Put(old(text), s, text, ok) && failed == (old(failed) || !ok)
    {
      var event := if script == [] then Takes else script[0];
      script := if script == [] then [] else script[1..];
      ok := event.Takes?;
      if ok {
        text := text + s;
      } else {
        var n := if event.n < |s| then event.n else |s|;
        text, failed := text + s[..n], true;
      }
    }
  }

  /** Lines of exactly 64 characters, and a shorter last one: how long that makes the text. */
  lemma {:induction false} WrapLength(body: string, full: nat, last: nat)
    requires |body| == 64 * full + last && 1 <= last <= 64
    ensures |Wrap(body)| == 65 * full + last + 1
    decreases full
  {
    if full > 0 {
      WrapLength(body[64..], full - 1, last);
    } else {
      assert Wrap(body[last..]) == "";
    }
  }

  /** Where each character goes: column `column` of line `line`. */
  lemma {:induction false} WrapAt(body: string, line: nat, column: nat)
    requires column <= 64 && 65 * line + column < |Wrap(body)|
    ensures if column == 64 || 65 * line + column == |Wrap(body)| - 1 then Wrap(body)[65 * line + column] == '\n'
            else 64 * line + column < |body| && Wrap(body)[65 * line + column] == body[64 * line + column]
    decreases line
  {
    if |body| > 64 {
      assert Wrap(body) == body[..64] + "\n" + Wrap(body[64..]);
      if line > 0 {
        WrapAt(body[64..], line - 1, column);
      }
    } else {
      assert Wrap(body[|body|..]) == "";
    }
  }

  lemma WrapLine(body: string, i: nat, end: nat)
    requires i < |body| && end == if i + 64 > |body| then |body| else i + 64
    ensures Wrap(body[i..]) == body[i..end] + "\n" + Wrap(body[end..])
  {
    assert body[i..][..end - i] == body[i..end] && body[i..][end - i..] == body[end..];
  }

  /** The loop that writes the body in lines of 64. */
  method WriteLines(w: Writer, body: string) returns (ok: bool)
    modifies w
    ensures Put(old(w.text), Wrap(body), w.text, ok) && w.failed == (old(w.failed) || !ok)
  {
    var i := 0;
    ok := true;
    ghost var done := "";
    assert body[0..] == body && Wrap(body) == done + Wrap(body);
    while i < |body|
      invariant 0 <= i <= |body| && ok && w.failed == old(w.failed)
      invariant Wrap(body) == done + Wrap(body[i..])
      invariant Put(old(w.text), done, w.text, true)
    {
      var end := if i + 64 > |body| then |body| else i + 64;
      ghost var line, rest := body[i..end] + "\n", Wrap(body[end..]);
      WrapLine(body, i, end);
      ghost var text := w.text;
      ok := w.Write(body[i..end] + "\n");
      PutConcat(old(w.text), done, text, true, line, w.text, ok);
      PutConcat(old(w.text), done + line, w.text, ok, rest, w.text, ok);
      Associative(done, line, rest);
      if !ok {
        return;
      }
      done := done + line;
      i := end;
    }
    assert body[i..] == "" && done + "" == done;
  }

  /** armor: all of the text, or part of it and an error, and an error exactly when the writer reported one. */
  method Write(w: Writer, blockType: string, data: seq<Byte>) returns (ok: bool)
    modifies w
    ensures Put(old(w.text), Text(blockType, data), w.text, ok) && w.failed == (old(w.failed) || !ok)
  {
    var body := Encode(data);
    ghost var text0 := w.text;
    ok := w.Write(Header(blockType));
    ghost var text1, ok1 := w.text, ok;
    if ok {
      ok := WriteLines(w, body);
    }
    ghost var text2, ok2 := w.text, ok;
    PutConcat(text0, Header(blockType), text1, ok1, Wrap(body), text2, ok2);
    var crc := Crc24.Compute(data);
    var sum := Encode(SumBytes(crc));
    if ok {
      ok := w.Write(Footer(blockType, sum));
    }
    PutConcat(text0, Header(blockType) + Wrap(body), text2, ok2, Footer(blockType, sum), w.text, ok);
  }

  // ---- The decoder ----

  function Index64(c: char): Option<nat> {
    if 'A' <= c <= 'Z' then Some(c as int - 'A' as int)
    else if 'a' <= c <= 'z' then Some(c as int - 'a' as int + 26)
    else if '0' <= c <= '9' then Some(c as int - '0' as int + 52)
    else if c == '+' then Some(62)
    else if c == '/' then Some(63)
    else None
  }

  function Ungroup(s: string): Option<seq<Byte>>
    requires |s| == 4
  {
    var a :- Index64(s[0]);
    var b :- Index64(s[1]);
    if s[2] == '=' then
      if s[3] == '=' then Some([(64 * a + b) / 16 % 256]) else None
    else
      var c :- Index64(s[2]);
      if s[3] == '=' then Some([(64 * a + b) / 16 % 256, (64 * b + c) / 4 % 256]) else
        var d :- Index64(s[3]);
        Some([(64 * a + b) / 16 % 256, (64 * b + c) / 4 % 256, (64 * c + d) % 256])
  }

  /** Padding may stand only in the last group. */
  function Decode64(s: string): Option<seq<Byte>> {
    if s == "" then Some([])
    else if |s| < 4 then None else
      var b :- Ungroup(s[..4]);
      if |b| < 3 && |s| > 4 then None else
        var rest :- Decode64(s[4..]);
        Some(b + rest)
  }

  /** The first line, without its newline, and what follows. */
  function Line(text: string): (r: Option<(string, string)>)
    ensures r.Some? ==> |r.value.1| < |text|
  {
    if text == "" then None
    else if text[0] == '\n' then Some(("", text[1..])) else
      var (l, rest) :- Line(text[1..]);
      Some(([text[0]] + l, rest))
  }

  /** Armor header lines end with the first blank line. */
  function SkipHeaders(text: string): (r: Option<string>)
    ensures r.Some? ==> |r.value| < |text|
    decreases |text|
  {
    var (l, rest) :- Line(text);
    if l == "" then Some(rest) else SkipHeaders(rest)
  }

  /** The data lines joined, the checksum line without its '=', and what follows. */
  function Body(text: string): Option<(string, string, string)>
    decreases |text|
  {
    var (l, rest) :- Line(text);
    if l != "" && l[0] == '=' then Some(("", l[1..], rest)) else
      var (body, sum, tail) :- Body(rest);
      Some((l + body, sum, tail))
  }

  function BlockType(header: string): Option<string> {
    if |header| >= 16 && header[..11] == "-----BEGIN " && header[|header| - 5..] == "-----"
    then Some(header[11..|header| - 5]) else None
  }

  datatype Block = Block(blockType: string, data: seq<Byte>, checksum: nat)

  ghost function Dearmor(text: string): Option<Block> {
    var (header, t) :- Line(text);
    var blockType :- BlockType(header);
    var u :- SkipHeaders(t);
    var (body, sum, tail) :- Body(u);
    var data :- Decode64(body);
    var sumBytes :- Decode64(sum);
    var (last, _) :- Line(tail);
    if && |sumBytes| == 3 && Crc24.IsChecksum(data, Gf2.Bits(Value(sumBytes)))
       && last == "-----END " + blockType + "-----"
    then Some(Block(blockType, data, Value(sumBytes))) else None
  }

  // ---- Round trip ----

  lemma IndexChar(i: int)
    requires 0 <= i < 64
    ensures Index64(Char64(i)) == Some(i) && Char64(i) != '=' && Char64(i) != '\n'
  {}

  /** The four six-bit digits of a three-byte word. */
  lemma SixBitDigits(x: Byte, y: Byte, z: Byte)
    ensures var v := 0x10000 * (x as int) + 0x100 * (y as int) + z;
      && v / 0x40000 == x / 4
      && v / 0x1000 % 64 == 16 * (x % 4) + y / 16
      && v / 0x40 % 64 == 4 * (y % 16) + z / 64
      && v % 64 == z % 64
  {
    FirstDigit(x, 0x100 * (y as int) + z);
    SecondDigit(x, y, z);
    ThirdDigit(x, y, z);
  }

  lemma FirstDigit(x: Byte, low: nat)
    requires low < 0x10000
    ensures (0x10000 * (x as int) + low) / 0x40000 == x / 4
  {
    assert 0x10000 * (x as int) + low == 0x40000 * (x / 4) + (0x10000 * (x % 4) + low);
  }

  lemma SecondDigit(x: Byte, y: Byte, z: Byte)
    ensures (0x10000 * (x as int) + 0x100 * (y as int) + z) / 0x1000 % 64 == 16 * (x % 4) + y / 16
  {
    var q: int := 16 * (x as int) + y / 16;
    Over4096(0x10000 * (x as int) + 0x100 * (y as int) + z, q, 0x100 * (y % 16) + z);
    Over64(q, x / 4, 16 * (x % 4) + y / 16);
  }

  lemma Over4096(v: int, q: int, r: int)
    requires v == 4096 * q + r && 0 <= r < 4096
    ensures v / 4096 == q
  {}

  lemma ThirdDigit(x: Byte, y: Byte, z: Byte)
    ensures var v: int := 0x10000 * (x as int) + 0x100 * (y as int) + z;
      v / 0x40 % 64 == 4 * (y % 16) + z / 64 && v % 64 == z % 64
  {
    var q: int := 0x400 * (x as int) + 4 * (y as int) + z / 64;
    Over64(0x10000 * (x as int) + 0x100 * (y as int) + z, q, z % 64);
    Over64(q, 16 * (x as int) + y / 16, 4 * (y % 16) + z / 64);
  }

  lemma Over64(v: int, q: int, r: int)
    requires v == 64 * q + r && 0 <= r < 64
    ensures v / 64 == q && v % 64 == r
  {}

  lemma SixBitBack(x: Byte, y: Byte, z: Byte)
    ensures var a, b, c, d := x / 4, 16 * (x % 4) + y / 16, 4 * (y % 16) + z / 64, z % 64;
      (64 * a + b) / 16 % 256 == x && (64 * b + c) / 4 % 256 == y && (64 * c + d) % 256 == z
  {
    FirstBack(x, y);
    SecondBack(x, y, z);
    ThirdBack(y, z);
  }

  lemma FirstBack(x: Byte, y: Byte)
    ensures (64 * (x / 4) + (16 * (x % 4) + y / 16)) / 16 % 256 == x
  {
    assert 64 * (x / 4) + (16 * (x % 4) + y / 16) == 16 * (x as int) + y / 16;
  }

  lemma SecondBack(x: Byte, y: Byte, z: Byte)
    ensures (64 * (16 * (x % 4) + y / 16) + (4 * (y % 16) + z / 64)) / 4 % 256 == y
  {
    var w: int := 0x100 * (x % 4) + y;
    assert 64 * (16 * (x % 4) + y / 16) + (4 * (y % 16) + z / 64) == 4 * w + z / 64;
    assert (4 * w + z / 64) / 4 == w;
  }

  lemma ThirdBack(y: Byte, z: Byte)
    ensures (64 * (4 * (y % 16) + z / 64) + z % 64) % 256 == z
  {
    assert 64 * (4 * (y % 16) + z / 64) + z % 64 == 0x100 * (y % 16) + z;
  }

  lemma GroupRoundTrip(b: seq<Byte>)
    requires 1 <= |b| <= 3
    ensures Ungroup(Group(b)) == Some(b)
  {
    var y, z := if |b| > 1 then b[1] else 0, if |b| > 2 then b[2] else 0;
    GroupDigits(b, b[0], y, z);
    QuadOfBytes(b[0], y, z, |b|);
    assert b == [b[0], y, z][..|b|];
  }

  lemma GroupDigits(b: seq<Byte>, x: Byte, y: Byte, z: Byte)
    requires 1 <= |b| <= 3 && Word(b) == 0x10000 * (x as int) + 0x100 * (y as int) + z
    ensures Group(b) == Quad(x / 4, 16 * (x % 4) + y / 16, 4 * (y % 16) + z / 64, z % 64, |b|)
  {
    SixBitDigits(x, y, z);
  }

  lemma QuadOfBytes(x: Byte, y: Byte, z: Byte, n: nat)
    requires 1 <= n <= 3
    ensures Ungroup(Quad(x / 4, 16 * (x % 4) + y / 16, 4 * (y % 16) + z / 64, z % 64, n)) == Some([x, y, z][..n])
  {
    SixBitBack(x, y, z);
    QuadBack(x / 4, 16 * (x % 4) + y / 16, 4 * (y % 16) + z / 64, z % 64, n);
  }

  lemma QuadBack(a: nat, b: nat, c: nat, d: nat, n: nat)
    requires a < 64 && b < 64 && c < 64 && d < 64 && 1 <= n <= 3
    ensures Ungroup(Quad(a, b, c, d, n))
         == Some([(64 * a + b) / 16 % 256, (64 * b + c) / 4 % 256, (64 * c + d) % 256][..n])
  {
    IndexChar(a);
    IndexChar(b);
    IndexChar(c);
    IndexChar(d);
    UngroupChars(Char64(a), Char64(b), Char64(c), Char64(d), a, b, c, d);
    var p, q, r := (64 * a + b) / 16 % 256, (64 * b + c) / 4 % 256, (64 * c + d) % 256;
    assert [p, q, r][..n] == if n == 1 then [p] else if n == 2 then [p, q] else [p, q, r];
  }

  lemma UngroupChars(w: char, x: char, y: char, z: char, a: nat, b: nat, c: nat, d: nat)
    requires Index64(w) == Some(a) && Index64(x) == Some(b) && Index64(y) == Some(c) && Index64(z) == Some(d)
    ensures Ungroup([w, x, '=', '=']) == Some([(64 * a + b) / 16 % 256])
    ensures Ungroup([w, x, y, '=']) == Some([(64 * a + b) / 16 % 256, (64 * b + c) / 4 % 256])
    ensures Ungroup([w, x, y, z]) == Some([(64 * a + b) / 16 % 256, (64 * b + c) / 4 % 256, (64 * c + d) % 256])
  {}

  lemma {:induction false} Radix64RoundTrip(src: seq<Byte>)
    ensures Decode64(Encode64(src)) == Some(src)
  {
    if src != [] {
      var n := if |src| < 3 then |src| else 3;
      var first, rest := src[..n], src[n..];
      GroupRoundTrip(first);
      Radix64RoundTrip(rest);
      assert n < 3 ==> Encode64(rest) == "";
      DecodeFirst(Group(first), first, Encode64(rest), rest);
      assert src == first + rest;
    }
  }

  lemma DecodeFirst(g: string, b: seq<Byte>, rest: string, tail: seq<Byte>)
    requires |g| == 4 && Ungroup(g) == Some(b) && Decode64(rest) == Some(tail)
    requires |b| < 3 ==> rest == ""
    ensures Decode64(g + rest) == Some(b + tail)
  {
    var s := g + rest;
    assert s[..4] == g && s[4..] == rest && s != "";
    assert rest == "" ==> tail == [];
  }

  /** No newline anywhere, and no '=' where a group starts. */
  predicate Clean(s: string) {
    |s| % 4 == 0 && forall i | 0 <= i < |s| :: s[i] != '\n' && (i % 4 == 0 ==> s[i] != '=')
  }

  lemma {:induction false} EncodedIsClean(src: seq<Byte>)
    ensures Clean(Encode64(src))
    ensures src == [] <==> Encode64(src) == ""
  {
    if src != [] {
      var n := if |src| < 3 then |src| else 3;
      var v := Word(src[..n]);
      EncodedIsClean(src[n..]);
      QuadClean(v / 0x40000, v / 0x1000 % 64, v / 0x40 % 64, v % 64, n);
      CleanConcat(Group(src[..n]), Encode64(src[n..]));
    }
  }

  lemma QuadClean(a: nat, b: nat, c: nat, d: nat, n: nat)
    requires a < 64 && b < 64 && c < 64 && d < 64
    ensures Clean(Quad(a, b, c, d, n))
  {
    IndexChar(a);
    IndexChar(b);
    IndexChar(c);
    IndexChar(d);
  }

  lemma CleanConcat(g: string, rest: string)
    requires |g| == 4 && Clean(g) && Clean(rest)
    ensures Clean(g + rest)
  {
    forall i | 4 <= i < |g + rest| ensures (g + rest)[i] == rest[i - 4] && i % 4 == (i - 4) % 4 {}
  }

  lemma {:induction false} LineOf(l: string, rest: string)
    requires '\n' !in l
    ensures Line(l + "\n" + rest) == Some((l, rest))
  {
    var text := l + "\n" + rest;
    if l == "" {
      assert text[1..] == rest;
    } else {
      LineOf(l[1..], rest);
      assert text[1..] == l[1..] + "\n" + rest;
      assert [l[0]] + l[1..] == l;
    }
  }

  /** No wrapped line starts with '=', so the checksum line is found and only the data is joined. */
  lemma {:induction false} WrappedBody(b: string, sum: string, tail: string)
    requires Clean(b) && '\n' !in sum
    ensures Body(Wrap(b) + ("=" + sum + "\n" + tail)) == Some((b, sum, tail))
    decreases |b|
  {
    var end := "=" + sum + "\n" + tail;
    if b == "" {
      LineOf("=" + sum, tail);
      assert Wrap(b) + end == end;
      assert ("=" + sum)[1..] == sum;
    } else {
      var n := if |b| < 64 then |b| else 64;
      WrappedBody(b[n..], sum, tail);
      assert b[..n][0] == b[0] != '=';
      BodyLine(b[..n], Wrap(b[n..]) + end, b[n..], sum, tail);
      Associative(b[..n] + "\n", Wrap(b[n..]), end);
      assert b[..n] + b[n..] == b;
    }
  }

  lemma BodyLine(l: string, rest: string, body: string, sum: string, tail: string)
    requires '\n' !in l && l != "" && l[0] != '=' && Body(rest) == Some((body, sum, tail))
    ensures Body(l + "\n" + rest) == Some((l + body, sum, tail))
  {
    LineOf(l, rest);
  }

  lemma SumRoundTrip(c: nat)
    requires c < 0x1000000
    ensures Value(SumBytes(c)) == c
  {
    var b := SumBytes(c);
    assert b[..2] == [b[0], b[1]];
    Value2(b[..2]);
    ThreeDigits(c);
  }

  lemma ThreeDigits(c: nat)
    requires c < 0x1000000
    ensures c == 256 * (256 * (c / 0x10000 % 256) + c / 0x100 % 256) + c % 256
  {
    assert c / 0x10000 == c / 0x100 / 0x100;
  }

  /** An RFC 4880 reader recovers block type, data and checksum from what armor writes. */
  lemma ArmorRoundTrip(blockType: string, data: seq<Byte>)
    requires '\n' !in blockType
    ensures Dearmor(Text(blockType, data)) == Some(Block(blockType, data, Crc24.Checksum(data)))
  {
    var crc := Crc24.Checksum(data);
    var last := "-----END " + blockType + "-----";
    var body, sum := Encode64(data), Encode64(SumBytes(crc));
    var tail := last + "\n" + "";
    var inner := Wrap(body) + ("=" + sum + "\n" + tail);
    HeaderRead(blockType, inner);
    SplitText(blockType, Wrap(body), sum);
    EncodedIsClean(data);
    EncodedIsClean(SumBytes(crc));
    WrappedBody(body, sum, tail);
    Radix64RoundTrip(data);
    Radix64RoundTrip(SumBytes(crc));
    LineOf(last, "");
    Crc24.ChecksumIs(data);
    SumRoundTrip(crc);
    Assemble(Text(blockType, data), blockType, inner, body, sum, tail, data, SumBytes(crc));
  }

  lemma SplitText(blockType: string, lines: string, sum: string)
    ensures Header(blockType) + lines + Footer(blockType, sum)
         == Header(blockType) + (lines + ("=" + sum + "\n" + ("-----END " + blockType + "-----" + "\n" + "")))
  {}

  lemma HeaderRead(blockType: string, inner: string)
    requires '\n' !in blockType
    ensures Line(Header(blockType) + inner) == Some(("-----BEGIN " + blockType + "-----", "\n" + inner))
    ensures BlockType("-----BEGIN " + blockType + "-----") == Some(blockType)
    ensures SkipHeaders("\n" + inner) == Some(inner)
  {
    var header := "-----BEGIN " + blockType + "-----";
    assert Header(blockType) + inner == header + "\n" + ("\n" + inner);
    LineOf(header, "\n" + inner);
    assert header[11..|header| - 5] == blockType;
    assert "" + "\n" + inner == "\n" + inner;
    LineOf("", inner);
  }

  lemma Assemble(text: string, blockType: string, inner: string, body: string, sum: string, tail: string,
                 data: seq<Byte>, sumBytes: seq<Byte>)
    requires Line(text) == Some(("-----BEGIN " + blockType + "-----", "\n" + inner))
    requires BlockType("-----BEGIN " + blockType + "-----") == Some(blockType)
    requires SkipHeaders("\n" + inner) == Some(inner) && Body(inner) == Some((body, sum, tail))
    requires Decode64(body) == Some(data) && Decode64(sum) == Some(sumBytes)
    requires |sumBytes| == 3 && Crc24.IsChecksum(data, Gf2.Bits(Value(sumBytes)))
    requires Line(tail) == Some(("-----END " + blockType + "-----", ""))
    ensures Dearmor(text) == Some(Block(blockType, data, Value(sumBytes)))
  {}
}
