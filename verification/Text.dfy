/** The string functions of the Go standard library that the modelled code calls. */
module Text {
  import opened Wrappers

  /** unicode.IsSpace */
  predicate IsSpace(c: char) {
    var n := c as int;
    || 9 <= n <= 13 || n == 0x20 || n == 0x85 || n == 0xA0 || n == 0x1680 || 0x2000 <= n <= 0x200A
    || n == 0x2028 || n == 0x2029 || n == 0x202F || n == 0x205F || n == 0x3000
  }

  function TrimLeft(s: string): string {
    if s != "" && IsSpace(s[0]) then TrimLeft(s[1..]) else s
  }

  function TrimRight(s: string): string {
    if s != "" && IsSpace(s[|s| - 1]) then TrimRight(s[..|s| - 1]) else s
  }

  /** strings.TrimSpace */
  function Trim(s: string): string { TrimRight(TrimLeft(s)) }

  predicate HasPrefix(s: string, p: string) { |p| <= |s| && s[..|p|] == p }

  /** strings.Cut at a one-character separator. */
  function Cut(s: string, sep: char): Option<(string, string)> {
    if s == "" then None
    else if s[0] == sep then Some(("", s[1..])) else
      var (before, after) :- Cut(s[1..], sep);
      Some(([s[0]] + before, after))
  }

  predicate IsDigit(c: char) { '0' <= c <= '9' }

  function Digits(s: string): Option<nat> {
    if s == "" then Some(0)
    else if !IsDigit(s[|s| - 1]) then None else
      var high :- Digits(s[..|s| - 1]);
      Some(10 * high + (s[|s| - 1] as int - '0' as int))
  }

  /** strconv.ParseUint(s, 10, 64): empty, malformed and out-of-range input are errors. */
  function ParseUint64(s: string): Option<nat> {
    if s == "" then None else
      var n :- Digits(s);
      if n < 0x1_0000_0000_0000_0000 then Some(n) else None
  }

  /** %d */
  function Decimal(n: nat): string {
    if n < 10 then [('0' as int + n) as char] else Decimal(n / 10) + [('0' as int + n % 10) as char]
  }

  lemma {:induction false} DecimalRoundTrip(n: nat)
    ensures Decimal(n) != "" && Digits(Decimal(n)) == Some(n)
    ensures forall c | c in Decimal(n) :: IsDigit(c)
  {
    if n >= 10 {
      DecimalRoundTrip(n / 10);
      var s := Decimal(n);
      assert s[..|s| - 1] == Decimal(n / 10);
    } else {
      assert Decimal(n)[..0] == "";
    }
  }

  /** strings.Join(parts, ",") */
  function Join(parts: seq<string>): string {
    if parts == [] then ""
    else if |parts| == 1 then parts[0]
    else parts[0] + "," + Join(parts[1..])
  }

  // ---- What these functions do ----

  lemma {:induction false} TrimRightHead(c: char, s: string)
    ensures TrimRight([c] + s) == if TrimRight(s) == "" && IsSpace(c) then "" else [c] + TrimRight(s)
  {
    if s != "" && IsSpace(s[|s| - 1]) {
      TrimRightHead(c, s[..|s| - 1]);
      assert ([c] + s)[..|s|] == [c] + s[..|s| - 1];
    } else if s == "" {
      assert [c] + s == [c] && [c][..0] == "";
    }
  }

  lemma {:induction false} TrimRightIdempotent(s: string)
    ensures TrimRight(TrimRight(s)) == TrimRight(s)
  {
    if s != "" && IsSpace(s[|s| - 1]) { TrimRightIdempotent(s[..|s| - 1]); }
  }

  lemma {:induction false} TrimsCommute(s: string)
    ensures TrimLeft(TrimRight(s)) == TrimRight(TrimLeft(s))
  {
    if s != "" {
      TrimRightHead(s[0], s[1..]);
      assert s == [s[0]] + s[1..];
      if IsSpace(s[0]) {
        TrimsCommute(s[1..]);
        assert TrimRight(s[1..]) == "" || ([s[0]] + TrimRight(s[1..]))[1..] == TrimRight(s[1..]);
      }
    }
  }

  lemma {:induction false} TrimRightAfter(front: string, s: string)
    requires front != "" && !IsSpace(front[|front| - 1])
    ensures TrimRight(front + s) == front + TrimRight(s)
  {
    var line := front + s;
    if s == "" {
      assert line == front && front + TrimRight(s) == front;
    } else if IsSpace(s[|s| - 1]) {
      TrimRightAfter(front, s[..|s| - 1]);
      assert line[..|line| - 1] == front + s[..|s| - 1];
    }
  }

  /** Trimming the right end first changes nothing. */
  lemma TrimRightOnly(s: string)
    ensures Trim(TrimRight(s)) == Trim(s)
  {
    TrimsCommute(s);
    TrimRightIdempotent(TrimLeft(s));
  }

  predicate Blank(s: string) { forall c | c in s :: IsSpace(c) }

  predicate Trimmed(s: string) { s != "" ==> !IsSpace(s[0]) && !IsSpace(s[|s| - 1]) }

  lemma {:induction false} TrimLeftOf(pre: string, s: string)
    requires Blank(pre)
    ensures TrimLeft(pre + s) == TrimLeft(s)
  {
    if pre == "" {
      assert pre + s == s;
    } else {
      assert pre[0] in pre;
      TrimLeftOf(pre[1..], s);
      assert (pre + s)[1..] == pre[1..] + s;
    }
  }

  lemma {:induction false} TrimBlank(s: string)
    requires Blank(s)
    ensures TrimRight(s) == ""
  {
    if s != "" {
      assert s[|s| - 1] in s;
      TrimBlank(s[..|s| - 1]);
    }
  }

  /** What is left between the spaces at both ends. */
  lemma TrimOf(pre: string, core: string, post: string)
    requires Blank(pre) && Blank(post) && Trimmed(core)
    ensures Trim(pre + (core + post)) == core
  {
    TrimLeftOf(pre, core + post);
    TrimBlank(post);
    if core == "" {
      assert core + post == post;
      TrimLeftOf(post, "");
      assert post + "" == post;
    } else {
      assert TrimLeft(core + post) == core + post;
      TrimRightAfter(core, post);
    }
  }

  lemma {:induction false} TrimmedAway(s: string)
    ensures Trim(s) == "" <==> Blank(s)
  {
    TrimsCommute(s);
    if Blank(s) {
      TrimBlank(s);
    } else if s != "" {
      if IsSpace(s[0]) {
        TrimmedAway(s[1..]);
        assert s == [s[0]] + s[1..];
      } else {
        TrimRightHead(s[0], s[1..]);
        assert s == [s[0]] + s[1..];
      }
    }
  }

  /** The characters TrimSpace takes away: the 25 with the Unicode property White_Space. */
  lemma Spaces(c: char)
    ensures IsSpace(c) <==> c as int in {
      9, 10, 11, 12, 13, 32, 133, 160, 5760, 8192, 8193, 8194, 8195, 8196, 8197, 8198, 8199, 8200, 8201, 8202,
      8232, 8233, 8239, 8287, 12288}
  {}

  lemma {:induction false} TrimLeftKeeps(s: string, c: char)
    requires c in TrimLeft(s)
    ensures c in s
  {
    if s != "" && IsSpace(s[0]) { TrimLeftKeeps(s[1..], c); }
  }

  lemma {:induction false} TrimRightKeeps(s: string, c: char)
    requires c in TrimRight(s)
    ensures c in s
  {
    if s != "" && IsSpace(s[|s| - 1]) { TrimRightKeeps(s[..|s| - 1], c); }
  }

  lemma {:induction false} CutOf(before: string, sep: char, after: string)
    requires sep !in before
    ensures Cut(before + ([sep] + after), sep) == Some((before, after))
  {
    var s := before + ([sep] + after);
    if before == "" {
      assert s[1..] == after;
    } else {
      CutOf(before[1..], sep, after);
      assert s[1..] == before[1..] + ([sep] + after);
      assert [before[0]] + before[1..] == before;
    }
  }

  lemma {:induction false} CutNone(s: string, sep: char)
    ensures Cut(s, sep).None? <==> sep !in s
  {
    if s != "" { CutNone(s[1..], sep); }
  }

  lemma {:induction false} DigitsIff(s: string)
    ensures Digits(s).Some? <==> forall c | c in s :: IsDigit(c)
  {
    if s != "" {
      DigitsIff(s[..|s| - 1]);
      assert s == s[..|s| - 1] + [s[|s| - 1]];
    }
  }

  /** A number is read as itself up to 2^64 - 1; anything with another character, and nothing, is an error. */
  lemma ParseUint64Iff(n: nat, s: string)
    ensures ParseUint64(Decimal(n)) == if n <= 18446744073709551615 then Some(n) else None
    ensures s == "" || (exists c :: c in s && !('0' <= c <= '9')) ==> ParseUint64(s) == None
  {
    DecimalRoundTrip(n);
    DigitsIff(s);
  }

  lemma NumberTrimmed(n: nat)
    ensures Trimmed(Decimal(n))
  {
    DecimalRoundTrip(n);
    var d := Decimal(n);
    assert d[0] in d && d[|d| - 1] in d;
  }

  lemma PrefixIff(s: string, p: string)
    ensures HasPrefix(s, p) <==> p <= s
  {}
}
