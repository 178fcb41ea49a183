/** tokenIDsFromDump: the token ids in the text of `cryptsetup luksDump`, line by line. */
module LuksDump {
  import opened Wrappers
  import opened Text

  /** strconv.Atoi on a 64-bit machine. */
  function Atoi(s: string): Option<int> {
    var signed := s != "" && (s[0] == '-' || s[0] == '+');
    var digits := if signed then s[1..] else s;
    if digits == "" then None else
      var n :- Digits(digits);
      if signed && s[0] == '-' then (if n <= 0x8000_0000_0000_0000 then Some(0 - n as int) else None)
      else if n < 0x8000_0000_0000_0000 then Some(n) else None
  }

  predicate Indented(line: string) { line != "" && (line[0] == ' ' || line[0] == '\t') }

  predicate Heading(line: string) { !Indented(line) && HasPrefix(line, "Tokens:") }

  /** A line of a section starts with a space or a tab; the section we want is headed Tokens. */
  lemma LineKinds(line: string)
    ensures Indented(line) <==> " " <= line || "\t" <= line
    ensures Heading(line) <==> "Tokens:" <= line
  {
    PrefixIff(line, "Tokens:");
  }

  /** The id on a line of the Tokens section, if the line names the type. */
  function IdOn(line: string, typ: string): Option<int> {
    var (idPart, typePart) :- Cut(Trim(line), ':');
    if Trim(typePart) == typ then Atoi(Trim(idPart)) else None
  }

  function Ids(lines: seq<string>, inTokens: bool, typ: string): seq<int> {
    if lines == [] then []
    else if !Indented(lines[0]) then Ids(lines[1..], Heading(lines[0]), typ)
    else if inTokens && IdOn(lines[0], typ).Some? then [IdOn(lines[0], typ).value] + Ids(lines[1..], inTokens, typ)
    else Ids(lines[1..], inTokens, typ)
  }

  method TokenIdsFromDump(lines: seq<string>, typ: string) returns (ids: seq<int>)
    ensures ids == Ids(lines, false, typ)
  {
    ids := [];
    var inTokens := false;
    for n := 0 to |lines|
      invariant ids + Ids(lines[n..], inTokens, typ) == Ids(lines, false, typ)
    {
      var line := lines[n];
      assert lines[n..][1..] == lines[n + 1..];
      if !Indented(line) {
        inTokens := HasPrefix(line, "Tokens:");
        continue;
      }
      if !inTokens {
        continue;
      }
      var cut := Cut(Trim(line), ':');
      if cut.None? {
        continue;
      }
      if Trim(cut.value.1) != typ {
        continue;
      }
      var id := Atoi(Trim(cut.value.0));
      if id.Some? {
        ids := ids + [id.value];
      }
    }
  }

  // ---- What luksDump prints ----

  function Entry(id: nat, typ: string): string { "  " + (Decimal(id) + (":" + (" " + typ))) }

  /** The Tokens section from an id on: an entry, and whatever the token's handler adds below it. */
  function Section(types: map<int, string>, details: map<int, seq<string>>, id: nat): seq<string>
    decreases 32 - id
  {
    if id >= 32 then []
    else if id !in types then Section(types, details, id + 1)
    else [Entry(id, types[id])] + ((if id in details then details[id] else []) + Section(types, details, id + 1))
  }

  function Dump(
      before: seq<string>, types: map<int, string>, details: map<int, seq<string>>, after: seq<string>): seq<string>
  {
    before + (["Tokens:"] + (Section(types, details, 0) + after))
  }

  function ListedFrom(types: map<int, string>, id: nat, typ: string): seq<int>
    decreases 32 - id
  {
    if id >= 32 then []
    else if id in types && Trim(types[id]) == typ then [id] + ListedFrom(types, id + 1, typ)
    else ListedFrom(types, id + 1, typ)
  }

  lemma {:induction false} ListedIff(types: map<int, string>, id: nat, typ: string, k: int)
    ensures k in ListedFrom(types, id, typ) <==> id <= k < 32 && k in types && Trim(types[k]) == typ
    decreases 32 - id
  {
    if id < 32 { ListedIff(types, id + 1, typ, k); }
  }

  // ---- Entries ----

  lemma {:induction false} TrimEntry(pre: string, d: string, tail: string)
    requires Blank(pre) && d != "" && !IsSpace(d[0])
    ensures Trim(pre + (d + ([':'] + tail))) == d + ([':'] + TrimRight(tail))
  {
    var line, front := d + ([':'] + tail), d + [':'];
    TrimLeftOf(pre, line);
    assert line == front + tail && line[0] == d[0];
    TrimRightAfter(front, tail);
    assert front + TrimRight(tail) == d + ([':'] + TrimRight(tail));
  }

  /** A signed decimal is read as itself within 64 bits. */
  lemma {:induction false} AtoiNumber(n: nat)
    ensures Atoi(Decimal(n)) == if n <= 9223372036854775807 then Some(n) else None
    ensures Atoi("+" + Decimal(n)) == if n <= 9223372036854775807 then Some(n) else None
    ensures Atoi("-" + Decimal(n)) == if n <= 9223372036854775808 then Some(0 - n as int) else None
  {
    DecimalRoundTrip(n);
    var d := Decimal(n);
    AtoiPlain(d, n);
    AtoiSigned(d, n, '+');
    AtoiSigned(d, n, '-');
  }

  lemma {:induction false} AtoiPlain(d: string, n: nat)
    requires d != "" && (forall c | c in d :: IsDigit(c)) && Digits(d) == Some(n)
    ensures Atoi(d) == if n < 0x8000_0000_0000_0000 then Some(n) else None
  {
    assert d[0] in d;
  }

  lemma {:induction false} AtoiSigned(d: string, n: nat, sign: char)
    requires d != "" && Digits(d) == Some(n) && (sign == '+' || sign == '-')
    ensures Atoi([sign] + d) == if sign == '-' then (if n <= 0x8000_0000_0000_0000 then Some(0 - n as int) else None)
                                else if n < 0x8000_0000_0000_0000 then Some(n) else None
  {
    assert ([sign] + d)[1..] == d;
  }

  /** Nothing, a sign alone, and anything with another character after the first are not numbers. */
  lemma {:induction false} AtoiOther(s: string)
    requires s == "" || s == "+" || s == "-" || exists c :: c in s[1..] && !('0' <= c <= '9')
    ensures Atoi(s) == None
  {
    if s != "" {
      DigitsIff(s);
      DigitsIff(s[1..]);
      assert forall c | c in s[1..] :: c in s;
    }
  }

  lemma {:induction false} DigitsAlone(d: string)
    requires d != "" && forall c | c in d :: IsDigit(c)
    ensures !IsSpace(d[0]) && Trim(d) == d && ':' !in d
  {
    assert d[0] in d && d[|d| - 1] in d;
  }

  /** An entry reads back: its id, exactly when its trimmed type is the one looked for. */
  lemma EntryReads(id: nat, typ: string, wanted: string)
    requires id < 32
    ensures Indented(Entry(id, typ))
    ensures IdOn(Entry(id, typ), wanted) == if Trim(typ) == wanted then Some(id) else None
  {
    var d := Decimal(id);
    DecimalRoundTrip(id);
    AtoiPlain(d, id);
    DigitsAlone(d);
    TrimEntry("  ", d, " " + typ);
    CutOf(d, ':', TrimRight(" " + typ));
    TrimRightOnly(" " + typ);
    assert (" " + typ)[1..] == typ;
  }

  // ---- The scrape finds what the dump says ----

  lemma {:induction false} IdsSkip(front: seq<string>, rest: seq<string>, inTokens: bool, typ: string)
    requires forall l | l in front :: !Heading(l)
    requires inTokens ==> forall l | l in front :: Indented(l) && IdOn(l, typ).None?
    ensures Ids(front + rest, inTokens, typ) == Ids(rest, inTokens, typ)
  {
    if front == [] {
      assert front + rest == rest;
    } else {
      assert front[0] in front;
      IdsSkip(front[1..], rest, inTokens, typ);
      assert (front + rest)[1..] == front[1..] + rest;
    }
  }

  /** After the section: another heading, or the end. */
  lemma IdsEnd(after: seq<string>, typ: string)
    requires after != [] ==> !Indented(after[0])
    requires forall l | l in after :: !Heading(l)
    ensures Ids(after, true, typ) == []
  {
    if after != [] {
      assert after[0] in after;
      IdsSkip(after[1..], [], false, typ);
      assert after[1..] + [] == after[1..];
    }
  }

  /** Lines a token handler adds are indented and do not look like an entry of the type. */
  predicate Innocent(details: map<int, seq<string>>, typ: string) {
    forall id, l | id in details && l in details[id] :: Indented(l) && IdOn(l, typ).None?
  }

  lemma EntryAndDetails(id: nat, name: string, below: seq<string>, others: seq<string>, after: seq<string>, typ: string)
    requires id < 32 && forall l | l in below :: Indented(l) && IdOn(l, typ).None?
    ensures Ids([Entry(id, name)] + (below + others) + after, true, typ)
         == (if Trim(name) == typ then [id] else []) + Ids(others + after, true, typ)
  {
    var lines := [Entry(id, name)] + (below + others) + after;
    assert lines[0] == Entry(id, name) && lines[1..] == below + (others + after);
    EntryReads(id, name, typ);
    IdsSkip(below, others + after, true, typ);
  }

  lemma {:induction false} SectionLists(
      types: map<int, string>, details: map<int, seq<string>>, after: seq<string>, id: nat, typ: string)
    requires Innocent(details, typ)
    requires after != [] ==> !Indented(after[0])
    requires forall l | l in after :: !Heading(l)
    ensures Ids(Section(types, details, id) + after, true, typ) == ListedFrom(types, id, typ)
    decreases 32 - id
  {
    if id >= 32 {
      IdsEnd(after, typ);
      assert [] + after == after;
    } else {
      SectionLists(types, details, after, id + 1, typ);
      if id in types {
        var below := if id in details then details[id] else [];
        EntryAndDetails(id, types[id], below, Section(types, details, id + 1), after, typ);
      }
    }
  }

  /** Over every dump the scrape returns the ids of the wanted type, ascending, and nothing else. */
  lemma DumpLists(
      before: seq<string>, types: map<int, string>, details: map<int, seq<string>>, after: seq<string>, typ: string)
    requires Innocent(details, typ)
    requires forall l | l in before + after :: !Heading(l)
    requires after != [] ==> !Indented(after[0])
    ensures Ids(Dump(before, types, details, after), false, typ) == ListedFrom(types, 0, typ)
  {
    var section := Section(types, details, 0) + after;
    assert forall l | l in before :: l in before + after;
    assert forall l | l in after :: l in before + after;
    IdsSkip(before, ["Tokens:"] + section, false, typ);
    assert Heading("Tokens:");
    assert (["Tokens:"] + section)[1..] == section;
    SectionLists(types, details, after, 0, typ);
  }
}
