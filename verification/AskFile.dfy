/** luks_agent.go: systemd's ask.XXXXXX files. */
module AskFile {
  import opened Wrappers
  import opened Text

  datatype Ask = Ask(socket: string, id: string, message: string, notAfter: nat)

  const BLANK := Ask("", "", "", 0)

  /** The trimmed key and value of a line that assigns one. */
  function Assignment(raw: string): Option<(string, string)> {
    var line := Trim(raw);
    if line == "" || line[0] == '#' || line[0] == '[' then None else
      var (key, value) :- Cut(line, '=');
      Some((Trim(key), Trim(value)))
  }

  /** A line for a key assigns it what follows the first '=', trimmed. */
  lemma AssignmentOf(key: string, value: string)
    requires key != "" && Trimmed(key) && '=' !in key && key[0] != '#' && key[0] != '['
    ensures Assignment(key + "=" + value) == Some((key, Trim(value)))
  {
    var line := key + "=" + value;
    assert line[0] == key[0] && TrimLeft(line) == line;
    TrimRightAfter(key + "=", value);
    assert Trim(line) == key + ("=" + TrimRight(value));
    CutOf(key, '=', TrimRight(value));
    TrimRightOnly(value);
    TrimOf("", key, "");
    assert "" + (key + "") == key;
  }

  /** Blank lines, comments, section headers and lines without '=' assign nothing. */
  lemma NoAssignment(pre: string, line: string)
    requires Blank(pre) && (line == "" || line[0] == '#' || line[0] == '[' || '=' !in pre + line)
    ensures Assignment(pre + line) == None
  {
    TrimLeftOf(pre, line);
    if '=' in Trim(pre + line) {
      TrimRightKeeps(TrimLeft(pre + line), '=');
      TrimLeftKeeps(pre + line, '=');
    }
    CutNone(Trim(pre + line), '=');
    if line != "" && (line[0] == '#' || line[0] == '[') {
      TrimRightAfter([line[0]], line[1..]);
      assert [line[0]] + line[1..] == line;
    }
  }

  type Setting = Option<(string, string)>

  function Settings(lines: seq<string>): (r: seq<Setting>)
    ensures |r| == |lines|
  {
    seq(|lines|, i requires 0 <= i < |lines| => Assignment(lines[i]))
  }

  /** One turn of the scanner loop; None is the unparseable NotAfter. */
  function Apply(req: Ask, a: Setting): Option<Ask> {
    match a
    case None => Some(req)
    case Some((key, value)) =>
      if key == "Socket" then Some(req.(socket := value))
      else if key == "Id" then Some(req.(id := value))
      else if key == "Message" then Some(req.(message := value))
      else if key == "NotAfter" then
        var n :- ParseUint64(value);
        Some(req.(notAfter := n))
      else Some(req)
  }

  function Read(settings: seq<Setting>): Option<Ask> {
    if settings == [] then Some(BLANK) else
      var before :- Read(settings[..|settings| - 1]);
      Apply(before, settings[|settings| - 1])
  }

  /** parseAskFile: the lines the scanner yields and whether it stopped on an error. */
  function Parse(lines: seq<string>, scanFailed: bool): Option<Ask> {
    var req :- Read(Settings(lines));
    if scanFailed || req.socket == "" then None else Some(req)
  }

  method ParseAskFile(lines: seq<string>, scanFailed: bool) returns (r: Option<Ask>)
    ensures r == Parse(lines, scanFailed)
  {
    var req := BLANK;
    ghost var all := Settings(lines);
    for i := 0 to |lines|
      invariant Read(all[..i]) == Some(req)
    {
      assert all[..i + 1][..i] == all[..i];
      var next := Apply(req, Assignment(lines[i]));
      if next.None? {
        FailureStays(all, i + 1);
        return None;
      }
      req := next.value;
    }
    assert all[..|lines|] == all;
    if scanFailed || req.socket == "" {
      return None;
    }
    return Some(req);
  }

  lemma {:induction false} FailureStays(settings: seq<Setting>, n: nat)
    requires n <= |settings| && Read(settings[..n]).None?
    ensures Read(settings).None?
    decreases |settings|
  {
    if n == |settings| {
      assert settings[..n] == settings;
    } else {
      assert settings[..|settings| - 1][..n] == settings[..n];
      FailureStays(settings[..|settings| - 1], n);
    }
  }

  /** The value the last line for this key gives it, empty when there is none. */
  function LastValue(settings: seq<Setting>, key: string): string {
    if settings == [] then "" else
      var a := settings[|settings| - 1];
      if a.Some? && a.value.0 == key then a.value.1 else LastValue(settings[..|settings| - 1], key)
  }

  predicate Sets(a: Setting, key: string) { a.Some? && a.value.0 == key }

  /** Every NotAfter line, not only the last, is a number: a malformed one never reads as "never expires". */
  ghost predicate TimesParse(settings: seq<Setting>) {
    forall a | a in settings && Sets(a, "NotAfter") :: ParseUint64(a.value.1).Some?
  }

  /** Each field holds what the last line for it said. */
  lemma {:induction false} ReadMeaning(settings: seq<Setting>)
    ensures Read(settings).Some? <==> TimesParse(settings)
    ensures Read(settings).Some? ==>
      var req := Read(settings).value;
      && req.socket == LastValue(settings, "Socket")
      && req.id == LastValue(settings, "Id")
      && req.message == LastValue(settings, "Message")
      && (if exists a :: a in settings && Sets(a, "NotAfter")
          then ParseUint64(LastValue(settings, "NotAfter")) == Some(req.notAfter) else req.notAfter == 0)
  {
    if settings != [] {
      var n := |settings| - 1;
      var a := settings[n];
      ReadMeaning(settings[..n]);
      assert settings == settings[..n] + [a];
      if Sets(a, "NotAfter") { assert a in settings; }
    }
  }

  /** A request is usable exactly when the file was read whole, names a socket and every deadline in it parses. */
  lemma ParseIff(lines: seq<string>, scanFailed: bool)
    ensures Parse(lines, scanFailed).Some? <==>
      !scanFailed && TimesParse(Settings(lines)) && LastValue(Settings(lines), "Socket") != ""
    ensures Parse(lines, scanFailed).Some? ==>
      && Parse(lines, scanFailed).value.socket == LastValue(Settings(lines), "Socket")
      && Parse(lines, scanFailed).value.id == LastValue(Settings(lines), "Id")
  {
    ReadMeaning(Settings(lines));
  }

  predicate Expired(a: Ask, nowUsec: nat) { a.notAfter != 0 && nowUsec >= a.notAfter }

  predicate WantsCryptsetup(a: Ask) { HasPrefix(a.id, "cryptsetup") }

  /** The file systemd writes reads back. */
  lemma AskFileReads(socket: string, id: string, n: nat)
    requires socket != "" && Trimmed(socket) && Trimmed(id) && n < 0x1_0000_0000_0000_0000
    ensures Parse(["[Ask]", "Socket=" + socket, "Id=" + id, "NotAfter=" + Decimal(n)], false) ==
      Some(Ask(socket, id, "", n))
  {
    var d := Decimal(n);
    NumberTrimmed(n);
    ParseUint64Iff(n, "");
    SectionHeader();
    LineOf("Socket=", "Socket", socket);
    LineOf("Id=", "Id", id);
    LineOf("NotAfter=", "NotAfter", d);
    SettingsOf("[Ask]", "Socket=" + socket, "Id=" + id, "NotAfter=" + d);
    SettingsRead(socket, id, d, n);
  }

  lemma SectionHeader()
    ensures Assignment("[Ask]") == None
  {
    NoAssignment("", "[Ask]");
    assert "" + "[Ask]" == "[Ask]";
  }

  lemma SettingsOf(a: string, b: string, c: string, d: string)
    ensures Settings([a, b, c, d]) == [Assignment(a), Assignment(b), Assignment(c), Assignment(d)]
  {}

  lemma SettingsRead(socket: string, id: string, d: string, n: nat)
    requires ParseUint64(d) == Some(n)
    ensures Read([None, Some(("Socket", socket)), Some(("Id", id)), Some(("NotAfter", d))]) ==
      Some(Ask(socket, id, "", n))
  {
    var all := [None, Some(("Socket", socket)), Some(("Id", id)), Some(("NotAfter", d))];
    assert all[..3][..2] == all[..2] && all[..2][..1] == all[..1] && all[..1][..0] == [];
    assert Read(all[..1]) == Some(BLANK);
    assert Read(all[..2]) == Some(Ask(socket, "", "", 0));
    assert Read(all[..3]) == Some(Ask(socket, id, "", 0));
  }

  lemma LineOf(front: string, key: string, value: string)
    requires key in ["Socket", "Id", "NotAfter"] && front == key + "=" && Trimmed(value)
    ensures Assignment(front + value) == Some((key, value))
  {
    AssignmentOf(key, value);
    TrimOf("", value, "");
    assert "" + (value + "") == value;
  }

  /** A request expires at its deadline, if it has one, and is for us when its id begins with cryptsetup. */
  lemma Wanted(a: Ask, nowUsec: nat)
    ensures !Expired(a, nowUsec) <==> a.notAfter == 0 || nowUsec < a.notAfter
    ensures WantsCryptsetup(a) <==> "cryptsetup" <= a.id
  {
    PrefixIff(a.id, "cryptsetup");
  }
}
