/**
 * The unlock configuration in a LUKS2 header: written by syncthing-luks-bind, read by luks_agent.go
 * and by read_config in syncthing-socket-initramfs-top.
 *
 * A token is a JSON object. The Go reader decodes it; the two shell scripts match its text, which
 * is modelled as the sequence of its lexemes, so strings stand for themselves: they contain no
 * quotes and no backslashes, which the scripts do not escape either.
 */
module TokenStore {
  import opened Wrappers
  import opened Text
  import LuksDump

  datatype Lexeme = S(s: string) | N(n: nat) | P(c: char) | NullWord

  /** A string, a natural number, null, or anything else, such as a list or a nested object. */
  datatype Value = Str(s: string) | Num(n: nat) | Null | Other(text: seq<Lexeme>)
  datatype Field = Field(key: string, value: Value)
  type Token = seq<Field>
  type Slots = map<int, Token>

  const OURS := "syncthing-socket"

  function LexValue(v: Value): seq<Lexeme> {
    match v
    case Str(s) => [S(s)]
    case Num(n) => [N(n)]
    case Null => [NullWord]
    case Other(text) => text
  }

  function Comma(fields: seq<Field>): seq<Lexeme> { if |fields| > 1 then [P(',')] else [] }

  function LexFields(fields: seq<Field>): seq<Lexeme> {
    if fields == [] then [P('}')] else
      [S(fields[0].key), P(':')] + (LexValue(fields[0].value) + (Comma(fields) + LexFields(fields[1..])))
  }

  /** `cryptsetup token export`: one line of JSON. */
  function Lex(t: Token): seq<Lexeme> { [P('{')] + LexFields(t) }

  // ---- The shell's view ----

  /** One lexeme, and another somewhere after it. */
  predicate Mentions(text: seq<Lexeme>, first: Lexeme, second: Lexeme) {
    text != [] && ((text[0] == first && second in text[1..]) || Mentions(text[1..], first, second))
  }

  /** The glob of both scripts: "type", and anywhere later "syncthing-socket". */
  predicate Matches(t: Token) { Mentions(Lex(t), S("type"), S(OURS)) }

  /** The sed script that cuts out the string after "key" and a colon, at the last such place: its .* is greedy. */
  function SedString(text: seq<Lexeme>, key: string): Option<string> {
    if text == [] then None else
      var later := SedString(text[1..], key);
      if later.Some? then later
      else if |text| > 2 && text[0] == S(key) && text[1] == P(':') && text[2].S? then Some(text[2].s)
      else None
  }

  /** The same for a possibly empty run of digits. */
  function SedNumber(text: seq<Lexeme>, key: string): Option<string> {
    if text == [] then None else
      var later := SedNumber(text[1..], key);
      if later.Some? then later
      else if |text| > 1 && text[0] == S(key) && text[1] == P(':') then
        Some(if |text| > 2 && text[2].N? then Decimal(text[2].n) else "")
      else None
  }

  function OrEmpty(v: Option<string>): string { if v.Some? then v.value else "" }

  datatype Config = Config(seed: string, holder: string, role: string)

  /** What read_config sets from one matching token of version 1. */
  function ShellFields(t: Token): Config {
    var role := OrEmpty(SedString(Lex(t), "unlock_role"));
    Config(OrEmpty(SedString(Lex(t), "p2p_key_seed")), OrEmpty(SedString(Lex(t), "key_holder_device_id")),
           if role != "" then role else "client")
  }

  predicate ShellTakes(t: Token) { Matches(t) && OrEmpty(SedNumber(Lex(t), "version")) == "1" }

  /** read_config without a luks.conf: the first token taken settles it, with or without a seed. */
  function ShellRead(slots: Slots, id: nat): Option<Config>
    decreases 32 - id
  {
    if id >= 32 then None
    else if id in slots && ShellTakes(slots[id]) then
      if ShellFields(slots[id]).seed != "" then Some(ShellFields(slots[id])) else None
    else ShellRead(slots, id + 1)
  }

  method ReadConfig(slots: Slots) returns (r: Option<Config>)
    ensures r == ShellRead(slots, 0)
  {
    var c := Config("", "", "client");
    var id := 0;
    while id < 32
      invariant 0 <= id <= 32 && c.seed == ""
      invariant ShellRead(slots, 0) == ShellRead(slots, id)
    {
      if id in slots && Matches(slots[id]) {
        if OrEmpty(SedNumber(Lex(slots[id]), "version")) != "1" {
          id := id + 1;
          continue;
        }
        c := ShellFields(slots[id]);
        break;
      }
      id := id + 1;
    }
    r := if c.seed != "" then Some(c) else None;
  }

  // ---- Go's view ----

  /** The value of a key; cryptsetup keeps each key once. */
  function Get(t: Token, key: string): Option<Value> {
    if t == [] then None
    else if t[0].key == key then Some(t[0].value)
    else Get(t[1..], key)
  }

  /** Simple case folding onto the lower-case ASCII letters. */
  function FoldChar(c: char): char {
    if 'A' <= c <= 'Z' then (c as int + 32) as char
    else if c as int == 0x17F then 's'
    else if c as int == 0x212A then 'k'
    else c
  }

  function Fold(key: string): string { seq(|key|, i requires 0 <= i < |key| => FoldChar(key[i])) }

  /** encoding/json: keys match regardless of case, a later one overrides an earlier one, null changes nothing. */
  function Decoded(t: Token, key: string): Option<Value> {
    if t == [] then None else
      var later := Decoded(t[1..], key);
      if later.Some? then later
      else if Fold(t[0].key) == key && !t[0].value.Null? then Some(t[0].value) else None
  }

  function StringOf(v: Option<Value>): string { if v.Some? && v.value.Str? then v.value.s else "" }

  /** A value that does not decode into the field of its name. */
  predicate Mistyped(f: Field) {
    var key := Fold(f.key);
    if key == "version" then f.value.Str? || f.value.Other?
    else
      && key in ["type", "p2p_key_seed", "key_holder_device_id", "unlock_role"]
      && (f.value.Num? || f.value.Other?)
  }

  datatype Parsed = Unusable | NotOurs | Ours(config: Config)

  /** parseLUKSToken on the decoded fields; an absent string is empty. */
  function Assess(typ: string, version: Option<Value>, seed: string, holder: string, role: string): Parsed {
    if typ != OURS then NotOurs
    else if version != Some(Num(1)) then Unusable
    else if seed == "" then Unusable
    else
      var role := if role == "" then "client" else role;
      if role != "client" && role != "server" then Unusable else Ours(Config(seed, holder, role))
  }

  function DecodedString(t: Token, key: string): string { StringOf(Decoded(t, key)) }

  /** parseLUKSToken */
  function ParseToken(t: Token): Parsed {
    if exists f | f in t :: Mistyped(f) then Unusable
    else Assess(DecodedString(t, "type"), Decoded(t, "version"), DecodedString(t, "p2p_key_seed"),
                DecodedString(t, "key_holder_device_id"), DecodedString(t, "unlock_role"))
  }

  /** What luksDump prints as the type of each token. */
  function Types(slots: Slots): map<int, string> { map id | id in slots :: StringOf(Get(slots[id], "type")) }

  predicate Usable(slots: Slots, id: int) { id in slots && ParseToken(slots[id]).Ours? }

  function ScanIds(slots: Slots, ids: seq<int>): Option<Config> {
    if ids == [] then None
    else if Usable(slots, ids[0]) then Some(ParseToken(slots[ids[0]]).config)
    else ScanIds(slots, ids[1..])
  }

  /** A block device, as `cryptsetup luksDump` and `token export` show it. */
  datatype Disk = NotLuks | Luks(dump: seq<string>, slots: Slots)

  function ScanDisk(d: Disk): Option<Config> {
    if d.Luks? then ScanIds(d.slots, LuksDump.Ids(d.dump, false, OURS)) else None
  }

  /** The first usable token of the first disk that has one. */
  function FirstConfig(disks: seq<Disk>, n: nat): Option<(nat, Config)>
    requires n <= |disks|
    decreases |disks| - n
  {
    if n == |disks| then None else
      var found := ScanDisk(disks[n]);
      if found.Some? then Some((n, found.value)) else FirstConfig(disks, n + 1)
  }

  /** scanDevicesForConfig */
  method ScanDevicesForConfig(disks: seq<Disk>) returns (r: Option<(nat, Config)>)
    ensures r == FirstConfig(disks, 0)
  {
    for n := 0 to |disks|
      invariant FirstConfig(disks, 0) == FirstConfig(disks, n)
    {
      if disks[n].NotLuks? {
        continue;
      }
      var slots := disks[n].slots;
      var ids := LuksDump.TokenIdsFromDump(disks[n].dump, OURS);
      for i := 0 to |ids|
        invariant ScanIds(slots, ids) == ScanIds(slots, ids[i..])
      {
        assert ids[i..][1..] == ids[i + 1..];
        if ids[i] !in slots {
          continue;
        }
        var parsed := ParseToken(slots[ids[i]]);
        if parsed.Ours? {
          return Some((n, parsed.config));
        }
      }
    }
    return None;
  }

  // ---- The writer ----

  function OurToken(seed: string, holder: string, role: string): Token {
    [Field("type", Str(OURS)), Field("keyslots", Other([P('['), P(']')])), Field("version", Num(1)),
     Field("p2p_key_seed", Str(seed)), Field("key_holder_device_id", Str(holder)), Field("unlock_role", Str(role))]
  }

  /** What the removal loop leaves when it has passed the ids below a bound. */
  function KeptBelow(slots: Slots, bound: nat): Slots {
    map id | id in slots && (!(0 <= id < bound) || !Matches(slots[id])) :: slots[id]
  }

  function Kept(slots: Slots): Slots { KeptBelow(slots, 32) }

  /** `cryptsetup token import` takes the lowest free id. */
  function FreeFrom(slots: Slots, id: nat): Option<nat>
    decreases 32 - id
  {
    if id >= 32 then None else if id !in slots then Some(id) else FreeFrom(slots, id + 1)
  }

  /** The first id at which the removal loop meets a token it has to remove and `cryptsetup token remove` fails. */
  function StopFrom(slots: Slots, stuck: set<int>, id: nat): (r: Option<nat>)
    ensures r.Some? ==> id <= r.value < 32
    decreases 32 - id
  {
    if id >= 32 then None
    else if id in slots && Matches(slots[id]) && id in stuck then Some(id)
    else StopFrom(slots, stuck, id + 1)
  }

  /** What is left is as it was: all but the matching ids below the bound, and all that nowhere has our name. */
  ghost predicate Spared(before: Slots, after: Slots, bound: nat) {
    && (forall id :: id in after <==> id in before && !(0 <= id < bound && Matches(before[id])))
    && (forall id | id in after :: after[id] == before[id])
    && (forall id | id in before && S("syncthing-socket") !in Lex(before[id]) :: id in after)
  }

  datatype BindResult = Usage | BadRole | NotLuks2 | Stopped(id: nat) | NotImported | Bound(id: nat)

  function BindRole(argument: string): string { if argument == "" then "client" else argument }

  /** What the cryptsetup commands do: is the device LUKS2, which tokens cannot be removed, does the import fail. */
  datatype Cryptsetup = Cryptsetup(luks2: bool, stuck: set<int>, importFails: bool)

  /** A LUKS2 device and its token slots. */
  class Device {
    var slots: Slots

    constructor (slots: Slots)
      ensures this.slots == slots
    {
      this.slots := slots;
    }

    method RemoveOurs(stuck: set<int>) returns (stop: Option<nat>)
      modifies this
      ensures stop == StopFrom(old(slots), stuck, 0)
      ensures slots == KeptBelow(old(slots), if stop.Some? then stop.value else 32)
      ensures Spared(old(slots), slots, if stop.Some? then stop.value else 32)
    {
      var id := 0;
      while id < 32
        invariant 0 <= id <= 32 && slots == KeptBelow(old(slots), id)
        invariant StopFrom(old(slots), stuck, 0) == StopFrom(old(slots), stuck, id)
      {
        if id in slots && Matches(slots[id]) {
          if id in stuck {
            KeepsUnnamed(old(slots), slots, id);
            return Some(id);
          }
          slots := slots - {id};
        }
        id := id + 1;
      }
      KeepsUnnamed(old(slots), slots, 32);
      return None;
    }

    method Import(token: Token, fails: bool) returns (id: Option<nat>)
      modifies this
      ensures id == if fails then None else FreeFrom(old(slots), 0)
      ensures slots == if id.Some? then old(slots)[id.value := token] else old(slots)
    {
      var free := 0;
      while free < 32 && free in slots
        invariant 0 <= free <= 32
        invariant FreeFrom(slots, 0) == FreeFrom(slots, free)
      {
        free := free + 1;
      }
      if fails || free == 32 {
        return None;
      }
      slots := slots[free := token];
      return Some(free);
    }

    /** syncthing-luks-bind; whatever fails, every token that does not match is still there, unchanged. */
    method Bind(seed: string, holder: string, roleArgument: string, c: Cryptsetup) returns (r: BindResult)
      modifies this
      ensures var role := if roleArgument == "" then "client" else roleArgument;
        if seed == "" then r == Usage && slots == old(slots)
        else if role != "client" && role != "server" then r == BadRole && slots == old(slots)
        else if !c.luks2 then r == NotLuks2 && slots == old(slots)
        else match StopFrom(old(slots), c.stuck, 0)
          case Some(id) => r == Stopped(id) && slots == KeptBelow(old(slots), id)
          case None =>
            var free := FreeFrom(Kept(old(slots)), 0);
            if c.importFails || free == None then r == NotImported && slots == Kept(old(slots))
            else r == Bound(free.value) && slots == Kept(old(slots))[free.value := OurToken(seed, holder, role)]
      ensures forall id | id in Kept(old(slots)) :: id in slots && slots[id] == old(slots)[id]
      ensures forall id | id in old(slots) && S("syncthing-socket") !in Lex(old(slots)[id]) ::
        id in slots && slots[id] == old(slots)[id]
    {
      var role := BindRole(roleArgument);
      if seed == "" {
        return Usage;
      }
      if role != "client" && role != "server" {
        return BadRole;
      }
      if !c.luks2 {
        return NotLuks2;
      }
      var stop := RemoveOurs(c.stuck);
      if stop.Some? {
        return Stopped(stop.value);
      }
      FirstFree(slots, 0);
      var id := Import(OurToken(seed, holder, role), c.importFails);
      r := if id.Some? then Bound(id.value) else NotImported;
    }
  }

  // ---- The text of a token ----

  /** How deep in brackets one is after a lexeme. */
  function Deeper(l: Lexeme, depth: nat): nat {
    if l == P('[') || l == P('{') then depth + 1
    else if (l == P(']') || l == P('}')) && depth > 0 then depth - 1
    else depth
  }

  /** The length of the value a text starts with: one lexeme, or all up to the bracket that closes the first. */
  function Span(text: seq<Lexeme>, depth: nat): (n: nat)
    ensures n <= |text| && (text != [] ==> n > 0)
  {
    if text == [] then 0
    else if Deeper(text[0], depth) == 0 then 1
    else 1 + Span(text[1..], Deeper(text[0], depth))
  }

  predicate Closes(text: seq<Lexeme>, depth: nat) {
    text != [] && (if Deeper(text[0], depth) == 0 then |text| == 1 else Closes(text[1..], Deeper(text[0], depth)))
  }

  function ReadValue(text: seq<Lexeme>): Value
    requires text != []
  {
    match text[0]
    case S(s) => Str(s)
    case N(n) => Num(n)
    case NullWord => Null
    case P(_) => Other(text)
  }

  /** A reader of JSON objects: keys and values, a colon inside each field and a comma between two. */
  function ReadFields(text: seq<Lexeme>): Option<Token> {
    if text == [P('}')] then Some([])
    else if |text| < 3 || !text[0].S? || text[1] != P(':') then None
    else
      var n := Span(text[2..], 0);
      var field := Field(text[0].s, ReadValue(text[2..2 + n]));
      var rest := text[2 + n..];
      if rest == [P('}')] then Some([field])
      else if |rest| < 2 || rest[0] != P(',') || !rest[1].S? then None
      else
        var others :- ReadFields(rest[1..]);
        Some([field] + others)
  }

  function ReadObject(text: seq<Lexeme>): Option<Token> {
    if text != [] && text[0] == P('{') then ReadFields(text[1..]) else None
  }

  /** A list or an object, closed by the bracket at its end. */
  predicate Bracketed(v: Value) { v.Other? ==> v.text != [] && v.text[0] in [P('['), P('{')] && Closes(v.text, 0) }

  lemma {:induction false} SpanOf(text: seq<Lexeme>, rest: seq<Lexeme>, depth: nat)
    requires Closes(text, depth)
    ensures Span(text + rest, depth) == |text|
  {
    if Deeper(text[0], depth) != 0 {
      SpanOf(text[1..], rest, Deeper(text[0], depth));
      assert (text + rest)[1..] == text[1..] + rest;
    }
  }

  lemma {:induction false} FieldReads(k: string, v: Value, rest: seq<Lexeme>)
    requires Bracketed(v)
    ensures var text := [S(k), P(':')] + (LexValue(v) + rest);
      && Span(text[2..], 0) == |LexValue(v)| && text[2..2 + |LexValue(v)|] == LexValue(v)
      && text[2 + |LexValue(v)|..] == rest && ReadValue(LexValue(v)) == v
  {
    var text := [S(k), P(':')] + (LexValue(v) + rest);
    assert text[2..] == LexValue(v) + rest;
    SpanOf(LexValue(v), rest, 0);
  }

  lemma {:induction false} LastRead(k: string, v: Value)
    requires Bracketed(v)
    ensures ReadFields([S(k), P(':')] + (LexValue(v) + [P('}')])) == Some([Field(k, v)])
  {
    FieldReads(k, v, [P('}')]);
  }

  lemma {:induction false} NextRead(k: string, v: Value, others: seq<Lexeme>)
    requires Bracketed(v) && |others| > 0 && others[0].S? && ReadFields(others).Some?
    ensures ReadFields([S(k), P(':')] + (LexValue(v) + ([P(',')] + others))) ==
      Some([Field(k, v)] + ReadFields(others).value)
  {
    FieldReads(k, v, [P(',')] + others);
    assert ([P(',')] + others)[1..] == others;
  }

  lemma {:induction false} FieldsRead(t: Token)
    requires forall f | f in t :: Bracketed(f.value)
    ensures ReadFields(LexFields(t)) == Some(t)
  {
    if t != [] {
      assert t[0] in t;
      FieldsRead(t[1..]);
      if |t| == 1 {
        assert Comma(t) + LexFields(t[1..]) == [P('}')] && t == [t[0]];
        LastRead(t[0].key, t[0].value);
      } else {
        NextRead(t[0].key, t[0].value, LexFields(t[1..]));
        assert t == [t[0]] + t[1..];
      }
    }
  }

  /** The exported text is JSON that reads back to the token. */
  lemma TextReadsBack(t: Token)
    requires forall f | f in t :: Bracketed(f.value)
    ensures ReadObject(Lex(t)) == Some(t)
  {
    FieldsRead(t);
    assert Lex(t)[1..] == LexFields(t);
  }

  lemma {:induction false} MentionsIff(text: seq<Lexeme>, first: Lexeme, second: Lexeme)
    ensures Mentions(text, first, second) <==>
      exists i, j :: 0 <= i < j < |text| && text[i] == first && text[j] == second
  {
    if text != [] {
      MentionsIff(text[1..], first, second);
      if text[0] == first && second in text[1..] {
        var j :| 0 <= j < |text[1..]| && text[1..][j] == second;
        assert text[j + 1] == second;
      } else if Mentions(text[1..], first, second) {
        var i, j :| 0 <= i < j < |text[1..]| && text[1..][i] == first && text[1..][j] == second;
        assert text[i + 1] == first && text[j + 1] == second;
      }
      forall i, j | 0 <= i < j < |text| && text[i] == first && text[j] == second ensures Mentions(text, first, second) {
        assert text[j] == text[1..][j - 1];
        if i > 0 {
          assert text[1..][i - 1] == first;
        }
      }
    }
  }

  /** A token is matched exactly when its text has the word type and, later, our name. */
  lemma MatchesIff(t: Token)
    ensures Matches(t) <==>
      exists i, j :: 0 <= i < j < |Lex(t)| && Lex(t)[i] == S("type") && Lex(t)[j] == S("syncthing-socket")
  {
    MentionsIff(Lex(t), S("type"), S("syncthing-socket"));
  }

  lemma KeepsUnnamed(before: Slots, after: Slots, bound: nat)
    requires after == KeptBelow(before, bound)
    ensures Spared(before, after, bound)
  {
    forall id | id in before && S("syncthing-socket") !in Lex(before[id]) ensures !Matches(before[id]) {
      MatchesIff(before[id]);
    }
  }

  /** A string after a key and a colon. */
  ghost predicate StringAt(text: seq<Lexeme>, key: string, i: nat) {
    i + 2 < |text| && text[i] == S(key) && text[i + 1] == P(':') && text[i + 2].S?
  }

  ghost predicate KeyAt(text: seq<Lexeme>, key: string, i: nat) {
    i + 1 < |text| && text[i] == S(key) && text[i + 1] == P(':')
  }

  /** sed cuts at the last place that fits. */
  lemma {:induction false} SedStringLast(text: seq<Lexeme>, key: string)
    ensures match SedString(text, key)
      case None => forall i: nat :: !StringAt(text, key, i)
      case Some(v) => exists i: nat ::
        StringAt(text, key, i) && text[i + 2] == S(v) && forall j: nat | j > i :: !StringAt(text, key, j)
  {
    if text != [] {
      SedStringLast(text[1..], key);
      assert forall i: nat :: StringAt(text[1..], key, i) <==> StringAt(text, key, i + 1);
      if SedString(text[1..], key).Some? {
        var i: nat :| StringAt(text[1..], key, i) && text[1..][i + 2] == S(SedString(text, key).value) &&
          forall j: nat | j > i :: !StringAt(text[1..], key, j);
        assert StringAt(text, key, i + 1);
        assert forall j: nat | j > i + 1 :: StringAt(text, key, j) ==> StringAt(text[1..], key, j - 1);
      } else {
        assert forall j: nat | j > 0 :: StringAt(text, key, j) ==> StringAt(text[1..], key, j - 1);
        if SedString(text, key).Some? {
          assert StringAt(text, key, 0) && text[0 + 2] == S(SedString(text, key).value);
        }
      }
    }
  }

  lemma {:induction false} SedNumberLast(text: seq<Lexeme>, key: string)
    ensures match SedNumber(text, key)
      case None => forall i: nat :: !KeyAt(text, key, i)
      case Some(v) => exists i: nat ::
        && KeyAt(text, key, i) && (forall j: nat | j > i :: !KeyAt(text, key, j))
        && v == if i + 2 < |text| && text[i + 2].N? then Decimal(text[i + 2].n) else ""
  {
    if text != [] {
      SedNumberLast(text[1..], key);
      assert forall i: nat :: KeyAt(text[1..], key, i) <==> KeyAt(text, key, i + 1);
      if SedNumber(text[1..], key).Some? {
        var i: nat :| KeyAt(text[1..], key, i) && (forall j: nat | j > i :: !KeyAt(text[1..], key, j)) &&
          SedNumber(text, key).value ==
            if i + 2 < |text[1..]| && text[1..][i + 2].N? then Decimal(text[1..][i + 2].n) else "";
        assert KeyAt(text, key, i + 1);
        assert forall j: nat | j > i + 1 :: KeyAt(text, key, j) ==> KeyAt(text[1..], key, j - 1);
      } else {
        assert forall j: nat | j > 0 :: KeyAt(text, key, j) ==> KeyAt(text[1..], key, j - 1);
        if SedNumber(text, key).Some? {
          assert KeyAt(text, key, 0);
        }
      }
    }
  }

  // ---- What the shell settles on ----

  /** A matching token of version 1. */
  ghost predicate Taken(slots: Slots, id: int) {
    0 <= id < 32 && id in slots && Matches(slots[id]) && SedNumber(Lex(slots[id]), "version") == Some("1")
  }

  ghost predicate FirstTaken(slots: Slots, from: nat, id: int) {
    from <= id && Taken(slots, id) && forall j | from <= j < id :: !Taken(slots, j)
  }

  /** The fields sed finds in a text; a role that is absent or empty is client. */
  ghost predicate Says(text: seq<Lexeme>, c: Config) {
    var holder, role := SedString(text, "key_holder_device_id"), SedString(text, "unlock_role");
    && (SedString(text, "p2p_key_seed") == Some(c.seed) || (SedString(text, "p2p_key_seed") == None && c.seed == ""))
    && (holder == Some(c.holder) || (holder == None && c.holder == ""))
    && (if role == None || role == Some("") then c.role == "client" else role == Some(c.role))
  }

  /** read_config comes back with what the first matching token of version 1 says, if that has a seed. */
  lemma {:induction false} ShellReadsFirst(slots: Slots, from: nat)
    ensures match ShellRead(slots, from)
      case Some(c) => c.seed != "" && exists id :: FirstTaken(slots, from, id) && Says(Lex(slots[id]), c)
      case None => forall id, c | FirstTaken(slots, from, id) && Says(Lex(slots[id]), c) :: c.seed == ""
    decreases 32 - from
  {
    if from < 32 {
      if from in slots && ShellTakes(slots[from]) {
        assert FirstTaken(slots, from, from) && Says(Lex(slots[from]), ShellFields(slots[from]));
        assert forall id | FirstTaken(slots, from, id) :: id == from;
      } else {
        ShellReadsFirst(slots, from + 1);
        assert !Taken(slots, from);
        assert forall id :: FirstTaken(slots, from, id) <==> FirstTaken(slots, from + 1, id);
      }
    }
  }

  // ---- What Go decodes ----

  /** A letter of a lower-case key, its capital, the long s or the Kelvin sign. */
  predicate SameLetter(c: char, letter: char) {
    || c == letter
    || ('a' <= letter <= 'z' && c as int == letter as int - 32)
    || (letter == 's' && c as int == 383)
    || (letter == 'k' && c as int == 8490)
  }

  lemma FoldIff(name: string, key: string)
    requires LowerCase(key)
    ensures Fold(name) == key <==> |name| == |key| && forall i | 0 <= i < |key| :: SameLetter(name[i], key[i])
  {
    forall i | 0 <= i < |key| && i < |name| ensures Fold(name)[i] == key[i] <==> SameLetter(name[i], key[i]) {
      assert key[i] in key;
    }
  }

  /** The last field of the name that is not null. */
  lemma {:induction false} DecodedIsLast(t: Token, key: string)
    ensures match Decoded(t, key)
      case None => forall i | 0 <= i < |t| && Fold(t[i].key) == key :: t[i].value.Null?
      case Some(v) => !v.Null? && exists i ::
        && 0 <= i < |t| && Fold(t[i].key) == key && t[i].value == v
        && forall j | i < j < |t| && Fold(t[j].key) == key :: t[j].value.Null?
  {
    if t != [] {
      var rest := t[1..];
      DecodedIsLast(rest, key);
      assert forall i | 0 < i < |t| :: t[i] == rest[i - 1];
      if Decoded(rest, key).Some? {
        var i :| 0 <= i < |rest| && Fold(rest[i].key) == key && rest[i].value == Decoded(rest, key).value &&
          forall j | i < j < |rest| && Fold(rest[j].key) == key :: rest[j].value.Null?;
        assert t[i + 1] == rest[i];
      } else if Decoded(t, key).Some? {
        assert t[0].value == Decoded(t, key).value;
      }
    }
  }

  /** Every field that has a place in the configuration is of its type, or null. */
  ghost predicate WellTyped(t: Token) {
    && (forall f | f in t && Fold(f.key) == "version" :: f.value.Num? || f.value.Null?)
    && forall f | f in t &&
         Fold(f.key) in {"type", "p2p_key_seed", "key_holder_device_id", "unlock_role"} :: f.value.Str? || f.value.Null?
  }

  lemma WellTypedIff(t: Token)
    ensures WellTyped(t) <==> !exists f | f in t :: Mistyped(f)
  {
    assert |"version"| == 7 && |"type"| == 4 && |"p2p_key_seed"| == 12 && |"key_holder_device_id"| == 20;
    assert |"unlock_role"| == 11;
  }

  /** The tokens Go takes, and what it takes from them. */
  lemma ParseIff(t: Token, c: Config)
    ensures ParseToken(t) == Ours(c) <==>
      && WellTyped(t) && Decoded(t, "type") == Some(Str("syncthing-socket")) && Decoded(t, "version") == Some(Num(1))
      && Decoded(t, "p2p_key_seed") == Some(Str(c.seed)) && c.seed != ""
      && Decoded(t, "key_holder_device_id") in {None, Some(Str(c.holder))}
      && (Decoded(t, "key_holder_device_id") == None ==> c.holder == "")
      && (c.role == "client" || c.role == "server")
      && (Decoded(t, "unlock_role") == Some(Str(c.role)) ||
          (Decoded(t, "unlock_role") in {None, Some(Str(""))} && c.role == "client"))
  {
    WellTypedIff(t);
    if WellTyped(t) {
      StringOrAbsent(t, "type");
      StringOrAbsent(t, "p2p_key_seed");
      StringOrAbsent(t, "key_holder_device_id");
      StringOrAbsent(t, "unlock_role");
    }
  }

  lemma StringOrAbsent(t: Token, key: string)
    requires WellTyped(t) && key in {"type", "p2p_key_seed", "key_holder_device_id", "unlock_role"}
    ensures Decoded(t, key) == None || Decoded(t, key).value.Str?
  {
    DecodedIsLast(t, key);
    if Decoded(t, key).Some? {
      var i :| 0 <= i < |t| && Fold(t[i].key) == key && t[i].value == Decoded(t, key).value;
      assert t[i] in t;
    }
  }

  // ---- A token Go accepts is one the shell matches ----

  lemma {:induction false} MentionsAfter(front: seq<Lexeme>, rest: seq<Lexeme>, first: Lexeme, second: Lexeme)
    requires Mentions(rest, first, second)
    ensures Mentions(front + rest, first, second)
  {
    if front == [] {
      assert front + rest == rest;
    } else {
      MentionsAfter(front[1..], rest, first, second);
      assert (front + rest)[1..] == front[1..] + rest;
    }
  }

  /** The lexemes of the first field and of the others. */
  function FirstLexemes(t: Token): seq<Lexeme>
    requires t != []
  {
    [S(t[0].key), P(':')] + LexValue(t[0].value) + Comma(t)
  }

  lemma LexSplit(t: Token)
    requires t != []
    ensures LexFields(t) == FirstLexemes(t) + LexFields(t[1..])
  {}

  lemma {:induction false} DecodedOccurs(t: Token, key: string, v: string)
    requires Decoded(t, key) == Some(Str(v))
    ensures S(v) in LexFields(t)
  {
    LexSplit(t);
    if Decoded(t[1..], key).Some? {
      DecodedOccurs(t[1..], key, v);
    } else {
      assert FirstLexemes(t)[2] == S(v);
    }
  }

  lemma {:induction false} PresentDecodes(t: Token, key: string)
    requires Get(t, key).Some? && Get(t, key).value.Str? && Fold(key) == key
    ensures Decoded(t, key).Some?
  {
    if t[0].key != key { PresentDecodes(t[1..], key); }
  }

  lemma {:induction false} DecodedIsMentioned(t: Token, key: string, v: string)
    requires Get(t, key).Some? && Get(t, key).value.Str? && Fold(key) == key
    requires Decoded(t, key) == Some(Str(v))
    ensures Mentions(LexFields(t), S(key), S(v))
  {
    var rest := LexFields(t)[1..];
    LexSplit(t);
    if t[0].key != key {
      PresentDecodes(t[1..], key);
      DecodedIsMentioned(t[1..], key, v);
      MentionsAfter(FirstLexemes(t), LexFields(t[1..]), S(key), S(v));
    } else if Decoded(t[1..], key).Some? {
      DecodedOccurs(t[1..], key, v);
      assert rest == FirstLexemes(t)[1..] + LexFields(t[1..]);
    } else {
      assert rest[1] == S(v);
    }
  }

  lemma {:induction false} GetIsMentioned(t: Token, key: string, v: string)
    requires Get(t, key) == Some(Str(v))
    ensures Mentions(LexFields(t), S(key), S(v))
  {
    LexSplit(t);
    if t[0].key != key {
      GetIsMentioned(t[1..], key, v);
      MentionsAfter(FirstLexemes(t), LexFields(t[1..]), S(key), S(v));
    } else {
      assert LexFields(t)[1..][1] == S(v);
    }
  }

  /** A token of our type, or one luksDump lists as ours and Go takes, is removed by binding. */
  lemma OursMatches(t: Token)
    requires Get(t, "type") == Some(Str(OURS)) || (Trim(StringOf(Get(t, "type"))) == OURS && ParseToken(t).Ours?)
    ensures Matches(t)
  {
    if Get(t, "type") == Some(Str(OURS)) {
      GetIsMentioned(t, "type", OURS);
    } else {
      DecodedIsMentioned(t, "type", OURS);
    }
    MentionsAfter([P('{')], LexFields(t), S("type"), S(OURS));
  }

  // ---- On plain tokens sed finds what the fields say ----

  function LastString(t: Token, key: string): Option<string> {
    if t == [] then None else
      var later := LastString(t[1..], key);
      if later.Some? then later
      else if t[0].key == key && t[0].value.Str? then Some(t[0].value.s) else None
  }

  function LastNumber(t: Token, key: string): Option<string> {
    if t == [] then None else
      var later := LastNumber(t[1..], key);
      if later.Some? then later
      else if t[0].key == key then Some(if t[0].value.Num? then Decimal(t[0].value.n) else "") else None
  }

  /** Lists and objects that hold no strings. */
  predicate Plain(v: Value) {
    v.Other? ==> v.text != [] && !v.text[0].N? && forall l | l in v.text :: !l.S?
  }

  lemma {:induction false} SedSkips(front: seq<Lexeme>, rest: seq<Lexeme>, key: string)
    requires forall l | l in front :: !l.S?
    ensures SedString(front + rest, key) == SedString(rest, key)
    ensures SedNumber(front + rest, key) == SedNumber(rest, key)
  {
    if front == [] {
      assert front + rest == rest;
    } else {
      SedSkips(front[1..], rest, key);
      assert (front + rest)[1..] == front[1..] + rest;
    }
  }

  /** A value followed by a comma or a brace is never taken for a key. */
  lemma SedSkipsValue(v: Value, rest: seq<Lexeme>, key: string)
    requires Plain(v)
    requires rest != [] && rest[0] != P(':')
    ensures SedString(LexValue(v) + rest, key) == SedString(rest, key)
    ensures SedNumber(LexValue(v) + rest, key) == SedNumber(rest, key)
  {
    if v.Str? {
      assert ([S(v.s)] + rest)[1..] == rest;
    } else {
      SedSkips(LexValue(v), rest, key);
    }
  }

  lemma SedField(k: string, v: Value, rest: seq<Lexeme>, key: string)
    requires Plain(v)
    ensures var text := [S(k), P(':')] + (LexValue(v) + rest);
      var later, laterNumber := SedString(LexValue(v) + rest, key), SedNumber(LexValue(v) + rest, key);
      && SedString(text, key) == (if later.Some? then later else if k == key && v.Str? then Some(v.s) else None)
      && SedNumber(text, key) == (if laterNumber.Some? then laterNumber
                                  else if k == key then Some(if v.Num? then Decimal(v.n) else "") else None)
  {
    var tail := LexValue(v) + rest;
    var text := [S(k), P(':')] + tail;
    assert text[1..] == [P(':')] + tail && ([P(':')] + tail)[1..] == tail;
    assert text[2] == LexValue(v)[0];
    assert v.Other? ==> v.text[0] in v.text;
  }

  lemma {:induction false} SedReadsFields(t: Token, key: string)
    requires forall f | f in t :: Plain(f.value)
    ensures SedString(LexFields(t), key) == LastString(t, key)
    ensures SedNumber(LexFields(t), key) == LastNumber(t, key)
  {
    if t != [] {
      var rest := Comma(t) + LexFields(t[1..]);
      assert t[0] in t;
      SedReadsFields(t[1..], key);
      SedSkips(Comma(t), LexFields(t[1..]), key);
      SedSkipsValue(t[0].value, rest, key);
      SedField(t[0].key, t[0].value, rest, key);
    } else {
      SedSkips([P('}')], [], key);
      assert [P('}')] + [] == [P('}')];
    }
  }

  lemma SedReads(t: Token, key: string)
    requires forall f | f in t :: Plain(f.value)
    ensures SedString(Lex(t), key) == LastString(t, key)
    ensures SedNumber(Lex(t), key) == LastNumber(t, key)
  {
    SedReadsFields(t, key);
    SedSkips([P('{')], LexFields(t), key);
  }

  // ---- The bound token ----

  /** Keys told apart by their length alone, and not changed by folding. */
  predicate Apart(t: Token) {
    && (forall f | f in t :: Fold(f.key) == f.key)
    && forall i, j | 0 <= i < j < |t| :: |t[i].key| != |t[j].key|
  }

  lemma {:induction false} Absent(t: Token, key: string)
    requires forall f | f in t :: |f.key| != |key|
    ensures Get(t, key) == None && Decoded(t, key) == None
    ensures LastString(t, key) == None && LastNumber(t, key) == None
  {
    if t != [] {
      assert t[0] in t && |Fold(t[0].key)| == |t[0].key|;
      Absent(t[1..], key);
    }
  }

  lemma {:induction false} Lookup(t: Token, i: nat)
    requires i < |t| && Apart(t) && !t[i].value.Null?
    ensures Get(t, t[i].key) == Some(t[i].value) == Decoded(t, t[i].key)
    ensures t[i].value.Str? ==> LastString(t, t[i].key) == Some(t[i].value.s)
    ensures t[i].value.Num? ==> LastNumber(t, t[i].key) == Some(Decimal(t[i].value.n))
  {
    assert t[0] in t && |Fold(t[0].key)| == |t[0].key|;
    if i == 0 {
      forall f | f in t[1..] ensures |f.key| != |t[0].key| {
        var j :| 0 <= j < |t[1..]| && t[1..][j] == f;
        assert t[j + 1] == f;
      }
      Absent(t[1..], t[0].key);
    } else {
      assert |t[0].key| != |t[i].key|;
      Lookup(t[1..], i - 1);
    }
  }

  predicate LowerCase(key: string) { forall c | c in key :: !('A' <= c <= 'Z') && c as int < 128 }

  lemma FoldLower(key: string)
    requires LowerCase(key)
    ensures Fold(key) == key
  {
    forall i | 0 <= i < |key| ensures FoldChar(key[i]) == key[i] {
      assert key[i] in key;
    }
  }

  lemma KeysFold()
    ensures Fold("type") == "type" && Fold("keyslots") == "keyslots" && Fold("version") == "version"
    ensures Fold("p2p_key_seed") == "p2p_key_seed" && Fold("unlock_role") == "unlock_role"
    ensures Fold("key_holder_device_id") == "key_holder_device_id"
  {
    FoldLower("type");
    FoldLower("keyslots");
    FoldLower("version");
    FoldLower("p2p_key_seed");
    FoldLower("key_holder_device_id");
    FoldLower("unlock_role");
  }

  lemma OurKeysApart(seed: string, holder: string, role: string)
    ensures Apart(OurToken(seed, holder, role))
  {
    KeysFold();
  }

  lemma OurValues(seed: string, holder: string, role: string)
    ensures forall f | f in OurToken(seed, holder, role) :: Plain(f.value) && !Mistyped(f)
  {
    KeysFold();
    assert |"keyslots"| == 8 && |"version"| == 7;
  }

  lemma ShellReadsOurs(seed: string, holder: string, role: string)
    requires seed != "" && (role == "client" || role == "server")
    ensures Get(OurToken(seed, holder, role), "type") == Some(Str(OURS)) && ShellTakes(OurToken(seed, holder, role))
    ensures ShellFields(OurToken(seed, holder, role)) == Config(seed, holder, role)
  {
    var t := OurToken(seed, holder, role);
    OurKeysApart(seed, holder, role);
    OurValues(seed, holder, role);
    OurLookups(t);
    assert t[0].key == "type" && t[2].key == "version" && t[3].key == "p2p_key_seed";
    assert t[4].key == "key_holder_device_id" && t[5].key == "unlock_role";
    OursMatches(t);
  }

  lemma OursDecodes(seed: string, holder: string, role: string)
    ensures var t := OurToken(seed, holder, role);
      && DecodedString(t, "type") == OURS && Decoded(t, "version") == Some(Num(1))
      && DecodedString(t, "p2p_key_seed") == seed
      && DecodedString(t, "key_holder_device_id") == holder && DecodedString(t, "unlock_role") == role
  {
    var t := OurToken(seed, holder, role);
    OurKeysApart(seed, holder, role);
    OurValues(seed, holder, role);
    OurLookups(t);
    assert t[0].key == "type" && t[2].key == "version" && t[3].key == "p2p_key_seed";
    assert t[4].key == "key_holder_device_id" && t[5].key == "unlock_role";
  }

  lemma GoReadsOurs(seed: string, holder: string, role: string)
    requires seed != "" && (role == "client" || role == "server")
    ensures ParseToken(OurToken(seed, holder, role)) == Ours(Config(seed, holder, role))
  {
    OursDecodes(seed, holder, role);
    OurValues(seed, holder, role);
  }

  lemma OurLookups(t: Token)
    requires |t| == 6 && Apart(t) && forall f | f in t :: Plain(f.value) && !f.value.Null?
    ensures forall i | 0 <= i < 6 :: Get(t, t[i].key) == Some(t[i].value) == Decoded(t, t[i].key)
    ensures forall i | 0 <= i < 6 && t[i].value.Str? :: SedString(Lex(t), t[i].key) == Some(t[i].value.s)
    ensures forall i | 0 <= i < 6 && t[i].value.Num? :: SedNumber(Lex(t), t[i].key) == Some(Decimal(t[i].value.n))
  {
    forall i | 0 <= i < 6
      ensures Get(t, t[i].key) == Some(t[i].value) == Decoded(t, t[i].key)
      ensures t[i].value.Str? ==> SedString(Lex(t), t[i].key) == Some(t[i].value.s)
      ensures t[i].value.Num? ==> SedNumber(Lex(t), t[i].key) == Some(Decimal(t[i].value.n))
    {
      assert t[i] in t;
      Lookup(t, i);
      SedReads(t, t[i].key);
    }
  }

  // ---- Binding and reading back ----

  lemma {:induction false} FirstFree(slots: Slots, id: nat)
    ensures match FreeFrom(slots, id)
      case None => forall k | id <= k < 32 :: k in slots
      case Some(f) => id <= f < 32 && f !in slots && forall k | id <= k < f :: k in slots
    decreases 32 - id
  {
    if id < 32 && id in slots { FirstFree(slots, id + 1); }
  }

  lemma {:induction false} FirstStuck(slots: Slots, stuck: set<int>, id: nat)
    ensures match StopFrom(slots, stuck, id)
      case None => forall k | id <= k < 32 && k in stuck :: k in slots ==> !Matches(slots[k])
      case Some(f) =>
        && id <= f < 32 && f in slots && Matches(slots[f]) && f in stuck
        && forall k | id <= k < f && k in stuck :: k in slots ==> !Matches(slots[k])
    decreases 32 - id
  {
    if id < 32 { FirstStuck(slots, stuck, id + 1); }
  }

  lemma {:induction false} ShellFindsOnly(slots: Slots, id: nat, f: nat)
    requires id <= f < 32 && f in slots && ShellTakes(slots[f]) && ShellFields(slots[f]).seed != ""
    requires forall k | k in slots && k != f :: !Matches(slots[k])
    ensures ShellRead(slots, id) == Some(ShellFields(slots[f]))
    decreases 32 - id
  {
    if id < f { ShellFindsOnly(slots, id + 1, f); }
  }

  lemma {:induction false} GoFindsOnly(slots: Slots, ids: seq<int>, f: nat)
    requires f in ids && Usable(slots, f)
    requires forall k | k in ids && k != f :: !Usable(slots, k)
    ensures ScanIds(slots, ids) == Some(ParseToken(slots[f]).config)
  {
    if ids[0] != f {
      assert ids[0] in ids;
      GoFindsOnly(slots, ids[1..], f);
    }
  }

  /** A dump of these slots, whatever else it prints. */
  ghost predicate Dumps(dump: seq<string>, slots: Slots) {
    exists before, details, after ::
      && dump == LuksDump.Dump(before, Types(slots), details, after)
      && LuksDump.Innocent(details, OURS)
      && (forall l | l in before + after :: !LuksDump.Heading(l))
      && (after != [] ==> !LuksDump.Indented(after[0]))
  }

  lemma TrimOurs()
    ensures Trim(OURS) == OURS
  {}

  /** Only one slot is of our type, and it is the only one either reader takes. */
  predicate OnlyOurs(slots: Slots, f: nat) {
    forall k | k in slots ::
      && (Get(slots[k], "type") == Some(Str("syncthing-socket")) <==> k == f)
      && (Matches(slots[k]) <==> k == f)
      && (Trim(StringOf(Get(slots[k], "type"))) == "syncthing-socket" && ParseToken(slots[k]).Ours? <==> k == f)
  }

  lemma BoundIsOnlyOurs(slots: Slots, f: nat, seed: string, holder: string, role: string)
    requires seed != "" && (role == "client" || role == "server")
    requires forall id | id in slots :: 0 <= id < 32
    requires f !in Kept(slots)
    ensures OnlyOurs(Kept(slots)[f := OurToken(seed, holder, role)], f)
  {
    var after := Kept(slots)[f := OurToken(seed, holder, role)];
    ShellReadsOurs(seed, holder, role);
    GoReadsOurs(seed, holder, role);
    TrimOurs();
    forall k | k in after && k != f
      ensures !Matches(after[k]) && Get(after[k], "type") != Some(Str(OURS))
      ensures !(Trim(StringOf(Get(after[k], "type"))) == OURS && ParseToken(after[k]).Ours?)
    {
      assert k in Kept(slots) && after[k] == slots[k] && k < 32;
      var typ := Get(after[k], "type");
      if typ == Some(Str(OURS)) || (Trim(StringOf(typ)) == OURS && ParseToken(after[k]).Ours?) {
        OursMatches(after[k]);
      }
    }
  }

  /**
   * Whatever was in the header before: if a slot is free once our old tokens are gone, binding
   * leaves exactly one token of ours, and the Go scan of the device, over any dump of it, and the
   * shell both come back with what was bound.
   */
  lemma BindThenRead(slots: Slots, seed: string, holder: string, role: string)
    requires seed != "" && (role == "client" || role == "server")
    requires forall id | id in slots :: 0 <= id < 32
    requires FreeFrom(Kept(slots), 0).Some?
    ensures var f := FreeFrom(Kept(slots), 0).value;
      var after := Kept(slots)[f := OurToken(seed, holder, role)];
      && f < 32 && f !in Kept(slots) && OnlyOurs(after, f) && Get(after[f], "keyslots") == Some(Other([P('['), P(']')]))
      && ShellRead(after, 0) == Some(Config(seed, holder, role))
      && forall dump | Dumps(dump, after) ::
           FirstConfig([Luks(dump, after)], 0) == Some((0, Config(seed, holder, role)))
  {
    var f := FreeFrom(Kept(slots), 0).value;
    var after := Kept(slots)[f := OurToken(seed, holder, role)];
    FirstFree(Kept(slots), 0);
    ShellReadsOurs(seed, holder, role);
    GoReadsOurs(seed, holder, role);
    OurKeysApart(seed, holder, role);
    Lookup(OurToken(seed, holder, role), 1);
    BoundIsOnlyOurs(slots, f, seed, holder, role);
    ShellFindsOnly(after, 0, f);
    forall dump | Dumps(dump, after)
      ensures FirstConfig([Luks(dump, after)], 0) == Some((0, Config(seed, holder, role)))
    {
      ScanFindsOnly(after, f, dump);
    }
  }

  lemma ScanFindsOnly(slots: Slots, f: nat, dump: seq<string>)
    requires f in slots && f < 32 && OnlyOurs(slots, f) && Dumps(dump, slots)
    ensures FirstConfig([Luks(dump, slots)], 0) == Some((0, ParseToken(slots[f]).config))
  {
    var before, details, after :|
      && dump == LuksDump.Dump(before, Types(slots), details, after)
      && LuksDump.Innocent(details, OURS)
      && (forall l | l in before + after :: !LuksDump.Heading(l))
      && (after != [] ==> !LuksDump.Indented(after[0]));
    LuksDump.DumpLists(before, Types(slots), details, after, OURS);
    var ids := LuksDump.ListedFrom(Types(slots), 0, OURS);
    LuksDump.ListedIff(Types(slots), 0, OURS, f);
    forall k | k in ids && k != f ensures !Usable(slots, k) {
      LuksDump.ListedIff(Types(slots), 0, OURS, k);
    }
    GoFindsOnly(slots, ids, f);
  }

  /** A token luksDump lists as ours and Go takes. */
  ghost predicate Candidate(slots: Slots, k: int, c: Config) {
    && 0 <= k < 32 && k in slots
    && Trim(StringOf(Get(slots[k], "type"))) == "syncthing-socket" && ParseToken(slots[k]) == Ours(c)
  }

  ghost predicate FirstCandidate(slots: Slots, from: nat, k: int, c: Config) {
    from <= k && Candidate(slots, k, c) && forall j, d | from <= j < k :: !Candidate(slots, j, d)
  }

  ghost predicate NoCandidate(slots: Slots, from: nat) { forall k, c | from <= k :: !Candidate(slots, k, c) }

  lemma NextCandidate(slots: Slots, from: nat, k: int, c: Config)
    requires forall d :: !Candidate(slots, from, d)
    requires FirstCandidate(slots, from + 1, k, c)
    ensures FirstCandidate(slots, from, k, c)
  {}

  lemma HereIff(slots: Slots, id: nat, c: Config)
    requires id < 32
    ensures Candidate(slots, id, c) <==>
      id in slots && Trim(Types(slots)[id]) == OURS && Usable(slots, id) && ParseToken(slots[id]).config == c
  {}

  lemma NoneHere(slots: Slots, id: nat)
    requires id < 32 && !(Usable(slots, id) && Trim(Types(slots)[id]) == OURS)
    ensures forall c :: !Candidate(slots, id, c)
  {}

  lemma {:induction false} ScanStep(slots: Slots, id: nat)
    requires id < 32
    ensures ScanListed(slots, id) ==
      if id in slots && Trim(Types(slots)[id]) == OURS && Usable(slots, id) then Some(ParseToken(slots[id]).config)
      else ScanListed(slots, id + 1)
  {
    var ids, rest := LuksDump.ListedFrom(Types(slots), id, OURS), LuksDump.ListedFrom(Types(slots), id + 1, OURS);
    assert ids == rest || (ids == [id] + rest && ids[1..] == rest);
  }

  ghost function ScanListed(slots: Slots, from: nat): Option<Config> {
    ScanIds(slots, LuksDump.ListedFrom(Types(slots), from, OURS))
  }

  lemma {:induction false} ScanIsFirst(slots: Slots, from: nat)
    ensures match ScanListed(slots, from)
      case Some(c) => exists k :: FirstCandidate(slots, from, k, c)
      case None => NoCandidate(slots, from)
    decreases 32 - from
  {
    if from < 32 {
      ScanIsFirst(slots, from + 1);
      ScanStep(slots, from);
      if Usable(slots, from) && Trim(Types(slots)[from]) == OURS {
        HereIff(slots, from, ParseToken(slots[from]).config);
        assert FirstCandidate(slots, from, from, ParseToken(slots[from]).config);
      } else if ScanListed(slots, from + 1).Some? {
        var c := ScanListed(slots, from + 1).value;
        var k :| FirstCandidate(slots, from + 1, k, c);
        NoneHere(slots, from);
        NextCandidate(slots, from, k, c);
      } else {
        NoneHere(slots, from);
      }
    }
  }

  ghost predicate Bare(d: Disk) { d.Luks? ==> NoCandidate(d.slots, 0) }

  ghost predicate Offers(d: Disk, c: Config) { d.Luks? && exists k :: FirstCandidate(d.slots, 0, k, c) }

  lemma DiskScan(d: Disk)
    requires d.Luks? && Dumps(d.dump, d.slots)
    ensures match ScanDisk(d)
      case Some(c) => Offers(d, c)
      case None => Bare(d)
  {
    var before, details, after :|
      && d.dump == LuksDump.Dump(before, Types(d.slots), details, after)
      && LuksDump.Innocent(details, OURS)
      && (forall l | l in before + after :: !LuksDump.Heading(l))
      && (after != [] ==> !LuksDump.Indented(after[0]));
    LuksDump.DumpLists(before, Types(d.slots), details, after, OURS);
    ScanIsFirst(d.slots, 0);
  }

  lemma {:induction false} FirstDisk(disks: seq<Disk>, n: nat)
    requires n <= |disks|
    ensures match FirstConfig(disks, n)
      case Some(found) =>
        && n <= found.0 < |disks| && ScanDisk(disks[found.0]) == Some(found.1)
        && forall j | n <= j < found.0 :: ScanDisk(disks[j]) == None
      case None => forall j | n <= j < |disks| :: ScanDisk(disks[j]) == None
    decreases |disks| - n
  {
    if n < |disks| {
      FirstDisk(disks, n + 1);
    }
  }

  /** Over several disks: the token of the lowest id that is ours and usable, on the first disk that has one. */
  lemma ScanFindsFirst(disks: seq<Disk>)
    requires forall d | d in disks && d.Luks? :: Dumps(d.dump, d.slots)
    ensures match FirstConfig(disks, 0)
      case Some(found) =>
        found.0 < |disks| && Offers(disks[found.0], found.1) && forall j | 0 <= j < found.0 :: Bare(disks[j])
      case None => forall j | 0 <= j < |disks| :: Bare(disks[j])
  {
    FirstDisk(disks, 0);
    forall j | 0 <= j < |disks|
      ensures ScanDisk(disks[j]) == None ==> Bare(disks[j])
      ensures ScanDisk(disks[j]).Some? ==> Offers(disks[j], ScanDisk(disks[j]).value)
    {
      assert disks[j] in disks;
      if disks[j].Luks? {
        DiskScan(disks[j]);
      }
    }
  }

  /** Binding finds no room exactly when 32 tokens that do not match fill the header; it has then removed nothing. */
  lemma FullIff(slots: Slots)
    requires forall id | id in slots :: 0 <= id < 32
    ensures FreeFrom(Kept(slots), 0).None? <==> forall id | 0 <= id < 32 :: id in slots && !Matches(slots[id])
    ensures FreeFrom(Kept(slots), 0).None? ==> Kept(slots) == slots
  {
    FirstFree(Kept(slots), 0);
    if FreeFrom(Kept(slots), 0).None? {
      forall id | 0 <= id < 32 ensures id in slots && !Matches(slots[id]) {
        assert id in Kept(slots);
      }
    }
  }

  function Foreign(): Token {
    [Field("type", Str("clevis")), Field("keyslots", Other([P('['), P(']')])), Field("owner", Str(OURS))]
  }

  /** Somebody else's token that mentions our name after its type is removed as well. */
  lemma ForeignTokenRemoved()
    ensures ParseToken(Foreign()) == NotOurs && 0 !in Kept(map[0 := Foreign()])
  {
    ForeignKeys();
    ForeignValues();
    Mentioned(Foreign(), "type", "owner", "clevis", OURS);
  }

  lemma ForeignKeys()
    ensures Apart(Foreign())
  {
    KeysFold();
    FoldLower("owner");
  }

  lemma ForeignValues()
    ensures forall f | f in Foreign() :: !Mistyped(f)
  {
    KeysFold();
    assert |Fold("owner")| == 5;
  }

  lemma Mentioned(t: Token, key: string, other: string, v: string, w: string)
    requires |t| == 3 && Apart(t) && t[0] == Field(key, Str(v)) && t[2] == Field(other, Str(w))
    ensures Decoded(t, key) == Some(Str(v)) && Mentions(Lex(t), S(key), S(w))
  {
    Lookup(t, 0);
    Lookup(t[2..], 0);
    assert t[1..][1..] == t[2..];
    DecodedOccurs(t[2..], other, w);
    LexSplit(t[1..]);
    LexSplit(t);
    assert LexFields(t)[1..] == FirstLexemes(t)[1..] + LexFields(t[1..]);
    MentionsAfter([P('{')], LexFields(t), S(key), S(w));
  }
}
