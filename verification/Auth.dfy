/**
 * auth.go: the challenge and response after the TLS handshake, byte by byte over two ordered streams.
 *
 * A side that fails closes the connection, and its peer reads end-of-file once the bytes already
 * sent are read. A side that succeeds goes on to send data on the same connection.
 */
module Auth {
  import opened Bytes
  import opened Framing
  import opened Text
  import opened Wrappers

  datatype Challenge = Challenge(typ: string, methods: seq<string>)
  datatype Response = Response(typ: string, totp: string)
  datatype Outcome = Outcome(status: string, message: string)

  /** encoding/json on one struct type. */
  datatype Codec<!T> = Codec(encode: T -> seq<Byte>, decode: seq<Byte> -> Option<T>)

  /** An encoded object decodes to itself, and cut short it does not decode. */
  ghost predicate Lawful<T(!new)>(c: Codec<T>) {
    && (forall m :: c.decode(c.encode(m)) == Some(m))
    && (forall m, n :: 0 <= n < |c.encode(m)| ==> c.decode(c.encode(m)[..n]) == None)
  }

  /** `valid` is totp.Validate for the server's secret, `line` what stdin gives at the prompt. */
  datatype Config = Config(
    secret: string, valid: string -> bool,
    passcode: string, terminal: bool, line: Option<string>,
    challenge: Codec<Challenge>, response: Codec<Response>, outcome: Codec<Outcome>,
    serverData: seq<Byte>, clientData: seq<Byte>)

  // ---- The two sides' decisions ----

  datatype ServerPc = Starting | AwaitResponse | ServerDone(ok: bool)
  datatype ClientPc = AwaitChallenge | AwaitOutcome | ClientDone(ok: bool)

  function Opening(cfg: Config): Challenge {
    if cfg.secret == "" then Challenge("auth_ok", []) else Challenge("auth_required", ["totp"])
  }

  /** performServerAuth from the response on: what it sends, if anything, and whether it returns nil. */
  function Judge(cfg: Config, r: Option<Response>): (Option<Outcome>, bool) {
    match r
    case None => (None, false)
    case Some(Response(typ, totp)) =>
      if typ != "auth" then (Some(Outcome("error", "expected auth message, got " + typ)), false)
      else if !cfg.valid(totp) then (Some(Outcome("error", "invalid TOTP passcode")), false)
      else (Some(Outcome("ok", "")), true)
  }

  method NeedsTotp(methods: seq<string>) returns (needs: bool)
    ensures needs <==> "totp" in methods
  {
    needs := false;
    for i := 0 to |methods|
      invariant !needs && "totp" !in methods[..i]
    {
      if methods[i] == "totp" {
        needs := true;
        break;
      }
    }
  }

  /** The code to send: the given one, or the one typed at the terminal. */
  function Code(cfg: Config): Option<string> {
    if Trim(cfg.passcode) != "" then Some(Trim(cfg.passcode))
    else if !cfg.terminal then None else
      var line :- cfg.line;
      Some(Trim(line))
  }

  datatype Answer = Accept | Fail | Reply(r: Response)

  /** performClientAuth up to its response. */
  function AnswerTo(cfg: Config, c: Option<Challenge>): Answer {
    if c.None? then Fail
    else if c.value.typ == "auth_ok" then Accept
    else if c.value.typ != "auth_required" || "totp" !in c.value.methods then Fail
    else match Code(cfg)
      case None => Fail
      case Some(code) => Reply(Response("auth", code))
  }

  // ---- The two sides over a connection ----

  /** What readAuthMessage makes of a stream. */
  function Message<T>(c: Codec<T>, input: seq<Byte>): Option<T> {
    var (body, _) :- Decode(input);
    c.decode(body)
  }

  function FrameOf<T>(c: Codec<T>, m: Option<T>): seq<Byte> { if m.Some? then Frame(c.encode(m.value)) else [] }

  /** What the server writes if no write fails, given all that will arrive. */
  function ServerSends(cfg: Config, input: seq<Byte>): seq<Byte> {
    Frame(cfg.challenge.encode(Opening(cfg)))
    + if cfg.secret == "" then [] else FrameOf(cfg.outcome, Judge(cfg, Message(cfg.response, input)).0)
  }

  predicate ServerAccepts(cfg: Config, input: seq<Byte>) {
    cfg.secret == "" || Judge(cfg, Message(cfg.response, input)).1
  }

  /** All of what it should send, or part of it once a write has failed; and success only if none has. */
  method PerformServerAuth(conn: Conn, cfg: Config) returns (ok: bool)
    requires !conn.failed
    modifies conn
    ensures Put(old(conn.outgoing), ServerSends(cfg, old(conn.incoming)), conn.outgoing, !conn.failed)
    ensures ok == (!conn.failed && ServerAccepts(cfg, old(conn.incoming)))
    ensures cfg.secret == "" ==> conn.incoming == old(conn.incoming)
  {
    ghost var start, opening := conn.outgoing, Frame(cfg.challenge.encode(Opening(cfg)));
    ghost var reply := Judge(cfg, Message(cfg.response, conn.incoming)).0;
    ghost var rest := if cfg.secret == "" then [] else FrameOf(cfg.outcome, reply);
    if cfg.secret == "" {
      ok := conn.SendMessage(cfg.challenge.encode(Challenge("auth_ok", [])));
      assert opening + rest == opening;
      return;
    }
    var sent := conn.SendMessage(cfg.challenge.encode(Challenge("auth_required", ["totp"])));
    ghost var asked := conn.outgoing;
    PutConcat(start, opening, asked, sent, rest, asked, sent);
    if !sent {
      return false;
    }
    var body := conn.ReadMessage();
    if body.None? {
      assert opening + rest == opening;
      return false;
    }
    var resp := cfg.response.decode(body.value);
    if resp.None? {
      assert opening + rest == opening;
      return false;
    }
    if resp.value.typ != "auth" {
      sent := conn.SendMessage(cfg.outcome.encode(Outcome("error", "expected auth message, got " + resp.value.typ)));
      PutConcat(start, opening, asked, true, rest, conn.outgoing, sent);
      return false;
    }
    if !cfg.valid(resp.value.totp) {
      sent := conn.SendMessage(cfg.outcome.encode(Outcome("error", "invalid TOTP passcode")));
      PutConcat(start, opening, asked, true, rest, conn.outgoing, sent);
      return false;
    }
    ok := conn.SendMessage(cfg.outcome.encode(Outcome("ok", "")));
    PutConcat(start, opening, asked, true, rest, conn.outgoing, ok);
  }

  /** What the client writes if the write does not fail. */
  function ClientSends(cfg: Config, input: seq<Byte>): seq<Byte> {
    match AnswerTo(cfg, Message(cfg.challenge, input))
    case Reply(r) => Frame(cfg.response.encode(r))
    case _ => []
  }

  predicate ClientAccepts(cfg: Config, input: seq<Byte>) {
    match AnswerTo(cfg, Message(cfg.challenge, input))
    case Accept => true
    case Fail => false
    case Reply(_) =>
      Decode(input).Some? &&
      var outcome := Message(cfg.outcome, Decode(input).value.1);
      outcome.Some? && outcome.value.status == "ok"
  }

  method PerformClientAuth(conn: Conn, cfg: Config) returns (ok: bool)
    requires !conn.failed
    modifies conn
    ensures Put(old(conn.outgoing), ClientSends(cfg, old(conn.incoming)), conn.outgoing, !conn.failed)
    ensures ok == (!conn.failed && ClientAccepts(cfg, old(conn.incoming)))
    ensures AnswerTo(cfg, Message(cfg.challenge, old(conn.incoming))) == Accept ==>
      conn.incoming == Decode(old(conn.incoming)).value.1
  {
    var body := conn.ReadMessage();
    if body.None? {
      return false;
    }
    var challenge := cfg.challenge.decode(body.value);
    if challenge.None? {
      return false;
    }
    if challenge.value.typ == "auth_ok" {
      return true;
    }
    if challenge.value.typ != "auth_required" {
      return false;
    }
    var needs := NeedsTotp(challenge.value.methods);
    if !needs {
      return false;
    }
    var code := Trim(cfg.passcode);
    if code == "" {
      if !cfg.terminal || cfg.line.None? {
        return false;
      }
      code := Trim(cfg.line.value);
    }
    var sent := conn.SendMessage(cfg.response.encode(Response("auth", code)));
    if !sent {
      return false;
    }
    body := conn.ReadMessage();
    if body.None? {
      return false;
    }
    var outcome := cfg.outcome.decode(body.value);
    return outcome.Some? && outcome.value.status == "ok";
  }

  // ---- What either side makes of any peer ----

  /** The code sent is the given one without the blanks around it, else the one typed, if there is a terminal. */
  lemma CodeIs(cfg: Config, pre: string, code: string, post: string)
    requires Blank(pre) && Blank(post) && Trimmed(code)
    ensures cfg.passcode == pre + (code + post) && code != "" ==> Code(cfg) == Some(code)
    ensures Blank(cfg.passcode) && cfg.terminal && cfg.line == Some(pre + (code + post)) ==> Code(cfg) == Some(code)
    ensures Blank(cfg.passcode) && (!cfg.terminal || cfg.line == None) ==> Code(cfg) == None
  {
    TrimOf(pre, code, post);
    TrimmedAway(cfg.passcode);
  }

  /** A stream that starts with a frame of at most 10 MiB holding this message, and what follows it. */
  ghost predicate Says<T(!new)>(c: Codec<T>, input: seq<Byte>, m: T, rest: seq<Byte>) {
    exists body :: |body| <= 10485760 && input == Frame(body) + rest && c.decode(body) == Some(m)
  }

  lemma SaysIff<T(!new)>(c: Codec<T>, input: seq<Byte>, m: T, rest: seq<Byte>)
    ensures Says(c, input, m, rest) <==> Message(c, input) == Some(m) && Decode(input).value.1 == rest
  {
    forall body ensures Decode(input) == Some((body, rest)) <==> |body| <= 10485760 && input == Frame(body) + rest {
      DecodeIff(input, body, rest);
    }
    if Message(c, input) == Some(m) && Decode(input).value.1 == rest {
      assert Decode(input) == Some((Decode(input).value.0, rest));
    }
  }

  /** A server with a secret accepts whoever sends, first of all, an auth message whose code validates. */
  lemma ServerAcceptsIff(cfg: Config, input: seq<Byte>)
    ensures ServerAccepts(cfg, input) <==>
      || cfg.secret == ""
      || exists code, rest :: Says(cfg.response, input, Response("auth", code), rest) && cfg.valid(code)
  {
    forall m, rest {
      SaysIff(cfg.response, input, m, rest);
    }
    if cfg.secret != "" && ServerAccepts(cfg, input) {
      var m := Message(cfg.response, input).value;
      assert m == Response("auth", m.totp) && Says(cfg.response, input, m, Decode(input).value.1);
    }
  }

  /** It sends its challenge, and nothing more to a peer it cannot understand. */
  lemma ServerOpens(cfg: Config, input: seq<Byte>)
    ensures cfg.secret == "" ==> ServerSends(cfg, input) == Frame(cfg.challenge.encode(Challenge("auth_ok", [])))
    ensures cfg.secret != "" && (forall m, rest :: !Says(cfg.response, input, m, rest)) ==>
      ServerSends(cfg, input) == Frame(cfg.challenge.encode(Challenge("auth_required", ["totp"])))
  {
    if m :| Message(cfg.response, input) == Some(m) {
      SaysIff(cfg.response, input, m, Decode(input).value.1);
    }
  }

  /** To a message it understands it says whether it accepts it. */
  lemma ServerTells(cfg: Config, input: seq<Byte>, m: Response, rest: seq<Byte>)
    requires cfg.secret != "" && Says(cfg.response, input, m, rest)
    ensures ServerSends(cfg, input) ==
      Frame(cfg.challenge.encode(Challenge("auth_required", ["totp"]))) + Frame(cfg.outcome.encode(
        if m.typ != "auth" then Outcome("error", "expected auth message, got " + m.typ)
        else if cfg.valid(m.totp) then Outcome("ok", "") else Outcome("error", "invalid TOTP passcode")))
  {
    SaysIff(cfg.response, input, m, rest);
  }

  /** A client accepts a server that asks for nothing, or one that asks for its code and then says ok. */
  lemma ClientAcceptsIff(cfg: Config, input: seq<Byte>)
    ensures ClientAccepts(cfg, input) <==> exists c, rest ::
      && Says(cfg.challenge, input, c, rest)
      && (c.typ == "auth_ok" || (Asks(cfg, c) && exists o, end :: Says(cfg.outcome, rest, o, end) && o.status == "ok"))
  {
    forall c, rest {
      SaysIff(cfg.challenge, input, c, rest);
    }
    forall rest, o, end {
      SaysIff(cfg.outcome, rest, o, end);
    }
    if ClientAccepts(cfg, input) {
      var rest := Decode(input).value.1;
      assert Says(cfg.challenge, input, Message(cfg.challenge, input).value, rest);
      if Message(cfg.challenge, input).value.typ != "auth_ok" {
        assert Says(cfg.outcome, rest, Message(cfg.outcome, rest).value, Decode(rest).value.1);
      }
    }
  }

  /** A challenge the client has an answer to. */
  ghost predicate Asks(cfg: Config, c: Challenge) {
    c.typ == "auth_required" && "totp" in c.methods && Code(cfg).Some?
  }

  /** It sends its code to a server that asks for it, and nothing to any other. */
  lemma ClientTells(cfg: Config, input: seq<Byte>)
    ensures ClientSends(cfg, input) ==
      if exists c, rest :: Says(cfg.challenge, input, c, rest) && Asks(cfg, c)
      then Frame(cfg.response.encode(Response("auth", Code(cfg).value))) else []
  {
    forall c, rest {
      SaysIff(cfg.challenge, input, c, rest);
    }
    var c := Message(cfg.challenge, input);
    if c.Some? {
      assert Says(cfg.challenge, input, c.value, Decode(input).value.1);
    }
  }

  // ---- The protocol ----

  datatype State = State(server: ServerPc, client: ClientPc, toServer: Inbox, toClient: Inbox)

  datatype Action =
    | Begin
    | ServerTakes(n: nat) | ServerHandles | ServerEof
    | ClientTakes(n: nat) | ClientHandles | ClientEof

  const START := State(Starting, AwaitChallenge, Inbox([], []), Inbox([], []))

  predicate Can(s: State, act: Action) {
    match act
    case Begin => s.server == Starting
    case ServerTakes(n) => s.server == AwaitResponse && 1 <= n <= |s.toServer.wire| && n <= Missing(s.toServer.got)
    case ServerHandles => s.server == AwaitResponse && Missing(s.toServer.got) == 0
    case ServerEof =>
      s.server == AwaitResponse && Missing(s.toServer.got) > 0 && s.toServer.wire == [] && s.client == ClientDone(false)
    case ClientTakes(n) => !s.client.ClientDone? && 1 <= n <= |s.toClient.wire| && n <= Missing(s.toClient.got)
    case ClientHandles => !s.client.ClientDone? && Missing(s.toClient.got) == 0
    case ClientEof =>
      !s.client.ClientDone? && Missing(s.toClient.got) > 0 && s.toClient.wire == [] && s.server == ServerDone(false)
  }

  function Cleared(box: Inbox): Inbox { box.(got := []) }

  function Opened(cfg: Config, s: State): State {
    var frame := Frame(cfg.challenge.encode(Opening(cfg)));
    if cfg.secret == "" then s.(server := ServerDone(true), toClient := Sent(s.toClient, frame + cfg.serverData))
    else s.(server := AwaitResponse, toClient := Sent(s.toClient, frame))
  }

  function Judged(cfg: Config, s: State): State {
    var (reply, ok) := Judge(cfg, Message(cfg.response, s.toServer.got));
    s.(server := ServerDone(ok), toServer := Cleared(s.toServer),
       toClient := Sent(s.toClient, FrameOf(cfg.outcome, reply) + if ok then cfg.serverData else []))
  }

  function Finished(cfg: Config, s: State, ok: bool): State {
    s.(client := ClientDone(ok), toClient := Cleared(s.toClient),
       toServer := Sent(s.toServer, if ok then cfg.clientData else []))
  }

  function Answered(cfg: Config, s: State): State {
    match AnswerTo(cfg, Message(cfg.challenge, s.toClient.got))
    case Accept => Finished(cfg, s, true)
    case Fail => Finished(cfg, s, false)
    case Reply(r) =>
      s.(client := AwaitOutcome, toClient := Cleared(s.toClient),
         toServer := Sent(s.toServer, Frame(cfg.response.encode(r))))
  }

  function Concluded(cfg: Config, s: State): State {
    var o := Message(cfg.outcome, s.toClient.got);
    Finished(cfg, s, o.Some? && o.value.status == "ok")
  }

  function Next(cfg: Config, s: State, act: Action): State
    requires Can(s, act)
  {
    match act
    case Begin => Opened(cfg, s)
    case ServerTakes(n) => s.(toServer := Take(s.toServer, n))
    case ServerHandles => Judged(cfg, s)
    case ServerEof => s.(server := ServerDone(false))
    case ClientTakes(n) => s.(toClient := Take(s.toClient, n))
    case ClientHandles => if s.client == AwaitChallenge then Answered(cfg, s) else Concluded(cfg, s)
    case ClientEof => Finished(cfg, s, false)
  }

  predicate Run(cfg: Config, s: State, run: seq<Action>)
    decreases |run|
  {
    run == [] || (Can(s, run[0]) && Run(cfg, Next(cfg, s, run[0]), run[1..]))
  }

  function Last(cfg: Config, s: State, run: seq<Action>): State
    requires Run(cfg, s, run)
    decreases |run|
  {
    if run == [] then s else Last(cfg, Next(cfg, s, run[0]), run[1..])
  }

  // ---- When the two sides should accept ----

  function TheResponse(cfg: Config): seq<Byte>
    requires Code(cfg).Some?
  {
    cfg.response.encode(Response("auth", Code(cfg).value))
  }

  predicate Accepts(cfg: Config) {
    cfg.secret == "" || (Code(cfg).Some? && |TheResponse(cfg)| <= LIMIT && cfg.valid(Code(cfg).value))
  }

  function TheOutcome(cfg: Config): Outcome {
    if Accepts(cfg) then Outcome("ok", "") else Outcome("error", "invalid TOTP passcode")
  }

  /** JSON behaves, and the server's fixed messages are short. */
  ghost predicate Sane(cfg: Config) {
    && Lawful(cfg.challenge) && Lawful(cfg.response) && Lawful(cfg.outcome)
    && |cfg.challenge.encode(Opening(cfg))| <= LIMIT
    && |cfg.outcome.encode(TheOutcome(cfg))| <= LIMIT
  }

  // ---- The phases of every run ----

  const EMPTY := Inbox([], [])

  predicate Challenged(cfg: Config, s: State) {
    && s.client == AwaitChallenge && s.toServer == EMPTY
    && s.server == (if cfg.secret == "" then ServerDone(true) else AwaitResponse)
    && Holding(s.toClient, cfg.challenge.encode(Opening(cfg)), if cfg.secret == "" then cfg.serverData else [])
  }

  predicate GivenUp(cfg: Config, s: State) {
    && cfg.secret != "" && Code(cfg).None?
    && s.client == ClientDone(false) && s.server == AwaitResponse && s.toServer == EMPTY
  }

  predicate Responded(cfg: Config, s: State) {
    && cfg.secret != "" && Code(cfg).Some?
    && s.client == AwaitOutcome && s.server == AwaitResponse && s.toClient == EMPTY
    && Holding(s.toServer, TheResponse(cfg), [])
  }

  predicate Decided(cfg: Config, s: State) {
    && cfg.secret != "" && Code(cfg).Some?
    && s.client == AwaitOutcome && s.server == ServerDone(Accepts(cfg))
    && if |TheResponse(cfg)| > LIMIT then s.toClient == EMPTY
       else
         && s.toServer == EMPTY
         && Holding(s.toClient, cfg.outcome.encode(TheOutcome(cfg)), if Accepts(cfg) then cfg.serverData else [])
  }

  /** Both are done and agree; on success each finds exactly what the other sent afterwards. */
  predicate Over(cfg: Config, s: State) {
    && s.server == ServerDone(Accepts(cfg)) && s.client == ClientDone(Accepts(cfg))
    && (Accepts(cfg) ==> s.toClient == Inbox([], cfg.serverData) && s.toServer == Inbox([], cfg.clientData))
  }

  predicate Inv(cfg: Config, s: State) {
    s == START || Challenged(cfg, s) || GivenUp(cfg, s) || Responded(cfg, s) || Decided(cfg, s) || Over(cfg, s)
  }

  /** A whole message in the inbox decodes to what was encoded, exactly when it is within the limit. */
  lemma JsonBack<T(!new)>(c: Codec<T>, m: T, box: Inbox, data: seq<Byte>)
    requires Lawful(c) && Holding(box, c.encode(m), data) && Missing(box.got) == 0
    ensures Message(c, box.got) == if |c.encode(m)| <= LIMIT then Some(m) else None
    ensures |c.encode(m)| <= LIMIT ==> Cleared(box) == Inbox([], data)
  {
    HoldingDone(box, c.encode(m), data);
  }

  lemma BeginKeeps(cfg: Config, s: State)
    requires Inv(cfg, s) && s.server == Starting
    ensures Inv(cfg, Opened(cfg, s))
  {
    var body := cfg.challenge.encode(Opening(cfg));
    HoldingNew(body, cfg.serverData);
    HoldingNew(body, []);
    assert [] + (Frame(body) + cfg.serverData) == Frame(body) + cfg.serverData;
    assert [] + Frame(body) == Frame(body) == Frame(body) + [];
  }

  lemma AnswerKeeps(cfg: Config, s: State)
    requires Sane(cfg) && Challenged(cfg, s) && Missing(s.toClient.got) == 0
    ensures Inv(cfg, Answered(cfg, s))
  {
    JsonBack(cfg.challenge, Opening(cfg), s.toClient, if cfg.secret == "" then cfg.serverData else []);
    assert forall d: seq<Byte> :: [] + d == d;
    if cfg.secret != "" && Code(cfg).Some? {
      HoldingNew(TheResponse(cfg), []);
      assert Frame(TheResponse(cfg)) + [] == Frame(TheResponse(cfg));
    }
  }

  lemma JudgeKeeps(cfg: Config, s: State)
    requires Sane(cfg) && Responded(cfg, s) && Missing(s.toServer.got) == 0
    ensures Decided(cfg, Judged(cfg, s))
  {
    JsonBack(cfg.response, Response("auth", Code(cfg).value), s.toServer, []);
    var data := if Accepts(cfg) then cfg.serverData else [];
    var body := cfg.outcome.encode(TheOutcome(cfg));
    HoldingNew(body, data);
    assert [] + (Frame(body) + data) == Frame(body) + data;
  }

  lemma ConcludeKeeps(cfg: Config, s: State)
    requires Sane(cfg) && Decided(cfg, s) && Missing(s.toClient.got) == 0
    ensures Over(cfg, Concluded(cfg, s))
  {
    JsonBack(cfg.outcome, TheOutcome(cfg), s.toClient, if Accepts(cfg) then cfg.serverData else []);
    assert [] + cfg.clientData == cfg.clientData;
  }

  lemma TakeKeeps(cfg: Config, s: State, act: Action)
    requires Inv(cfg, s) && Can(s, act) && (act.ServerTakes? || act.ClientTakes?)
    ensures Inv(cfg, Next(cfg, s, act))
  {
    if Challenged(cfg, s) {
      var data := if cfg.secret == "" then cfg.serverData else [];
      HoldingTake(s.toClient, cfg.challenge.encode(Opening(cfg)), data, act.n);
    } else if Responded(cfg, s) {
      HoldingTake(s.toServer, TheResponse(cfg), [], act.n);
    } else if Decided(cfg, s) {
      HoldingTake(s.toClient, cfg.outcome.encode(TheOutcome(cfg)), if Accepts(cfg) then cfg.serverData else [], act.n);
    }
  }

  lemma StepKeeps(cfg: Config, s: State, act: Action)
    requires Sane(cfg) && Inv(cfg, s) && Can(s, act)
    ensures Inv(cfg, Next(cfg, s, act))
  {
    match act
    case Begin => BeginKeeps(cfg, s);
    case ServerTakes(_) => TakeKeeps(cfg, s, act);
    case ClientTakes(_) => TakeKeeps(cfg, s, act);
    case ServerHandles => JudgeKeeps(cfg, s);
    case ClientHandles => if Challenged(cfg, s) { AnswerKeeps(cfg, s); } else { ConcludeKeeps(cfg, s); }
    case ServerEof =>
    case ClientEof =>
  }

  lemma {:induction false} RunKeeps(cfg: Config, s: State, run: seq<Action>)
    requires Sane(cfg) && Inv(cfg, s) && Run(cfg, s, run)
    ensures Inv(cfg, Last(cfg, s, run))
    decreases |run|
  {
    if run != [] {
      StepKeeps(cfg, s, run[0]);
      RunKeeps(cfg, Next(cfg, s, run[0]), run[1..]);
    }
  }

  // ---- The results ----

  /**
   * At the end of every run the two sides agree: both accept if no secret is set or the code sent
   * validates, and otherwise both fail. Neither has read a byte of what the other sent next.
   */
  lemma BothAgree(cfg: Config, run: seq<Action>)
    requires Sane(cfg) && Run(cfg, START, run)
    ensures var s := Last(cfg, START, run);
      s.server.ServerDone? && s.client.ClientDone? ==> Over(cfg, s)
  {
    RunKeeps(cfg, START, run);
  }

  /** At no point has a side accepted that should not. */
  lemma NeverWronglyAccepted(cfg: Config, run: seq<Action>)
    requires Sane(cfg) && Run(cfg, START, run)
    ensures var s := Last(cfg, START, run);
      && (s.server == ServerDone(true) ==> Accepts(cfg))
      && (s.client == ClientDone(true) ==> s.server == ServerDone(true))
      && (s.server == ServerDone(false) || s.client == ClientDone(false) ==> !Accepts(cfg))
  {
    RunKeeps(cfg, START, run);
  }

  /** The step some side can take while one of them is not done. */
  function Enabled(cfg: Config, s: State): Action {
    if s.server == Starting then Begin
    else if !s.client.ClientDone? && Missing(s.toClient.got) == 0 then ClientHandles
    else if !s.client.ClientDone? && s.toClient.wire != [] then ClientTakes(1)
    else if s.server == AwaitResponse && Missing(s.toServer.got) == 0 then ServerHandles
    else if s.server == AwaitResponse && s.toServer.wire != [] then ServerTakes(1)
    else if s.server == AwaitResponse then ServerEof
    else ClientEof
  }

  /** Neither side waits for ever: some step is possible until both are done. */
  lemma NeverStuck(cfg: Config, run: seq<Action>)
    requires Sane(cfg) && Run(cfg, START, run)
    ensures var s := Last(cfg, START, run);
      (s.server.ServerDone? && s.client.ClientDone?) || Can(s, Enabled(cfg, s))
  {
    RunKeeps(cfg, START, run);
    var s := Last(cfg, START, run);
    if Challenged(cfg, s) && Missing(s.toClient.got) > 0 {
      HoldingMore(s.toClient, cfg.challenge.encode(Opening(cfg)), if cfg.secret == "" then cfg.serverData else []);
    } else if Responded(cfg, s) && Missing(s.toServer.got) > 0 {
      HoldingMore(s.toServer, TheResponse(cfg), []);
    } else if Decided(cfg, s) && Missing(s.toClient.got) > 0 && |TheResponse(cfg)| <= LIMIT {
      HoldingMore(s.toClient, cfg.outcome.encode(TheOutcome(cfg)), if Accepts(cfg) then cfg.serverData else []);
    }
  }

  /** Steps a side still has to take. */
  function Turns(s: State): nat {
    (match s.server case Starting => 2 case AwaitResponse => 1 case ServerDone(_) => 0)
    + (match s.client case AwaitChallenge => 2 case AwaitOutcome => 1 case ClientDone(_) => 0)
  }

  function OnTheWire(s: State): nat { |s.toServer.wire| + |s.toClient.wire| }

  /** More than any one step puts on the wire. */
  function Most(cfg: Config): nat {
    1 + |cfg.serverData| + |cfg.clientData| + |Frame(cfg.challenge.encode(Opening(cfg)))|
    + |Frame(cfg.outcome.encode(TheOutcome(cfg)))| + (if Code(cfg).Some? then |Frame(TheResponse(cfg))| else 0)
  }

  function Work(cfg: Config, s: State): nat { Most(cfg) * Turns(s) + OnTheWire(s) }

  /** A step moves bytes off the wire, or takes a turn and adds fewer bytes than the most. */
  lemma StepWorks(cfg: Config, s: State, act: Action)
    requires Sane(cfg) && Inv(cfg, s) && Can(s, act)
    ensures var t := Next(cfg, s, act);
      || (Turns(t) == Turns(s) && OnTheWire(t) < OnTheWire(s))
      || (Turns(t) < Turns(s) && OnTheWire(t) < OnTheWire(s) + Most(cfg))
  {
    match act
    case ServerHandles => JudgeWorks(cfg, s);
    case ClientHandles => if Challenged(cfg, s) { AnswerWorks(cfg, s); }
    case _ =>
  }

  lemma JudgeWorks(cfg: Config, s: State)
    requires Sane(cfg) && Responded(cfg, s) && Missing(s.toServer.got) == 0
    ensures Turns(Judged(cfg, s)) < Turns(s) && OnTheWire(Judged(cfg, s)) < OnTheWire(s) + Most(cfg)
  {
    JsonBack(cfg.response, Response("auth", Code(cfg).value), s.toServer, []);
  }

  lemma AnswerWorks(cfg: Config, s: State)
    requires Sane(cfg) && Challenged(cfg, s) && Missing(s.toClient.got) == 0
    ensures Turns(Answered(cfg, s)) < Turns(s) && OnTheWire(Answered(cfg, s)) < OnTheWire(s) + Most(cfg)
  {
    JsonBack(cfg.challenge, Opening(cfg), s.toClient, if cfg.secret == "" then cfg.serverData else []);
  }

  lemma {:induction false} TurnPays(m: nat, a: nat, b: nat)
    requires b < a
    ensures m * b + m <= m * a
  {
    assert m * a == m * (a - 1) + m;
    if b + 1 < a { TurnPays(m, a - 1, b); }
  }

  lemma WorkDrops(cfg: Config, s: State, act: Action)
    requires Sane(cfg) && Inv(cfg, s) && Can(s, act)
    ensures Work(cfg, Next(cfg, s, act)) < Work(cfg, s)
  {
    StepWorks(cfg, s, act);
    var t := Next(cfg, s, act);
    if Turns(t) < Turns(s) { TurnPays(Most(cfg), Turns(s), Turns(t)); }
  }

  lemma {:induction false} RunsAreBoundedFrom(cfg: Config, s: State, run: seq<Action>)
    requires Sane(cfg) && Inv(cfg, s) && Run(cfg, s, run)
    ensures |run| <= Work(cfg, s)
    decreases |run|
  {
    if run != [] {
      StepKeeps(cfg, s, run[0]);
      WorkDrops(cfg, s, run[0]);
      RunsAreBoundedFrom(cfg, Next(cfg, s, run[0]), run[1..]);
    }
  }

  lemma RunsAreBounded(cfg: Config, run: seq<Action>)
    requires Sane(cfg) && Run(cfg, START, run)
    ensures |run| <= 4 * Most(cfg)
  {
    RunsAreBoundedFrom(cfg, START, run);
  }
}
