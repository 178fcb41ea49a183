/** luks_agent_linux.go: the password agent's endless loop over an adversarial request directory. */
module LuksAgent {
  import opened Wrappers
  import opened Text
  import opened AskFile

  // ---- What the world shows the agent in one turn of its loop ----

  /** A directory entry; its content is None when the file cannot be opened. */
  datatype Entry = Entry(name: string, content: Option<(seq<string>, bool)>)

  /** `gone` holds the paths for which Stat reports that the file does not exist. */
  datatype Scan = NoDirectory | NoClock | Listing(now: nat, entries: seq<Entry>, gone: set<string>)

  datatype Configuration = Unreadable | Unconfigured | Configured(device: string)

  /** Fetching, checking and sending one passphrase. */
  datatype Attempt = Attempt(passphrase: Option<string>, opens: bool, sent: bool)

  datatype Round = Round(scan: Scan, configuration: Configuration, attempts: nat -> Attempt)

  // ---- The agent ----

  datatype Request = Request(path: string, lines: seq<string>, ask: Ask)
  datatype Reply = Reply(request: Request, socket: string, passphrase: string, now: nat, device: string, opens: bool)
  datatype Event = Pruned(gone: set<string>) | Sent(reply: Reply)
  datatype State = State(answered: set<string>, delivered: bool, log: seq<Event>)

  const START := State({}, false, [])

  function PathOf(name: string): string { "/run/systemd/ask-password/" + name }

  datatype Verdict = Skip | Mark | Pend(request: Request)

  /** What pendingRequests does with one entry. */
  function Judge(e: Entry, now: nat, answered: set<string>): Verdict {
    if !HasPrefix(e.name, "ask.") || PathOf(e.name) in answered || e.content.None? then Skip else
      var (lines, scanFailed) := e.content.value;
      match Parse(lines, scanFailed)
      case None => Mark
      case Some(ask) =>
        if Expired(ask, now) || !WantsCryptsetup(ask) then Mark else Pend(Request(PathOf(e.name), lines, ask))
  }

  /** The requests found and the answered set with the useless ones marked. */
  function Collect(entries: seq<Entry>, now: nat, answered: set<string>): (seq<Request>, set<string>) {
    if entries == [] then ([], answered) else
      var n := |entries| - 1;
      var (requests, marked) := Collect(entries[..n], now, answered);
      match Judge(entries[n], now, marked)
      case Skip => (requests, marked)
      case Mark => (requests, marked + {PathOf(entries[n].name)})
      case Pend(r) => (requests + [r], marked)
  }

  function Pending(scan: Scan, answered: set<string>): Option<(seq<Request>, set<string>)> {
    if !scan.Listing? then None else
      var (requests, marked) := Collect(scan.entries, scan.now, answered);
      Some((requests, marked - scan.gone))
  }

  /** One request: fetch, check against the device if there is one, send. */
  function Deliver(s: State, r: Request, now: nat, device: string, at: Attempt): State {
    if at.passphrase.None? || at.passphrase.value == "" then s
    else if device != "" && !at.opens then s
    else if !at.sent then s
    else State(s.answered + {r.path}, true,
               s.log + [Sent(Reply(r, r.ask.socket, at.passphrase.value, now, device, at.opens))])
  }

  function DeliverAll(s: State, requests: seq<Request>, now: nat, device: string, attempts: nat -> Attempt): State {
    if requests == [] then s else
      var n := |requests| - 1;
      Deliver(DeliverAll(s, requests[..n], now, device, attempts), requests[n], now, device, attempts(n))
  }

  function Paths(requests: seq<Request>): set<string> { set i | 0 <= i < |requests| :: requests[i].path }

  function Turn(s: State, r: Round): State {
    match Pending(r.scan, s.answered)
    case None => s
    case Some((requests, answered)) =>
      var t := State(answered, s.delivered, s.log + [Pruned(r.scan.gone)]);
      if requests == [] then t else
        match r.configuration
        case Unreadable => t
        case Unconfigured => t.(answered := answered + Paths(requests))
        case Configured(device) => DeliverAll(t, requests, r.scan.now, device, r.attempts)
  }

  function After(rounds: seq<Round>): State {
    if rounds == [] then START else Turn(After(rounds[..|rounds| - 1]), rounds[|rounds| - 1])
  }

  /** The names in one directory listing are distinct. */
  ghost predicate Distinct(entries: seq<Entry>) {
    forall i, j | 0 <= i < j < |entries| :: entries[i].name != entries[j].name
  }

  ghost predicate Lawful(rounds: seq<Round>) {
    forall r | r in rounds && r.scan.Listing? :: Distinct(r.scan.entries)
  }

  // ---- What a scan yields ----

  /** The entry is a request file that could be read whole, with this content. */
  predicate IsFileOf(e: Entry, r: Request) {
    "ask." <= e.name && r.path == "/run/systemd/ask-password/" + e.name && e.content == Some((r.lines, false))
  }

  ghost predicate FromEntry(r: Request, entries: seq<Entry>, now: nat) {
    && (exists e :: e in entries && IsFileOf(e, r))
    && Parse(r.lines, false) == Some(r.ask)
    && (r.ask.notAfter == 0 || now < r.ask.notAfter) && "cryptsetup" <= r.ask.id
  }

  /**
   * What pendingRequests does with an entry: it takes up an unanswered ask. file that can be opened,
   * and finds it pending when it reads whole, parses, has not expired and is about cryptsetup.
   */
  lemma JudgeIff(e: Entry, now: nat, answered: set<string>)
    ensures var path := "/run/systemd/ask-password/" + e.name;
      var taken := "ask." <= e.name && path !in answered && e.content.Some?;
      var ask := if taken then Parse(e.content.value.0, e.content.value.1) else None;
      var live := ask.Some? && (ask.value.notAfter == 0 || now < ask.value.notAfter) && "cryptsetup" <= ask.value.id;
      && (Judge(e, now, answered) == Skip <==> !taken)
      && (Judge(e, now, answered) == Mark <==> taken && !live)
      && (live ==> Judge(e, now, answered) == Pend(Request(path, e.content.value.0, ask.value)))
  {
    PrefixIff(e.name, "ask.");
    if e.content.Some? {
      var ask := Parse(e.content.value.0, e.content.value.1);
      if ask.Some? { Wanted(ask.value, now); }
    }
  }

  lemma PathInjective(a: string, b: string)
    requires PathOf(a) == PathOf(b)
    ensures a == b
  {
    var n := |PathOf("")|;
    assert PathOf(a)[n..] == a && PathOf(b)[n..] == b;
  }

  /** Exactly the rejected files are newly marked, so that they are not read again. */
  lemma {:induction false} RejectedMarked(entries: seq<Entry>, now: nat, answered: set<string>)
    ensures answered <= Collect(entries, now, answered).1
    ensures forall e | e in entries && Judge(e, now, answered) == Mark ::
      "/run/systemd/ask-password/" + e.name in Collect(entries, now, answered).1
    ensures forall p | p in Collect(entries, now, answered).1 && p !in answered ::
      exists e :: e in entries && PathOf(e.name) == p && Judge(e, now, answered) == Mark
  {
    if entries != [] {
      var n := |entries| - 1;
      RejectedMarked(entries[..n], now, answered);
      assert entries == entries[..n] + [entries[n]];
      JudgeIff(entries[n], now, answered);
      JudgeIff(entries[n], now, Collect(entries[..n], now, answered).1);
    }
  }

  lemma {:induction false} RequestsFrom(entries: seq<Entry>, now: nat, answered: set<string>)
    ensures forall r | r in Collect(entries, now, answered).0 :: FromEntry(r, entries, now)
  {
    if entries != [] {
      var n := |entries| - 1;
      var (requests, marked) := Collect(entries[..n], now, answered);
      RequestsFrom(entries[..n], now, answered);
      forall r | r in requests ensures FromEntry(r, entries, now) {
        Widened(r, entries, n, now);
      }
      if Judge(entries[n], now, marked).Pend? { JudgedPending(entries[n], now, marked, entries); }
    }
  }

  lemma OtherPath(r: Request, entries: seq<Entry>, n: nat, now: nat)
    requires Distinct(entries) && n + 1 == |entries| && FromEntry(r, entries[..n], now)
    ensures r.path != PathOf(entries[n].name)
  {
    var x :| x in entries[..n] && IsFileOf(x, r);
    if r.path == PathOf(entries[n].name) { PathInjective(x.name, entries[n].name); }
  }

  lemma Widened(r: Request, entries: seq<Entry>, n: nat, now: nat)
    requires n <= |entries| && FromEntry(r, entries[..n], now)
    ensures FromEntry(r, entries, now)
  {}

  ghost predicate Apart(requests: seq<Request>, marked: set<string>) {
    && (forall i | 0 <= i < |requests| :: requests[i].path !in marked)
    && (forall i, j | 0 <= i < j < |requests| :: requests[i].path != requests[j].path)
  }

  lemma {:induction false} RequestsApart(entries: seq<Entry>, now: nat, answered: set<string>)
    requires Distinct(entries)
    ensures Apart(Collect(entries, now, answered).0, Collect(entries, now, answered).1)
  {
    if entries != [] {
      var n := |entries| - 1;
      var (requests, marked) := Collect(entries[..n], now, answered);
      RequestsApart(entries[..n], now, answered);
      RequestsFrom(entries[..n], now, answered);
      forall i | 0 <= i < |requests| ensures requests[i].path != PathOf(entries[n].name) {
        OtherPath(requests[i], entries, n, now);
      }
      if Judge(entries[n], now, marked).Pend? { JudgedPending(entries[n], now, marked, entries); }
    }
  }

  lemma Collected(entries: seq<Entry>, now: nat, answered: set<string>)
    requires Distinct(entries)
    ensures var (requests, marked) := Collect(entries, now, answered);
      && answered <= marked
      && (forall i | 0 <= i < |requests| :: FromEntry(requests[i], entries, now) && requests[i].path !in marked)
      && (forall i, j | 0 <= i < j < |requests| :: requests[i].path != requests[j].path)
      && (forall p | p in marked && p !in answered ::
            exists e :: e in entries && PathOf(e.name) == p && Judge(e, now, answered) == Mark)
  {
    RejectedMarked(entries, now, answered);
    RequestsFrom(entries, now, answered);
    RequestsApart(entries, now, answered);
  }

  lemma JudgedPending(e: Entry, now: nat, answered: set<string>, entries: seq<Entry>)
    requires e in entries && Judge(e, now, answered).Pend?
    ensures FromEntry(Judge(e, now, answered).request, entries, now)
    ensures Judge(e, now, answered).request.path == PathOf(e.name) && PathOf(e.name) !in answered
  {
    var (lines, scanFailed) := e.content.value;
    JudgeIff(e, now, answered);
    assert !scanFailed;
    assert e.content == Some((lines, false));
    assert IsFileOf(e, Judge(e, now, answered).request);
  }

  // ---- Safety over whole runs ----

  /** The request is the n-th this round found pending, and the n-th fetch, check and send was this reply. */
  ghost predicate Attempted(y: Reply, r: Round, requests: seq<Request>, n: int) {
    0 <= n < |requests| && requests[n] == y.request && r.attempts(n) == Attempt(Some(y.passphrase), y.opens, true)
  }

  /**
   * A reply made in this round, begun with these paths answered: to a request its scan found parsed,
   * live and about cryptsetup, under the configuration of the round.
   */
  ghost predicate MadeIn(y: Reply, r: Round, answered: set<string>) {
    && r.scan.Listing? && r.scan.now == y.now && FromEntry(y.request, r.scan.entries, y.now)
    && r.configuration == Configured(y.device)
    && exists n :: Attempted(y, r, Collect(r.scan.entries, r.scan.now, answered).0, n)
  }

  /** What the i-th round starts from. */
  ghost function AnsweredBefore(rounds: seq<Round>, i: nat): set<string>
    requires i < |rounds|
  {
    After(rounds[..i]).answered
  }

  /**
   * The reply was made in one of the rounds and went to the socket of its request; its passphrase is
   * not empty and, if that round's configuration names a device, that very attempt opened it.
   */
  ghost predicate Proper(y: Reply, rounds: seq<Round>) {
    && (exists i: nat :: i < |rounds| && MadeIn(y, rounds[i], AnsweredBefore(rounds, i)))
    && y.socket == y.request.ask.socket != ""
    && y.passphrase != "" && (y.device == "" || y.opens)
  }

  ghost predicate PrunedAt(log: seq<Event>, k: int, path: string) {
    0 <= k < |log| && log[k].Pruned? && path in log[k].gone
  }

  ghost predicate SentAt(log: seq<Event>, i: int, path: string) {
    0 <= i < |log| && log[i].Sent? && log[i].reply.request.path == path
  }

  /** Some scan between events i and j found the file gone. */
  ghost predicate GoneBetween(log: seq<Event>, i: int, j: int, path: string) {
    exists k :: i < k < j && PrunedAt(log, k, path)
  }

  ghost predicate Remembered(s: State) {
    && (forall i, p | SentAt(s.log, i, p) :: p in s.answered || GoneBetween(s.log, i, |s.log|, p))
    && (forall i, j, p | i < j && SentAt(s.log, i, p) && SentAt(s.log, j, p) :: GoneBetween(s.log, i, j, p))
    && (s.delivered <==> exists i, p :: SentAt(s.log, i, p))
  }

  ghost predicate AllProper(s: State, rounds: seq<Round>) {
    forall i | 0 <= i < |s.log| && s.log[i].Sent? :: Proper(s.log[i].reply, rounds)
  }

  /** Appending an event changes nothing about the earlier ones. */
  lemma LogAppend(log: seq<Event>, e: Event)
    ensures forall i, p :: i < |log| ==> (SentAt(log + [e], i, p) <==> SentAt(log, i, p))
    ensures forall i, j, p :: GoneBetween(log, i, j, p) && j <= |log| ==>
      GoneBetween(log + [e], i, j, p) && GoneBetween(log + [e], i, |log| + 1, p)
  {
    forall i, j, p | GoneBetween(log, i, j, p) && j <= |log|
      ensures GoneBetween(log + [e], i, j, p) && GoneBetween(log + [e], i, |log| + 1, p)
    {
      var k :| i < k < j && PrunedAt(log, k, p);
      assert PrunedAt(log + [e], k, p);
    }
  }

  lemma SendKeeps(s: State, y: Reply)
    requires Remembered(s) && y.request.path !in s.answered
    ensures Remembered(State(s.answered + {y.request.path}, true, s.log + [Sent(y)]))
  {
    LogAppend(s.log, Sent(y));
    assert SentAt(s.log + [Sent(y)], |s.log|, y.request.path);
  }

  lemma PruneKeeps(s: State, marked: set<string>, gone: set<string>)
    requires Remembered(s) && s.answered <= marked
    ensures Remembered(State(marked - gone, s.delivered, s.log + [Pruned(gone)]))
  {
    var log := s.log + [Pruned(gone)];
    LogAppend(s.log, Pruned(gone));
    forall i, p | SentAt(log, i, p) ensures p in marked - gone || GoneBetween(log, i, |log|, p) {
      if p in gone { assert PrunedAt(log, |s.log|, p); }
    }
    assert forall i, p :: SentAt(s.log, i, p) ==> SentAt(log, i, p);
  }

  lemma DeliverKeeps(s: State, requests: seq<Request>, n: nat, device: string, rounds: seq<Round>, k: nat)
    requires Remembered(s) && AllProper(s, rounds) && k < |rounds| && n < |requests|
    requires var r := rounds[k];
      && r.scan.Listing? && r.configuration == Configured(device)
      && requests <= Collect(r.scan.entries, r.scan.now, AnsweredBefore(rounds, k)).0
      && FromEntry(requests[n], r.scan.entries, r.scan.now) && requests[n].path !in s.answered
    ensures var t := Deliver(s, requests[n], rounds[k].scan.now, device, rounds[k].attempts(n));
      Remembered(t) && AllProper(t, rounds) && s.answered <= t.answered <= s.answered + {requests[n].path}
  {
    var r, request := rounds[k], requests[n];
    var at := r.attempts(n);
    if Deliver(s, request, r.scan.now, device, at) != s {
      var y := Reply(request, request.ask.socket, at.passphrase.value, r.scan.now, device, at.opens);
      SendKeeps(s, y);
      assert Parse(request.lines, false) == Some(request.ask);
      assert Attempted(y, r, Collect(r.scan.entries, r.scan.now, AnsweredBefore(rounds, k)).0, n);
      assert MadeIn(y, r, AnsweredBefore(rounds, k));
      assert Proper(y, rounds);
    }
  }

  lemma {:induction false} DeliverAllKeeps(s: State, requests: seq<Request>, device: string, rounds: seq<Round>, k: nat)
    requires Remembered(s) && AllProper(s, rounds) && k < |rounds|
    requires var r := rounds[k];
      && r.scan.Listing? && r.configuration == Configured(device)
      && requests <= Collect(r.scan.entries, r.scan.now, AnsweredBefore(rounds, k)).0
      && forall i | 0 <= i < |requests| ::
           FromEntry(requests[i], r.scan.entries, r.scan.now) && requests[i].path !in s.answered
    requires forall i, j | 0 <= i < j < |requests| :: requests[i].path != requests[j].path
    ensures var t := DeliverAll(s, requests, rounds[k].scan.now, device, rounds[k].attempts);
      Remembered(t) && AllProper(t, rounds) && s.answered <= t.answered <= s.answered + Paths(requests)
  {
    if requests != [] {
      var n := |requests| - 1;
      DeliverAllKeeps(s, requests[..n], device, rounds, k);
      PathsOfLast(requests);
      var t := DeliverAll(s, requests[..n], rounds[k].scan.now, device, rounds[k].attempts);
      DeliverKeeps(t, requests, n, device, rounds, k);
    }
  }

  /** The state after the scan of a turn, before anything is delivered. */
  function Scanned(s: State, r: Round): State
    requires r.scan.Listing?
  {
    State(Collect(r.scan.entries, r.scan.now, s.answered).1 - r.scan.gone, s.delivered, s.log + [Pruned(r.scan.gone)])
  }

  lemma ScanKeeps(s: State, r: Round, rounds: seq<Round>)
    requires Remembered(s) && AllProper(s, rounds) && r.scan.Listing? && Distinct(r.scan.entries)
    ensures Remembered(Scanned(s, r)) && AllProper(Scanned(s, r), rounds)
  {
    Collected(r.scan.entries, r.scan.now, s.answered);
    PruneKeeps(s, Collect(r.scan.entries, r.scan.now, s.answered).1, r.scan.gone);
  }

  lemma {:induction false} TurnKeeps(s: State, rounds: seq<Round>, k: nat)
    requires Remembered(s) && AllProper(s, rounds) && k < |rounds| && s == After(rounds[..k])
    requires rounds[k].scan.Listing? ==> Distinct(rounds[k].scan.entries)
    ensures Remembered(Turn(s, rounds[k])) && AllProper(Turn(s, rounds[k]), rounds)
  {
    var r := rounds[k];
    if r.scan.Listing? {
      var requests := Collect(r.scan.entries, r.scan.now, s.answered).0;
      var t := Scanned(s, r);
      ScanKeeps(s, r, rounds);
      if requests == [] || r.configuration.Unreadable? {
        assert Turn(s, r) == t;
      } else if r.configuration.Unconfigured? {
        MoreAnswered(t, t.answered + Paths(requests));
        assert Turn(s, r) == t.(answered := t.answered + Paths(requests));
      } else {
        Collected(r.scan.entries, r.scan.now, s.answered);
        DeliverAllKeeps(t, requests, r.configuration.device, rounds, k);
        assert Turn(s, r) == DeliverAll(t, requests, r.scan.now, r.configuration.device, r.attempts);
      }
    }
  }

  lemma MoreAnswered(s: State, answered: set<string>)
    requires Remembered(s) && s.answered <= answered
    ensures Remembered(s.(answered := answered))
  {}

  lemma MoreRounds(s: State, rounds: seq<Round>, more: seq<Round>)
    requires AllProper(s, rounds) && rounds <= more
    ensures AllProper(s, more)
  {
    forall i | 0 <= i < |s.log| && s.log[i].Sent? ensures Proper(s.log[i].reply, more) {
      var y := s.log[i].reply;
      assert Proper(y, rounds);
      var k: nat :| k < |rounds| && MadeIn(y, rounds[k], AnsweredBefore(rounds, k));
      assert more[..k] == rounds[..k];
      assert MadeIn(y, more[k], AnsweredBefore(more, k));
    }
  }

  /**
   * In every run every reply is proper, no path is answered twice unless a scan in between found
   * its file gone, and `delivered` says whether anything was ever sent.
   */
  lemma {:induction false} DeliverySafe(rounds: seq<Round>)
    requires Lawful(rounds)
    ensures Remembered(After(rounds)) && AllProper(After(rounds), rounds)
  {
    if rounds != [] {
      var n := |rounds| - 1;
      DeliverySafe(rounds[..n]);
      MoreRounds(After(rounds[..n]), rounds[..n], rounds);
      TurnKeeps(After(rounds[..n]), rounds, n);
    }
  }

  // ---- Retries ----

  /** The scan does not find the file of this path unusable. */
  ghost predicate NotRejected(r: Round, path: string) {
    r.scan.Listing? ==> forall e | e in r.scan.entries && PathOf(e.name) == path :: Judge(e, r.scan.now, {}) != Mark
  }

  ghost predicate Unsent(log: seq<Event>, path: string) { forall i :: !SentAt(log, i, path) }

  lemma UnsentPrefix(log: seq<Event>, more: seq<Event>, path: string)
    requires log <= more && Unsent(more, path)
    ensures Unsent(log, path)
  {
    forall i ensures !SentAt(log, i, path) { assert !SentAt(more, i, path); }
  }

  lemma {:induction false} DeliverAllSent(
      s: State, requests: seq<Request>, now: nat, device: string, attempts: nat -> Attempt, path: string)
    ensures var t := DeliverAll(s, requests, now, device, attempts);
      && s.log <= t.log
      && (path in t.answered && path !in s.answered ==> !Unsent(t.log, path))
  {
    if requests != [] {
      var n := |requests| - 1;
      DeliverAllSent(s, requests[..n], now, device, attempts, path);
      var t := DeliverAll(s, requests[..n], now, device, attempts);
      var u := Deliver(t, requests[n], now, device, attempts(n));
      if Unsent(u.log, path) {
        UnsentPrefix(t.log, u.log, path);
        assert !SentAt(u.log, |t.log|, path);
      }
    }
  }

  /** A turn forgets no log, and takes up a path only to reject it, to answer it, or because nothing is configured. */
  lemma TurnAnswers(s: State, r: Round, path: string)
    requires r.scan.Listing? ==> Distinct(r.scan.entries)
    requires path !in s.answered && NotRejected(r, path) && r.configuration != Unconfigured
    ensures s.log <= Turn(s, r).log
    ensures path in Turn(s, r).answered ==> !Unsent(Turn(s, r).log, path)
  {
    if r.scan.Listing? {
      var (requests, marked) := Collect(r.scan.entries, r.scan.now, s.answered);
      Collected(r.scan.entries, r.scan.now, s.answered);
      forall e | e in r.scan.entries && PathOf(e.name) == path ensures Judge(e, r.scan.now, s.answered) != Mark {
        assert Judge(e, r.scan.now, s.answered) == Judge(e, r.scan.now, {});
      }
      var t := State(marked - r.scan.gone, s.delivered, s.log + [Pruned(r.scan.gone)]);
      if requests != [] && r.configuration.Configured? {
        DeliverAllSent(t, requests, r.scan.now, r.configuration.device, r.attempts, path);
      }
    }
  }

  /** However often fetching, checking or sending fails, a request nobody rejected stays unanswered. */
  lemma {:induction false} FailuresKeepPending(rounds: seq<Round>, path: string)
    requires Lawful(rounds)
    requires forall r | r in rounds :: NotRejected(r, path) && r.configuration != Unconfigured
    requires Unsent(After(rounds).log, path)
    ensures path !in After(rounds).answered
  {
    if rounds != [] {
      var n := |rounds| - 1;
      var s, t := After(rounds[..n]), After(rounds);
      LogGrows(s, rounds[n]);
      UnsentPrefix(s.log, t.log, path);
      FailuresKeepPending(rounds[..n], path);
      TurnAnswers(s, rounds[n], path);
    }
  }

  lemma LogGrows(s: State, r: Round)
    ensures s.log <= Turn(s, r).log
  {
    match Pending(r.scan, s.answered)
    case None =>
    case Some((requests, answered)) =>
      if r.configuration.Configured? {
        var t := State(answered, s.delivered, s.log + [Pruned(r.scan.gone)]);
        DeliverAllSent(t, requests, r.scan.now, r.configuration.device, r.attempts, "");
      }
  }

  /** And the next scan that lists its file usable puts it before the agent again. */
  lemma {:induction false} PendingIsAskedAgain(entries: seq<Entry>, now: nat, answered: set<string>, e: Entry)
    requires Distinct(entries) && e in entries && Judge(e, now, answered).Pend?
    ensures Judge(e, now, answered).request in Collect(entries, now, answered).0
  {
    var n := |entries| - 1;
    if e == entries[n] {
      Collected(entries[..n], now, answered);
      var (_, marked) := Collect(entries[..n], now, answered);
      forall x | x in entries[..n] ensures PathOf(x.name) != PathOf(e.name) {
        if PathOf(x.name) == PathOf(e.name) { PathInjective(x.name, e.name); }
      }
      assert PathOf(e.name) !in marked;
      assert Judge(e, now, marked) == Judge(e, now, answered);
    } else {
      assert e in entries[..n];
      PendingIsAskedAgain(entries[..n], now, answered, e);
    }
  }

  // ---- Replies ----

  /**
   * The n-th of the pending requests is for this path, and its passphrase is fetched, opens the
   * device if one is named, and is sent.
   */
  ghost predicate Served(requests: seq<Request>, n: int, path: string, device: string, attempts: nat -> Attempt) {
    && 0 <= n < |requests| && requests[n].path == path
    && var at := attempts(n);
       at.passphrase.Some? && at.passphrase.value != "" && (device == "" || at.opens) && at.sent
  }

  /** A reply to this path at or after position k of the log. */
  ghost predicate SentFrom(log: seq<Event>, k: nat, path: string) { exists i :: k <= i && SentAt(log, i, path) }

  lemma {:induction false} DeliverAllIff(
      s: State, requests: seq<Request>, now: nat, device: string, attempts: nat -> Attempt, path: string)
    ensures SentFrom(DeliverAll(s, requests, now, device, attempts).log, |s.log|, path)
        <==> exists n :: Served(requests, n, path, device, attempts)
    ensures s.log <= DeliverAll(s, requests, now, device, attempts).log
  {
    if requests == [] {
      assert forall i | |s.log| <= i :: !SentAt(s.log, i, path);
    } else {
      var m := |requests| - 1;
      var t := DeliverAll(s, requests[..m], now, device, attempts);
      DeliverAllIff(s, requests[..m], now, device, attempts, path);
      assert forall n | Served(requests, n, path, device, attempts) ::
        n == m || Served(requests[..m], n, path, device, attempts);
      assert forall n | Served(requests[..m], n, path, device, attempts) ::
        Served(requests, n, path, device, attempts);
      DeliverOneIff(s, t, requests, m, now, device, attempts, path);
    }
  }

  lemma DeliverOneIff(
      s: State, t: State, requests: seq<Request>, m: nat,
      now: nat, device: string, attempts: nat -> Attempt, path: string)
    requires m < |requests| && s.log <= t.log
    ensures var u := Deliver(t, requests[m], now, device, attempts(m));
      && t.log <= u.log
      && (SentFrom(u.log, |s.log|, path) <==>
            SentFrom(t.log, |s.log|, path) || Served(requests, m, path, device, attempts))
  {
    var u := Deliver(t, requests[m], now, device, attempts(m));
    if u != t {
      LogAppend(t.log, u.log[|t.log|]);
      assert u.log == t.log + [u.log[|t.log|]];
      assert SentAt(u.log, |t.log|, requests[m].path);
    }
    if SentFrom(t.log, |s.log|, path) {
      var i :| |s.log| <= i && SentAt(t.log, i, path);
      assert SentAt(u.log, i, path);
    }
    if SentFrom(u.log, |s.log|, path) && u != t {
      var i :| |s.log| <= i && SentAt(u.log, i, path);
      assert i < |t.log| ==> SentAt(t.log, i, path);
    }
  }

  /** The round is configured and its attempt for the pending request of this path succeeds. */
  ghost predicate ReplyDue(r: Round, answered: set<string>, path: string) {
    && r.scan.Listing? && r.configuration.Configured?
    && var requests := Collect(r.scan.entries, r.scan.now, answered).0;
       exists n :: Served(requests, n, path, r.configuration.device, r.attempts)
  }

  /** A turn replies to a path exactly when a reply to it is due. */
  lemma TurnRepliesIff(s: State, r: Round, path: string)
    ensures SentFrom(Turn(s, r).log, |s.log|, path) <==> ReplyDue(r, s.answered, path)
  {
    assert forall i | |s.log| <= i :: !SentAt(s.log, i, path);
    if r.scan.Listing? {
      var t := Scanned(s, r);
      var requests := Collect(r.scan.entries, r.scan.now, s.answered).0;
      assert forall i | |s.log| <= i :: !SentAt(t.log, i, path);
      if requests == [] || !r.configuration.Configured? {
        assert Turn(s, r).log == t.log;
      } else {
        DeliverAllIff(t, requests, r.scan.now, r.configuration.device, r.attempts, path);
        assert Turn(s, r) == DeliverAll(t, requests, r.scan.now, r.configuration.device, r.attempts);
        SentAfterScan(s, r, Turn(s, r).log, path);
      }
    }
  }

  lemma SentAfterScan(s: State, r: Round, log: seq<Event>, path: string)
    requires r.scan.Listing? && Scanned(s, r).log <= log
    ensures SentFrom(log, |s.log|, path) <==> SentFrom(log, |Scanned(s, r).log|, path)
  {
    assert log[|s.log|] == Pruned(r.scan.gone);
    assert !SentAt(log, |s.log|, path);
  }

  /**
   * However often it failed before, a request nobody rejected gets its reply in the first configured
   * round whose scan lists its file usable and whose attempt for it succeeds.
   */
  lemma {:induction false} PendingIsAnswered(rounds: seq<Round>, r: Round, e: Entry)
    requires Lawful(rounds) && r.scan.Listing? && Distinct(r.scan.entries) && r.configuration.Configured?
    requires forall q | q in rounds :: NotRejected(q, PathOf(e.name)) && q.configuration != Unconfigured
    requires Unsent(After(rounds).log, PathOf(e.name))
    requires e in r.scan.entries && Judge(e, r.scan.now, {}).Pend?
    requires var requests := Collect(r.scan.entries, r.scan.now, After(rounds).answered).0;
      forall n | 0 <= n < |requests| && requests[n].path == PathOf(e.name) ::
        Served(requests, n, PathOf(e.name), r.configuration.device, r.attempts)
    ensures SentFrom(Turn(After(rounds), r).log, |After(rounds).log|, PathOf(e.name))
  {
    var s, path := After(rounds), PathOf(e.name);
    FailuresKeepPending(rounds, path);
    assert Judge(e, r.scan.now, s.answered) == Judge(e, r.scan.now, {});
    PendingIsAskedAgain(r.scan.entries, r.scan.now, s.answered, e);
    JudgedPending(e, r.scan.now, s.answered, r.scan.entries);
    var requests := Collect(r.scan.entries, r.scan.now, s.answered).0;
    var n :| 0 <= n < |requests| && requests[n] == Judge(e, r.scan.now, s.answered).request;
    assert Served(requests, n, path, r.configuration.device, r.attempts);
    TurnRepliesIff(s, r, path);
  }

  /** A round that finds no configuration gives its pending requests up, and replies to none. */
  lemma UnconfiguredGivesUp(s: State, r: Round, path: string)
    requires r.scan.Listing? && Distinct(r.scan.entries) && r.configuration == Unconfigured
    requires AsksFor(r, s.answered, path)
    ensures path in Turn(s, r).answered && Turn(s, r).delivered == s.delivered
    ensures !SentFrom(Turn(s, r).log, |s.log|, path)
  {
    var e :| e in r.scan.entries && PathOf(e.name) == path && Judge(e, r.scan.now, s.answered).Pend?;
    PendingIsAskedAgain(r.scan.entries, r.scan.now, s.answered, e);
    JudgedPending(e, r.scan.now, s.answered, r.scan.entries);
    TurnRepliesIff(s, r, path);
  }

  /** The scan of this round lists the path as a request still to be answered. */
  ghost predicate AsksFor(r: Round, answered: set<string>, path: string) {
    r.scan.Listing? && exists e :: e in r.scan.entries && PathOf(e.name) == path && Judge(e, r.scan.now, answered).Pend?
  }

  /**
   * In every run, after a turn that scanned: what was answered is remembered unless the scan found
   * its file gone, and a path found gone is remembered only if that very scan still listed it as
   * a request and the turn took it up.
   */
  lemma {:induction false} ScanForgetsGone(rounds: seq<Round>, path: string)
    requires Lawful(rounds) && rounds != [] && rounds[|rounds| - 1].scan.Listing?
    ensures var n := |rounds| - 1;
      var before, r := After(rounds[..n]).answered, rounds[n];
      && (path in before && path !in r.scan.gone ==> path in After(rounds).answered)
      && (path in After(rounds).answered && path in r.scan.gone ==> AsksFor(r, before, path))
  {
    var r, s := rounds[|rounds| - 1], After(rounds[..|rounds| - 1]);
    Collected(r.scan.entries, r.scan.now, s.answered);
    var requests := Collect(r.scan.entries, r.scan.now, s.answered).0;
    DeliverAllPaths(Scanned(s, r), requests, r);
    if path in Paths(requests) {
      var i :| 0 <= i < |requests| && requests[i].path == path;
      CollectedAsk(r, s.answered, requests[i]);
    }
  }

  lemma {:induction false} DeliverAllPaths(s: State, requests: seq<Request>, r: Round)
    requires r.scan.Listing?
    ensures r.configuration.Configured? ==>
      var t := DeliverAll(s, requests, r.scan.now, r.configuration.device, r.attempts);
      s.answered <= t.answered <= s.answered + Paths(requests)
  {
    if requests != [] {
      var n := |requests| - 1;
      DeliverAllPaths(s, requests[..n], r);
      PathsOfLast(requests);
    }
  }

  lemma CollectedAsk(r: Round, answered: set<string>, request: Request)
    requires r.scan.Listing? && Distinct(r.scan.entries) && request in Collect(r.scan.entries, r.scan.now, answered).0
    ensures AsksFor(r, answered, request.path)
  {
    var now, entries := r.scan.now, r.scan.entries;
    Collected(entries, now, answered);
    assert FromEntry(request, entries, now) && request.path !in answered;
    var e :| e in entries && IsFileOf(e, request);
    JudgeIff(e, now, answered);
    assert Judge(e, now, answered).Pend?;
  }

  // ---- The code ----

  /** The agent's loop and what it keeps between turns; `log` records what it does to the world. */
  class Agent {
    var answered: set<string>
    var delivered: bool
    var log: seq<Event>

    ghost function Abs(): State
      reads this
    {
      State(answered, delivered, log)
    }

    constructor ()
      ensures Abs() == START
    {
      answered, delivered, log := {}, false, [];
    }

    /** pendingRequests */
    method PendingRequests(scan: Scan) returns (requests: Option<seq<Request>>)
      modifies this
      ensures delivered == old(delivered)
      ensures match Pending(scan, old(answered))
        case None => requests.None? && answered == old(answered) && log == old(log)
        case Some((rs, marked)) =>
          requests == Some(rs) && answered == marked && log == old(log) + [Pruned(scan.gone)]
    {
      if !scan.Listing? {
        return None;
      }
      var found: seq<Request> := [];
      for i := 0 to |scan.entries|
        invariant delivered == old(delivered) && log == old(log)
        invariant (found, answered) == Collect(scan.entries[..i], scan.now, old(answered))
      {
        assert scan.entries[..i + 1][..i] == scan.entries[..i];
        match Judge(scan.entries[i], scan.now, answered)
        case Skip =>
        case Mark => answered := answered + {PathOf(scan.entries[i].name)};
        case Pend(r) => found := found + [r];
      }
      assert scan.entries[..|scan.entries|] == scan.entries;
      ghost var marked := answered;
      var unvisited := answered;
      while unvisited != {}
        invariant delivered == old(delivered) && log == old(log)
        invariant unvisited <= answered <= marked
        invariant answered == (marked - scan.gone) + unvisited
      {
        var path :| path in unvisited;
        unvisited := unvisited - {path};
        if path in scan.gone {
          answered := answered - {path};
        }
      }
      log := log + [Pruned(scan.gone)];
      requests := Some(found);
    }

    /** One turn of the loop in runLUKSAgent. */
    method Poll(r: Round)
      modifies this
      ensures Abs() == Turn(old(Abs()), r)
    {
      var found := PendingRequests(r.scan);
      if found.None? || found.value == [] {
        return;
      }
      var requests := found.value;
      if r.configuration.Unreadable? {
        return;
      }
      ghost var t := Abs();
      if r.configuration.Unconfigured? {
        for i := 0 to |requests|
          invariant delivered == t.delivered && log == t.log
          invariant answered == t.answered + Paths(requests[..i])
        {
          PathsOfLast(requests[..i + 1]);
          assert requests[..i + 1][..i] == requests[..i];
          answered := answered + {requests[i].path};
        }
        assert requests[..|requests|] == requests;
        return;
      }
      var device := r.configuration.device;
      for i := 0 to |requests|
        invariant Abs() == DeliverAll(t, requests[..i], r.scan.now, device, r.attempts)
      {
        DeliverNext(t, requests, i, r.scan.now, device, r.attempts);
        var req, at := requests[i], r.attempts(i);
        if at.passphrase.None? || at.passphrase.value == "" {
          continue;
        }
        if device != "" && !at.opens {
          continue;
        }
        if !at.sent {
          continue;
        }
        log := log + [Sent(Reply(req, req.ask.socket, at.passphrase.value, r.scan.now, device, at.opens))];
        answered := answered + {req.path};
        delivered := true;
      }
      assert requests[..|requests|] == requests;
    }

    /** runLUKSAgent, for as many turns as it gets before the initrd kills it. */
    method Run(rounds: seq<Round>)
      requires Lawful(rounds) && Abs() == START
      modifies this
      ensures Abs() == After(rounds)
      ensures Remembered(Abs()) && AllProper(Abs(), rounds)
    {
      for i := 0 to |rounds|
        invariant Abs() == After(rounds[..i])
      {
        assert rounds[..i + 1][..i] == rounds[..i];
        Poll(rounds[i]);
      }
      assert rounds[..|rounds|] == rounds;
      DeliverySafe(rounds);
    }
  }

  lemma DeliverNext(s: State, requests: seq<Request>, i: nat, now: nat, device: string, attempts: nat -> Attempt)
    requires i < |requests|
    ensures DeliverAll(s, requests[..i + 1], now, device, attempts) ==
      Deliver(DeliverAll(s, requests[..i], now, device, attempts), requests[i], now, device, attempts(i))
  {
    assert requests[..i + 1][..i] == requests[..i];
  }

  lemma PathsOfLast(requests: seq<Request>)
    requires requests != []
    ensures Paths(requests) == Paths(requests[..|requests| - 1]) + {requests[|requests| - 1].path}
  {
    var front := requests[..|requests| - 1];
    assert forall i | 0 <= i < |front| :: front[i] == requests[i];
  }
}
