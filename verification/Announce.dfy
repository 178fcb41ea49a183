/** main.go: the announce loop of one discovery server, and when its record may look old. */
module Announce {
  import opened Wrappers
  import opened Text

  /** announceAddresses: the relay in use, if any, then the direct port, if there is one. */
  function Addresses(relay: Option<string>, directPort: int, actualPort: nat): seq<string> {
    (if relay.Some? then [relay.value] else [])
    + (if directPort > 0 then ["tcp://:" + Decimal(actualPort)] else [])
  }

  /** The relay's URL as it is, then the port in use under the scheme tcp, if listening was asked for. */
  lemma AddressesAre(url: string, directPort: int, actualPort: nat)
    ensures Addresses(Some(url), directPort, actualPort) == [url] + Addresses(None, directPort, actualPort)
    ensures directPort > 0 ==>
      |Addresses(None, directPort, actualPort)| == 1 && "tcp://:" <= Addresses(None, directPort, actualPort)[0] &&
      ParseUint64(Addresses(None, directPort, actualPort)[0][7..]) ==
        if actualPort <= 18446744073709551615 then Some(actualPort) else None
    ensures directPort <= 0 ==> Addresses(None, directPort, actualPort) == []
  {
    var entry := "tcp://:" + Decimal(actualPort);
    assert entry[7..] == Decimal(actualPort);
    ParseUint64Iff(actualPort, "");
  }

  /** Nothing to announce, or only a relay whose URL prints as nothing. */
  predicate Blank(relay: Option<string>, directPort: int) { directPort <= 0 && (relay == None || relay == Some("")) }

  /** Over all the lists one server can produce, the key tells them apart, except for two blank ones. */
  lemma KeyInjectiveIff(r: Option<string>, q: Option<string>, directPort: int, actualPort: nat)
    ensures Join(Addresses(r, directPort, actualPort)) == Join(Addresses(q, directPort, actualPort))
        <==> r == q || (Blank(r, directPort) && Blank(q, directPort))
    ensures Join(Addresses(r, directPort, actualPort)) == "" <==> Blank(r, directPort)
  {
    var tcp := "tcp://:" + Decimal(actualPort);
    if directPort > 0 {
      JoinTwo(r, tcp);
      JoinTwo(q, tcp);
      if r.Some? && q.Some? && r.value + ("," + tcp) == q.value + ("," + tcp) {
        assert (r.value + ("," + tcp))[..|r.value|] == r.value;
        assert (q.value + ("," + tcp))[..|q.value|] == q.value;
      }
    }
  }

  lemma JoinTwo(r: Option<string>, tcp: string)
    ensures Join((if r.Some? then [r.value] else []) + [tcp]) == if r.Some? then r.value + ("," + tcp) else tcp
  {
    if r.Some? {
      assert ([r.value] + [tcp])[1..] == [tcp];
    } else {
      assert [] + [tcp] == [tcp];
    }
  }

  /** The collision at the interface: no relay client yields such a URL, but announceAddresses would take it. */
  lemma NamelessRelayCollides()
    ensures Addresses(Some(""), 0, 0) != Addresses(None, 0, 0)
    ensures Join(Addresses(Some(""), 0, 0)) == Join(Addresses(None, 0, 0))
  {
    assert Addresses(Some(""), 0, 0) == [""];
    KeyInjectiveIff(Some(""), None, 0, 0);
  }

  // ---- The loop ----

  datatype Tick = Refresh | Recheck

  /** One turn: the addresses found, the answer a request would get, and which ticker ends the wait. */
  datatype Pass = Pass(current: seq<string>, accepted: bool, woke: Tick)

  datatype Event = Request(key: string, addresses: seq<string>, accepted: bool) | Woke(tick: Tick)

  predicate Attempts(last: string, current: seq<string>) {
    current != [] && Join(current) != last
  }

  function NextLast(last: string, p: Pass): string {
    if p.woke == Refresh then ""
    else if Attempts(last, p.current) && p.accepted then Join(p.current)
    else last
  }

  function Trace(last: string, p: Pass): seq<Event> {
    (if Attempts(last, p.current) then [Request(Join(p.current), p.current, p.accepted)] else []) + [Woke(p.woke)]
  }

  /** lastAnnounced and what happened, after a sequence of turns. */
  function After(passes: seq<Pass>): (string, seq<Event>) {
    if passes == [] then ("", []) else
      var p := passes[|passes| - 1];
      var (last, log) := After(passes[..|passes| - 1]);
      (NextLast(last, p), log + Trace(last, p))
  }

  /** The goroutine's loop over its turns. */
  method Loop(passes: seq<Pass>) returns (lastAnnounced: string, log: seq<Event>)
    ensures (lastAnnounced, log) == After(passes)
  {
    lastAnnounced, log := "", [];
    for i := 0 to |passes|
      invariant (lastAnnounced, log) == After(passes[..i])
    {
      assert passes[..i + 1][..i] == passes[..i];
      var p := passes[i];
      var key := Join(p.current);
      if p.current == [] || key == lastAnnounced {
        if p.woke == Refresh { lastAnnounced := ""; }
        assert [] + [Woke(p.woke)] == [Woke(p.woke)];
        log := log + [Woke(p.woke)];
      } else {
        log := log + ([Request(key, p.current, p.accepted)] + [Woke(p.woke)]);
        if p.accepted { lastAnnounced := key; }
        if p.woke == Refresh { lastAnnounced := ""; }
      }
    }
    assert passes[..|passes|] == passes;
  }

  /** The addresses of the latest acknowledged request, unless a refresh tick came after it. */
  function Acknowledged(log: seq<Event>): Option<seq<string>> {
    if log == [] then None else
      match log[|log| - 1]
      case Woke(Refresh) => None
      case Request(_, addresses, true) => Some(addresses)
      case _ => Acknowledged(log[..|log| - 1])
  }

  /** In every run lastAnnounced is the key of that request, and empty when there is none. */
  lemma {:induction false} LastIsAcknowledged(passes: seq<Pass>)
    ensures var (last, log) := After(passes);
      && last == (if Acknowledged(log).Some? then Join(Acknowledged(log).value) else "")
      && (Acknowledged(log).Some? ==>
            Acknowledged(log).value != [] && exists p :: p in passes && p.current == Acknowledged(log).value)
  {
    if passes != [] {
      var n := |passes| - 1;
      var p := passes[n];
      var (last, log) := After(passes[..n]);
      LastIsAcknowledged(passes[..n]);
      if Attempts(last, p.current) {
        var r := Request(Join(p.current), p.current, p.accepted);
        TwoEvents(log, r, Woke(p.woke));
        assert log + ([r] + [Woke(p.woke)]) == log + [r] + [Woke(p.woke)];
      } else {
        assert [] + [Woke(p.woke)] == [Woke(p.woke)];
        OneEvent(log, Woke(p.woke));
      }
      assert p in passes && forall q | q in passes[..n] :: q in passes;
    }
  }

  lemma OneEvent(log: seq<Event>, e: Event)
    ensures Acknowledged(log + [e]) ==
      match e
      case Woke(Refresh) => None
      case Request(_, addresses, true) => Some(addresses)
      case _ => Acknowledged(log)
  {
    assert (log + [e])[..|log|] == log;
  }

  lemma TwoEvents(log: seq<Event>, r: Event, w: Event)
    requires r.Request? && w.Woke?
    ensures Acknowledged(log + [r] + [w]) ==
      if w.tick == Refresh then None else if r.accepted then Some(r.addresses) else Acknowledged(log)
  {
    OneEvent(log, r);
    OneEvent(log + [r], w);
  }

  /**
   * In every run a turn sends a request exactly when there is something to announce and it is not
   * what was last acknowledged since the latest refresh, so that a changed address is announced on
   * the next turn; only a relay without a URL, and nothing acknowledged, keeps it silent.
   */
  lemma {:induction false} AttemptIff(
      relays: seq<Option<string>>, passes: seq<Pass>, relay: Option<string>, directPort: int, actualPort: nat)
    requires |relays| == |passes|
    requires forall i | 0 <= i < |passes| :: passes[i].current == Addresses(relays[i], directPort, actualPort)
    ensures var (last, log) := After(passes);
      var current := Addresses(relay, directPort, actualPort);
      Attempts(last, current) <==>
        && current != [] && Acknowledged(log) != Some(current)
        && !(Acknowledged(log) == None && Blank(relay, directPort))
  {
    var (last, log) := After(passes);
    LastIsAcknowledged(passes);
    KeyInjectiveIff(relay, relay, directPort, actualPort);
    if Acknowledged(log).Some? {
      var p :| p in passes && p.current == Acknowledged(log).value;
      var i :| 0 <= i < |passes| && passes[i] == p;
      KeyInjectiveIff(relays[i], relay, directPort, actualPort);
    }
  }

  // ---- Timing, in seconds ----

  const INTERVAL: real := 60.0      // UnlockAnnounceInterval
  const RECHECK: real := 15.0
  const TIMEOUT: real := 10.0       // of the HTTP client

  /** A ticker started at time 0 fires at the multiples of its period; its channel holds one tick. */
  function NextFire(received: real, period: real): (t: real)
    requires period > 0.0
  {
    ((received / period).Floor as real + 1.0) * period
  }

  lemma NextFireBounds(received: real, period: real)
    requires period > 0.0
    ensures received < NextFire(received, period) <= received + period
  {
    var q := received / period;
    Scaled(q, q.Floor as real + 1.0, period, received);
  }

  lemma Scaled(q: real, next: real, p: real, r: real)
    requires p > 0.0 && q < next <= q + 1.0 && q * p == r
    ensures r < next * p <= r + p
  {
    var d := next - q;
    var step := d * p;
    Within(d, p, step);
    Distribute(q, d, p);
    assert q + d == next && next * p == r + step;
  }

  lemma Distribute(a: real, b: real, p: real)
    ensures (a + b) * p == a * p + b * p
  {}

  lemma Within(d: real, p: real, step: real)
    requires p > 0.0 && 0.0 < d <= 1.0 && step == d * p
    ensures 0.0 < step <= p
  {
    Distribute(d, 1.0 - d, p);
  }

  /**
   * The goroutine at the top of its loop. `tickAt` and `recheckAt` say when each ticker channel
   * has or will have a tick; `seen` is the time on the discovery record, stamped while the
   * request that began at `start` was under way; `failures` counts the requests refused since.
   */
  datatype Clock = Clock(
    now: real, tickAt: real, recheckAt: real, last: string, start: real, seen: Option<real>, failures: nat)

  const STARTED := Clock(0.0, INTERVAL, RECHECK, "", 0.0, None, 0)

  /** A turn in time: what to announce, how long a request takes and when in it the record is stamped. */
  datatype TimedPass = TimedPass(key: string, took: real, stamped: real, accepted: bool, woke: Tick)

  function RequestEnd(c: Clock, p: TimedPass): real { if p.key == c.last then c.now else c.now + p.took }

  function Max(a: real, b: real): real { if a < b then b else a }

  function Min(a: real, b: real): real { if a < b then a else b }

  /** The select takes a tick that is already there at once, and otherwise waits for the first. */
  function Wake(c: Clock, p: TimedPass): real { Max(RequestEnd(c, p), Min(c.tickAt, c.recheckAt)) }

  predicate Possible(c: Clock, p: TimedPass) {
    && p.key != "" && 0.0 <= p.stamped <= p.took <= TIMEOUT
    && (if p.woke == Refresh then c.tickAt <= Wake(c, p) else c.recheckAt <= Wake(c, p))
  }

  predicate Acknowledges(c: Clock, p: TimedPass) { p.key != c.last && p.accepted }

  /** Requests refused in a row, up to and including this turn. */
  function Refused(c: Clock, p: TimedPass): nat {
    if p.key != c.last && !p.accepted then c.failures + 1 else c.failures
  }

  function Turn(c: Clock, p: TimedPass): Clock
    requires Possible(c, p)
  {
    var w, ack := Wake(c, p), Acknowledges(c, p);
    Clock(w,
          if p.woke == Refresh then NextFire(w, INTERVAL) else c.tickAt,
          if p.woke == Recheck then NextFire(w, RECHECK) else c.recheckAt,
          if p.woke == Refresh then "" else if ack then p.key else c.last,
          if ack then c.now else c.start,
          if ack then Some(c.now + p.stamped) else c.seen,
          if ack then 0 else Refused(c, p))
  }

  /** The time on the record, as a reader at time t of this turn finds it. */
  function SeenAt(c: Clock, p: TimedPass, t: real): Option<real> {
    if Acknowledges(c, p) && c.now + p.stamped <= t then Some(c.now + p.stamped) else c.seen
  }

  /** How long after the start of an accepted request the loop can be with the k requests since then refused. */
  function Span(k: nat): real { (if k <= 4 then 60.0 else 55.0) + RECHECK * k as real }

  /**
   * Relative to that start: when the loop is at its top, when its ticks are due, and whether the
   * refresh since then is still to come. The fifth refusal gains five seconds, because by then a
   * second refresh has ended a wait early; if it has not, it is due, or its recheck still is.
   */
  ghost predicate InSpan(now: real, tick: real, recheck: real, k: nat, unrefreshed: bool) {
    && now <= Span(k)
    && (unrefreshed ==> tick <= 60.0 && now <= 60.0 + 10.0 * k as real)
    && (now <= 55.0 + RECHECK * k as real || (k <= 4 && (tick <= 120.0 || recheck <= Span(k))))
  }

  ghost predicate OnTime(c: Clock) {
    && c.tickAt <= c.now + INTERVAL && c.recheckAt <= c.now + RECHECK
    && (c.seen.None? ==> c.last == "")
    && (c.seen.Some? ==>
          && c.start <= c.seen.value <= c.now
          && InSpan(c.now - c.start, c.tickAt - c.start, c.recheckAt - c.start, c.failures, c.last != ""))
  }

  lemma OnTimeTurn(c: Clock, p: TimedPass)
    requires OnTime(c) && Possible(c, p)
    ensures OnTime(Turn(c, p))
  {
    var w := Wake(c, p);
    NextFireBounds(w, INTERVAL);
    NextFireBounds(w, RECHECK);
    var k := c.failures;
    assert RECHECK * (k + 1) as real == RECHECK * k as real + RECHECK;
    assert 10.0 * (k + 1) as real == 10.0 * k as real + 10.0;
  }

  /**
   * During a turn no reader finds a record from the future, or one older than Span and the ten seconds
   * a request takes to replace it; what the last reader finds is what the turn leaves.
   */
  lemma AgeBound(c: Clock, p: TimedPass, t: real)
    requires OnTime(c) && Possible(c, p) && c.now <= t <= Wake(c, p) && SeenAt(c, p, t).Some?
    ensures 0.0 <= t - SeenAt(c, p, t).value <= Span(Refused(c, p)) + TIMEOUT
    ensures SeenAt(c, p, Wake(c, p)) == Turn(c, p).seen
  {
    OnTimeTurn(c, p);
  }

  predicate Schedule(c: Clock, passes: seq<TimedPass>)
    decreases |passes|
  {
    passes == [] || (Possible(c, passes[0]) && Schedule(Turn(c, passes[0]), passes[1..]))
  }

  function ClockAfter(c: Clock, passes: seq<TimedPass>): Clock
    requires Schedule(c, passes)
    decreases |passes|
  {
    if passes == [] then c else ClockAfter(Turn(c, passes[0]), passes[1..])
  }

  lemma {:induction false} OnTimeRun(c: Clock, passes: seq<TimedPass>)
    requires OnTime(c) && Schedule(c, passes)
    ensures OnTime(ClockAfter(c, passes))
    decreases |passes|
  {
    if passes != [] {
      OnTimeTurn(c, passes[0]);
      OnTimeRun(Turn(c, passes[0]), passes[1..]);
    }
  }

  // ---- Turn by turn ----

  /** A schedule made one turn longer. */
  lemma {:induction false} OneMoreTurn(c: Clock, passes: seq<TimedPass>, p: TimedPass)
    ensures Schedule(c, passes + [p]) <==> Schedule(c, passes) && Possible(ClockAfter(c, passes), p)
    ensures Schedule(c, passes + [p]) ==> ClockAfter(c, passes + [p]) == Turn(ClockAfter(c, passes), p)
    decreases |passes|
  {
    var longer := passes + [p];
    if passes == [] {
      assert longer[1..] == [];
    } else {
      assert longer[1..] == passes[1..] + [p];
      if Possible(c, passes[0]) { OneMoreTurn(Turn(c, passes[0]), passes[1..], p); }
    }
  }

  /** The n-th turn of a schedule, and an instant of it. */
  ghost predicate At(turns: seq<TimedPass>, n: int, t: real) {
    && 0 <= n < |turns| && Schedule(STARTED, turns[..n])
    && Possible(Begun(turns, n), turns[n]) && Begun(turns, n).now <= t <= Wake(Begun(turns, n), turns[n])
  }

  ghost function Begun(turns: seq<TimedPass>, n: nat): Clock
    requires n <= |turns| && Schedule(STARTED, turns[..n])
  {
    ClockAfter(STARTED, turns[..n])
  }

  /** The record a reader finds at that instant. */
  ghost function RecordAt(turns: seq<TimedPass>, n: nat, t: real): Option<real>
    requires At(turns, n, t)
  {
    SeenAt(Begun(turns, n), turns[n], t)
  }

  /** How many requests in a row have been refused by then, this turn's included. */
  ghost function RefusedBy(turns: seq<TimedPass>, n: nat, t: real): nat
    requires At(turns, n, t)
  {
    Refused(Begun(turns, n), turns[n])
  }

  /** A record that is there stays there. */
  lemma RecordStays(turns: seq<TimedPass>, m: nat, s: real, n: nat, t: real)
    requires At(turns, m, s) && RecordAt(turns, m, s).Some?
    requires At(turns, n, t) && m <= n && s <= t
    ensures RecordAt(turns, n, t).Some?
  {
    if m < n { SeenStays(turns, m, n); }
  }

  lemma {:induction false} SeenStays(turns: seq<TimedPass>, m: nat, n: nat)
    requires m < n <= |turns| && Schedule(STARTED, turns[..m]) && Schedule(STARTED, turns[..n])
    requires Begun(turns, m).seen.Some? || Acknowledges(Begun(turns, m), turns[m])
    ensures Begun(turns, n).seen.Some?
    decreases n
  {
    assert turns[..n] == turns[..n - 1] + [turns[n - 1]];
    OneMoreTurn(STARTED, turns[..n - 1], turns[n - 1]);
    if m < n - 1 { SeenStays(turns, m, n - 1); }
  }

  /** Over every schedule: with k requests refused in a row, a record that is there is at most Span(k) + 10 old. */
  lemma RecordStaysFresh(turns: seq<TimedPass>, n: nat, t: real)
    requires At(turns, n, t) && RecordAt(turns, n, t).Some?
    ensures 0.0 <= t - RecordAt(turns, n, t).value <= Span(RefusedBy(turns, n, t)) + 10.0
  {
    OnTimeRun(STARTED, turns[..n]);
    AgeBound(Begun(turns, n), turns[n], t);
  }

  // ---- The bound is reached ----

  /** When a ticker fires next, counted in its periods. */
  lemma NextFireIs(received: real, period: real, n: nat)
    requires period > 0.0 && n as real * period <= received < (n + 1) as real * period
    ensures NextFire(received, period) == (n + 1) as real * period
  {
    var q := received / period;
    assert q * period == received;
    FloorIs(q, n, period);
  }

  lemma FloorIs(q: real, n: nat, p: real)
    requires p > 0.0 && n as real * p <= q * p < (n + 1) as real * p
    ensures q.Floor == n
  {
    if q < n as real { Scales(q, n as real, p); }
    if q >= (n + 1) as real && q > (n + 1) as real { Scales((n + 1) as real, q, p); }
  }

  lemma Scales(a: real, b: real, p: real)
    requires p > 0.0 && a < b
    ensures a * p < b * p
  {
    var d := b - a;
    var step := d * p;
    assert step > 0.0;
    Distribute(a, d, p);
    assert a + d == b && b * p == a * p + step;
  }

  /** The n-th turn of the worst schedule: announced at once, refreshed after a minute, then refused each time. */
  function WorstPass(n: nat): TimedPass {
    if n < 4 then TimedPass("k", 0.0, 0.0, true, Recheck)
    else if n == 4 then TimedPass("k", 0.0, 0.0, true, Refresh)
    else TimedPass("k", TIMEOUT, 0.0, false, if n == 9 then Refresh else Recheck)
  }

  function Worst(n: nat): seq<TimedPass> { seq(n, i requires 0 <= i < n => WorstPass(i)) }

  /** Where k refusals leave the loop. */
  function WorstClock(k: nat): Clock
    requires k <= 6
  {
    if k <= 4 then Clock(60.0 + 15.0 * k as real, 120.0, 75.0 + 15.0 * k as real, "", 0.0, Some(0.0), k)
    else Clock(80.0 + 10.0 * k as real, 180.0, if k == 5 then 135.0 else 150.0, "", 0.0, Some(0.0), k)
  }

  function ClockAt(n: nat): Clock
    requires n <= 11
  {
    if n == 0 then STARTED
    else if n < 5 then Clock(15.0 * n as real, 60.0, 15.0 * n as real + 15.0, "k", 0.0, Some(0.0), 0)
    else WorstClock(n - 5)
  }

  lemma WorstTurn(n: nat)
    requires n < 11
    ensures Possible(ClockAt(n), WorstPass(n)) && Turn(ClockAt(n), WorstPass(n)) == ClockAt(n + 1)
  {
    var w := Wake(ClockAt(n), WorstPass(n));
    if n < 4 {
      NextFireIs(w, RECHECK, n + 1);
    } else if n == 4 {
      NextFireIs(w, INTERVAL, 1);
    } else if n < 9 {
      NextFireIs(w, RECHECK, n);
    } else if n == 9 {
      NextFireIs(w, INTERVAL, 2);
    } else {
      NextFireIs(w, RECHECK, 9);
    }
  }

  lemma WorstSnoc(n: nat)
    requires n > 0
    ensures Worst(n) == Worst(n - 1) + [WorstPass(n - 1)]
  {}

  ghost predicate Reaches(c: Clock, passes: seq<TimedPass>, d: Clock) {
    Schedule(c, passes) && ClockAfter(c, passes) == d
  }

  lemma Follows(c: Clock, passes: seq<TimedPass>, d: Clock, p: TimedPass)
    requires Reaches(c, passes, d) && Possible(d, p)
    ensures Reaches(c, passes + [p], Turn(d, p))
  {
    OneMoreTurn(c, passes, p);
  }

  lemma {:induction false} WorstRuns(n: nat)
    requires n <= 11
    ensures Reaches(STARTED, Worst(n), ClockAt(n))
  {
    if n == 0 {
      assert Worst(0) == [];
    } else {
      WorstRuns(n - 1);
      WorstTurn(n - 1);
      WorstSnoc(n);
      Follows(STARTED, Worst(n - 1), ClockAt(n - 1), WorstPass(n - 1));
    }
  }

  /** Up to five refusals Span is reached; a sixth leaves the loop at 140 seconds. */
  lemma SpanReached(k: nat)
    requires k <= 6
    ensures Reaches(STARTED, Worst(k + 5), WorstClock(k))
    ensures WorstClock(k).now == if k <= 5 then Span(k) else 140.0
  {
    WorstRuns(k + 5);
  }
}
