/**
 * main.go and webrtc.go: two ends, each running pipeBiDirectional over one connection.
 *
 * Every end has a copier from its stdin to the connection and a copier from the connection to
 * its stdout. The connection is two byte queues. The transport contract is in CanAct and Act:
 *   - bytes arrive in order, and end-of-file only once the queue has been read empty;
 *   - with half-close, closing one direction leaves the other alone and loses nothing;
 *   - a data channel cannot half-close: an end that reads end-of-file has its own sending
 *     direction reset as well, and closing may cut off bytes that were not flushed.
 */
module Pipe {
  import opened Bytes

  datatype Transport = HalfClose | DataChannel
  datatype End = A | B

  function Other(e: End): End { if e == A then B else A }

  /** The stdin copier: copying, about to call CloseWrite, or finished. */
  datatype Copier = Copying | Closing | Done

  /** One end. Its outgoing queue holds what it wrote and the peer has not read. */
  datatype Side = Side(
    input: seq<Byte>, sent: nat, copier: Copier,
    queue: seq<Byte>, closed: bool,
    output: seq<Byte>, sawEof: bool, returned: bool)

  datatype State = State(a: Side, b: Side)

  function Get(s: State, e: End): Side { if e == A then s.a else s.b }

  /**
   * `quiet`: an end that sent nothing does not signal end-of-input. `flushes`: CloseWrite always
   * drains its buffer before its timeout. `graceFires`: the grace timer may end the wait for stdin.
   */
  datatype Config = Config(transport: Transport, quiet: bool, flushes: bool, graceFires: bool)

  datatype Action =
    | Send(k: nat)             // the stdin copier moves k bytes into the connection
    | SendFails                // its write is refused: it stops without CloseWrite
    | StdinEof                 // stdin is at end-of-file
    | CloseWrite(kept: nat)
    | Receive(k: nat)          // the stdout copier moves k bytes out of the connection
    | ReceiveEof(kept: nat)
    | Return(kept: nat)        // the wait for stdin is over and the caller closes the connection

  function Start(inputA: seq<Byte>, inputB: seq<Byte>): State {
    State(Side(inputA, 0, Copying, [], false, [], false, false),
          Side(inputB, 0, Copying, [], false, [], false, false))
  }

  /** Closing the sending direction; only an open data channel may lose the end of the queue. */
  function Close(x: Side, kept: nat): Side {
    x.(queue := if kept <= |x.queue| then x.queue[..kept] else x.queue, closed := true)
  }

  predicate MayKeep(cfg: Config, x: Side, kept: nat) {
    kept <= |x.queue| && (cfg.transport == HalfClose || x.closed ==> kept == |x.queue|)
  }

  /** When end x can take the action, y being its peer. */
  predicate CanAct(cfg: Config, x: Side, y: Side, act: Action) {
    match act
    case Send(k) => x.copier == Copying && !x.closed && 1 <= k <= 32768 && x.sent + k <= |x.input|
    case SendFails => x.copier == Copying && x.sent < |x.input| && (x.closed || y.returned)
    case StdinEof => x.copier == Copying && x.sent == |x.input|
    case CloseWrite(kept) => x.copier == Closing && MayKeep(cfg, x, kept) && (cfg.flushes ==> kept == |x.queue|)
    case Receive(k) => !x.sawEof && 1 <= k <= |y.queue|
    case ReceiveEof(kept) => !x.sawEof && y.queue == [] && y.closed && MayKeep(cfg, x, kept)
    case Return(kept) => x.sawEof && !x.returned && (cfg.graceFires || x.copier == Done) && MayKeep(cfg, x, kept)
  }

  /** What the action does to x. */
  function Act(cfg: Config, x: Side, y: Side, act: Action): Side
    requires CanAct(cfg, x, y, act)
  {
    match act
    case Send(k) => x.(sent := x.sent + k, queue := x.queue + x.input[x.sent..x.sent + k])
    case SendFails => x.(copier := Done)
    case StdinEof => x.(copier := if cfg.quiet && x.sent == 0 then Done else Closing)
    case CloseWrite(kept) => Close(x.(copier := Done), kept)
    case Receive(k) => x.(output := x.output + y.queue[..k])
    case ReceiveEof(kept) =>
      if cfg.transport == HalfClose then x.(sawEof := true) else Close(x.(sawEof := true), kept)
    case Return(kept) => Close(x.(returned := true), kept)
  }

  /** Receiving is the one action that touches the peer: it takes bytes off the peer's queue. */
  function Peer(y: Side, act: Action): Side {
    if act.Receive? && act.k <= |y.queue| then y.(queue := y.queue[act.k..]) else y
  }

  predicate Can(cfg: Config, s: State, e: End, act: Action) {
    if e == A then CanAct(cfg, s.a, s.b, act) else CanAct(cfg, s.b, s.a, act)
  }

  function Next(cfg: Config, s: State, e: End, act: Action): State
    requires Can(cfg, s, e, act)
  {
    if e == A then State(Act(cfg, s.a, s.b, act), Peer(s.b, act))
    else State(Peer(s.a, act), Act(cfg, s.b, s.a, act))
  }

  datatype Event = Event(e: End, act: Action)

  /** A run from s: every event is possible when it happens. */
  predicate Run(cfg: Config, s: State, run: seq<Event>)
    decreases |run|
  {
    run == [] || (Can(cfg, s, run[0].e, run[0].act) && Run(cfg, Next(cfg, s, run[0].e, run[0].act), run[1..]))
  }

  function Last(cfg: Config, s: State, run: seq<Event>): State
    requires Run(cfg, s, run)
    decreases |run|
  {
    if run == [] then s else Last(cfg, Next(cfg, s, run[0].e, run[0].act), run[1..])
  }

  ghost predicate Enabled(cfg: Config, s: State) {
    exists e, act :: Can(cfg, s, e, act)
  }

  ghost predicate Finished(s: State) { s.a.returned && s.b.returned }

  /** What one step keeps, every run keeps. */
  lemma {:induction false} RunKeeps(cfg: Config, s: State, run: seq<Event>, inv: State -> bool)
    requires Run(cfg, s, run) && inv(s)
    requires forall u, e, act :: inv(u) && Can(cfg, u, e, act) ==> inv(Next(cfg, u, e, act))
    ensures inv(Last(cfg, s, run))
    decreases |run|
  {
    if run != [] {
      RunKeeps(cfg, Next(cfg, s, run[0].e, run[0].act), run[1..], inv);
    }
  }

  // ---- Safety ----

  /** x has sent a prefix of its input, and the other end holds or will hold a prefix of that. */
  ghost predicate InOrder(cfg: Config, x: Side, y: Side) {
    && x.sent <= |x.input|
    && y.output + x.queue <= x.input[..x.sent]
    && (cfg.transport == HalfClose || !x.closed ==> y.output + x.queue == x.input[..x.sent])
  }

  ghost predicate Safe(cfg: Config, s: State) { InOrder(cfg, s.a, s.b) && InOrder(cfg, s.b, s.a) }

  lemma SafeAct(cfg: Config, x: Side, y: Side, act: Action)
    requires InOrder(cfg, x, y) && InOrder(cfg, y, x) && CanAct(cfg, x, y, act)
    ensures InOrder(cfg, Act(cfg, x, y, act), Peer(y, act)) && InOrder(cfg, Peer(y, act), Act(cfg, x, y, act))
  {
    match act
    case Send(k) => SendKeeps(cfg, x, y, k);
    case Receive(k) => ReceiveKeeps(cfg, y, x, k);
    case CloseWrite(kept) => CutKeeps(cfg, x, y, kept);
    case ReceiveEof(kept) => CutKeeps(cfg, x, y, kept);
    case Return(kept) => CutKeeps(cfg, x, y, kept);
    case _ =>
  }

  lemma SafeStep(cfg: Config, s: State, e: End, act: Action)
    requires Safe(cfg, s) && Can(cfg, s, e, act)
    ensures var t := Next(cfg, s, e, act);
      Safe(cfg, t) && t.a.input == s.a.input && t.b.input == s.b.input
  {
    if e == A { SafeAct(cfg, s.a, s.b, act); } else { SafeAct(cfg, s.b, s.a, act); }
  }

  lemma SendKeeps(cfg: Config, x: Side, y: Side, k: nat)
    requires InOrder(cfg, x, y) && !x.closed && x.sent + k <= |x.input|
    ensures InOrder(cfg, x.(sent := x.sent + k, queue := x.queue + x.input[x.sent..x.sent + k]), y)
  {
    assert x.input[..x.sent + k] == x.input[..x.sent] + x.input[x.sent..x.sent + k];
    assert y.output + (x.queue + x.input[x.sent..x.sent + k]) == (y.output + x.queue) + x.input[x.sent..x.sent + k];
  }

  lemma ReceiveKeeps(cfg: Config, x: Side, y: Side, k: nat)
    requires InOrder(cfg, x, y) && k <= |x.queue|
    ensures InOrder(cfg, x.(queue := x.queue[k..]), y.(output := y.output + x.queue[..k]))
  {
    assert (y.output + x.queue[..k]) + x.queue[k..] == y.output + x.queue;
  }

  lemma CutKeeps(cfg: Config, x: Side, y: Side, kept: nat)
    requires InOrder(cfg, x, y) && kept <= |x.queue|
    ensures kept == |x.queue| ==> x.queue[..kept] == x.queue
    ensures y.output + x.queue[..kept] <= x.input[..x.sent]
  {
    assert y.output + x.queue[..kept] <= y.output + x.queue;
  }

  /** In every reachable state each stdout is a prefix of the peer's stdin. */
  lemma OutputIsPrefix(cfg: Config, inputA: seq<Byte>, inputB: seq<Byte>, run: seq<Event>)
    requires Run(cfg, Start(inputA, inputB), run)
    ensures var s := Last(cfg, Start(inputA, inputB), run);
      Safe(cfg, s) && s.a.output <= inputB && s.b.output <= inputA
  {
    SafeRun(cfg, inputA, inputB, run);
  }

  lemma SafeRun(cfg: Config, inputA: seq<Byte>, inputB: seq<Byte>, run: seq<Event>)
    requires Run(cfg, Start(inputA, inputB), run)
    ensures var s := Last(cfg, Start(inputA, inputB), run);
      Safe(cfg, s) && s.a.input == inputA && s.b.input == inputB
  {
    var inv := (u: State) => Safe(cfg, u) && u.a.input == inputA && u.b.input == inputB;
    forall u, e, act | inv(u) && Can(cfg, u, e, act) ensures inv(Next(cfg, u, e, act)) { SafeStep(cfg, u, e, act); }
    RunKeeps(cfg, Start(inputA, inputB), run, inv);
  }

  // ---- Termination ----

  function Work(x: Side): nat
    requires x.sent <= |x.input|
  {
    2 * (|x.input| - x.sent) + |x.queue|
    + (match x.copier case Copying => 2 case Closing => 1 case Done => 0)
    + (if x.sawEof then 0 else 1) + (if x.returned then 0 else 1)
  }

  lemma WorkDecreases(cfg: Config, s: State, e: End, act: Action)
    requires Safe(cfg, s) && Can(cfg, s, e, act)
    ensures var t := Next(cfg, s, e, act);
      Safe(cfg, t) && Work(t.a) + Work(t.b) < Work(s.a) + Work(s.b)
  {
    SafeStep(cfg, s, e, act);
    if e == A { WorkAct(cfg, s.a, s.b, act); } else { WorkAct(cfg, s.b, s.a, act); }
  }

  lemma WorkAct(cfg: Config, x: Side, y: Side, act: Action)
    requires CanAct(cfg, x, y, act) && x.sent <= |x.input| && y.sent <= |y.input|
    requires Act(cfg, x, y, act).sent <= |x.input|
    ensures Work(Act(cfg, x, y, act)) + Work(Peer(y, act)) < Work(x) + Work(y)
  {}

  /** Every run is finite: no interleaving and no timer can keep the two ends busy forever. */
  lemma {:induction false} RunsAreBounded(cfg: Config, s: State, run: seq<Event>)
    requires Safe(cfg, s) && Run(cfg, s, run)
    ensures |run| <= Work(s.a) + Work(s.b)
    decreases |run|
  {
    if run != [] {
      WorkDecreases(cfg, s, run[0].e, run[0].act);
      RunsAreBounded(cfg, Next(cfg, s, run[0].e, run[0].act), run[1..]);
    }
  }

  // ---- Deadlock ----

  /** With the quiet rule: who has closed what. */
  ghost predicate Orderly(x: Side, y: Side) {
    && x.sent <= |x.input|
    && (x.copier == Done && !x.closed ==> x.input == [] || y.returned)
    && (x.copier == Closing ==> x.sent == |x.input| > 0)
    && (x.returned ==> x.sawEof && x.closed)
    && (x.sawEof ==> y.closed)
    && (x.input == [] ==> x.queue == [])
    && (x.closed ==> x.input != [] || x.sawEof)
  }

  ghost predicate OrderlyState(s: State, inputA: seq<Byte>, inputB: seq<Byte>) {
    && Orderly(s.a, s.b) && Orderly(s.b, s.a) && s.a.input == inputA && s.b.input == inputB
    && (inputA == [] && inputB == [] ==> !s.a.closed && !s.b.closed)
  }

  lemma OrderlyStep(cfg: Config, s: State, e: End, act: Action, inputA: seq<Byte>, inputB: seq<Byte>)
    requires cfg.quiet && OrderlyState(s, inputA, inputB) && Can(cfg, s, e, act)
    ensures OrderlyState(Next(cfg, s, e, act), inputA, inputB)
  {
    var t := Next(cfg, s, e, act);
    assert Orderly(Get(s, e), Get(s, Other(e))) && Orderly(Get(s, Other(e)), Get(s, e));
    assert Orderly(Get(t, e), Get(t, Other(e))) && Orderly(Get(t, Other(e)), Get(t, e));
  }

  lemma OrderlyRun(cfg: Config, inputA: seq<Byte>, inputB: seq<Byte>, run: seq<Event>)
    requires cfg.quiet && Run(cfg, Start(inputA, inputB), run)
    ensures OrderlyState(Last(cfg, Start(inputA, inputB), run), inputA, inputB)
  {
    var inv := (u: State) => OrderlyState(u, inputA, inputB);
    forall u, e, act | inv(u) && Can(cfg, u, e, act) ensures inv(Next(cfg, u, e, act)) {
      OrderlyStep(cfg, u, e, act, inputA, inputB);
    }
    RunKeeps(cfg, Start(inputA, inputB), run, inv);
  }

  /** An end that can do nothing has finished copying and, unless it returned, waits on an open, empty queue. */
  lemma Waiting(cfg: Config, s: State, e: End)
    requires !Enabled(cfg, s) && Get(s, e).sent <= |Get(s, e).input|
    ensures var x, y := Get(s, e), Get(s, Other(e));
      x.copier == Done && (!x.returned ==> !x.sawEof && y.queue == [] && !y.closed)
  {
    var x, y := Get(s, e), Get(s, Other(e));
    assert !Can(cfg, s, e, StdinEof) && !Can(cfg, s, e, Send(1)) && !Can(cfg, s, e, SendFails);
    assert !Can(cfg, s, e, CloseWrite(|x.queue|)) && !Can(cfg, s, e, Return(|x.queue|));
    assert !Can(cfg, s, e, Receive(1)) && !Can(cfg, s, e, ReceiveEof(|x.queue|));
  }

  /** A run that can go no further has both calls returned, unless neither end had anything to send. */
  lemma StuckIff(cfg: Config, inputA: seq<Byte>, inputB: seq<Byte>, run: seq<Event>)
    requires cfg.quiet && Run(cfg, Start(inputA, inputB), run)
    requires !Enabled(cfg, Last(cfg, Start(inputA, inputB), run))
    ensures Finished(Last(cfg, Start(inputA, inputB), run)) <==> inputA != [] || inputB != []
  {
    var s := Last(cfg, Start(inputA, inputB), run);
    OrderlyRun(cfg, inputA, inputB, run);
    Waiting(cfg, s, A);
    Waiting(cfg, s, B);
  }

  // ---- Delivery ----

  /** Whatever the interleaving, an end that has returned holds all of what the other had to send. */
  ghost predicate Delivers(cfg: Config, inputA: seq<Byte>, inputB: seq<Byte>) {
    forall run | Run(cfg, Start(inputA, inputB), run) ::
      var s := Last(cfg, Start(inputA, inputB), run);
      (s.b.returned ==> s.b.output == inputA) && (s.a.returned ==> s.a.output == inputB)
  }

  /** b sends nothing and keeps quiet, so only a ends a's direction, and only when all of it is flushed. */
  ghost predicate OneWay(a: Side, b: Side) {
    && b.input == [] && b.sent == 0 && b.queue == [] && b.copier != Closing
    && (b.closed ==> b.sawEof) && (b.returned ==> b.sawEof)
    && (a.sawEof ==> b.closed) && (a.returned ==> a.sawEof)
    && a.input != [] && a.sent <= |a.input|
    && (a.copier == Closing ==> a.sent == |a.input|)
    && (a.copier == Done <==> a.closed)
    && (a.closed ==> a.sent == |a.input|)
    && b.output + a.queue == a.input[..a.sent]
    && (b.sawEof ==> a.closed && a.queue == [])
  }

  predicate Guarded(cfg: Config) { cfg.quiet && (cfg.transport == HalfClose || cfg.flushes) }

  lemma OneWayStep(cfg: Config, s: State, e: End, act: Action)
    requires Guarded(cfg) && OneWay(s.a, s.b) && Can(cfg, s, e, act)
    ensures var t := Next(cfg, s, e, act);
      OneWay(t.a, t.b) && t.a.input == s.a.input
  {
    var a, b := s.a, s.b;
    assert a.queue[..|a.queue|] == a.queue;
    if e == A && act.Send? {
      assert a.input[..a.sent + act.k] == a.input[..a.sent] + a.input[a.sent..a.sent + act.k];
      Associative(b.output, a.queue, a.input[a.sent..a.sent + act.k]);
    } else if e == B && act.Receive? {
      assert (b.output + a.queue[..act.k]) + a.queue[act.k..] == b.output + a.queue;
    }
  }

  lemma OneWayDelivers(cfg: Config, inputA: seq<Byte>)
    requires Guarded(cfg) && inputA != []
    ensures Delivers(cfg, inputA, [])
  {
    forall run | Run(cfg, Start(inputA, []), run)
      ensures var s := Last(cfg, Start(inputA, []), run);
        (s.b.returned ==> s.b.output == inputA) && (s.a.returned ==> s.a.output == [])
    {
      var inv := (u: State) => OneWay(u.a, u.b) && u.a.input == inputA;
      forall u, e, act | inv(u) && Can(cfg, u, e, act) ensures inv(Next(cfg, u, e, act)) { OneWayStep(cfg, u, e, act); }
      RunKeeps(cfg, Start(inputA, []), run, inv);
      OutputIsPrefix(cfg, inputA, [], run);
    }
  }

  /** Half-close and no grace timer: a direction is closed only after everything was sent. */
  ghost predicate Whole(x: Side, y: Side) {
    && x.sent <= |x.input|
    && (x.copier != Copying ==> x.sent == |x.input|)
    && (x.closed ==> x.copier == Done)
    && (x.returned ==> x.sawEof)
    && (y.sawEof ==> x.closed && x.queue == [])
    && y.output + x.queue == x.input[..x.sent]
  }

  lemma WholeAct(cfg: Config, x: Side, y: Side, act: Action)
    requires cfg.transport == HalfClose && !cfg.graceFires && Whole(x, y) && Whole(y, x) && CanAct(cfg, x, y, act)
    ensures Whole(Act(cfg, x, y, act), Peer(y, act)) && Whole(Peer(y, act), Act(cfg, x, y, act))
  {
    assert x.queue[..|x.queue|] == x.queue;
    if act.Send? {
      assert x.input[..x.sent + act.k] == x.input[..x.sent] + x.input[x.sent..x.sent + act.k];
      Associative(y.output, x.queue, x.input[x.sent..x.sent + act.k]);
    } else if act.Receive? {
      assert (x.output + y.queue[..act.k]) + y.queue[act.k..] == x.output + y.queue;
    }
  }

  lemma WholeStep(cfg: Config, s: State, e: End, act: Action)
    requires cfg.transport == HalfClose && !cfg.graceFires && Whole(s.a, s.b) && Whole(s.b, s.a) && Can(cfg, s, e, act)
    ensures var t := Next(cfg, s, e, act);
      Whole(t.a, t.b) && Whole(t.b, t.a) && t.a.input == s.a.input && t.b.input == s.b.input
  {
    if e == A { WholeAct(cfg, s.a, s.b, act); } else { WholeAct(cfg, s.b, s.a, act); }
  }

  lemma TwoWayDelivers(cfg: Config, inputA: seq<Byte>, inputB: seq<Byte>)
    requires cfg.transport == HalfClose && !cfg.graceFires
    ensures Delivers(cfg, inputA, inputB)
  {
    forall run | Run(cfg, Start(inputA, inputB), run)
      ensures var s := Last(cfg, Start(inputA, inputB), run);
        (s.b.returned ==> s.b.output == inputA) && (s.a.returned ==> s.a.output == inputB)
    {
      WholeRun(cfg, inputA, inputB, run);
      var s := Last(cfg, Start(inputA, inputB), run);
      if s.b.returned { WholeArrives(s.a, s.b); }
      if s.a.returned { WholeArrives(s.b, s.a); }
    }
  }

  lemma WholeRun(cfg: Config, inputA: seq<Byte>, inputB: seq<Byte>, run: seq<Event>)
    requires cfg.transport == HalfClose && !cfg.graceFires && Run(cfg, Start(inputA, inputB), run)
    ensures var s := Last(cfg, Start(inputA, inputB), run);
      Whole(s.a, s.b) && Whole(s.b, s.a) && s.a.input == inputA && s.b.input == inputB
  {
    var inv := (u: State) => Whole(u.a, u.b) && Whole(u.b, u.a) && u.a.input == inputA && u.b.input == inputB;
    forall u, e, act | inv(u) && Can(cfg, u, e, act) ensures inv(Next(cfg, u, e, act)) { WholeStep(cfg, u, e, act); }
    RunKeeps(cfg, Start(inputA, inputB), run, inv);
  }

  lemma WholeArrives(x: Side, y: Side)
    requires Whole(x, y) && y.returned && y.sawEof
    ensures y.output == x.input
  {
    assert x.input[..|x.input|] == x.input;
  }

  // ---- The runs that lose data ----

  /** A run made one event longer. */
  lemma {:induction false} Extend(cfg: Config, start: State, run: seq<Event>, s: State, ev: Event)
    returns (t: State, longer: seq<Event>)
    requires Run(cfg, start, run) && Last(cfg, start, run) == s && Can(cfg, s, ev.e, ev.act)
    ensures t == Next(cfg, s, ev.e, ev.act) && longer == run + [ev]
    ensures Run(cfg, start, longer) && Last(cfg, start, longer) == t
    decreases |run|
  {
    t, longer := Next(cfg, s, ev.e, ev.act), run + [ev];
    if run == [] {
      assert longer[1..] == [];
    } else {
      var _, rest := Extend(cfg, Next(cfg, start, run[0].e, run[0].act), run[1..], s, ev);
      assert longer[1..] == rest;
    }
  }

  /** Without the quiet rule the receiver's own end-of-file cuts off what it is waiting for. */
  lemma LoudReceiverLoses(cfg: Config)
    requires !cfg.quiet && (cfg.transport == DataChannel || cfg.graceFires)
    ensures !Delivers(cfg, [7], [])
  {
    var third := if cfg.transport == DataChannel then SendFails else Return(0);
    var s, run := Start([7], []), [];
    s, run := Extend(cfg, Start([7], []), run, s, Event(B, StdinEof));
    s, run := Extend(cfg, Start([7], []), run, s, Event(B, CloseWrite(0)));
    s, run := Extend(cfg, Start([7], []), run, s, Event(A, ReceiveEof(0)));
    s, run := Extend(cfg, Start([7], []), run, s, Event(A, third));
    s, run := Extend(cfg, Start([7], []), run, s, Event(B, ReceiveEof(0)));
    s, run := Extend(cfg, Start([7], []), run, s, Event(B, Return(0)));
  }

  /** A flush that gives up loses the payload on a data channel. */
  lemma CutFlushLoses(cfg: Config)
    requires cfg.quiet && cfg.transport == DataChannel && !cfg.flushes
    ensures !Delivers(cfg, [7], [])
  {
    var s, run := Start([7], []), [];
    s, run := Extend(cfg, Start([7], []), run, s, Event(A, Send(1)));
    s, run := Extend(cfg, Start([7], []), run, s, Event(A, StdinEof));
    s, run := Extend(cfg, Start([7], []), run, s, Event(A, CloseWrite(0)));
    s, run := Extend(cfg, Start([7], []), run, s, Event(B, StdinEof));
    s, run := Extend(cfg, Start([7], []), run, s, Event(B, ReceiveEof(0)));
    s, run := Extend(cfg, Start([7], []), run, s, Event(B, Return(0)));
  }

  /** The end that finishes first cuts the other off: on a data channel by the mirrored reset. */
  lemma ResetCutsSender(cfg: Config)
    requires cfg.transport == DataChannel
    ensures !Delivers(cfg, [1], [2])
  {
    var s, run := Start([1], [2]), [];
    s, run := Extend(cfg, Start([1], [2]), run, s, Event(A, Send(1)));
    s, run := Extend(cfg, Start([1], [2]), run, s, Event(A, StdinEof));
    s, run := Extend(cfg, Start([1], [2]), run, s, Event(A, CloseWrite(1)));
    s, run := Extend(cfg, Start([1], [2]), run, s, Event(B, Receive(1)));
    s, run := Extend(cfg, Start([1], [2]), run, s, Event(B, ReceiveEof(0)));
    s, run := Extend(cfg, Start([1], [2]), run, s, Event(A, ReceiveEof(0)));
    s, run := Extend(cfg, Start([1], [2]), run, s, Event(A, Return(0)));
  }

  /** Elsewhere by the grace timer, which returns and closes while stdin is still being copied. */
  lemma GraceCutsSender(cfg: Config)
    requires cfg.transport == HalfClose && cfg.graceFires
    ensures !Delivers(cfg, [1], [2])
  {
    var s, run := Start([1], [2]), [];
    s, run := Extend(cfg, Start([1], [2]), run, s, Event(A, Send(1)));
    s, run := Extend(cfg, Start([1], [2]), run, s, Event(A, StdinEof));
    s, run := Extend(cfg, Start([1], [2]), run, s, Event(A, CloseWrite(1)));
    s, run := Extend(cfg, Start([1], [2]), run, s, Event(B, Receive(1)));
    s, run := Extend(cfg, Start([1], [2]), run, s, Event(B, ReceiveEof(0)));
    s, run := Extend(cfg, Start([1], [2]), run, s, Event(B, Return(0)));
    s, run := Extend(cfg, Start([1], [2]), run, s, Event(A, ReceiveEof(0)));
    s, run := Extend(cfg, Start([1], [2]), run, s, Event(A, Return(0)));
  }

  /** One-way transfer is safe in exactly these settings; with the quiet rule no timer matters. */
  lemma OneWayIff(cfg: Config)
    ensures (forall input | input != [] :: Delivers(cfg, input, []))
        <==> (Guarded(cfg) || (cfg.transport == HalfClose && !cfg.graceFires))
  {
    if Guarded(cfg) {
      forall input | input != [] ensures Delivers(cfg, input, []) { OneWayDelivers(cfg, input); }
    } else if cfg.transport == HalfClose && !cfg.graceFires {
      forall input | input != [] ensures Delivers(cfg, input, []) { TwoWayDelivers(cfg, input, []); }
    } else if cfg.quiet {
      CutFlushLoses(cfg);
    } else {
      LoudReceiverLoses(cfg);
    }
  }

  /** Transfer both ways is safe exactly on a half-closing transport whose grace timer does not fire. */
  lemma TwoWayIff(cfg: Config)
    ensures (forall inputA, inputB :: Delivers(cfg, inputA, inputB))
        <==> cfg.transport == HalfClose && !cfg.graceFires
  {
    if cfg.transport == HalfClose && !cfg.graceFires {
      forall inputA, inputB ensures Delivers(cfg, inputA, inputB) { TwoWayDelivers(cfg, inputA, inputB); }
    } else if cfg.transport == DataChannel {
      ResetCutsSender(cfg);
    } else {
      GraceCutsSender(cfg);
    }
  }

  /** The unlock case end to end: any way of running it to the end delivers the payload and ends both calls. */
  lemma OneWayCompletes(cfg: Config, input: seq<Byte>, run: seq<Event>)
    requires Guarded(cfg) && input != [] && Run(cfg, Start(input, []), run)
    requires !Enabled(cfg, Last(cfg, Start(input, []), run))
    ensures var s := Last(cfg, Start(input, []), run);
      Finished(s) && s.b.output == input && s.a.output == []
  {
    StuckIff(cfg, input, [], run);
    OneWayDelivers(cfg, input);
  }
}
