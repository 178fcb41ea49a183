/** main.go: dialFastestRelay and drainLateSessions as the steps of their goroutines. */
module RelayRace {

  /** What a racer sends: its own index, and whether it joined a session. */
  datatype Result = Result(id: nat, joined: bool)

  /** A racer dials, holds its result until the channel takes it, and is then finished. */
  datatype Racer = Dialling | Holding(joined: bool) | Posted(joined: bool)

  /** The caller: still receiving, returned a session, out of results, or left through ctx.Done. */
  datatype Caller = Racing | Won(id: nat) | GaveUp | Cancelled

  /**
   * `channel` is the buffered channel, `capacity` its size; `got` is everything received from it
   * so far, by the caller and then by the drainer, and `closed` the sessions the drainer closed.
   */
  datatype State = State(
    racers: seq<Racer>, capacity: nat, channel: seq<Result>,
    caller: Caller, remaining: nat, got: seq<Result>, closed: set<nat>)

  datatype Action = Dial(j: nat, joined: bool) | Post(j: nat) | Receive | GiveUp | Cancel | Drain

  function Count(parses: seq<bool>): (n: nat)
    ensures n <= |parses|
  {
    if parses == [] then 0 else Count(parses[1..]) + if parses[0] then 1 else 0
  }

  /** One racer for every address that parses; the channel has room for every address. */
  function Start(parses: seq<bool>): State {
    State(seq(Count(parses), _ => Dialling), |parses|, [], Racing, 0, [], {})
  }

  /** As many racers as addresses that parse. */
  lemma {:induction false} RacersCounted(parses: seq<bool>)
    ensures |Start(parses).racers| == Count(parses) == multiset(parses)[true]
    ensures forall r | r in Start(parses).racers :: r == Dialling
  {
    if parses != [] {
      RacersCounted(parses[1..]);
      assert parses == [parses[0]] + parses[1..];
    }
  }

  predicate Can(s: State, act: Action) {
    match act
    case Dial(j, _) => j < |s.racers| && s.racers[j] == Dialling
    case Post(j) => j < |s.racers| && s.racers[j].Holding? && |s.channel| < s.capacity
    case Receive => s.caller == Racing && |s.got| < |s.racers| && s.channel != []
    case GiveUp => s.caller == Racing && |s.got| == |s.racers|
    case Cancel => s.caller == Racing && |s.got| < |s.racers|
    case Drain => s.remaining > 0 && s.channel != []
  }

  function Next(s: State, act: Action): State
    requires Can(s, act)
  {
    match act
    case Dial(j, joined) => s.(racers := s.racers[j := Holding(joined)])
    case Post(j) =>
      var joined := s.racers[j].joined;
      s.(racers := s.racers[j := Posted(joined)], channel := s.channel + [Result(j, joined)])
    case Receive =>
      var r, t := s.channel[0], s.(channel := s.channel[1..], got := s.got + [s.channel[0]]);
      if r.joined then t.(caller := Won(r.id), remaining := |s.racers| - |s.got| - 1) else t
    case GiveUp => s.(caller := GaveUp)
    case Cancel => s.(caller := Cancelled)
    case Drain =>
      var r := s.channel[0];
      s.(channel := s.channel[1..], got := s.got + [r], remaining := s.remaining - 1,
         closed := if r.joined then s.closed + {r.id} else s.closed)
  }

  predicate Run(s: State, run: seq<Action>)
    decreases |run|
  {
    run == [] || (Can(s, run[0]) && Run(Next(s, run[0]), run[1..]))
  }

  function Last(s: State, run: seq<Action>): State
    requires Run(s, run)
    decreases |run|
  {
    if run == [] then s else Last(Next(s, run[0]), run[1..])
  }

  /** No goroutine can move; whether the context is cancelled is not up to them. */
  ghost predicate Quiet(s: State) { forall act | Can(s, act) :: act == Cancel }

  // ---- The invariant ----

  function All(s: State): seq<Result> { s.got + s.channel }

  /** Every result that left a racer is received or in the channel, once. */
  ghost predicate Conserved(s: State) {
    && (forall i | 0 <= i < |All(s)| ::
          All(s)[i].id < |s.racers| && s.racers[All(s)[i].id] == Posted(All(s)[i].joined))
    && (forall i, k | 0 <= i < k < |All(s)| :: All(s)[i].id != All(s)[k].id)
    && (forall j | 0 <= j < |s.racers| && s.racers[j].Posted? :: Result(j, s.racers[j].joined) in All(s))
  }

  ghost predicate NoSession(rs: seq<Result>) { forall i | 0 <= i < |rs| :: !rs[i].joined }

  /** What has been received, seen from where the caller stands. */
  ghost predicate Accounted(s: State) {
    match s.caller
    case Won(id) =>
      && s.remaining + |s.got| == |s.racers|
      && Result(id, true) in s.got
      && s.closed == (set r | r in s.got && r.joined && r.id != id :: r.id)
    case _ =>
      && s.remaining == 0 && s.closed == {} && NoSession(s.got) && |s.got| <= |s.racers|
      && (s.caller == GaveUp ==> |s.got| == |s.racers|)
  }

  ghost predicate Inv(s: State) {
    |s.racers| <= s.capacity && Conserved(s) && Accounted(s)
  }

  // ---- Counting ----

  ghost function Below(n: nat): (s: set<nat>)
    ensures |s| == n && forall j: nat :: j in s <==> j < n
  {
    if n == 0 then {} else Below(n - 1) + {n - 1}
  }

  ghost function Ids(rs: seq<Result>): set<nat> { set i | 0 <= i < |rs| :: rs[i].id }

  lemma {:induction false} IdsSize(rs: seq<Result>)
    requires forall i, k | 0 <= i < k < |rs| :: rs[i].id != rs[k].id
    ensures |Ids(rs)| == |rs|
  {
    if rs != [] {
      var n := |rs| - 1;
      IdsSize(rs[..n]);
      assert Ids(rs) == Ids(rs[..n]) + {rs[n].id};
    }
  }

  lemma Subset(a: set<nat>, b: set<nat>)
    requires a <= b
    ensures |a| <= |b| && (|a| == |b| ==> a == b)
  {
    assert b == a + (b - a);
  }

  /** No more results than racers, and as many only when every racer has posted. */
  lemma ResultsBounded(s: State)
    requires Conserved(s)
    ensures |All(s)| <= |s.racers|
    ensures |All(s)| == |s.racers| <==> forall j | 0 <= j < |s.racers| :: s.racers[j].Posted?
  {
    var rs, n := All(s), |s.racers|;
    IdsSize(rs);
    assert Ids(rs) <= Below(n);
    Subset(Ids(rs), Below(n));
    if |rs| == n {
      forall j | 0 <= j < n ensures s.racers[j].Posted? {
        assert j in Ids(rs);
      }
    }
    if forall j | 0 <= j < n :: s.racers[j].Posted? {
      forall j | j in Below(n) ensures j in Ids(rs) {
        assert Result(j, s.racers[j].joined) in rs;
      }
      Subset(Below(n), Ids(rs));
    }
  }

  // ---- Every step keeps the invariant ----

  lemma InvStep(s: State, act: Action)
    requires Inv(s) && Can(s, act)
    ensures Inv(Next(s, act))
  {
    match act
    case Post(j) => PostKeeps(s, j);
    case Receive => ReceiveKeeps(s);
    case Drain => DrainKeeps(s);
    case _ => assert All(Next(s, act)) == All(s);
  }

  lemma PostKeeps(s: State, j: nat)
    requires Inv(s) && Can(s, Post(j))
    ensures Inv(Next(s, Post(j)))
  {
    assert All(Next(s, Post(j))) == All(s) + [Result(j, s.racers[j].joined)];
  }

  lemma ReceiveKeeps(s: State)
    requires Inv(s) && Can(s, Receive)
    ensures Inv(Next(s, Receive))
  {
    var t := Next(s, Receive);
    assert All(t) == All(s);
    if s.channel[0].joined { WinClosesNothing(s, t); }
  }

  lemma DrainKeeps(s: State)
    requires Inv(s) && Can(s, Drain)
    ensures Inv(Next(s, Drain))
  {
    assert All(Next(s, Drain)) == All(s);
    LateSessionIsAnother(s);
  }

  lemma WinClosesNothing(s: State, t: State)
    requires NoSession(s.got) && s.channel != [] && t.got == s.got + [s.channel[0]]
    ensures (set r | r in t.got && r.joined && r.id != s.channel[0].id :: r.id) == {}
  {
    forall r | r in t.got && r.joined ensures r == s.channel[0] {
      var i :| 0 <= i < |t.got| && t.got[i] == r;
      assert i < |s.got| ==> s.got[i] == r;
    }
  }

  lemma LateSessionIsAnother(s: State)
    requires Inv(s) && s.caller.Won? && s.channel != []
    ensures s.channel[0].id != s.caller.id
  {
    var i :| 0 <= i < |s.got| && s.got[i] == Result(s.caller.id, true);
    assert All(s)[i] == s.got[i] && All(s)[|s.got|] == s.channel[0];
  }

  lemma {:induction false} InvRun(s: State, run: seq<Action>)
    requires Inv(s) && Run(s, run)
    ensures Inv(Last(s, run))
    ensures |Last(s, run).racers| == |s.racers| && Last(s, run).capacity == s.capacity
    decreases |run|
  {
    if run != [] {
      InvStep(s, run[0]);
      InvRun(Next(s, run[0]), run[1..]);
    }
  }

  /** In every reachable state a racer that holds a result can send it: no racer ever blocks. */
  lemma RacersNeverBlock(parses: seq<bool>, run: seq<Action>, j: nat)
    requires Run(Start(parses), run)
    requires j < |Last(Start(parses), run).racers| && Last(Start(parses), run).racers[j].Holding?
    ensures Can(Last(Start(parses), run), Post(j))
  {
    var s := Last(Start(parses), run);
    InvRun(Start(parses), run);
    ResultsBounded(s);
  }

  lemma Owner(s: State, r: Result)
    requires Conserved(s) && (r in s.got || r in s.channel)
    ensures r.id < |s.racers| && s.racers[r.id] == Posted(r.joined)
  {
    assert r in All(s);
  }

  // ---- How a race ends ----

  function Dials(racers: seq<Racer>): nat {
    if racers == [] then 0 else
      Dials(racers[1..]) + match racers[0] case Dialling => 2 case Holding(_) => 1 case Posted(_) => 0
  }

  lemma {:induction false} DialsUpdate(racers: seq<Racer>, j: nat, r: Racer)
    requires j < |racers|
    requires (racers[j].Dialling? && r.Holding?) || (racers[j].Holding? && r.Posted?)
    ensures Dials(racers[j := r]) == Dials(racers) - 1
  {
    if j == 0 {
      assert racers[j := r][1..] == racers[1..];
    } else {
      DialsUpdate(racers[1..], j - 1, r);
      assert racers[j := r][1..] == racers[1..][j - 1 := r];
    }
  }

  function Work(s: State): nat
    requires |s.got| <= |s.racers|
  {
    Dials(s.racers) + if s.caller == Racing then |s.racers| - |s.got| + 1 else s.remaining
  }

  /** Every step uses up work, so every race ends. */
  lemma {:induction false} RunsAreBounded(s: State, run: seq<Action>)
    requires Inv(s) && Run(s, run)
    ensures |s.got| <= |s.racers| && |run| <= Work(s)
    decreases |run|
  {
    ResultsBounded(s);
    if run != [] {
      var act := run[0];
      InvStep(s, act);
      ResultsBounded(Next(s, act));
      if act.Dial? { DialsUpdate(s.racers, act.j, Holding(act.joined)); }
      if act.Post? { DialsUpdate(s.racers, act.j, Posted(s.racers[act.j].joined)); }
      RunsAreBounded(Next(s, act), run[1..]);
    }
  }

  /** Sessions that were joined and are neither returned nor closed. */
  ghost function Leaked(s: State): set<nat> {
    set j | 0 <= j < |s.racers| && s.racers[j] == Posted(true) && j !in s.closed && s.caller != Won(j)
  }

  /**
   * When no goroutine can move any more, cancelled or not: the caller has returned; every racer has
   * sent its one result; with a winner the drainer has received exactly the rest and closed every
   * other session; with no winner and no cancellation there was no session; and what leaks is
   * exactly what a cancelled caller left unread in the channel.
   */
  lemma SessionsConserved(parses: seq<bool>, run: seq<Action>)
    requires Run(Start(parses), run) && Quiet(Last(Start(parses), run))
    ensures var s := Last(Start(parses), run);
      && (forall j | 0 <= j < |s.racers| :: s.racers[j].Posted?)
      && s.caller != Racing
      && (s.caller != Cancelled ==> s.channel == [] && s.remaining == 0 && |s.got| == |s.racers| && Leaked(s) == {})
      && (s.caller.Won? ==>
            s.caller.id < |s.racers| && s.racers[s.caller.id] == Posted(true) && s.caller.id !in s.closed)
      && (s.caller == GaveUp ==> forall j | 0 <= j < |s.racers| :: s.racers[j] == Posted(false))
      && (s.caller == Cancelled ==> Leaked(s) == set r | r in s.channel && r.joined :: r.id)
  {
    var s := Last(Start(parses), run);
    InvRun(Start(parses), run);
    AllReported(s);
    forall r | r in s.got || r in s.channel ensures r.id < |s.racers| && s.racers[r.id] == Posted(r.joined) {
      Owner(s, r);
    }
    forall j | 0 <= j < |s.racers|
      ensures Result(j, s.racers[j].joined) in s.got || Result(j, s.racers[j].joined) in s.channel {}
    if s.caller == Cancelled { UnreadLeaks(s); }
  }

  /** Where no goroutine can move, every racer has sent its result, and caller and drainer have taken theirs. */
  lemma AllReported(s: State)
    requires Inv(s) && Quiet(s)
    ensures (forall j | 0 <= j < |s.racers| :: s.racers[j].Posted?) && s.caller != Racing
    ensures s.caller != Cancelled ==> s.channel == [] && s.remaining == 0 && |s.got| == |s.racers|
  {
    ResultsBounded(s);
    forall j | 0 <= j < |s.racers| ensures s.racers[j].Posted? {
      assert !Can(s, Dial(j, true)) && !Can(s, Post(j));
    }
    assert !Can(s, Receive) && !Can(s, GiveUp) && !Can(s, Drain);
  }

  lemma UnreadLeaks(s: State)
    requires Inv(s) && s.caller == Cancelled && forall j | 0 <= j < |s.racers| :: s.racers[j].Posted?
    ensures Leaked(s) == set r | r in s.channel && r.joined :: r.id
  {
    forall j | j in Leaked(s) ensures Result(j, true) in s.channel {
      assert Result(j, true) in All(s);
    }
    forall r | r in s.channel && r.joined ensures r.id in Leaked(s) { Owner(s, r); }
  }

  /** A caller cancelled before its racer joins leaves that session to nobody. */
  lemma CancelledRaceLeaks()
    ensures var run := [Cancel, Dial(0, true), Post(0)];
      Run(Start([true]), run) && Quiet(Last(Start([true]), run)) && Leaked(Last(Start([true]), run)) == {0}
  {
    var s0 := Start([true]);
    assert Count([true][1..]) == 0 && s0.racers == [Dialling];
    var s1 := Next(s0, Cancel);
    var s2 := Next(s1, Dial(0, true));
    var s3 := Next(s2, Post(0));
    assert s3 == State([Posted(true)], 1, [Result(0, true)], Cancelled, 0, [], {});
    var run := [Cancel, Dial(0, true), Post(0)];
    assert run[1..] == [Dial(0, true), Post(0)] && run[1..][1..] == [Post(0)] && run[1..][1..][1..] == [];
    assert Last(s0, run) == s3;
  }

  /** Some session leaks at the end exactly when the caller was cancelled and some racer joined. */
  lemma LeaksIff(parses: seq<bool>, run: seq<Action>)
    requires Run(Start(parses), run) && Quiet(Last(Start(parses), run))
    ensures var s := Last(Start(parses), run);
      Leaked(s) != {} <==> s.caller == Cancelled && exists j :: 0 <= j < |s.racers| && s.racers[j] == Posted(true)
  {
    SessionsConserved(parses, run);
    var s := Last(Start(parses), run);
    InvRun(Start(parses), run);
    if s.caller == Cancelled {
      forall j | 0 <= j < |s.racers| && s.racers[j] == Posted(true) ensures j in Leaked(s) {}
    }
  }
}
