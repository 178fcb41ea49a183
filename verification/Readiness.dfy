/** mobile/mobile.go and MainActivity.kt: what the phone reads out of the discovery record, in seconds. */
module Readiness {
  import opened Wrappers
  import opened Text
  import Announce

  const FRESH: real := 150.0     // freshRecordAge
  const WINDOW: real := 210.0    // VERIFY_WINDOW_MILLIS
  const POLL: real := 5.0        // VERIFY_POLL_MILLIS
  const LOOKUP: real := 10.0     // lookupTimeout in discovery.go

  /** What LookupRecord comes back with. */
  datatype Lookup = Unreachable | NotFound | Undated | Dated(seen: real)

  datatype State = Waiting | Stale | Absent | NoNetwork
  datatype Status = Status(state: State, ageSeconds: int)

  /** checkAgainst; None is its error for a blank device ID. */
  function CheckAgainst(deviceId: string, lookup: Lookup, now: real): Option<Status> {
    if Trim(deviceId) == "" then None else Some(Classify(lookup, now))
  }

  function Classify(lookup: Lookup, now: real): Status {
    Status(StateOf(lookup, now), if lookup.Dated? then Age(lookup.seen, now).Floor else -1)
  }

  /** A record from the future counts as new. */
  function Age(seen: real, now: real): real { if now - seen < 0.0 then 0.0 else now - seen }

  function StateOf(lookup: Lookup, now: real): State {
    match lookup
    case Unreachable => NoNetwork
    case NotFound => Absent
    case Undated => Stale
    case Dated(seen) => if Age(seen, now) <= FRESH then Waiting else Stale
  }

  /** What the phone is told: no network, nothing known, or how old the record is and whether that is recent. */
  lemma StatusMeaning(deviceId: string, lookup: Lookup, now: real)
    ensures CheckAgainst(deviceId, lookup, now).None? <==> Blank(deviceId)
    ensures !Blank(deviceId) ==>
      var st := CheckAgainst(deviceId, lookup, now).value;
      match lookup
      case Unreachable => st == Status(NoNetwork, -1)
      case NotFound => st == Status(Absent, -1)
      case Undated => st == Status(Stale, -1)
      case Dated(seen) =>
        && st.state == (if now <= seen + 150.0 then Waiting else Stale)
        && (if now < seen then st.ageSeconds == 0
            else st.ageSeconds as real <= now - seen < st.ageSeconds as real + 1.0)
  {
    TrimmedAway(deviceId);
  }

  // ---- How many refused announcements go unnoticed ----

  /** A lookup reads the record at time t and its age is taken once it has answered. */
  predicate Answers(t: real, answered: real) { t <= answered <= t + LOOKUP }

  /** A reader finds a record of the waiting machine, with at most k requests in a row refused. */
  ghost predicate Reads(turns: seq<Announce.TimedPass>, n: int, t: real, k: nat) {
    Announce.At(turns, n, t) && Announce.RecordAt(turns, n, t).Some? && Announce.RefusedBy(turns, n, t) <= k
  }

  ghost function Found(turns: seq<Announce.TimedPass>, n: nat, t: real): Lookup
    requires Announce.At(turns, n, t)
  {
    match Announce.RecordAt(turns, n, t) case None => NotFound case Some(seen) => Dated(seen)
  }

  /** With the phone's clock ahead by `skew`, every such lookup over every schedule reads WAITING. */
  ghost predicate Tolerated(k: nat, skew: real) {
    forall turns, n, t, answered | Reads(turns, n, t, k) && Answers(t, answered) ::
      StateOf(Found(turns, n, t), answered + skew) == Waiting
  }

  /** The slack left for the clock: freshRecordAge less the oldest record and the lookup. */
  function Slack(k: nat): real { FRESH - (Announce.Span(k) + Announce.TIMEOUT + LOOKUP) }

  /** While a machine waits and at most five announcements in a row are refused, every lookup answers WAITING. */
  lemma WaitingReadsAsWaiting(deviceId: string, turns: seq<Announce.TimedPass>, n: nat, t: real, answered: real)
    requires Trim(deviceId) != "" && Reads(turns, n, t, 5) && Answers(t, answered)
    ensures CheckAgainst(deviceId, Found(turns, n, t), answered).value.state == Waiting
    ensures CheckAgainst(deviceId, Found(turns, n, t), answered).value.ageSeconds <= 150
  {
    ReadsFresh(turns, n, t, 5, answered, 0.0);
  }

  lemma ReadsFresh(turns: seq<Announce.TimedPass>, n: nat, t: real, k: nat, answered: real, skew: real)
    requires Reads(turns, n, t, k) && Answers(t, answered) && skew <= Slack(k)
    ensures Found(turns, n, t).Dated? && Age(Found(turns, n, t).seen, answered + skew) <= FRESH
  {
    Announce.RecordStaysFresh(turns, n, t);
    SpanGrows(Announce.RefusedBy(turns, n, t), k);
  }

  lemma {:induction false} SpanGrows(j: nat, k: nat)
    requires j <= k
    ensures Announce.Span(j) <= Announce.Span(k)
  {
    assert Announce.RECHECK * k as real >= Announce.RECHECK * j as real;
    if j <= 4 < k { assert k as real >= j as real + 1.0; }
  }

  /** The request that ends the k refusals takes its full ten seconds before it stamps the record. */
  function LastPass(k: nat): Announce.TimedPass {
    Announce.TimedPass("k", 10.0, 10.0, true, if k == 4 then Announce.Refresh else Announce.Recheck)
  }

  lemma LastPassPossible(k: nat, c: Announce.Clock)
    requires k <= 6 && c == Announce.WorstClock(k)
    ensures Announce.Possible(c, LastPass(k)) && Announce.Wake(c, LastPass(k)) >= c.now + 10.0
  {}

  lemma ReadsNext(before: seq<Announce.TimedPass>, c: Announce.Clock, p: Announce.TimedPass, t: real, k: nat)
    requires Announce.Reaches(Announce.STARTED, before, c)
    requires Announce.Possible(c, p) && c.now <= t <= Announce.Wake(c, p)
    requires Announce.SeenAt(c, p, t).Some? && Announce.Refused(c, p) <= k
    ensures Reads(before + [p], |before|, t, k)
    ensures Found(before + [p], |before|, t) == Dated(Announce.SeenAt(c, p, t).value)
  {
    assert (before + [p])[..|before|] == before;
  }

  /** Just before it does, the record is as old as the bound says. */
  lemma {:induction false} OldestRead(k: nat, t: real) returns (turns: seq<Announce.TimedPass>)
    requires k <= 6 && Announce.WorstClock(k).now <= t < Announce.WorstClock(k).now + 10.0
    ensures Reads(turns, k + 5, t, k) && Found(turns, k + 5, t) == Dated(0.0)
  {
    var c := Announce.WorstClock(k);
    Announce.SpanReached(k);
    LastPassPossible(k, c);
    ReadsNext(Announce.Worst(k + 5), c, LastPass(k), t, k);
    turns := Announce.Worst(k + 5) + [LastPass(k)];
  }

  /** A lookup that is too late for the slack, after k refusals, or six if there were more. */
  lemma {:induction false} TooLate(k: nat, skew: real) returns (turns: seq<Announce.TimedPass>, n: nat, t: real)
    requires if k <= 5 then skew > Slack(k) else skew > -10.0
    ensures Reads(turns, n, t, k) && StateOf(Found(turns, n, t), t + LOOKUP + skew) == Stale
  {
    var j := if k <= 5 then k else 6;
    var now := Announce.WorstClock(j).now;
    OverSlack(k, j, now, skew);
    t := LateEnough(now, skew);
    turns := OldestRead(j, t);
    n := j + 5;
  }

  lemma {:induction false} OverSlack(k: nat, j: nat, now: real, skew: real)
    requires if k <= 5 then j == k && skew > Slack(k) else j == 6 && skew > -10.0
    requires now == Announce.WorstClock(j).now
    ensures now + 20.0 + skew > FRESH
  {
    Announce.SpanReached(j);
  }

  lemma LateEnough(now: real, skew: real) returns (t: real)
    requires now + 20.0 + skew > FRESH
    ensures now <= t < now + 10.0 && t + LOOKUP + skew > FRESH
  {
    var late := now + 20.0 + skew - FRESH;
    t := now + 10.0 - (if late < 10.0 then late / 2.0 else 5.0);
  }

  /**
   * Exactly: up to five refusals in a row every lookup reads WAITING if and only if the phone's clock
   * is ahead by no more than the slack, and more than five are not tolerated by a clock that is right.
   */
  lemma ToleratedIff(k: nat, skew: real)
    ensures skew <= Slack(k) ==> Tolerated(k, skew)
    ensures k <= 5 ==> (Tolerated(k, skew) <==> skew <= Slack(k))
    ensures k > 5 && skew > -10.0 ==> !Tolerated(k, skew)
    ensures skew == 0.0 ==> (Tolerated(k, skew) <==> k <= 5)
  {
    if skew <= Slack(k) {
      forall turns, n, t, answered | Reads(turns, n, t, k) && Answers(t, answered)
        ensures StateOf(Found(turns, n, t), answered + skew) == Waiting
      {
        ReadsFresh(turns, n, t, k, answered, skew);
      }
    }
    if if k <= 5 then skew > Slack(k) else skew > -10.0 {
      var turns, n, t := TooLate(k, skew);
      assert Reads(turns, n, t, k) && Answers(t, t + LOOKUP);
    }
  }

  // ---- verifyUnlocked ----

  datatype UnlockUi = Success | NotAccepted | Unverified

  /** One poll: what checkServerStatus gave, None if it threw, and how long the call took. */
  datatype Poll = Poll(state: Option<State>, took: real)

  /** When poll i begins, counted from the start of the check. */
  function Begins(polls: nat -> Poll, i: nat): real {
    if i == 0 then 0.0 else Begins(polls, i - 1) + polls(i - 1).took + POLL
  }

  predicate Confirms(p: Poll) { p.state == Some(Stale) || p.state == Some(Absent) }

  ghost predicate Lawful(polls: nat -> Poll) { forall i :: polls(i).took >= 0.0 }

  /** A poll the loop gets to make before its deadline. */
  ghost predicate Made(polls: nat -> Poll, i: nat) { Begins(polls, i) < WINDOW }

  /** One poll that finds the record stale or gone settles it, and only a WAITING puts the blame on the computer. */
  ghost function Verdict(deviceId: Option<string>, polls: nat -> Poll): UnlockUi {
    if deviceId.None? then Unverified
    else if exists i :: Made(polls, i) && Confirms(polls(i)) then Success
    else if exists i :: Made(polls, i) && polls(i).state == Some(Waiting) then NotAccepted
    else Unverified
  }

  method VerifyUnlocked(deviceId: Option<string>, polls: nat -> Poll) returns (ui: UnlockUi)
    requires Lawful(polls)
    ensures ui == Verdict(deviceId, polls)
  {
    if deviceId.None? {
      return Unverified;
    }
    var i: nat, now := 0, 0.0;
    var reachedDiscovery := false;
    ghost var w: nat := 0;
    while now < WINDOW
      invariant now == Begins(polls, i)
      invariant Unconfirmed(polls, i)
      invariant if reachedDiscovery then Made(polls, w) && polls(w).state == Some(Waiting)
                else forall j: nat | j < i :: polls(j).state != Some(Waiting)
      decreases WINDOW - now
    {
      var p := polls(i);
      if p.state == Some(Stale) || p.state == Some(Absent) {
        assert Made(polls, i) && Confirms(polls(i));
        return Success;
      }
      if p.state == Some(Waiting) {
        reachedDiscovery, w := true, i;
      }
      BeginsNext(polls, i);
      OneMore(polls, i);
      now := now + p.took + POLL;
      i := i + 1;
    }
    AllSeen(polls, i);
    ui := if reachedDiscovery then NotAccepted else Unverified;
  }

  ghost predicate Unconfirmed(polls: nat -> Poll, n: nat) { forall j: nat | j < n :: !Confirms(polls(j)) }

  lemma OneMore(polls: nat -> Poll, n: nat)
    requires Unconfirmed(polls, n) && !Confirms(polls(n))
    ensures Unconfirmed(polls, n + 1)
  {}

  lemma AllSeen(polls: nat -> Poll, n: nat)
    requires Lawful(polls) && !Made(polls, n)
    ensures forall j: nat :: Made(polls, j) ==> j < n
  {
    forall j: nat | Made(polls, j) ensures j < n {
      if j >= n { BeginsMonotone(polls, n, j); }
    }
  }

  lemma BeginsNext(polls: nat -> Poll, i: nat)
    ensures Begins(polls, i + 1) == Begins(polls, i) + polls(i).took + POLL
  {}

  lemma {:induction false} BeginsMonotone(polls: nat -> Poll, i: nat, j: nat)
    requires Lawful(polls) && i <= j
    ensures Begins(polls, j) >= Begins(polls, i) + POLL * (j - i) as real
    decreases j
  {
    if i < j { BeginsMonotone(polls, i, j - 1); }
  }

  // ---- Soundness: a machine still at its prompt is never taken for unlocked ----

  /** The call threw, or discovery was out of reach. */
  predicate Failed(p: Poll) { p.state == None || p.state == Some(NoNetwork) }

  /** Poll i of a check begun at `start` reads the record at instant t of turn n, and ages it when it has answered. */
  ghost predicate Gets(
      turns: seq<Announce.TimedPass>, n: int, t: real, k: nat, polls: nat -> Poll, i: nat, start: real, skew: real)
  {
    var begins := start + Begins(polls, i);
    && Announce.At(turns, n, t) && Announce.RefusedBy(turns, n, t) <= k
    && begins <= t <= begins + polls(i).took <= begins + LOOKUP
    && polls(i).state == Some(StateOf(Found(turns, n, t), begins + polls(i).took + skew))
  }

  /**
   * The machine goes on announcing over these turns; its record is there at instant s of turn m, when
   * the check has not begun, and every poll that gets through reads a turn from then on, with at most
   * k requests in a row refused.
   */
  ghost predicate Watched(
      turns: seq<Announce.TimedPass>, m: int, s: real, k: nat, polls: nat -> Poll, start: real, skew: real)
  {
    && Announce.At(turns, m, s) && Announce.RecordAt(turns, m, s).Some? && s <= start
    && Lawful(polls)
    && forall i | Made(polls, i) ::
         Failed(polls(i)) || exists n, t :: m <= n && Gets(turns, n, t, k, polls, i, start, skew)
  }

  lemma {:induction false} BeginsLater(polls: nat -> Poll, i: nat)
    requires Lawful(polls)
    ensures Begins(polls, i) >= 0.0
  {
    if i > 0 { BeginsLater(polls, i - 1); }
  }

  lemma WatchedPoll(
      turns: seq<Announce.TimedPass>, m: int, s: real, k: nat, polls: nat -> Poll, start: real, skew: real, i: nat)
    requires Watched(turns, m, s, k, polls, start, skew) && Tolerated(k, skew) && Made(polls, i)
    ensures Failed(polls(i)) || polls(i).state == Some(Waiting)
  {
    if !Failed(polls(i)) {
      var n, t :| m <= n && Gets(turns, n, t, k, polls, i, start, skew);
      var answered := start + Begins(polls, i) + polls(i).took;
      BeginsLater(polls, i);
      Announce.RecordStays(turns, m, s, n, t);
      assert Reads(turns, n, t, k) && Answers(t, answered);
    }
  }

  /** While refusals are tolerated: not accepted if some poll got through, unverified if none did, and never success. */
  lemma StillWaiting(
      deviceId: string, turns: seq<Announce.TimedPass>, m: int, s: real, k: nat,
      polls: nat -> Poll, start: real, skew: real)
    requires Watched(turns, m, s, k, polls, start, skew) && Tolerated(k, skew)
    ensures Verdict(Some(deviceId), polls)
         == if exists i :: Made(polls, i) && !Failed(polls(i)) then NotAccepted else Unverified
  {
    forall i | Made(polls, i) ensures Failed(polls(i)) || polls(i).state == Some(Waiting) {
      WatchedPoll(turns, m, s, k, polls, start, skew, i);
    }
  }

  ghost predicate NeverConfirmed(deviceId: string, k: nat, skew: real) {
    forall turns, m, s, polls, start | Watched(turns, m, s, k, polls, start, skew) ::
      Verdict(Some(deviceId), polls) != Success
  }

  /** One poll that reads at t and answers at `answered`, and then no network. */
  function OnePoll(state: State, took: real): nat -> Poll {
    (i: nat) => if i == 0 then Poll(Some(state), took) else Poll(Some(NoNetwork), took)
  }

  lemma OneWatched(turns: seq<Announce.TimedPass>, n: nat, t: real, k: nat, answered: real, skew: real)
    requires Reads(turns, n, t, k) && Answers(t, answered)
    ensures Watched(turns, n, t, k, OnePoll(StateOf(Found(turns, n, t), answered + skew), answered - t), t, skew)
  {
    var polls := OnePoll(StateOf(Found(turns, n, t), answered + skew), answered - t);
    assert Gets(turns, n, t, k, polls, 0, t, skew);
  }

  /**
   * A waiting machine is never taken for unlocked, over every schedule of announcements and polls, if
   * and only if its refusals are tolerated: with a clock that is right, at most five in a row.
   */
  lemma NeverConfirmedIff(deviceId: string, k: nat, skew: real)
    ensures NeverConfirmed(deviceId, k, skew) <==> Tolerated(k, skew)
    ensures skew == 0.0 ==> (NeverConfirmed(deviceId, k, skew) <==> k <= 5)
  {
    ToleratedIff(k, skew);
    if Tolerated(k, skew) {
      forall turns, m, s, polls, start | Watched(turns, m, s, k, polls, start, skew)
        ensures Verdict(Some(deviceId), polls) != Success
      {
        StillWaiting(deviceId, turns, m, s, k, polls, start, skew);
      }
    } else {
      var turns, n, t, answered :| Reads(turns, n, t, k) && Answers(t, answered)
        && StateOf(Found(turns, n, t), answered + skew) != Waiting;
      OneWatched(turns, n, t, k, answered, skew);
      var polls := OnePoll(StateOf(Found(turns, n, t), answered + skew), answered - t);
      assert Made(polls, 0) && Confirms(polls(0));
    }
  }

  /** The poll asked checkAgainst, which had this lookup, at this time. */
  ghost predicate Asked(p: Poll, deviceId: string, lookup: Lookup, now: real) {
    match CheckAgainst(deviceId, lookup, now)
    case None => p.state == None
    case Some(status) => p.state == Some(status.state)
  }

  /** If no poll made reaches discovery, or the call threw, the outcome is Unverified: neither blame nor success. */
  lemma UnreachableIsUnverified(deviceId: string, polls: nat -> Poll)
    requires forall i | Made(polls, i) ::
      polls(i).state == None || exists t :: Asked(polls(i), deviceId, Unreachable, t)
    ensures Verdict(Some(deviceId), polls) == Unverified
  {
    forall i | Made(polls, i) ensures !Confirms(polls(i)) && polls(i).state != Some(Waiting) {
      if polls(i).state != None {
        var t :| Asked(polls(i), deviceId, Unreachable, t);
        StatusMeaning(deviceId, Unreachable, t);
      }
    }
  }

  /** If some poll made finds no record, or one without a date, the outcome is Success. */
  lemma GoneIsSuccess(deviceId: string, polls: nat -> Poll, i: nat, lookup: Lookup, t: real)
    requires !Blank(deviceId) && Made(polls, i) && Asked(polls(i), deviceId, lookup, t)
    requires lookup == NotFound || lookup == Undated
    ensures Verdict(Some(deviceId), polls) == Success
  {
    StatusMeaning(deviceId, lookup, t);
    assert Confirms(polls(i));
  }

  // ---- Completeness ----

  /** Every lookup answers within its timeout and finds the one record, stamped `last` after the check began. */
  ghost predicate Finds(polls: nat -> Poll, last: real, skew: real) {
    forall i :: 0.0 <= polls(i).took <= LOOKUP && FindsAt(polls, last, skew, i)
  }

  ghost predicate FindsAt(polls: nat -> Poll, last: real, skew: real, i: nat) {
    polls(i).state == Some(StateOf(Dated(last), Begins(polls, i) + polls(i).took + skew))
  }

  /** The poll after this one would begin too late, so this one answers at 205 s or later. */
  lemma {:induction false} LastPoll(polls: nat -> Poll, i: nat) returns (k: nat)
    requires Lawful(polls) && Made(polls, i)
    ensures Made(polls, k) && !Made(polls, k + 1)
    decreases (WINDOW - Begins(polls, i)).Floor
  {
    if Made(polls, i + 1) {
      k := LastPoll(polls, i + 1);
    } else {
      k := i;
    }
  }

  lemma LatePollConfirms(deviceId: string, polls: nat -> Poll, last: real, skew: real)
    requires Finds(polls, last, skew) && last < 55.0 + skew
    ensures Verdict(Some(deviceId), polls) == Success
  {
    var k := LastPoll(polls, 0);
    BeginsNext(polls, k);
    assert FindsAt(polls, last, skew, k);
    assert Made(polls, k) && Confirms(polls(k));
  }

  /** The slowest polls the timeout allows: one every 15 s. */
  function SlowPolls(last: real, skew: real): nat -> Poll {
    (i: nat) => Poll(Some(StateOf(Dated(last), 15.0 * i as real + LOOKUP + skew)), LOOKUP)
  }

  lemma {:induction false} SlowBegins(last: real, skew: real, i: nat)
    ensures Begins(SlowPolls(last, skew), i) == 15.0 * i as real
  {
    if i > 0 { SlowBegins(last, skew, i - 1); }
  }

  /**
   * Completeness, exactly: the check ends in Success whatever the lookups take if and only if the
   * last announcement was stamped less than 55 s after the check began, corrected for the phone's clock.
   */
  lemma ConfirmsIff(deviceId: string, last: real, skew: real)
    ensures (forall polls | Finds(polls, last, skew) :: Verdict(Some(deviceId), polls) == Success)
        <==> last < 55.0 + skew
  {
    if last < 55.0 + skew {
      forall polls | Finds(polls, last, skew) ensures Verdict(Some(deviceId), polls) == Success {
        LatePollConfirms(deviceId, polls, last, skew);
      }
    } else {
      var polls := SlowPolls(last, skew);
      forall i ensures 0.0 <= polls(i).took <= LOOKUP && FindsAt(polls, last, skew, i)
      {
        SlowBegins(last, skew, i);
      }
      assert Finds(polls, last, skew);
      forall i | Made(polls, i) ensures !Confirms(polls(i)) {
        SlowBegins(last, skew, i);
        assert i <= 13;
      }
    }
  }
}
