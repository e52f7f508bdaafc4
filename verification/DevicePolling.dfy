/**
 * The device grant's polling loop: RFC 8628, sections 3.2 and 3.5. Intervals are in seconds, clock readings in
 * milliseconds.
 */
module DevicePolling {
  import opened Wrappers

  const DEFAULT_INTERVAL_SECONDS := 5.0
  const SLOW_DOWN_SECONDS := 5.0

  datatype Answer = Success(body: string) | Pending | SlowDown | Error(error: string)

  /**
   * What one turn of the loop meets: the clock at its head, the clock just before sending, and the answer if it sends.
   */
  datatype Turn = Turn(checked: real, woke: real, answer: Answer)

  /** A poll sent: when, under which interval, and what came back. */
  datatype Poll = Poll(at: real, interval: real, answer: Answer)

  datatype Ending = Expired | Answered(answer: Answer) | StillPolling

  predicate KeepsPolling(a: Answer) {
    a.Pending? || a.SlowDown?
  }

  function NextInterval(interval: real, a: Answer): real {
    if a.SlowDown? then interval + SLOW_DOWN_SECONDS else interval
  }

  predicate Sends(t: Turn, interval: real, deadline: real) {
    t.checked + interval * 1000.0 < deadline && t.woke < deadline
  }

  /** The polls sent over the turns the environment gives, in order. */
  function Polls(turns: seq<Turn>, interval: real, deadline: real): seq<Poll> {
    if turns == [] || !Sends(turns[0], interval, deadline) then []
    else
      var a := turns[0].answer;
      [Poll(turns[0].woke, interval, a)] +
      if KeepsPolling(a) then Polls(turns[1..], NextInterval(interval, a), deadline) else []
  }

  function EndingOf(turns: seq<Turn>, interval: real, deadline: real): Ending {
    if turns == [] then StillPolling
    else if !Sends(turns[0], interval, deadline) then Expired
    else if KeepsPolling(turns[0].answer) then EndingOf(turns[1..], NextInterval(interval, turns[0].answer), deadline)
    else Answered(turns[0].answer)
  }

  lemma TurnTaken(turns: seq<Turn>, n: nat, interval: real, deadline: real, polls: seq<Poll>)
    requires n < |turns|
    ensures var t := turns[n];
            var next := NextInterval(interval, t.answer);
            var more := Sends(t, interval, deadline) && KeepsPolling(t.answer);
            && (Sends(t, interval, deadline) ==>
                  polls + Polls(turns[n..], interval, deadline) ==
                  polls + [Poll(t.woke, interval, t.answer)] +
                  if more then Polls(turns[n + 1..], next, deadline) else [])
            && (!Sends(t, interval, deadline) ==> polls + Polls(turns[n..], interval, deadline) == polls)
            && EndingOf(turns[n..], interval, deadline) ==
               if more then EndingOf(turns[n + 1..], next, deadline)
               else if Sends(t, interval, deadline) then Answered(t.answer) else Expired
  {
    assert turns[n..][0] == turns[n] && turns[n..][1..] == turns[n + 1..];
  }

  /** The loop, over as many turns as the environment gives; past them it is still polling. */
  method PollUntilEnded(started: real, expiresIn: real, named: Option<real>, turns: seq<Turn>)
    returns (polls: seq<Poll>, ending: Ending)
    ensures polls == Polls(turns, if named.Some? then named.value else 5.0, started + expiresIn * 1000.0)
    ensures ending == EndingOf(turns, if named.Some? then named.value else 5.0, started + expiresIn * 1000.0)
  {
    var deadline := started + expiresIn * 1000.0;
    var interval := if named.Some? then named.value else DEFAULT_INTERVAL_SECONDS;
    ghost var sent, end := Polls(turns, interval, deadline), EndingOf(turns, interval, deadline);
    polls := [];
    assert turns[0..] == turns;
    for n := 0 to |turns|
      invariant polls + Polls(turns[n..], interval, deadline) == sent
      invariant EndingOf(turns[n..], interval, deadline) == end
    {
      var t := turns[n];
      TurnTaken(turns, n, interval, deadline, polls);
      if t.checked + interval * 1000.0 >= deadline || t.woke >= deadline {
        return polls, Expired;
      }
      polls := polls + [Poll(t.woke, interval, t.answer)];
      if !t.answer.Pending? && !t.answer.SlowDown? {
        return polls, Answered(t.answer);
      }
      if t.answer.SlowDown? {
        interval := interval + SLOW_DOWN_SECONDS;
      }
    }
    ending := StillPolling;
  }

  // ---- What the loop promises ----

  /** The `slow_down` answers of the first `k` turns. */
  function SlowTurns(turns: seq<Turn>, k: nat): nat
    requires k <= |turns|
  {
    if k == 0 then 0 else SlowTurns(turns, k - 1) + if turns[k - 1].answer.SlowDown? then 1 else 0
  }

  /** The interval in force in turn `k`: the first, and five seconds for each `slow_down` answered before it. */
  function IntervalAt(turns: seq<Turn>, interval: real, k: nat): real
    requires k <= |turns|
  {
    interval + 5.0 * SlowTurns(turns, k) as real
  }

  /** In turn `k` a poll goes out: neither the wait for it nor the time of sending reaches the deadline. */
  ghost predicate Polled(turns: seq<Turn>, interval: real, deadline: real, k: nat)
    requires k < |turns|
  {
    turns[k].checked + IntervalAt(turns, interval, k) * 1000.0 < deadline && turns[k].woke < deadline
  }

  /** The first `n` turns each sent a poll and were told to go on: `authorization_pending` or `slow_down`. */
  ghost predicate GoesOn(turns: seq<Turn>, interval: real, deadline: real, n: nat) {
    n <= |turns| && forall k :: 0 <= k < n ==>
      Polled(turns, interval, deadline, k) && (turns[k].answer.Pending? || turns[k].answer.SlowDown?)
  }

  lemma {:induction false} SlowTurnsNext(turns: seq<Turn>, k: nat)
    requires k < |turns|
    ensures SlowTurns(turns, k + 1) == SlowTurns(turns[1..], k) + if turns[0].answer.SlowDown? then 1 else 0
  {
    if k > 0 {
      SlowTurnsNext(turns, k - 1);
    } else {
      assert SlowTurns(turns, 0) == 0;
    }
  }

  lemma {:induction false} PolledNext(turns: seq<Turn>, interval: real, deadline: real, k: nat)
    requires k < |turns| - 1
    ensures var next := NextInterval(interval, turns[0].answer);
            && IntervalAt(turns[1..], next, k) == IntervalAt(turns, interval, k + 1)
            && (Polled(turns[1..], next, deadline, k) <==> Polled(turns, interval, deadline, k + 1))
  {
    SlowTurnsNext(turns, k);
  }

  lemma {:induction false} GoesOnNext(turns: seq<Turn>, interval: real, deadline: real, n: nat)
    requires turns != [] && Polled(turns, interval, deadline, 0) && KeepsPolling(turns[0].answer)
    requires GoesOn(turns[1..], NextInterval(interval, turns[0].answer), deadline, n)
    ensures GoesOn(turns, interval, deadline, n + 1)
  {
    forall k | 0 <= k < n + 1
      ensures Polled(turns, interval, deadline, k) && (turns[k].answer.Pending? || turns[k].answer.SlowDown?)
    {
      if k > 0 {
        PolledNext(turns, interval, deadline, k - 1);
        assert turns[1..][k - 1] == turns[k];
      }
    }
  }

  lemma {:induction false} PollsInTurn(turns: seq<Turn>, interval: real, deadline: real, k: nat)
    requires k < |Polls(turns, interval, deadline)|
    ensures k < |turns|
    ensures Polls(turns, interval, deadline)[k] ==
            Poll(turns[k].woke, IntervalAt(turns, interval, k), turns[k].answer)
  {
    if k > 0 {
      PollsInTurn(turns[1..], NextInterval(interval, turns[0].answer), deadline, k - 1);
      PolledNext(turns, interval, deadline, k - 1);
    }
  }

  /** What an ending says of the turns before it. */
  ghost predicate EndsAs(ending: Ending, turns: seq<Turn>, interval: real, deadline: real, n: nat) {
    match ending
    case StillPolling => n == |turns| && GoesOn(turns, interval, deadline, n)
    case Expired => n < |turns| && GoesOn(turns, interval, deadline, n) && !Polled(turns, interval, deadline, n)
    case Answered(a) =>
      && 0 < n <= |turns| && GoesOn(turns, interval, deadline, n - 1) && Polled(turns, interval, deadline, n - 1)
      && a == turns[n - 1].answer && (a.Success? || a.Error?)
  }

  lemma {:induction false} EndsNext(ending: Ending, turns: seq<Turn>, interval: real, deadline: real, n: nat)
    requires turns != [] && Polled(turns, interval, deadline, 0) && KeepsPolling(turns[0].answer)
    requires EndsAs(ending, turns[1..], NextInterval(interval, turns[0].answer), deadline, n)
    ensures EndsAs(ending, turns, interval, deadline, n + 1)
  {
    match ending
    case StillPolling => GoesOnNext(turns, interval, deadline, n);
    case Expired =>
      GoesOnNext(turns, interval, deadline, n);
      PolledNext(turns, interval, deadline, n);
    case Answered(_) =>
      GoesOnNext(turns, interval, deadline, n - 1);
      PolledNext(turns, interval, deadline, n - 1);
  }

  lemma {:induction false} EndsExactly(turns: seq<Turn>, interval: real, deadline: real)
    ensures EndsAs(EndingOf(turns, interval, deadline), turns, interval, deadline,
                   |Polls(turns, interval, deadline)|)
  {
    if turns != [] {
      assert IntervalAt(turns, interval, 0) == interval;
      if Sends(turns[0], interval, deadline) && KeepsPolling(turns[0].answer) {
        var next := NextInterval(interval, turns[0].answer);
        EndsExactly(turns[1..], next, deadline);
        EndsNext(EndingOf(turns, interval, deadline), turns, interval, deadline, |Polls(turns[1..], next, deadline)|);
      }
    }
  }

  /**
   * Turn for turn: every poll is sent in its turn, under that turn's interval,
   * with its answer. The loop ends on the first answer that is neither
   * `authorization_pending` nor `slow_down`, or expires in the first turn that
   * would reach the deadline, and otherwise goes on.
   */
  lemma PollsExactly(turns: seq<Turn>, interval: real, deadline: real)
    ensures var polls := Polls(turns, interval, deadline);
            && |polls| <= |turns|
            && (forall k :: 0 <= k < |polls| ==>
                  polls[k] == Poll(turns[k].woke, IntervalAt(turns, interval, k), turns[k].answer))
            && EndsAs(EndingOf(turns, interval, deadline), turns, interval, deadline, |polls|)
  {
    EndsExactly(turns, interval, deadline);
    forall k | 0 <= k < |Polls(turns, interval, deadline)|
      ensures k < |turns|
      ensures Polls(turns, interval, deadline)[k] ==
              Poll(turns[k].woke, IntervalAt(turns, interval, k), turns[k].answer)
    {
      PollsInTurn(turns, interval, deadline, k);
    }
  }

  /** Whatever the clock and the server do, no poll is sent at or after the deadline. */
  lemma {:induction false} NoPollAfterTheDeadline(turns: seq<Turn>, interval: real, deadline: real)
    ensures forall k :: 0 <= k < |Polls(turns, interval, deadline)| ==>
            Polls(turns, interval, deadline)[k].at < deadline
  {
    if turns != [] && Sends(turns[0], interval, deadline) && KeepsPolling(turns[0].answer) {
      NoPollAfterTheDeadline(turns[1..], NextInterval(interval, turns[0].answer), deadline);
    }
  }

  function SlowDowns(polls: seq<Poll>): nat {
    if polls == [] then 0 else (if polls[0].answer.SlowDown? then 1 else 0) + SlowDowns(polls[1..])
  }

  /** The clock never runs back, and a sleep never ends early; `since` is the clock when the turns begin. */
  ghost predicate Honest(turns: seq<Turn>, interval: real, since: real) {
    turns == [] ||
    (&& since <= turns[0].checked <= turns[0].woke
     && turns[0].checked + interval * 1000.0 <= turns[0].woke
     && Honest(turns[1..], NextInterval(interval, turns[0].answer), turns[0].woke))
  }

  /**
   * Each poll goes out under the first interval plus 5 seconds for every
   * `slow_down` answered before it, and, on an honest clock, at least that long
   * after the poll before it, or after the start.
   */
  lemma {:induction false} PollsAreSpaced(turns: seq<Turn>, interval: real, deadline: real, since: real, k: nat)
    requires Honest(turns, interval, since) && k < |Polls(turns, interval, deadline)|
    ensures var polls := Polls(turns, interval, deadline);
            && polls[k].interval == interval + 5.0 * SlowDowns(polls[..k]) as real
            && polls[k].at - (if k == 0 then since else polls[k - 1].at) >= polls[k].interval * 1000.0
    ensures forall j :: 0 <= j < k ==> KeepsPolling(Polls(turns, interval, deadline)[j].answer)
  {
    var polls := Polls(turns, interval, deadline);
    if k > 0 {
      var next := NextInterval(interval, turns[0].answer);
      PollsAreSpaced(turns[1..], next, deadline, turns[0].woke, k - 1);
      var rest := Polls(turns[1..], next, deadline);
      assert polls == [polls[0]] + rest;
      assert polls[..k][1..] == rest[..k - 1];
    }
  }

  function IntervalsInForce(polls: seq<Poll>): real {
    if polls == [] then 0.0 else polls[0].interval + IntervalsInForce(polls[1..])
  }

  /** The intervals waited out before the polls sent add up to less than the session's lifetime. */
  lemma {:induction false} IntervalsFitTheLifetime(turns: seq<Turn>, interval: real, deadline: real, since: real)
    requires Honest(turns, interval, since) && Polls(turns, interval, deadline) != []
    ensures since + IntervalsInForce(Polls(turns, interval, deadline)) * 1000.0 < deadline
  {
    var polls := Polls(turns, interval, deadline);
    var next := NextInterval(interval, turns[0].answer);
    assert polls[1..] == if KeepsPolling(turns[0].answer) then Polls(turns[1..], next, deadline) else [];
    if polls[1..] != [] {
      IntervalsFitTheLifetime(turns[1..], next, deadline, turns[0].woke);
    }
  }

  lemma {:induction false} OneMoreInterval(interval: real, next: real, rest: real)
    requires interval <= next && 0.0 <= rest
    ensures next * rest >= interval * rest
    ensures interval * (rest + 1.0) == interval + interval * rest
  {
    assert (next - interval) * rest >= 0.0;
  }

  lemma {:induction false} EachIntervalAtLeastTheFirst(turns: seq<Turn>, interval: real, deadline: real)
    ensures var polls := Polls(turns, interval, deadline);
            IntervalsInForce(polls) >= interval * |polls| as real
    ensures EndingOf(turns, interval, deadline).StillPolling? ==> |Polls(turns, interval, deadline)| == |turns|
  {
    if turns != [] && Sends(turns[0], interval, deadline) {
      var polls := Polls(turns, interval, deadline);
      if KeepsPolling(turns[0].answer) {
        var next := NextInterval(interval, turns[0].answer);
        EachIntervalAtLeastTheFirst(turns[1..], next, deadline);
        assert polls[1..] == Polls(turns[1..], next, deadline);
        OneMoreInterval(interval, next, |polls[1..]| as real);
      }
    }
  }

  /** After `n` turns of any honest environment the loop has ended. */
  ghost predicate EndsWithin(n: nat, interval: real, started: real, expiresIn: real) {
    forall turns :: |turns| >= n && Honest(turns, interval, started) ==>
      !EndingOf(turns, interval, started + expiresIn * 1000.0).StillPolling?
  }

  lemma PositiveIntervalsEnd(interval: real, started: real, expiresIn: real) returns (n: nat)
    requires interval > 0.0 || expiresIn <= 0.0
    ensures EndsWithin(n, interval, started, expiresIn)
  {
    var deadline := started + expiresIn * 1000.0;
    n := if interval > 0.0 && expiresIn > 0.0 then (expiresIn / interval).Floor + 1 else 1;
    forall turns | |turns| >= n && Honest(turns, interval, started)
      ensures !EndingOf(turns, interval, deadline).StillPolling?
    {
      if EndingOf(turns, interval, deadline).StillPolling? {
        var polls := Polls(turns, interval, deadline);
        EachIntervalAtLeastTheFirst(turns, interval, deadline);
        IntervalsFitTheLifetime(turns, interval, deadline, started);
        if interval > 0.0 && expiresIn > 0.0 {
          MoreThanFit(interval, expiresIn, |polls|);
        } else {
          NoPollAfterTheDeadline(turns, interval, deadline);
          PollsAreSpaced(turns, interval, deadline, started, 0);
        }
      }
    }
  }

  lemma MoreThanFit(interval: real, expiresIn: real, polls: nat)
    requires interval > 0.0 && polls >= (expiresIn / interval).Floor + 1
    ensures interval * polls as real > expiresIn
  {
    var q := expiresIn / interval;
    assert polls as real > q;
    assert interval * q == expiresIn;
    assert interval * (polls as real - q) > 0.0;
  }

  /** `n` turns in which the clock stands still and every answer is pending. */
  function Standstill(at: real, n: nat): seq<Turn> {
    if n == 0 then [] else [Turn(at, at, Pending)] + Standstill(at, n - 1)
  }

  lemma {:induction false} StandstillPollsOn(interval: real, started: real, expiresIn: real, n: nat)
    requires interval <= 0.0 && expiresIn > 0.0
    ensures var turns := Standstill(started, n);
            && |turns| == n && Honest(turns, interval, started)
            && EndingOf(turns, interval, started + expiresIn * 1000.0).StillPolling?
  {
    if n > 0 {
      StandstillPollsOn(interval, started, expiresIn, n - 1);
      assert Standstill(started, n)[1..] == Standstill(started, n - 1);
    }
  }

  /**
   * The loop is sure to end exactly when the interval is positive or the
   * session has no lifetime: the source takes whatever interval the server
   * names, and on one that is not positive an honest clock that stands still
   * polls without end.
   */
  lemma EndsExactlyWhen(interval: real, started: real, expiresIn: real)
    ensures (exists n: nat :: EndsWithin(n, interval, started, expiresIn)) <==> interval > 0.0 || expiresIn <= 0.0
  {
    if interval > 0.0 || expiresIn <= 0.0 {
      var n := PositiveIntervalsEnd(interval, started, expiresIn);
    } else {
      forall n: nat
        ensures !EndsWithin(n, interval, started, expiresIn)
      {
        StandstillPollsOn(interval, started, expiresIn, n);
        var turns := Standstill(started, n);
        assert |turns| >= n;
      }
    }
  }
}
