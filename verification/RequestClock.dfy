/** The `created` second each signed request carries, never repeated for one (method, authority, path). */
module RequestClock {
  datatype Target = Target(verb: string, host: string, path: string)

  function Tuple(t: Target): string {
    t.verb + " " + t.host + t.path
  }

  /**
   * As a parsed request target has it: no space in a method, no slash in an authority, and a path from its slash on.
   */
  predicate IsTarget(t: Target) {
    ' ' !in t.verb && '/' !in t.host && t.path != "" && t.path[0] == '/'
  }

  /** A character absent from both `a` and `a'` ends each of them in the same place. */
  lemma FirstMarkSplits(a: string, x: string, a': string, x': string, mark: char)
    requires mark !in a && mark !in a' && a + [mark] + x == a' + [mark] + x'
    ensures a == a' && x == x'
  {
    var s := a + [mark] + x;
    assert s[|a|] == mark && s[|a'|] == mark;
    assert forall i :: 0 <= i < |a| ==> s[i] == a[i];
    assert forall i :: 0 <= i < |a'| ==> s[i] == a'[i];
    assert |a| == |a'|;
    assert a == s[..|a|] && a' == s[..|a'|];
    assert x == s[|a| + 1..] && x' == s[|a'| + 1..];
  }

  /** The text a request is remembered under names its method, authority and path, and no others. */
  lemma TupleIdentifies(t: Target, u: Target)
    requires IsTarget(t) && IsTarget(u)
    ensures Tuple(t) == Tuple(u) <==> t == u
  {
    if Tuple(t) == Tuple(u) {
      assert Tuple(t) == t.verb + [' '] + (t.host + t.path);
      assert Tuple(u) == u.verb + [' '] + (u.host + u.path);
      FirstMarkSplits(t.verb, t.host + t.path, u.verb, u.host + u.path, ' ');
      assert t.path == ['/'] + t.path[1..] && u.path == ['/'] + u.path[1..];
      assert t.host + t.path == t.host + ['/'] + t.path[1..];
      assert u.host + u.path == u.host + ['/'] + u.path[1..];
      FirstMarkSplits(t.host, t.path[1..], u.host, u.path[1..], '/');
    }
  }

  /** The clock in milliseconds, and by how much each sleep to come overshoots: none, for the manual clock. */
  datatype Time = Time(ms: int, lag: seq<nat>)

  function Second(ms: int): int {
    ms / 1000
  }

  /** `ms % 1000` with the sign of `ms`. */
  function Remainder(ms: int): int {
    if ms >= 0 then ms % 1000 else -(-ms % 1000)
  }

  /** A sleep takes at least as long as it was asked to. */
  function Slept(t: Time, ms: int): (t': Time)
    ensures t'.ms >= t.ms + ms
  {
    if t.lag == [] then t.(ms := t.ms + ms) else Time(t.ms + ms + t.lag[0], t.lag[1..])
  }

  function UntilNextSecond(t: Time): (t': Time)
    ensures Second(t'.ms) >= Second(t.ms) + 1
    ensures t.lag == [] && t.ms >= 0 ==> t'.ms == (Second(t.ms) + 1) * 1000 && t'.lag == []
  {
    Slept(t, 1000 - Remainder(t.ms))
  }

  /** The clock once a second after `last` has come. */
  function Waited(t: Time, last: int): (t': Time)
    ensures Second(t'.ms) > last
    ensures Second(t.ms) > last ==> t' == t
    decreases last - Second(t.ms)
  {
    if Second(t.ms) > last then t else Waited(UntilNextSecond(t), last)
  }

  /** On a clock that only sleeping moves, the wait is no longer than it need be. */
  lemma {:induction false} WaitsNoLonger(t: Time, last: int)
    requires t.lag == [] && t.ms >= 0
    ensures Second(Waited(t, last).ms) == if Second(t.ms) > last then Second(t.ms) else last + 1
    decreases last - Second(t.ms)
  {
    if Second(t.ms) <= last {
      var next := UntilNextSecond(t);
      assert Second(next.ms) == Second(t.ms) + 1;
      WaitsNoLonger(next, last);
    }
  }

  // ---- The client ----

  datatype Sent = Sent(tuple: string, created: int)

  datatype Client = Client(lastCreated: map<string, int>, time: Time, sent: seq<Sent>)

  function TimeFor(lastCreated: map<string, int>, time: Time, tuple: string): (t: Time)
    ensures tuple in lastCreated ==> Second(t.ms) > lastCreated[tuple]
  {
    if tuple in lastCreated then Waited(time, lastCreated[tuple]) else time
  }

  /** One request sent. */
  function Send(c: Client, tuple: string): Client {
    var time := TimeFor(c.lastCreated, c.time, tuple);
    var created := Second(time.ms);
    Client(c.lastCreated[tuple := created], time, c.sent + [Sent(tuple, created)])
  }

  /**
   * A request carries the current second where its target has not used that or
   * a later one, without waiting; otherwise it waits for a second after the
   * last, the very next on a clock that only sleeping moves.
   */
  lemma SentExactly(c: Client, tuple: string)
    ensures var c', now := Send(c, tuple), c.time.ms / 1000;
            var used := tuple in c.lastCreated && c.lastCreated[tuple] >= now;
            var created := c'.time.ms / 1000;
            && c'.sent == c.sent + [Sent(tuple, created)] && c'.lastCreated == c.lastCreated[tuple := created]
            && (!used ==> c'.time == c.time)
            && (used ==> created > c.lastCreated[tuple])
            && (used && c.time.lag == [] && c.time.ms >= 0 ==> created == c.lastCreated[tuple] + 1)
  {
    if tuple in c.lastCreated && c.time.lag == [] && c.time.ms >= 0 {
      WaitsNoLonger(c.time, c.lastCreated[tuple]);
    }
  }

  /** A request after `elapsed` milliseconds of the clock, which may be set back between requests. */
  datatype Request = Request(tuple: string, elapsed: int)

  function AfterAll(requests: seq<Request>, start: Time): Client {
    if requests == [] then Client(map[], start, [])
    else
      var r := requests[|requests| - 1];
      var c := AfterAll(requests[..|requests| - 1], start);
      Send(c.(time := c.time.(ms := c.time.ms + r.elapsed)), r.tuple)
  }

  class AgentClient {
    var lastCreated: map<string, int>
    var ms: int
    var lag: seq<nat>
    var sent: seq<Sent>

    ghost function Contents(): Client
      reads this
    {
      Client(lastCreated, Time(ms, lag), sent)
    }

    constructor (ms: int, lag: seq<nat>)
      ensures Contents() == Client(map[], Time(ms, lag), [])
    {
      lastCreated, this.ms, this.lag, sent := map[], ms, lag, [];
    }

    method Sleep(duration: int)
      modifies this
      ensures Contents() == old(Contents()).(time := Slept(old(Contents()).time, duration))
    {
      if lag == [] {
        ms := ms + duration;
      } else {
        ms, lag := ms + duration + lag[0], lag[1..];
      }
    }

    /** `created`: the current second, or the first to come that this target has not used. */
    method Created(tuple: string) returns (created: int)
      modifies this
      ensures var c, t := old(Contents()), TimeFor(old(Contents()).lastCreated, old(Contents()).time, tuple);
              && created == Second(t.ms)
              && Contents() == c.(lastCreated := c.lastCreated[tuple := created], time := t)
      ensures old(tuple in lastCreated) ==> created > old(lastCreated)[tuple]
      ensures old(tuple !in lastCreated || lastCreated[tuple] < ms / 1000) ==>
                created == old(ms) / 1000 && ms == old(ms) && lag == old(lag)
    {
      created := Second(ms);
      if tuple in lastCreated {
        var last := lastCreated[tuple];
        while created <= last
          invariant created == Second(ms)
          invariant lastCreated == old(lastCreated) && sent == old(sent)
          invariant Waited(Time(ms, lag), last) == Waited(old(Contents()).time, last)
          decreases last - created
        {
          ghost var before := Time(ms, lag);
          Sleep(1000 - Remainder(ms));
          assert Time(ms, lag) == UntilNextSecond(before);
          created := Second(ms);
        }
      }
      lastCreated := lastCreated[tuple := created];
    }

    method Request(tuple: string)
      modifies this
      ensures Contents() == Send(old(Contents()), tuple)
    {
      var created := Created(tuple);
      sent := sent + [Sent(tuple, created)];
    }
  }

  // ---- Whole sequences of requests ----

  ghost predicate Inv(c: Client) {
    && (forall i :: 0 <= i < |c.sent| ==>
        c.sent[i].tuple in c.lastCreated && c.sent[i].created <= c.lastCreated[c.sent[i].tuple])
    && (forall i, j :: 0 <= i < j < |c.sent| && c.sent[i].tuple == c.sent[j].tuple ==>
        c.sent[i].created < c.sent[j].created)
  }

  /**
   * Over every sequence of requests, however the clock moves between them, the
   * seconds sent for one method, authority and path strictly increase: no
   * verifier sees the same one twice.
   */
  lemma {:induction false} CreatedStrictlyIncreases(requests: seq<Request>, start: Time)
    ensures Inv(AfterAll(requests, start)) && |AfterAll(requests, start).sent| == |requests|
    ensures forall i :: 0 <= i < |requests| ==> AfterAll(requests, start).sent[i].tuple == requests[i].tuple
  {
    if requests != [] {
      CreatedStrictlyIncreases(requests[..|requests| - 1], start);
    }
  }
}
