/**
 The gate in front of evictions that plugins ask for: a token bucket refilled by the clock and
 a limit on how many run at once. Time is a real number of seconds.
 */
module EvictGates {

  const BURST: real := 5.0
  const IN_FLIGHT := 2

  datatype Gate = Gate(tokens: real, last: real, inflight: int)

  function Opened(now: real): Gate {
    Gate(BURST, now, 0)
  }

  function Min(a: real, b: real): real {
    if a <= b then a else b
  }

  /** A call with the clock reading it took before it got the lock. */
  function Allow(g: Gate, now: real): (Gate, bool) {
    var tokens := Min(BURST, g.tokens + (now - g.last));
    if g.inflight >= IN_FLIGHT || tokens < 1.0 then (Gate(tokens, now, g.inflight), false)
    else (Gate(tokens - 1.0, now, g.inflight + 1), true)
  }

  /** Calls in the order in which they got the lock; an admitted one ends once, later. */
  datatype Event = Call(now: real) | End

  predicate CanDo(g: Gate, ev: Event) {
    ev.Call? || g.inflight > 0
  }

  function After(g: Gate, ev: Event): Gate {
    match ev
    case Call(now) => Allow(g, now).0
    case End => g.(inflight := g.inflight - 1)
  }

  /** One if the event is a call that is admitted. */
  function Admits(g: Gate, ev: Event): nat {
    if ev.Call? && Allow(g, ev.now).1 then 1 else 0
  }

  class EvictGate {
    var tokens: real
    var last: real
    var inflight: int

    constructor (now: real)
      ensures Now() == Opened(now)
    {
      tokens, last, inflight := BURST, now, 0;
    }

    function Now(): Gate
      reads this
    {
      Gate(tokens, last, inflight)
    }

    method Admit(now: real) returns (ok: bool)
      modifies this
      ensures (Now(), ok) == Allow(old(Now()), now)
    {
      tokens := tokens + (now - last);
      if tokens > BURST {
        tokens := BURST;
      }
      last := now;
      if inflight >= IN_FLIGHT || tokens < 1.0 {
        return false;
      }
      tokens := tokens - 1.0;
      inflight := inflight + 1;
      ok := true;
    }

    method Leave()
      modifies `inflight
      ensures Now() == After(old(Now()), End)
    {
      inflight := inflight - 1;
    }
  }

  // ---- runs ----

  predicate Possible(g: Gate, events: seq<Event>)
    decreases |events|
  {
    events == [] || (CanDo(g, events[0]) && Possible(After(g, events[0]), events[1..]))
  }

  function Final(g: Gate, events: seq<Event>): Gate
    decreases |events|
  {
    if events == [] then g else Final(After(g, events[0]), events[1..])
  }

  /** How many calls a run admits. */
  function Admitted(g: Gate, events: seq<Event>): nat
    decreases |events|
  {
    if events == [] then 0 else Admits(g, events[0]) + Admitted(After(g, events[0]), events[1..])
  }

  /** Any sequence of calls and ends, carried out on one gate. */
  method Replay(start: real, events: seq<Event>) returns (gate: EvictGate, admitted: nat)
    ensures gate.Now() == Final(Opened(start), events)
    ensures admitted == Admitted(Opened(start), events)
  {
    gate := new EvictGate(start);
    admitted := 0;
    for k := 0 to |events|
      invariant fresh(gate)
      invariant Final(gate.Now(), events[k..]) == Final(Opened(start), events)
      invariant admitted + Admitted(gate.Now(), events[k..]) == Admitted(Opened(start), events)
    {
      assert events[k..][1..] == events[k + 1..];
      match events[k]
      case Call(now) =>
        var ok := gate.Admit(now);
        if ok {
          admitted := admitted + 1;
        }
      case End =>
        gate.Leave();
    }
  }

  function Ended(events: seq<Event>): nat {
    if events == [] then 0 else (if events[0].End? then 1 else 0) + Ended(events[1..])
  }

  /** Never more than two run at once, and exactly those that were admitted and have not ended. */
  lemma {:induction false} FewInFlight(g: Gate, events: seq<Event>)
    requires 0 <= g.inflight <= IN_FLIGHT && Possible(g, events)
    ensures 0 <= Final(g, events).inflight <= IN_FLIGHT
    ensures Final(g, events).inflight == g.inflight + Admitted(g, events) - Ended(events)
    decreases |events|
  {
    if events != [] {
      FewInFlight(After(g, events[0]), events[1..]);
    }
  }

  /** The latest clock reading up to now; the readings themselves may arrive out of order. */
  function Latest(latest: real, events: seq<Event>): real
    decreases |events|
  {
    if events == [] then latest
    else Latest(if events[0].Call? && events[0].now > latest then events[0].now else latest, events[1..])
  }

  lemma {:induction false} LatestGrows(latest: real, events: seq<Event>)
    ensures Latest(latest, events) >= latest
    decreases |events|
  {
    if events != [] {
      LatestGrows(if events[0].Call? && events[0].now > latest then events[0].now else latest, events[1..]);
    }
  }

  /** What could still be admitted at the latest reading is bounded by the bucket. */
  predicate Bounded(g: Gate, latest: real) {
    g.last <= latest && g.tokens + (latest - g.last) <= BURST
  }

  lemma AllowBounded(g: Gate, latest: real, now: real)
    requires Bounded(g, latest)
    ensures Bounded(Allow(g, now).0, if now > latest then now else latest)
  {
  }

  lemma {:induction false} RunBounded(g: Gate, latest: real, events: seq<Event>)
    requires Bounded(g, latest) && Possible(g, events)
    ensures Bounded(Final(g, events), Latest(latest, events))
    decreases |events|
  {
    if events != [] {
      if events[0].Call? {
        AllowBounded(g, latest, events[0].now);
        RunBounded(Allow(g, events[0].now).0, if events[0].now > latest then events[0].now else latest, events[1..]);
      } else {
        RunBounded(g.(inflight := g.inflight - 1), latest, events[1..]);
      }
    }
  }

  /**
   Admissions are paid for by tokens and by the time that passes; an admission leaves the
   bucket non-negative, so the bound is tight at every admission.
   */
  lemma {:induction false} Paid(g: Gate, latest: real, events: seq<Event>)
    requires Bounded(g, latest) && Possible(g, events)
    ensures Admitted(g, events) > 0 ==>
              Admitted(g, events) as real <= g.tokens + (latest - g.last) + (Latest(latest, events) - latest)
    decreases |events|
  {
    if events != [] {
      if events[0].Call? {
        var now := events[0].now;
        var next := if now > latest then now else latest;
        var g' := Allow(g, now).0;
        AllowBounded(g, latest, now);
        Paid(g', next, events[1..]);
        LatestGrows(next, events[1..]);
      } else {
        Paid(g.(inflight := g.inflight - 1), latest, events[1..]);
      }
    }
  }

  /** Whatever came before, a stretch of calls admits at most five and one for every second that passes in it. */
  lemma AtMostFiveAndTheSeconds(start: real, before: seq<Event>, first: real, stretch: seq<Event>)
    requires Possible(Opened(start), before)
    requires Possible(Final(Opened(start), before), [Call(first)] + stretch)
    ensures var latest := Latest(start, before);
            var begin := if first > latest then first else latest;
            var end := Latest(begin, stretch);
            Admitted(Final(Opened(start), before), [Call(first)] + stretch) as real <= BURST + (end - begin)
  {
    RunBounded(Opened(start), start, before);
    var g, latest := Final(Opened(start), before), Latest(start, before);
    var begin := if first > latest then first else latest;
    var (g', ok) := Allow(g, first);
    AllowBounded(g, latest, first);
    assert ([Call(first)] + stretch)[1..] == stretch;
    LatestGrows(begin, stretch);
    Paid(g', begin, stretch);
  }

  predicate InOrder(from: real, events: seq<Event>, to: real)
    decreases |events|
  {
    if events == [] then from <= to
    else if events[0].Call? then from <= events[0].now && InOrder(events[0].now, events[1..], to)
    else InOrder(from, events[1..], to)
  }

  lemma {:induction false} LatestInOrder(from: real, events: seq<Event>, to: real)
    requires InOrder(from, events, to)
    ensures from <= Latest(from, events) <= to
    decreases |events|
  {
    if events != [] {
      LatestInOrder(if events[0].Call? then events[0].now else from, events[1..], to);
    }
  }

  /** With readings in order: between t0 and t1 at most 5 + (t1 - t0) calls are admitted. */
  lemma AdmittedBetween(start: real, before: seq<Event>, t0: real, during: seq<Event>, t1: real)
    requires Possible(Opened(start), before) && InOrder(start, before, t0)
    requires Possible(Final(Opened(start), before), during) && InOrder(t0, during, t1)
    ensures Admitted(Final(Opened(start), before), during) as real <= BURST + (t1 - t0)
  {
    LatestInOrder(t0, during, t1);
    LatestInOrder(start, before, t0);
    RunBounded(Opened(start), start, before);
    Between(Final(Opened(start), before), Latest(start, before), t0, during, t1);
  }

  lemma {:induction false} Between(g: Gate, latest: real, t0: real, during: seq<Event>, t1: real)
    requires Bounded(g, latest) && latest <= t0 && Possible(g, during) && InOrder(t0, during, t1)
    ensures Admitted(g, during) as real <= BURST + (t1 - t0)
    decreases |during|
  {
    if during == [] {
    } else if during[0].End? {
      Between(g.(inflight := g.inflight - 1), latest, t0, during[1..], t1);
    } else {
      var now := during[0].now;
      AllowBounded(g, latest, now);
      LatestInOrder(now, during[1..], t1);
      Paid(Allow(g, now).0, now, during[1..]);
    }
  }

  // ---- exactly when a call is admitted ----

  /** What is left of five and one for every second since the j-th event, a call, got its clock reading. */
  function Slack(g: Gate, events: seq<Event>, j: nat, now: real): real
    requires j < |events| && events[j].Call?
  {
    5.0 + (now - events[j].now) - Admitted(Final(g, events[..j]), events[j..]) as real
  }

  /** What is left of the tokens a gate starts with, and of the time that passes. */
  function Rest(g: Gate, events: seq<Event>, now: real): real {
    g.tokens + (now - g.last) - Admitted(g, events) as real
  }

  function Level(g: Gate, now: real): real {
    g.tokens + (now - g.last)
  }

  lemma AfterFirst(g: Gate, events: seq<Event>, j: nat, now: real)
    requires 0 < j < |events| && events[j].Call?
    ensures Slack(g, events, j, now) == Slack(After(g, events[0]), events[1..], j - 1, now)
  {
    assert events[..j][1..] == events[1..][..j - 1] && events[..j][0] == events[0];
    assert events[j..] == events[1..][j - 1..];
  }

  lemma AtFirst(g: Gate, events: seq<Event>, now: real)
    requires events != [] && events[0].Call?
    ensures Slack(g, events, 0, now) == 5.0 + (now - events[0].now) - Admitted(g, events) as real
  {
    assert events[..0] == [] && events[0..] == events;
  }

  /** The bucket is never above what any stretch of calls leaves. */
  lemma {:induction false} LevelBelow(g: Gate, events: seq<Event>, now: real)
    ensures Level(Final(g, events), now) <= Rest(g, events, now)
    ensures forall j | 0 <= j < |events| && events[j].Call? :: Level(Final(g, events), now) <= Slack(g, events, j, now)
    decreases |events|
  {
    if events != [] {
      var g', rest := After(g, events[0]), events[1..];
      LevelBelow(g', rest, now);
      forall j | 0 <= j < |events| && events[j].Call?
        ensures Level(Final(g, events), now) <= Slack(g, events, j, now)
      {
        if j > 0 {
          AfterFirst(g, events, j, now);
          assert rest[j - 1].Call?;
        } else {
          AtFirst(g, events, now);
        }
      }
    }
  }

  /** And it is as high as the tightest of them allows. */
  lemma {:induction false} LevelAttained(g: Gate, events: seq<Event>, now: real)
    ensures || Level(Final(g, events), now) == Rest(g, events, now)
            || exists j | 0 <= j < |events| && events[j].Call? :: Level(Final(g, events), now) == Slack(g, events, j, now)
    decreases |events|
  {
    if events != [] {
      var g', rest := After(g, events[0]), events[1..];
      LevelAttained(g', rest, now);
      if Level(Final(g', rest), now) == Rest(g', rest, now) {
        if events[0].Call? {
          AtFirst(g, events, now);
          assert Level(Final(g, events), now) == Rest(g, events, now) || Level(Final(g, events), now) == Slack(g, events, 0, now);
        }
      } else {
        var j :| 0 <= j < |rest| && rest[j].Call? && Level(Final(g', rest), now) == Slack(g', rest, j, now);
        AfterFirst(g, events, j + 1, now);
        assert events[j + 1].Call?;
      }
    }
  }

  /**
   A call is admitted exactly when fewer than two are running and, with it, no stretch of calls
   up to now exceeds five and one for every second since the stretch began, nor do all calls since
   the gate was opened. This holds in whatever order clock readings reach the gate.
   */
  lemma AdmittedIff(start: real, events: seq<Event>, now: real)
    requires Possible(Opened(start), events)
    ensures Allow(Final(Opened(start), events), now).1 <==>
              && Admitted(Opened(start), events) - Ended(events) < 2
              && Admitted(Opened(start), events) as real + 1.0 <= 5.0 + (now - start)
              && forall j | 0 <= j < |events| && events[j].Call? ::
                   Admitted(Final(Opened(start), events[..j]), events[j..]) as real + 1.0 <= 5.0 + (now - events[j].now)
  {
    var g := Opened(start);
    FewInFlight(g, events);
    LevelBelow(g, events, now);
    LevelAttained(g, events, now);
    assert forall j | 0 <= j < |events| && events[j].Call? ::
        Slack(g, events, j, now) == 5.0 + (now - events[j].now) - Admitted(Final(g, events[..j]), events[j..]) as real;
    hide Final, Admitted, Ended, Possible;
  }
}
