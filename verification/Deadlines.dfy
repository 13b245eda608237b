/** What a call of next() comes to, by when its item arrives, a deadline passes, or it is cancelled. */
module Deadlines {
  import opened Sources

  /** A source that can be read, and a reader that is not at it yet. */
  predicate Readable(s: Sys, i: Pid) {
    && (s.reading == Some(Frames) || s.reading == Some(Chunks)) && !s.src.dead && !s.src.closed
    && i !in s.procs && s.idle > 0 && s.now < s.totalAt
  }

  /** The reader has waited for d since it called next(). */
  predicate Waited(s: Sys, t: Sys, i: Pid, d: nat) {
    && t.procs == s.procs[i := Proc(Selecting(s.now + s.idle), None, false, |s.log|)]
    && t.src == s.src && t.now == s.now + d && t.totalAt == s.totalAt && t.log == s.log
    && (s.pump == Unstarted && s.reading == Some(Frames) ==> t.pump == Running)
    && (s.pump != Unstarted ==> t.pump == s.pump)
  }

  lemma OneStep(s: Sys, i: Pid, ev: Event)
    requires Enabled(s, i, ev)
    ensures Possible(s, [(i, ev)]) && Final(s, [(i, ev)]) == Apply(s, i, ev)
  {
    assert [(i, ev)][1..] == [];
  }

  /** A call that begins before the deadlines comes to wait for an item. */
  lemma Waits(s: Sys, i: Pid, d: nat) returns (trace: seq<(Pid, Event)>)
    requires Readable(s, i)
    ensures trace == [(i, StartNext(None))] + [(i, Look)] + [(i, CheckDeadline)] + [(i, Pass(d))]
    ensures Possible(s, trace) && Waited(s, Final(s, trace), i, d)
  {
    var s1 := Apply(s, i, StartNext(None));
    var s2 := Apply(s1, i, Look);
    var s3 := Apply(s2, i, CheckDeadline);
    assert Enabled(s1, i, Look) && Enabled(s2, i, CheckDeadline);
    assert Waited(s, Apply(s3, i, Pass(d)), i, d);
    assert Enabled(s, i, StartNext(None)) && Enabled(s3, i, Pass(d));
    hide Apply, Enabled, Possible, Final, Waited;
    OneStep(s, i, StartNext(None));
    trace := [(i, StartNext(None))];
    Snoc(s, trace, i, Look);
    trace := trace + [(i, Look)];
    Snoc(s, trace, i, CheckDeadline);
    trace := trace + [(i, CheckDeadline)];
    Snoc(s, trace, i, Pass(d));
    trace := trace + [(i, Pass(d))];
  }

  /** What an item that arrives after d comes to: the deadline of the whole response goes before that of one item. */
  function Late(s: Sys, d: nat): Option<Error> {
    if s.now + d >= s.totalAt then Some(TotalTimeout) else if d >= s.idle then Some(IdleTimeout) else None
  }

  /** The reader has its answer. */
  predicate Answered(s: Sys, t: Sys, i: Pid, r: Result) {
    t.procs == s.procs && t.src == s.src && t.log == s.log + [FromNext(r, false, |s.log|, None)]
  }

  /** The reader has ended the source with an error and is about to close it and to report the error. */
  predicate Died(s: Sys, t: Sys, i: Pid, error: Error) {
    && t.src == s.src.(dead := true, terminal := Some(error)) && t.log == s.log
    && i in t.procs && t.procs[i].pc == Shutting(Own(Fails(error)))
  }

  /**
   Data that arrives in time is handed out, unchanged; data that arrives too late ends the source
   with the deadline that has passed.
   */
  lemma DataArrives(s: Sys, i: Pid, d: nat, bytes: seq<int>) returns (trace: seq<(Pid, Event)>)
    requires Readable(s, i)
    ensures Possible(s, trace)
    ensures match Late(s, d)
            case None => Answered(s, Final(s, trace), i, Yields(bytes))
            case Some(error) => Died(s, Final(s, trace), i, error)
  {
    trace := Waits(s, i, d);
    var t := Final(s, trace);
    assert Enabled(t, i, Deliver(Data(bytes))) && Enabled(Apply(t, i, Deliver(Data(bytes))), i, SeeItem);
    var u := Apply(Apply(t, i, Deliver(Data(bytes))), i, SeeItem);
    assert s.procs[i := Proc(Selecting(s.now + s.idle), None, false, |s.log|)] - {i} == s.procs;
    assert match Late(s, d)
           case None => Answered(s, u, i, Yields(bytes))
           case Some(error) => Died(s, u, i, error);
    hide Apply, Enabled, Possible, Final, Waited, Answered, Died;
    Snoc(s, trace, i, Deliver(Data(bytes)));
    trace := trace + [(i, Deliver(Data(bytes)))];
    Snoc(s, trace, i, SeeItem);
    trace := trace + [(i, SeeItem)];
  }

  /** When no item arrives, whichever timer fires ends the source with the deadline that has passed. */
  lemma NothingArrives(s: Sys, i: Pid, d: nat, timer: Event) returns (trace: seq<(Pid, Event)>)
    requires Readable(s, i)
    requires (timer == SeeTotal && s.now + d >= s.totalAt) || (timer == SeeIdle && d >= s.idle)
    ensures Possible(s, trace) && Late(s, d).Some? && Died(s, Final(s, trace), i, Late(s, d).value)
  {
    trace := Waits(s, i, d);
    var t := Final(s, trace);
    assert Enabled(t, i, timer) && Enabled(Apply(t, i, timer), i, End);
    assert Died(s, Apply(Apply(t, i, timer), i, End), i, Late(s, d).value);
    hide Apply, Enabled, Possible, Final, Waited, Died;
    Snoc(s, trace, i, timer);
    trace := trace + [(i, timer)];
    Snoc(s, trace, i, End);
    trace := trace + [(i, End)];
  }

  /** A timer cannot fire early. */
  lemma TimersWait(s: Sys, i: Pid, d: nat) returns (trace: seq<(Pid, Event)>)
    requires Readable(s, i) && Late(s, d) == None
    ensures Possible(s, trace) && Waited(s, Final(s, trace), i, d)
    ensures !Enabled(Final(s, trace), i, SeeTotal) && !Enabled(Final(s, trace), i, SeeIdle)
  {
    trace := Waits(s, i, d);
  }

  /** A cancelled call ends the source with the reason for the cancellation, whether or not data is there. */
  lemma CancelledWhileWaiting(s: Sys, i: Pid, d: nat, cause: CtxError, bytes: Option<seq<int>>)
    returns (trace: seq<(Pid, Event)>)
    requires Readable(s, i)
    ensures Possible(s, trace) && Died(s, Final(s, trace), i, Ctx(cause))
  {
    trace := Waits(s, i, d);
    var t := Apply(Final(s, trace), i, Cancel(cause));
    var first := if bytes.Some? then Deliver(Data(bytes.value)) else SeeContext;
    var second := if bytes.Some? then SeeItem else End;
    CancelledBefore(s, Final(s, trace), i, d, cause, first, second);
    hide Apply, Enabled, Possible, Final, Waited, Died;
    Snoc(s, trace, i, Cancel(cause));
    trace := trace + [(i, Cancel(cause))];
    Snoc(s, trace, i, first);
    trace := trace + [(i, first)];
    Snoc(s, trace, i, second);
    trace := trace + [(i, second)];
  }

  lemma CancelledBefore(s: Sys, w: Sys, i: Pid, d: nat, cause: CtxError, first: Event, second: Event)
    requires Readable(s, i) && Waited(s, w, i, d)
    requires (first == SeeContext && second == End) || (first.Deliver? && first.item.Data? && second == SeeItem)
    ensures Enabled(w, i, Cancel(cause))
    ensures var t := Apply(w, i, Cancel(cause));
            && Enabled(t, i, first) && Enabled(Apply(t, i, first), i, second)
            && Died(s, Apply(Apply(t, i, first), i, second), i, Ctx(cause))
  {
    hide MapReadError;
  }

  /** The reader has closed the body with this outcome and reported its error. */
  predicate Reported(s: Sys, t: Sys, i: Pid, error: Error, outcome: Option<string>)
    requires i in s.procs
  {
    && t.procs == s.procs - {i} && t.src == s.src.(closed := true) && t.closeErr == outcome && t.announced
    && t.bodyCloses == s.bodyCloses + [outcome]
    && t.log == s.log + [FromNext(Fails(error), s.procs[i].lateStart, s.procs[i].since, s.procs[i].ctx)]
  }

  lemma CloseSteps(s: Sys, i: Pid, after: After, outcome: Option<string>)
    requires i in s.procs && s.procs[i].pc == Shutting(after) && !s.src.closed
    ensures Enabled(s, i, EnterClose) && Enabled(Apply(s, i, EnterClose), i, CloseBody(outcome))
    ensures Apply(Apply(s, i, EnterClose), i, CloseBody(outcome)) == Closing(s, i, after, outcome)
  {
    var t := Apply(s, i, EnterClose);
    assert t.procs[i].pc == ClosingBody(after);
    assert Apply(t, i, CloseBody(outcome)).procs == s.procs[i := s.procs[i].(pc := Storing(after, outcome))];
  }

  function Closing(s: Sys, i: Pid, after: After, outcome: Option<string>): Sys
    requires i in s.procs
  {
    s.(src := s.src.(closed := true), closer := i, bodyCloses := s.bodyCloses + [outcome],
       procs := s.procs[i := s.procs[i].(pc := Storing(after, outcome))])
  }

  lemma TellSteps(s: Sys, i: Pid, error: Error, outcome: Option<string>)
    requires i in s.procs
    ensures var t := Closing(s, i, Own(Fails(error)), outcome);
            && Enabled(t, i, Store) && Enabled(Apply(t, i, Store), i, Announce)
            && Reported(s, Apply(Apply(t, i, Store), i, Announce), i, error, outcome)
  {
    var t := Closing(s, i, Own(Fails(error)), outcome);
    assert Apply(t, i, Store).procs - {i} == s.procs - {i};
  }

  lemma ReportSteps(s: Sys, i: Pid, error: Error, outcome: Option<string>)
    requires i in s.procs && s.procs[i].pc == Shutting(Own(Fails(error))) && !s.src.closed
    ensures Enabled(s, i, EnterClose)
    ensures var s1 := Apply(s, i, EnterClose);
            && Enabled(s1, i, CloseBody(outcome))
            && var s2 := Apply(s1, i, CloseBody(outcome));
               && Enabled(s2, i, Store)
               && var s3 := Apply(s2, i, Store);
                  Enabled(s3, i, Announce) && Reported(s, Apply(s3, i, Announce), i, error, outcome)
  {
    hide Apply, Enabled, Reported, Closing;
    CloseSteps(s, i, Own(Fails(error)), outcome);
    TellSteps(s, i, error, outcome);
  }

  /** A reader that has ended the source closes it and then reports the error, unless somebody else closes it first. */
  lemma Reports(s: Sys, i: Pid, error: Error, outcome: Option<string>) returns (trace: seq<(Pid, Event)>)
    requires i in s.procs && s.procs[i].pc == Shutting(Own(Fails(error))) && !s.src.closed
    ensures Possible(s, trace) && Reported(s, Final(s, trace), i, error, outcome)
  {
    hide Apply, Enabled, Possible, Final, Reported;
    ReportSteps(s, i, error, outcome);
    OneStep(s, i, EnterClose);
    trace := [(i, EnterClose)];
    Snoc(s, trace, i, CloseBody(outcome));
    trace := trace + [(i, CloseBody(outcome))];
    Snoc(s, trace, i, Store);
    trace := trace + [(i, Store)];
    Snoc(s, trace, i, Announce);
    trace := trace + [(i, Announce)];
  }

  /** A read error ends the source as broken, or as timed out when it came of a context. */
  lemma ErrorArrives(s: Sys, i: Pid, d: nat, fromContext: bool, cause: string) returns (trace: seq<(Pid, Event)>)
    requires Readable(s, i) && Late(s, d) == None
    ensures Possible(s, trace)
    ensures Died(s, Final(s, trace), i, if fromContext then TotalTimeout else Broken(cause))
  {
    trace := Waits(s, i, d);
    var t := Final(s, trace);
    var ev := Deliver(ReadError(fromContext, cause));
    assert Enabled(t, i, ev) && Enabled(Apply(t, i, ev), i, SeeItem);
    assert Died(s, Apply(Apply(t, i, ev), i, SeeItem), i, if fromContext then TotalTimeout else Broken(cause));
    hide Apply, Enabled, Possible, Final, Waited, Died;
    Snoc(s, trace, i, ev);
    trace := trace + [(i, ev)];
    Snoc(s, trace, i, SeeItem);
    trace := trace + [(i, SeeItem)];
  }

  // ---- who may read, and what those are told who come too late ----

  /** A reading is granted exactly once, on a source that is alive and open, and only if the response suits it. */
  lemma GrantedIff(s: Sys, i: Pid, reading: Reading)
    ensures var t := Apply(s, i, Use(reading));
            if !s.src.consumed && !s.src.dead && !s.src.closed
               && (reading == Body || (s.response.status < 300
                                       && (reading == Frames ==> s.response.eventStream)
                                       && (reading == Chunks ==> s.response.stream))) then
              && t.granted == s.granted + 1 && t.reading == Some(reading) && t.src == s.src.(consumed := true)
              && t.procs == s.procs && t.log == s.log
              && (if reading == Chunks then t.pump == Running else t.pump == s.pump)
            else t == s
  {
  }

  /**
   A reader whose source somebody else has ended meanwhile: its own cancellation goes first, then
   the error the other one recorded, then the news of the close; an item that finds the source dead
   but not yet closed ends the reading.
   */
  lemma Overtaken(s: Sys, i: Pid, ev: Event)
    requires Enabled(s, i, ev) && (ev == End || ev == SeeItem) && (s.src.dead || s.src.closed)
    ensures var x := s.procs[i];
            var r :=
              if ev == SeeItem && !s.src.closed then Ends
              else if x.ctx.Some? then Fails(Ctx(x.ctx.value))
              else if s.src.terminal.Some? then Fails(s.src.terminal.value)
              else Fails(Terminated);
            Apply(s, i, ev) == s.(procs := s.procs - {i}, log := s.log + [FromNext(r, x.lateStart, x.since, x.ctx)])
  {
    hide MapReadError, DeadlineError;
  }
}
