/** The outbound source as its methods update it, and how it follows the steps of a run. */
module OutboundSources {
  import opened Sources
  import BodyCloses

  class OutboundSource {
    var consumed: bool
    var dead: bool
    var closed: bool
    var terminal: Option<Error>
    var closeErr: Option<string>
    var closeDone: bool
    var events: bool // the channel of frames has been made
    var chunks: bool // the channel of chunks has been made

    constructor ()
      ensures Now() == Opened && closeErr == None && !closeDone && !events && !chunks
    {
      consumed, dead, closed, terminal := false, false, false, None;
      closeErr, closeDone, events, chunks := None, false, false, false;
    }

    function Now(): Source
      reads this
    {
      Source(consumed, dead, closed, terminal)
    }

    method ClaimConsume() returns (answer: Answer)
      modifies `consumed
      ensures (Now(), answer) == Claim(old(Now()))
    {
      if dead || closed {
        return Gone;
      }
      if consumed {
        return Taken;
      }
      consumed := true;
      answer := Granted;
    }

    /** Granting a reading; the pump of chunks starts at once. */
    method Grant(reading: Reading, response: Response) returns (answer: Answer)
      modifies `consumed, `chunks
      ensures (Now(), answer) == Consume(old(Now()), Suits(reading, response))
      ensures chunks == (old(chunks) || (answer == Granted && reading == Chunks))
    {
      if !Suits(reading, response) {
        return Unsuitable;
      }
      answer := ClaimConsume();
      if answer == Granted && reading == Chunks {
        chunks := true;
      }
    }

    /** The first section of a next(): an answer, or None to go on; the first for a frame starts their pump. */
    method LookAt(ctx: Option<CtxError>, frames: bool) returns (answer: Option<Result>)
      modifies `events
      ensures answer == Enter(Now(), ctx)
      ensures events == (old(events) || (answer == None && frames))
    {
      if dead {
        return Some(Ends);
      }
      if closed {
        if ctx.Some? {
          return Some(Fails(Ctx(ctx.value)));
        }
        return Some(Fails(Terminated));
      }
      if frames && !events {
        events := true;
      }
      answer := None;
    }

    /** The first section of a close(): only the first caller goes on to close the body. */
    method MarkClosed() returns (first: bool)
      modifies `closed
      ensures first == !old(closed) && Now() == old(Now()).(closed := true)
    {
      first := !closed;
      closed := true;
    }

    method TerminateSource(ctx: Option<CtxError>, error: Error) returns (told: Error, close: bool)
      modifies `dead, `terminal
      ensures (Now(), told, close) == Terminate(old(Now()), ctx, error)
    {
      if dead || closed {
        if ctx.Some? {
          return Ctx(ctx.value), false;
        }
        if terminal.Some? {
          return terminal.value, false;
        }
        return Terminated, false;
      }
      dead := true;
      terminal := Some(error);
      told, close := error, true;
    }

    method ReceiveItem(ctx: Option<CtxError>, totalAt: int, idleAt: int, now: int, item: Item)
      returns (result: Result, close: bool)
      modifies `dead, `terminal
      ensures (Now(), result, close) == Receive(old(Now()), ctx, totalAt, idleAt, now, item)
    {
      if closed {
        if ctx.Some? {
          return Fails(Ctx(ctx.value)), false;
        }
        if terminal.Some? {
          return Fails(terminal.value), false;
        }
        return Fails(Terminated), false;
      }
      if dead {
        return Ends, false;
      }
      var late := DeadlineError(ctx, totalAt, idleAt, now);
      if late.Some? {
        dead := true;
        terminal := late;
        return Fails(late.value), true;
      }
      if item.EndOfStream? {
        dead := true;
        return Ends, true;
      }
      if item.ReadError? {
        var mapped := MapReadError(ctx, item.fromContext, item.cause);
        dead := true;
        terminal := Some(mapped);
        return Fails(mapped), true;
      }
      result, close := Yields(item.bytes), false;
    }
  }

  // ---- runs, carried out ----

  predicate Shows(source: OutboundSource, s: Sys)
    reads source
  {
    && source.Now() == s.src && source.closeErr == s.closeErr && source.closeDone == s.announced
    && source.events == BodyCloses.FramesPumped(s) && source.chunks == (s.reading == Some(Chunks))
  }

  /** What the caller brings along: where it stands, its context, the kind of reading, the limits, and the clock. */
  datatype View = View(proc: Option<Proc>, response: Response, frames: bool, totalAt: int, now: int)

  function ViewOf(s: Sys, i: Pid): View {
    View(if i in s.procs then Some(s.procs[i]) else None, s.response, s.reading == Some(Frames), s.totalAt, s.now)
  }

  /** Steps that do not touch the fields. */
  predicate IsOutside(ev: Event) {
    !ev.Use? && !ev.Look? && !ev.SeeItem? && !ev.End? && !ev.EnterClose? && !ev.Store? && !ev.Announce?
  }

  lemma OutsideSpares(s: Sys, i: Pid, ev: Event)
    requires Enabled(s, i, ev) && IsOutside(ev)
    ensures var t := Apply(s, i, ev);
            && t.src == s.src && t.closeErr == s.closeErr && t.announced == s.announced && t.reading == s.reading
            && BodyCloses.FramesPumped(t) == BodyCloses.FramesPumped(s)
  {
    hide DeadlineError, Enter;
  }

  /** A step of close(), carried out on the source. */
  method PerformClose(source: OutboundSource, ev: Event, view: View, ghost s: Sys, ghost i: Pid)
    requires Enabled(s, i, ev) && (ev.EnterClose? || ev.Store? || ev.Announce?)
    requires view == ViewOf(s, i) && Shows(source, s)
    modifies source
    ensures Shows(source, Apply(s, i, ev))
  {
    match ev
    case EnterClose =>
      var _ := source.MarkClosed();
    case Store =>
      source.closeErr := view.proc.value.pc.outcome;
    case Announce =>
      source.closeDone := true;
  }

  /** A step of a reader, carried out on the source. */
  method PerformRead(source: OutboundSource, ev: Event, view: View, ghost s: Sys, ghost i: Pid)
    requires Enabled(s, i, ev) && (ev.Use? || ev.Look? || ev.SeeItem? || ev.End?) && BodyCloses.PumpOk(s)
    requires view == ViewOf(s, i) && Shows(source, s)
    modifies source
    ensures Shows(source, Apply(s, i, ev))
  {
    hide MapReadError, DeadlineError;
    match ev
    case Use(reading) =>
      var _ := source.Grant(reading, view.response);
    case Look =>
      var _ := source.LookAt(view.proc.value.ctx, view.frames);
    case SeeItem =>
      var x := view.proc.value;
      var _, _ := source.ReceiveItem(x.ctx, view.totalAt, x.pc.idleAt, view.now, x.pc.item);
    case End =>
      var _, _ := source.TerminateSource(view.proc.value.ctx, view.proc.value.pc.error);
  }

  /** One step, carried out on the source. */
  method Perform(source: OutboundSource, ev: Event, view: View, ghost s: Sys, ghost i: Pid)
    requires Enabled(s, i, ev) && BodyCloses.PumpOk(s) && view == ViewOf(s, i) && Shows(source, s)
    modifies source
    ensures Shows(source, Apply(s, i, ev))
  {
    hide Enabled, Apply, BodyCloses.PumpOk;
    if ev.EnterClose? || ev.Store? || ev.Announce? {
      PerformClose(source, ev, view, s, i);
    } else if ev.Use? || ev.Look? || ev.SeeItem? || ev.End? {
      PerformRead(source, ev, view, s, i);
    } else {
      OutsideSpares(s, i, ev);
    }
  }

  /** What the callers bring along at each step of the run. */
  ghost predicate Views(s: Sys, trace: seq<(Pid, Event)>, views: seq<View>)
    requires Possible(s, trace)
    decreases |trace|
  {
    |views| == |trace| &&
    (trace != [] ==>
       views[0] == ViewOf(s, trace[0].0) && Views(Apply(s, trace[0].0, trace[0].1), trace[1..], views[1..]))
  }

  /** Any interleaving of readers and closers, carried out on one source. */
  method Replay(
    ghost response: Response, ghost totalAt: int, ghost idle: nat, trace: seq<(Pid, Event)>, views: seq<View>)
    returns (source: OutboundSource)
    requires Possible(Initial(response, totalAt, idle), trace) && Views(Initial(response, totalAt, idle), trace, views)
    ensures Shows(source, Final(Initial(response, totalAt, idle), trace))
  {
    source := new OutboundSource();
    ghost var s := Initial(response, totalAt, idle);
    var k := 0;
    while k < |trace|
      invariant k <= |trace| == |views| && fresh(source) && Shows(source, s) && BodyCloses.PumpOk(s)
      invariant Possible(s, trace[k..]) && Final(s, trace[k..]) == Final(Initial(response, totalAt, idle), trace)
      invariant Views(s, trace[k..], views[k..])
    {
      hide Enabled, Apply, Shows, BodyCloses.PumpOk;
      var (i, ev) := trace[k];
      assert trace[k..][0] == trace[k] && trace[k..][1..] == trace[k + 1..];
      assert views[k..][0] == views[k] && views[k..][1..] == views[k + 1..];
      Perform(source, ev, views[k], s, i);
      BodyCloses.PumpStays(s, i, ev);
      s := Apply(s, i, ev);
      k := k + 1;
    }
  }
}
