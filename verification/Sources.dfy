/**
 An outbound response that is read once: who may consume it, how reading ends, and how it is
 closed. Each section under the mutex is one function on the source's state.
 */
module Sources {

  datatype Option<+T> = None | Some(value: T)

  datatype CtxError = Cancelled | DeadlineExceeded

  datatype Error =
    | Ctx(ctx: CtxError)
    | TotalTimeout
    | IdleTimeout
    | Broken(cause: string)
    | Terminated

  /** What the pump delivers: data, the end of the stream, or a read error, which may come from a context. */
  datatype Item =
    | Data(bytes: seq<int>)
    | EndOfStream
    | ReadError(fromContext: bool, cause: string)

  datatype Result =
    | Yields(bytes: seq<int>)
    | Ends
    | Fails(error: Error)

  datatype Source = Source(consumed: bool, dead: bool, closed: bool, terminal: Option<Error>)

  const Opened := Source(false, false, false, None)

  datatype Answer = Granted | Gone | Taken | Unsuitable

  /** Frames and chunks suit only successful streaming responses; a body can always be read. */
  datatype Reading = Frames | Chunks | Body

  /** What the answer of the upstream looks like. */
  datatype Response = Response(status: int, eventStream: bool, stream: bool)

  predicate Suits(reading: Reading, response: Response) {
    match reading
    case Frames => response.status < 300 && response.eventStream
    case Chunks => response.status < 300 && response.stream
    case Body => true
  }

  function Claim(s: Source): (Source, Answer) {
    if s.dead || s.closed then (s, Gone)
    else if s.consumed then (s, Taken)
    else (s.(consumed := true), Granted)
  }

  function Consume(s: Source, suits: bool): (Source, Answer) {
    if suits then Claim(s) else (s, Unsuitable)
  }

  /** Why data may not be handed out at this instant. */
  function DeadlineError(ctx: Option<CtxError>, totalAt: int, idleAt: int, now: int): Option<Error> {
    if ctx.Some? then Some(Ctx(ctx.value))
    else if now >= totalAt then Some(TotalTimeout)
    else if now >= idleAt then Some(IdleTimeout)
    else None
  }

  function MapReadError(ctx: Option<CtxError>, fromContext: bool, cause: string): Error {
    if ctx.Some? then Ctx(ctx.value) else if fromContext then TotalTimeout else Broken(cause)
  }

  /** What a caller is told when somebody else has ended the source. */
  function Overtaken(s: Source, ctx: Option<CtxError>): Error {
    if ctx.Some? then Ctx(ctx.value) else if s.terminal.Some? then s.terminal.value else Terminated
  }

  /** The start of a next(): the answer, or None to go on. */
  function Enter(s: Source, ctx: Option<CtxError>): Option<Result> {
    if s.dead then Some(Ends)
    else if s.closed then Some(Fails(if ctx.Some? then Ctx(ctx.value) else Terminated))
    else None
  }

  /** Ending the source with an error, unless it has ended; true when the caller must close it. */
  function Terminate(s: Source, ctx: Option<CtxError>, error: Error): (Source, Error, bool) {
    if s.dead || s.closed then (s, Overtaken(s, ctx), false)
    else (s.(dead := true, terminal := Some(error)), error, true)
  }

  /** What becomes of a delivered item; true when the caller must close the source. */
  function Receive(s: Source, ctx: Option<CtxError>, totalAt: int, idleAt: int, now: int, item: Item): (Source, Result, bool) {
    var late := DeadlineError(ctx, totalAt, idleAt, now);
    if s.closed then (s, Fails(Overtaken(s, ctx)), false)
    else if s.dead then (s, Ends, false)
    else if late.Some? then (s.(dead := true, terminal := late), Fails(late.value), true)
    else
      match item
      case EndOfStream => (s.(dead := true), Ends, true)
      case ReadError(fromContext, cause) =>
        var error := MapReadError(ctx, fromContext, cause);
        (s.(dead := true, terminal := Some(error)), Fails(error), true)
      case Data(bytes) => (s, Yields(bytes), false)
  }

  // ---- readers and closers interleaved ----

  type Pid = nat

  /** What a caller that closes the source returns afterwards: the outcome of closing, or its own result. */
  datatype After = ItsError | Own(result: Result)

  datatype Pc =
    | Entering                           // next(): about to look at the flags
    | Armed(idleAt: int)                 // timers set, deadlines not yet checked
    | Selecting(idleAt: int)             // waiting for an item, a timer or the context
    | Received(idleAt: int, item: Item)  // has an item, not yet looked at the flags
    | Ending(error: Error)               // about to end the source
    | Shutting(after: After)             // about to enter close()
    | ClosingBody(after: After)          // has set the flag
    | Storing(after: After, outcome: Option<string>) // the body is closed
    | Announcing(after: After)           // the outcome is stored, nobody told yet
    | Awaiting(after: After)             // somebody else is closing

  /** A call in progress: whether the source was dead when it began, and how many calls had returned by then. */
  datatype Proc = Proc(pc: Pc, ctx: Option<CtxError>, lateStart: bool, since: nat)

  /** What a call returned. */
  datatype Returned =
    | FromNext(result: Result, lateStart: bool, since: nat, ctx: Option<CtxError>)
    | FromClose(error: Option<string>)

  /** The goroutine that reads the body and fills the channel. */
  datatype Pump =
    | Unstarted
    | Running
    | BodyClosed   // reads frames: it has closed the body, but not yet the channel
    | Finished     // the channel is closed

  /** The body can be closed by close(), which records the outcome, and by the pump. */
  datatype Sys = Sys(
    response: Response, reading: Option<Reading>, pump: Pump, pumpCloses: nat,
    src: Source, totalAt: int, idle: nat, now: int,
    closer: Pid, closeErr: Option<string>, announced: bool, bodyCloses: seq<Option<string>>,
    procs: map<Pid, Proc>, granted: nat, log: seq<Returned>)

  datatype Event =
    | Use(reading: Reading)          // frames(), chunks(), body() or bodyBytes()
    | StartNext(ctx: Option<CtxError>)
    | StartClose
    | Look                           // the first section of next()
    | CheckDeadline
    | Deliver(item: Item)
    | PumpCloses                     // the pump closes the body
    | PumpEnds                       // the pump closes the channel
    | SeeItem
    | SeeContext
    | SeeTotal
    | SeeIdle
    | End
    | EnterClose
    | CloseBody(error: Option<string>)
    | Store
    | Announce
    | Learn
    | Cancel(cause: CtxError)
    | Pass(time: nat)

  function Goto(s: Sys, i: Pid, pc: Pc): Sys
    requires i in s.procs
  {
    s.(procs := s.procs[i := s.procs[i].(pc := pc)])
  }

  function Return(s: Sys, i: Pid, r: Returned): Sys {
    s.(procs := s.procs - {i}, log := s.log + [r])
  }

  function Results(s: Sys, i: Pid, r: Result): Sys
    requires i in s.procs
  {
    Return(s, i, FromNext(r, s.procs[i].lateStart, s.procs[i].since, s.procs[i].ctx))
  }

  /** The first next() of frames that goes on starts their pump. */
  function Pumping(s: Sys): Sys {
    if s.pump == Unstarted && s.reading == Some(Frames) then s.(pump := Running) else s
  }

  /** The end of close(): its own outcome, or what the caller had to say. */
  function Leave(s: Sys, i: Pid, after: After): Sys
    requires i in s.procs
  {
    match after
    case ItsError => Return(s, i, FromClose(s.closeErr))
    case Own(r) => Results(s, i, r)
  }

  predicate Enabled(s: Sys, i: Pid, ev: Event) {
    match ev
    case Use(_) => true
    // only the iterators of frames() and chunks() have a next()
    case StartNext(_) => i !in s.procs && (s.reading == Some(Frames) || s.reading == Some(Chunks))
    case StartClose => i !in s.procs
    case Pass(_) => true
    case Cancel(_) => i in s.procs && s.procs[i].ctx == None
    case Look => i in s.procs && s.procs[i].pc.Entering?
    case CheckDeadline => i in s.procs && s.procs[i].pc.Armed?
    case Deliver(item) => i in s.procs && s.procs[i].pc.Selecting? && (item.EndOfStream? ==> s.pump == Finished)
    case PumpCloses => s.pump == Running && s.reading == Some(Frames)
    case PumpEnds => s.pump == BodyClosed || (s.pump == Running && s.reading == Some(Chunks))
    case SeeItem => i in s.procs && s.procs[i].pc.Received?
    case SeeContext => i in s.procs && s.procs[i].pc.Selecting? && s.procs[i].ctx.Some?
    case SeeTotal => i in s.procs && s.procs[i].pc.Selecting? && s.now >= s.totalAt
    case SeeIdle => i in s.procs && s.procs[i].pc.Selecting? && s.now >= s.procs[i].pc.idleAt
    case End => i in s.procs && s.procs[i].pc.Ending?
    case EnterClose => i in s.procs && s.procs[i].pc.Shutting?
    case CloseBody(_) => i in s.procs && s.procs[i].pc.ClosingBody?
    case Store => i in s.procs && s.procs[i].pc.Storing?
    case Announce => i in s.procs && s.procs[i].pc.Announcing?
    case Learn => i in s.procs && s.procs[i].pc.Awaiting? && s.announced
  }

  function Apply(s: Sys, i: Pid, ev: Event): Sys
    requires Enabled(s, i, ev)
  {
    match ev
    case Use(reading) =>
      var (src, answer) := Consume(s.src, Suits(reading, s.response));
      if answer == Granted then
        s.(src := src, granted := s.granted + 1, reading := Some(reading),
           pump := if reading == Chunks then Running else s.pump)
      else s.(src := src)
    case StartNext(ctx) => s.(procs := s.procs[i := Proc(Entering, ctx, s.src.dead, |s.log|)])
    case StartClose => s.(procs := s.procs[i := Proc(Shutting(ItsError), None, false, 0)])
    case Pass(time) => s.(now := s.now + time)
    case Cancel(cause) => s.(procs := s.procs[i := s.procs[i].(ctx := Some(cause))])
    case Look =>
      (match Enter(s.src, s.procs[i].ctx)
       case Some(r) => Results(s, i, r)
       case None => Goto(Pumping(s), i, Armed(s.now + s.idle)))
    case CheckDeadline =>
      (match DeadlineError(s.procs[i].ctx, s.totalAt, s.procs[i].pc.idleAt, s.now)
       case Some(error) => Goto(s, i, Ending(error))
       case None => Goto(s, i, Selecting(s.procs[i].pc.idleAt)))
    case Deliver(item) => Goto(s, i, Received(s.procs[i].pc.idleAt, item))
    case PumpCloses => s.(pump := BodyClosed, pumpCloses := s.pumpCloses + 1)
    case PumpEnds => s.(pump := Finished)
    case SeeItem =>
      var pc := s.procs[i].pc;
      var (src, r, close) := Receive(s.src, s.procs[i].ctx, s.totalAt, pc.idleAt, s.now, pc.item);
      if close then Goto(s.(src := src), i, Shutting(Own(r))) else Results(s.(src := src), i, r)
    case SeeContext => Goto(s, i, Ending(Ctx(s.procs[i].ctx.value)))
    case SeeTotal => Goto(s, i, Ending(TotalTimeout))
    case SeeIdle => Goto(s, i, Ending(if s.now >= s.totalAt then TotalTimeout else IdleTimeout))
    case End =>
      var (src, told, close) := Terminate(s.src, s.procs[i].ctx, s.procs[i].pc.error);
      if close then Goto(s.(src := src), i, Shutting(Own(Fails(told)))) else Results(s.(src := src), i, Fails(told))
    case EnterClose =>
      if s.src.closed then Goto(s, i, Awaiting(s.procs[i].pc.after))
      else Goto(s.(src := s.src.(closed := true), closer := i), i, ClosingBody(s.procs[i].pc.after))
    case CloseBody(error) =>
      Goto(s.(bodyCloses := s.bodyCloses + [error]), i, Storing(s.procs[i].pc.after, error))
    case Store => Goto(s.(closeErr := s.procs[i].pc.outcome), i, Announcing(s.procs[i].pc.after))
    case Announce => Leave(s.(announced := true), i, s.procs[i].pc.after)
    case Learn => Leave(s, i, s.procs[i].pc.after)
  }

  function Initial(response: Response, totalAt: int, idle: nat): Sys {
    Sys(response, None, Unstarted, 0, Opened, totalAt, idle, 0, 0, None, false, [], map[], 0, [])
  }

  // ---- what every step keeps ----

  predicate IsClosing(pc: Pc) {
    pc.ClosingBody? || pc.Storing? || pc.Announcing?
  }

  /** The process that set the flag closes the body and stores the outcome; its own result is the terminal error. */
  predicate ProcOk(s: Sys, i: Pid)
    requires i in s.procs
  {
    var pc := s.procs[i].pc;
    && (IsClosing(pc) ==> i == s.closer && s.src.closed && !s.announced)
    && (pc.ClosingBody? ==> s.bodyCloses == [])
    && (pc.Storing? ==> s.bodyCloses == [pc.outcome])
    && (pc.Announcing? ==> s.bodyCloses == [s.closeErr])
    && (pc.Awaiting? ==> s.src.closed)
    && ((pc.Shutting? || pc.Awaiting? || IsClosing(pc)) && pc.after.Own? ==> OwnOk(s, pc.after.result))
    && (s.procs[i].lateStart ==> pc.Entering? && s.src.dead)
  }

  predicate OwnOk(s: Sys, r: Result) {
    r.Ends? || (r.Fails? && s.src.terminal == Some(r.error))
  }

  /** A call that began on a dead source ends; a failure is a cancellation, the terminal error, or the news of a foreign close. */
  predicate LogOk(s: Sys, r: Returned) {
    match r
    case FromClose(error) => s.announced && error == s.closeErr
    case FromNext(result, lateStart, _, _) =>
      && (lateStart ==> result.Ends?)
      && (result.Fails? ==> result.error.Ctx? || result.error.Terminated? || s.src.terminal == Some(result.error))
      && (result.Fails? || result.Ends? ==> s.src.dead || s.src.closed)
  }

  ghost predicate Core(s: Sys) {
    && s.granted == (if s.src.consumed then 1 else 0)
    && (s.src.terminal.Some? ==> s.src.dead)
    && (!s.src.closed ==> !s.announced && s.bodyCloses == [])
    && (s.announced ==> s.bodyCloses == [s.closeErr])
    && (s.src.closed && !s.announced ==> s.closer in s.procs && IsClosing(s.procs[s.closer].pc))
    && (s.src.dead && !s.src.closed ==> exists i <- s.procs :: s.procs[i].pc.Shutting?)
  }

  ghost predicate Inv(s: Sys) {
    && Core(s)
    && (forall i <- s.procs :: ProcOk(s, i))
    && (forall r <- s.log :: LogOk(s, r))
  }

  /** Flags only rise, the terminal error is written once, and what is announced stays. */
  predicate Rises(s: Sys, s': Sys) {
    && (s.src.consumed ==> s'.src.consumed) && (s.src.dead ==> s'.src.dead) && (s.src.closed ==> s'.src.closed)
    && (s.src.terminal.Some? ==> s'.src.terminal == s.src.terminal)
    && (s.announced ==> s'.announced && s'.closeErr == s.closeErr && s'.bodyCloses == s.bodyCloses)
    && s.log <= s'.log && s.now <= s'.now
  }

  lemma StepRises(s: Sys, i: Pid, ev: Event)
    requires Inv(s) && Enabled(s, i, ev)
    ensures Rises(s, Apply(s, i, ev))
  {
    if i in s.procs {
      assert ProcOk(s, i);
    }
    hide LogOk, MapReadError, DeadlineError;
  }

  /** The steps of one process leave the others as they are. */
  lemma OnlyOwn(s: Sys, i: Pid, ev: Event)
    requires Enabled(s, i, ev)
    ensures var s' := Apply(s, i, ev);
            && s'.procs.Keys <= s.procs.Keys + {i}
            && (forall j <- s.procs | j != i :: j in s'.procs && s'.procs[j] == s.procs[j])
  {
    hide Receive, Terminate, Consume, DeadlineError, Enter;
  }

  /** Only the closing process touches what closing has to do with. */
  lemma OnlyCloser(s: Sys, i: Pid, ev: Event)
    requires Inv(s) && Enabled(s, i, ev) && s.src.closed && i != s.closer
    ensures var s' := Apply(s, i, ev);
            s'.closer == s.closer && s'.announced == s.announced && s'.closeErr == s.closeErr && s'.bodyCloses == s.bodyCloses
  {
    if i in s.procs {
      assert ProcOk(s, i);
    }
    hide LogOk, Receive, Terminate, Consume, DeadlineError, Enter;
  }

  lemma OthersOk(s: Sys, i: Pid, ev: Event, j: Pid)
    requires Inv(s) && Enabled(s, i, ev) && j in s.procs && j != i
    ensures j in Apply(s, i, ev).procs && ProcOk(Apply(s, i, ev), j)
  {
    assert ProcOk(s, j);
    StepRises(s, i, ev);
    OnlyOwn(s, i, ev);
    if s.src.closed && i != s.closer {
      OnlyCloser(s, i, ev);
    }
    hide Apply, Inv, Enabled;
  }

  lemma OwnEndOk(s: Sys, i: Pid, ev: Event)
    requires Inv(s) && Enabled(s, i, ev) && (ev.SeeItem? || ev.End?) && i in Apply(s, i, ev).procs
    ensures ProcOk(Apply(s, i, ev), i)
  {
    assert ProcOk(s, i);
    hide Inv, MapReadError, DeadlineError, Consume;
  }

  lemma OwnStepOk(s: Sys, i: Pid, ev: Event)
    requires Inv(s) && Enabled(s, i, ev) && i in Apply(s, i, ev).procs
    ensures ProcOk(Apply(s, i, ev), i)
  {
    if ev.SeeItem? || ev.End? {
      OwnEndOk(s, i, ev);
    } else {
      assert i in s.procs ==> ProcOk(s, i);
      assert !s.src.closed ==> !s.announced && s.bodyCloses == [];
      hide Inv, DeadlineError, Consume, Receive, Terminate;
    }
  }

  lemma StepKeepsProcs(s: Sys, i: Pid, ev: Event)
    requires Inv(s) && Enabled(s, i, ev)
    ensures forall j <- Apply(s, i, ev).procs :: ProcOk(Apply(s, i, ev), j)
  {
    var s' := Apply(s, i, ev);
    OnlyOwn(s, i, ev);
    hide Inv, Enabled, Apply, ProcOk;
    forall j <- s'.procs
      ensures ProcOk(s', j)
    {
      if j == i {
        OwnStepOk(s, i, ev);
      } else {
        OthersOk(s, i, ev, j);
      }
    }
  }

  /** What a step adds to the log is in order. */
  lemma NewEntryOk(s: Sys, i: Pid, ev: Event)
    requires Inv(s) && Enabled(s, i, ev)
    ensures var s' := Apply(s, i, ev);
            s'.log == s.log || (|s'.log| == |s.log| + 1 && s'.log[..|s.log|] == s.log && LogOk(s', s'.log[|s.log|]))
  {
    if i in s.procs {
      assert ProcOk(s, i);
    }
    hide MapReadError;
  }

  lemma StepKeepsLog(s: Sys, i: Pid, ev: Event)
    requires Inv(s) && Enabled(s, i, ev)
    ensures forall r <- Apply(s, i, ev).log :: LogOk(Apply(s, i, ev), r)
  {
    var s' := Apply(s, i, ev);
    NewEntryOk(s, i, ev);
    StepRises(s, i, ev);
    hide Enabled, Apply, ProcOk;
    forall r <- s'.log
      ensures LogOk(s', r)
    {
      if r in s.log {
        assert LogOk(s, r);
      } else {
        assert s'.log == s'.log[..|s.log|] + [s'.log[|s.log|]];
      }
    }
  }

  /** A source that is dead but not closed has somebody about to close it. */
  lemma StepKeepsClosing(s: Sys, i: Pid, ev: Event)
    requires Inv(s) && Enabled(s, i, ev)
    ensures var s' := Apply(s, i, ev);
            s'.src.dead && !s'.src.closed ==> exists j <- s'.procs :: s'.procs[j].pc.Shutting?
  {
    var s' := Apply(s, i, ev);
    if s'.src.dead && !s'.src.closed {
      OnlyOwn(s, i, ev);
      StepRises(s, i, ev);
      if s.src.dead {
        var j :| j in s.procs && s.procs[j].pc.Shutting?;
        hide Inv, Receive, Terminate, Consume, DeadlineError, Enter;
        assert j in s'.procs && s'.procs[j].pc.Shutting?;
      } else {
        assert s'.procs[i].pc.Shutting?;
      }
    }
  }

  lemma EndKeepsCore(s: Sys, i: Pid, ev: Event)
    requires Inv(s) && Enabled(s, i, ev) && (ev.SeeItem? || ev.End?)
    ensures Core(Apply(s, i, ev))
  {
    assert ProcOk(s, i);
    StepKeepsClosing(s, i, ev);
    hide LogOk, MapReadError, DeadlineError;
  }

  lemma StepKeepsCore(s: Sys, i: Pid, ev: Event)
    requires Inv(s) && Enabled(s, i, ev)
    ensures Core(Apply(s, i, ev))
  {
    if ev.SeeItem? || ev.End? {
      EndKeepsCore(s, i, ev);
    } else {
      assert i in s.procs ==> ProcOk(s, i);
      StepKeepsClosing(s, i, ev);
      hide LogOk, DeadlineError, Receive, Terminate;
    }
  }

  lemma StepKeeps(s: Sys, i: Pid, ev: Event)
    requires Inv(s) && Enabled(s, i, ev)
    ensures Inv(Apply(s, i, ev))
  {
    hide Core, ProcOk, LogOk, Apply, Enabled;
    StepKeepsCore(s, i, ev);
    StepKeepsProcs(s, i, ev);
    StepKeepsLog(s, i, ev);
  }

  // ---- runs ----

  ghost predicate Possible(s: Sys, trace: seq<(Pid, Event)>)
    decreases |trace|
  {
    trace == [] ||
    (Enabled(s, trace[0].0, trace[0].1) && Possible(Apply(s, trace[0].0, trace[0].1), trace[1..]))
  }

  ghost function Final(s: Sys, trace: seq<(Pid, Event)>): Sys
    requires Possible(s, trace)
    decreases |trace|
  {
    if trace == [] then s else Final(Apply(s, trace[0].0, trace[0].1), trace[1..])
  }

  lemma RisesTrans(a: Sys, b: Sys, c: Sys)
    requires Rises(a, b) && Rises(b, c)
    ensures Rises(a, c)
  {
  }

  /** Over any stretch of any run: flags only rise, the terminal error and the outcome of closing never change. */
  lemma {:induction false} RunKeeps(s: Sys, trace: seq<(Pid, Event)>)
    requires Inv(s) && Possible(s, trace)
    ensures Inv(Final(s, trace)) && Rises(s, Final(s, trace))
    decreases |trace|
  {
    if trace != [] {
      hide Inv, Enabled, Apply, Rises;
      var s' := Apply(s, trace[0].0, trace[0].1);
      StepKeeps(s, trace[0].0, trace[0].1);
      StepRises(s, trace[0].0, trace[0].1);
      RunKeeps(s', trace[1..]);
      RisesTrans(s, s', Final(s', trace[1..]));
    }
  }

  lemma InitialHolds(response: Response, totalAt: int, idle: nat)
    ensures Inv(Initial(response, totalAt, idle))
  {
  }

  lemma ReachedHolds(response: Response, totalAt: int, idle: nat, trace: seq<(Pid, Event)>)
    requires Possible(Initial(response, totalAt, idle), trace)
    ensures Inv(Final(Initial(response, totalAt, idle), trace))
  {
    InitialHolds(response, totalAt, idle);
    RunKeeps(Initial(response, totalAt, idle), trace);
  }

  /** At most one of all the attempts to consume the response is granted. */
  lemma ConsumedOnce(response: Response, totalAt: int, idle: nat, trace: seq<(Pid, Event)>)
    requires Possible(Initial(response, totalAt, idle), trace)
    ensures Final(Initial(response, totalAt, idle), trace).granted <= 1
  {
    ReachedHolds(response, totalAt, idle, trace);
    hide Possible, Final;
  }

  /** close() closes the body at most once, and everybody who calls it learns how that one close went. */
  lemma ClosedOnce(response: Response, totalAt: int, idle: nat, trace: seq<(Pid, Event)>, a: Returned, b: Returned)
    requires Possible(Initial(response, totalAt, idle), trace)
    requires var s := Final(Initial(response, totalAt, idle), trace); a in s.log && b in s.log
    ensures |Final(Initial(response, totalAt, idle), trace).bodyCloses| <= 1
    ensures a.FromClose? && b.FromClose? ==>
              a == b && Final(Initial(response, totalAt, idle), trace).bodyCloses == [a.error]
  {
    ReachedHolds(response, totalAt, idle, trace);
    var s := Final(Initial(response, totalAt, idle), trace);
    assert LogOk(s, a) && LogOk(s, b);
    if s.src.closed && !s.announced {
      assert ProcOk(s, s.closer);
    }
    hide Possible, Final;
  }

  /** Apart from cancellations and the news of a foreign close, all failures that were ever reported are the same. */
  lemma OneTerminalError(response: Response, totalAt: int, idle: nat, trace: seq<(Pid, Event)>, a: Returned, b: Returned)
    requires Possible(Initial(response, totalAt, idle), trace)
    requires var s := Final(Initial(response, totalAt, idle), trace); a in s.log && b in s.log
    requires a.FromNext? && a.result.Fails? && !a.result.error.Ctx? && !a.result.error.Terminated?
    requires b.FromNext? && b.result.Fails? && !b.result.error.Ctx? && !b.result.error.Terminated?
    ensures a.result == b.result
  {
    ReachedHolds(response, totalAt, idle, trace);
    var s := Final(Initial(response, totalAt, idle), trace);
    assert LogOk(s, a) && LogOk(s, b);
    hide Possible, Final, Inv;
  }

  /** A next() that begins after the source has died says that there is nothing more, and nothing else. */
  lemma LateCallsEnd(response: Response, totalAt: int, idle: nat, trace: seq<(Pid, Event)>, r: Returned)
    requires Possible(Initial(response, totalAt, idle), trace)
    requires r in Final(Initial(response, totalAt, idle), trace).log && r.FromNext? && r.lateStart
    ensures r.result == Ends
  {
    ReachedHolds(response, totalAt, idle, trace);
    assert LogOk(Final(Initial(response, totalAt, idle), trace), r);
    hide Possible, Final, Inv;
  }

  // ---- after a failure ----

  /** One of the first n calls that returned was a next() that failed. */
  predicate FailedBy(log: seq<Returned>, n: nat) {
    exists k | 0 <= k < n && k < |log| :: log[k].FromNext? && log[k].result.Fails?
  }

  /** What every call says that begins after a failure. */
  function LaterResult(s: Source, ctx: Option<CtxError>): Result {
    if s.dead then Ends else Fails(if ctx.Some? then Ctx(ctx.value) else Terminated)
  }

  predicate ProcLater(s: Sys, i: Pid)
    requires i in s.procs
  {
    s.procs[i].since <= |s.log| && (FailedBy(s.log, s.procs[i].since) ==> s.procs[i].pc.Entering?)
  }

  predicate EntryLater(s: Sys, r: Returned) {
    r.FromNext? ==> r.since <= |s.log| && (FailedBy(s.log, r.since) ==> r.result == LaterResult(s.src, r.ctx))
  }

  /** Calls that begin after a failure get no further than the flags. */
  ghost predicate LaterInv(s: Sys) {
    (forall i <- s.procs :: ProcLater(s, i)) && (forall r <- s.log :: EntryLater(s, r))
  }

  lemma FailedIsOver(s: Sys, n: nat)
    requires Inv(s) && FailedBy(s.log, n)
    ensures s.src.dead || s.src.closed
  {
    var k :| 0 <= k < n && k < |s.log| && s.log[k].FromNext? && s.log[k].result.Fails?;
    assert LogOk(s, s.log[k]);
    hide Core, ProcOk;
  }

  lemma SameFailures(log: seq<Returned>, log': seq<Returned>, n: nat)
    requires log <= log' && n <= |log|
    ensures FailedBy(log', n) == FailedBy(log, n)
  {
    assert forall k | 0 <= k < |log| :: log'[k] == log[k];
  }

  /** Once a source is dead or closed, it does not die any more. */
  lemma DeathIsSettled(s: Sys, i: Pid, ev: Event)
    requires Inv(s) && Enabled(s, i, ev) && (s.src.dead || s.src.closed)
    ensures Apply(s, i, ev).src.dead == s.src.dead
  {
    hide Inv, MapReadError, DeadlineError;
  }

  lemma OwnLater(s: Sys, i: Pid, ev: Event)
    requires Inv(s) && Enabled(s, i, ev) && i in Apply(s, i, ev).procs && (i in s.procs ==> ProcLater(s, i))
    ensures ProcLater(Apply(s, i, ev), i)
  {
    var s' := Apply(s, i, ev);
    StepRises(s, i, ev);
    SinceKept(s, i, ev);
    if i in s.procs {
      SameFailures(s.log, s'.log, s.procs[i].since);
      if FailedBy(s.log, s.procs[i].since) {
        FailedIsOver(s, s.procs[i].since);
      }
    }
    hide Inv, FailedBy, MapReadError, DeadlineError, Receive, Terminate, Consume;
  }

  lemma SinceKept(s: Sys, i: Pid, ev: Event)
    requires Enabled(s, i, ev) && i in Apply(s, i, ev).procs
    ensures i in s.procs ==> Apply(s, i, ev).procs[i].since == s.procs[i].since
    ensures i !in s.procs ==> Apply(s, i, ev).procs[i].since <= |s.log|
  {
    hide MapReadError, DeadlineError, Receive, Terminate, Consume;
  }

  /** What a call in progress at the flags says if it began after a failure. */
  lemma NewEntryLater(s: Sys, i: Pid, ev: Event)
    requires Inv(s) && Enabled(s, i, ev) && Apply(s, i, ev).log != s.log && (i in s.procs ==> ProcLater(s, i))
    ensures var s' := Apply(s, i, ev);
            |s'.log| == |s.log| + 1 && s.log <= s'.log && EntryLater(s', s'.log[|s.log|])
  {
    StepRises(s, i, ev);
    var s' := Apply(s, i, ev);
    if i in s.procs {
      SameFailures(s.log, s'.log, s.procs[i].since);
      if FailedBy(s.log, s.procs[i].since) {
        FailedIsOver(s, s.procs[i].since);
      }
    }
    hide Inv, FailedBy, MapReadError, DeadlineError, Receive, Terminate, Consume;
  }

  lemma StepKeepsLater(s: Sys, i: Pid, ev: Event)
    requires Inv(s) && LaterInv(s) && Enabled(s, i, ev)
    ensures LaterInv(Apply(s, i, ev))
  {
    var s' := Apply(s, i, ev);
    StepRises(s, i, ev);
    OnlyOwn(s, i, ev);
    hide Inv, Enabled, Apply, FailedBy;
    forall j <- s'.procs
      ensures ProcLater(s', j)
    {
      if j == i {
        OwnLater(s, i, ev);
      } else {
        assert ProcLater(s, j);
        SameFailures(s.log, s'.log, s.procs[j].since);
      }
    }
    forall r <- s'.log
      ensures EntryLater(s', r)
    {
      EntryStaysLater(s, i, ev, r);
    }
  }

  lemma EntryStaysLater(s: Sys, i: Pid, ev: Event, r: Returned)
    requires Inv(s) && LaterInv(s) && Enabled(s, i, ev) && r in Apply(s, i, ev).log
    ensures EntryLater(Apply(s, i, ev), r)
  {
    var s' := Apply(s, i, ev);
    assert i in s.procs ==> ProcLater(s, i);
    assert r in s.log ==> EntryLater(s, r);
    hide Inv, LaterInv, Enabled, Apply, EntryLater, ProcLater;
    if r in s.log {
      OldEntryLater(s, i, ev, r);
    } else {
      NewEntryLater(s, i, ev);
      assert s'.log == s.log + [s'.log[|s.log|]];
    }
  }

  lemma OldEntryLater(s: Sys, i: Pid, ev: Event, r: Returned)
    requires Inv(s) && Enabled(s, i, ev) && EntryLater(s, r)
    ensures EntryLater(Apply(s, i, ev), r)
  {
    hide Inv, Enabled, Apply, FailedBy;
    StepRises(s, i, ev);
    if r.FromNext? {
      SameFailures(s.log, Apply(s, i, ev).log, r.since);
      if FailedBy(s.log, r.since) {
        FailedIsOver(s, r.since);
        DeathIsSettled(s, i, ev);
      }
    }
  }

  lemma {:induction false} RunKeepsLater(s: Sys, trace: seq<(Pid, Event)>)
    requires Inv(s) && LaterInv(s) && Possible(s, trace)
    ensures LaterInv(Final(s, trace))
    decreases |trace|
  {
    hide Inv, LaterInv, Enabled, Apply;
    if trace != [] {
      StepKeeps(s, trace[0].0, trace[0].1);
      StepKeepsLater(s, trace[0].0, trace[0].1);
      RunKeepsLater(Apply(s, trace[0].0, trace[0].1), trace[1..]);
    }
  }

  /**
   Over any run: every next() that begins after one that failed ends if the source has died, and
   if it was closed without dying fails anew, with the news of that or with its own cancellation.
   */
  lemma AfterFailure(response: Response, totalAt: int, idle: nat, trace: seq<(Pid, Event)>, k: nat, j: nat)
    requires Possible(Initial(response, totalAt, idle), trace)
    requires var log := Final(Initial(response, totalAt, idle), trace).log;
             && k < |log| && j < |log| && log[k].FromNext? && log[k].result.Fails?
             && log[j].FromNext? && k < log[j].since
    ensures var s := Final(Initial(response, totalAt, idle), trace);
            && (s.src.dead || s.src.closed)
            && s.log[j].result ==
               if s.src.dead then Ends
               else Fails(if s.log[j].ctx.Some? then Ctx(s.log[j].ctx.value) else Terminated)
  {
    InitialHolds(response, totalAt, idle);
    RunKeepsLater(Initial(response, totalAt, idle), trace);
    ReachedHolds(response, totalAt, idle, trace);
    hide Possible, Final, Inv;
    var s := Final(Initial(response, totalAt, idle), trace);
    assert EntryLater(s, s.log[j]) && FailedBy(s.log, s.log[j].since);
    FailedIsOver(s, s.log[j].since);
  }

  lemma {:induction false} Snoc(s: Sys, trace: seq<(Pid, Event)>, i: Pid, ev: Event)
    requires Possible(s, trace) && Enabled(Final(s, trace), i, ev)
    ensures Possible(s, trace + [(i, ev)]) && Final(s, trace + [(i, ev)]) == Apply(Final(s, trace), i, ev)
    decreases |trace|
  {
    hide Enabled, Apply;
    if trace != [] {
      Snoc(Apply(s, trace[0].0, trace[0].1), trace[1..], i, ev);
      assert (trace + [(i, ev)])[1..] == trace[1..] + [(i, ev)];
    } else {
      assert (trace + [(i, ev)])[1..] == [];
    }
  }

  const Streaming := Response(200, true, true)

  /** A closed source that never died says so to every caller. */
  lemma FailsAgainExample() returns (trace: seq<(Pid, Event)>)
    ensures Possible(Initial(Streaming, 9, 9), trace)
    ensures var s := Final(Initial(Streaming, 9, 9), trace);
            s.log == [FromNext(Fails(Terminated), false, 0, None), FromNext(Fails(Terminated), false, 1, None)]
  {
    var s0 := Initial(Streaming, 9, 9);
    var s1 := Apply(s0, 0, Use(Frames));
    var s2 := Apply(s1, 0, StartClose);
    var s3 := Apply(s2, 0, EnterClose);
    var s4 := Apply(s3, 1, StartNext(None));
    var s5 := Apply(s4, 1, Look);
    var s6 := Apply(s5, 1, StartNext(None));
    var s7 := Apply(s6, 1, Look);
    assert Enabled(s1, 0, StartClose) && Enabled(s2, 0, EnterClose) && Enabled(s3, 1, StartNext(None));
    assert Enabled(s4, 1, Look) && Enabled(s5, 1, StartNext(None)) && Enabled(s6, 1, Look);
    assert s5.log == [FromNext(Fails(Terminated), false, 0, None)];
    assert s7.log == s5.log + [FromNext(Fails(Terminated), false, 1, None)];
    trace := [];
    assert Possible(s0, trace) && Final(s0, trace) == s0 && Enabled(s0, 0, Use(Frames));
    hide Apply, Enabled, Possible, Final, Initial;
    Snoc(s0, trace, 0, Use(Frames));
    trace := trace + [(0, Use(Frames))];
    Snoc(s0, trace, 0, StartClose);
    trace := trace + [(0, StartClose)];
    Snoc(s0, trace, 0, EnterClose);
    trace := trace + [(0, EnterClose)];
    Snoc(s0, trace, 1, StartNext(None));
    trace := trace + [(1, StartNext(None))];
    Snoc(s0, trace, 1, Look);
    trace := trace + [(1, Look)];
    Snoc(s0, trace, 1, StartNext(None));
    trace := trace + [(1, StartNext(None))];
    Snoc(s0, trace, 1, Look);
    trace := trace + [(1, Look)];
  }

  /** Data is handed out only before both deadlines, without a cancellation, and while the source is alive and open. */
  lemma DataInTime(s: Sys, i: Pid, ev: Event)
    requires Inv(s) && Enabled(s, i, ev)
    requires |Apply(s, i, ev).log| > |s.log|
    requires var r := Apply(s, i, ev).log[|s.log|]; r.FromNext? && r.result.Yields?
    ensures ev.SeeItem? && i in s.procs && s.procs[i].pc.Received?
    ensures s.now < s.totalAt && s.now < s.procs[i].pc.idleAt && s.procs[i].ctx == None
    ensures !s.src.dead && !s.src.closed
    ensures s.procs[i].pc.item == Data(Apply(s, i, ev).log[|s.log|].result.bytes)
  {
    if i in s.procs {
      assert ProcOk(s, i);
    }
    hide Core, LogOk, MapReadError;
  }

  /** A source that died is closed, or somebody is on the way to close it. */
  lemma DeathCloses(response: Response, totalAt: int, idle: nat, trace: seq<(Pid, Event)>)
    requires Possible(Initial(response, totalAt, idle), trace)
    ensures var s := Final(Initial(response, totalAt, idle), trace);
            s.src.dead ==> s.src.closed || exists i <- s.procs :: Enabled(s, i, EnterClose)
  {
    ReachedHolds(response, totalAt, idle, trace);
    var s := Final(Initial(response, totalAt, idle), trace);
    hide Possible, Final, ProcOk, LogOk;
    if s.src.dead && !s.src.closed {
      var i :| i in s.procs && s.procs[i].pc.Shutting?;
      assert Enabled(s, i, EnterClose);
    }
  }
}
