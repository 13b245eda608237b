/**
 The reply state machine of a handler execution: five calls that the handler may make in any
 order, any number of times, with the sink accepting or refusing each attempt, and the two
 ways an execution ends.
 */
module Replies {

  datatype Mode = Unclaimed | Json | Sse

  /** What the sink is asked to write, and whether it succeeds. */
  datatype Attempt =
    | JSON(status: int, ok: bool)
    | SSEStart(ok: bool)
    | Event(ok: bool)
    | End(ok: bool)
    | ErrorFrame(ok: bool)

  datatype Op = ReplyJson(status: int) | ReplySse | ReplyEvent | ReplyEnd | ReplyError

  /** One call of the handler; argsOk says whether its object argument is usable. */
  datatype Call = Call(op: Op, argsOk: bool, sinkOk: bool)

  datatype State = State(stream: bool, prepare: bool, mode: Mode, done: bool, started: bool, sent: seq<Attempt>)

  function Fresh(stream: bool, prepare: bool): State {
    State(stream, prepare, Unclaimed, false, false, [])
  }

  // ---- what each call does ----

  /** The attempts a call leads to: none or one. */
  function Attempts(s: State, c: Call): seq<Attempt> {
    match c.op
    case ReplyJson(status) =>
      if !s.prepare && !s.done && s.mode != Sse && !s.stream then [JSON(if status == 0 then 200 else status, c.sinkOk)] else []
    case ReplySse =>
      if !s.prepare && !s.done && s.mode != Json && s.stream then [SSEStart(c.sinkOk)] else []
    case ReplyEvent =>
      if c.argsOk && s.mode == Sse && !s.done then [Event(c.sinkOk)] else []
    case ReplyEnd =>
      if !s.prepare && s.mode == Sse && !s.done then [End(c.sinkOk)] else []
    case ReplyError =>
      if c.argsOk && s.mode == Sse && !s.done then [ErrorFrame(c.sinkOk)] else []
  }

  /** The first call of either form commits to it, whether or not the form suits the request. */
  function Claimed(s: State, op: Op): Mode {
    if s.mode != Unclaimed || s.prepare || s.done then s.mode
    else if op.ReplyJson? then Json
    else if op.ReplySse? then Sse
    else Unclaimed
  }

  /** A successful attempt after which nothing may follow. */
  predicate Ends(a: Attempt) {
    a.ok && (a.JSON? || a.End? || a.ErrorFrame?)
  }

  function After(s: State, c: Call): State {
    var more := Attempts(s, c);
    s.(mode := Claimed(s, c.op),
       done := s.done || (more != [] && Ends(more[0])),
       started := s.started || more == [SSEStart(true)],
       sent := s.sent + more)
  }

  /** A call throws exactly when nothing was written. */
  predicate Throws(s: State, c: Call) {
    var more := Attempts(s, c);
    more == [] || !more[0].ok
  }

  function Play(s: State, calls: seq<Call>): State {
    if calls == [] then s else After(Play(s, calls[..|calls| - 1]), calls[|calls| - 1])
  }

  /**
   The end of an execution whose handler returned or threw: perhaps one more frame, and whether
   run() fails. After an exception an answer counts as complete only in the form that was started.
   */
  function Finish(s: State, threw: bool, frameOk: bool): (State, bool) {
    var cutOff := if threw then s.started && !s.done else s.mode == Sse && !s.done;
    (if cutOff then s.(sent := s.sent + [ErrorFrame(frameOk)]) else s,
     if threw then !(s.done && (s.mode == Json || s.started)) else s.mode == Unclaimed)
  }

  // ---- what every call keeps ----

  /** Only JSON attempts, or only stream attempts. */
  ghost predicate OneForm(sent: seq<Attempt>) {
    (forall a <- sent :: a.JSON?) || (forall a <- sent :: !a.JSON?)
  }

  /** A successful terminal write is the last thing attempted. */
  ghost predicate NothingAfterEnd(sent: seq<Attempt>) {
    forall i | 0 <= i < |sent| - 1 :: !Ends(sent[i])
  }

  ghost predicate Inv(s: State) {
    && (s.prepare ==> s.mode == Unclaimed)
    && (s.mode == Unclaimed ==> s.sent == [])
    && (s.mode == Json ==> forall a <- s.sent :: a.JSON?)
    && (s.mode == Sse ==> forall a <- s.sent :: !a.JSON?)
    && (forall a <- s.sent :: if s.stream then !a.JSON? else !a.SSEStart?)
    && NothingAfterEnd(s.sent)
    && (s.done <==> s.sent != [] && Ends(s.sent[|s.sent| - 1]))
    && (s.started <==> SSEStart(true) in s.sent)
  }

  lemma AfterKeeps(s: State, c: Call)
    requires Inv(s)
    ensures Inv(After(s, c))
  {
    var more := Attempts(s, c);
    if more != [] {
      var sent := s.sent + more;
      assert more == [more[0]];
      forall i | 0 <= i < |sent| - 1
        ensures !Ends(sent[i])
      {
        assert sent[i] == s.sent[i];
      }
      assert SSEStart(true) in sent <==> SSEStart(true) in s.sent || more[0] == SSEStart(true);
    } else {
      assert s.sent + more == s.sent;
    }
  }

  lemma {:induction false} PlayKeeps(s: State, calls: seq<Call>)
    requires Inv(s)
    ensures Inv(Play(s, calls)) && Play(s, calls).stream == s.stream && Play(s, calls).prepare == s.prepare
  {
    if calls != [] {
      PlayKeeps(s, calls[..|calls| - 1]);
      AfterKeeps(Play(s, calls[..|calls| - 1]), calls[|calls| - 1]);
    }
  }

  /** Nothing called during preparation has any effect. */
  lemma {:induction false} PrepareIsSilent(stream: bool, calls: seq<Call>)
    ensures Play(Fresh(stream, true), calls) == Fresh(stream, true)
  {
    if calls != [] {
      PrepareIsSilent(stream, calls[..|calls| - 1]);
    }
  }

  /**
   Whatever is called in whatever order, whatever the sink refuses, and however the handler
   ends: one form only, JSON only for plain requests and a stream only for streaming ones,
   nothing after a successful terminal write; and when run() reports success after a stream
   was started, a terminal frame was the last thing attempted.
   */
  lemma Outcome(stream: bool, calls: seq<Call>, threw: bool, frameOk: bool)
    ensures var (s, failed) := Finish(Play(Fresh(stream, false), calls), threw, frameOk);
            && OneForm(s.sent) && NothingAfterEnd(s.sent)
            && (forall a <- s.sent :: if stream then !a.JSON? else !a.SSEStart?)
            && (!failed && SSEStart(true) in s.sent ==>
                  var last := s.sent[|s.sent| - 1]; last.End? || last.ErrorFrame?)
  {
    var s := Play(Fresh(stream, false), calls);
    PlayKeeps(Fresh(stream, false), calls);
    var t := Finish(s, threw, frameOk).0;
    if t.sent != s.sent {
      forall i | 0 <= i < |t.sent| - 1
        ensures !Ends(t.sent[i])
      {
        assert t.sent[i] == s.sent[i];
      }
    }
  }

  /** The client has got an answer or a frame that ends its stream was tried. */
  ghost predicate Answered(sent: seq<Attempt>) {
    sent != [] && (Ends(sent[|sent| - 1]) || sent[|sent| - 1].ErrorFrame?)
  }

  /**
   run() reports success without the client having been answered exactly when the handler
   returned after committing to JSON without ever getting it written.
   */
  lemma SilentSuccess(stream: bool, calls: seq<Call>, threw: bool, frameOk: bool)
    ensures var s := Play(Fresh(stream, false), calls);
            var (t, failed) := Finish(s, threw, frameOk);
            !failed && !Answered(t.sent) <==> !threw && s.mode == Json && !s.done
  {
    PlayKeeps(Fresh(stream, false), calls);
    var s := Play(Fresh(stream, false), calls);
    if s.sent != [] {
      assert s.sent[|s.sent| - 1] in s.sent;
    }
  }

  /** run() fails although the client was answered exactly when the handler threw after ending a stream it never opened. */
  lemma AnsweredFailure(stream: bool, calls: seq<Call>, threw: bool, frameOk: bool)
    ensures var s := Play(Fresh(stream, false), calls);
            Finish(s, threw, frameOk).1 && s.done <==> threw && s.mode == Sse && s.done && !s.started
  {
    PlayKeeps(Fresh(stream, false), calls);
  }

  /** Ending a stream that was refused is an answer, and throwing after that is reported as a failure. */
  lemma AnsweredFailureExample()
    ensures var s := Play(Fresh(false, false), [Call(ReplySse, true, true), Call(ReplyEnd, true, true)]);
            Finish(s, true, true) == (s, true) && s.done && s.sent == [End(true)]
  {
    var s := Fresh(false, false);
    var c0, c1 := Call(ReplySse, true, true), Call(ReplyEnd, true, true);
    assert [c0, c1][..1] == [c0] && [c0][..0] == [];
    assert Play(s, []) == s;
    assert Play(s, [c0]) == After(s, c0);
    assert Play(s, [c0, c1]) == After(After(s, c0), c1);
  }

  /** Committing to JSON on a streaming request is enough, if the handler swallows the exception. */
  lemma SilentSuccessExample()
    ensures Finish(Play(Fresh(true, false), [Call(ReplyJson(200), true, true)]), false, true)
         == (State(true, false, Json, false, false, []), false)
  {
    var s := Fresh(true, false);
    var c := Call(ReplyJson(200), true, true);
    assert [c][..0] == [];
    assert Play(s, []) == s;
    assert Play(s, [c]) == After(s, c);
  }

  /** A frame of a stream is attempted before any successful start exactly when the start was refused and forgiven. */
  lemma UnopenedStream(s: State, c: Call)
    requires Inv(s)
    ensures (exists a <- Attempts(s, c) :: a.Event? || a.End? || a.ErrorFrame?) && SSEStart(true) !in s.sent
      <==> s.mode == Sse && !s.started && !s.done
           && (c.op.ReplyEnd? || (c.argsOk && (c.op.ReplyEvent? || c.op.ReplyError?)))
  {
    var more := Attempts(s, c);
    if more != [] {
      assert more[0] in more && more == [more[0]];
    }
  }

  /** Even a plain request can see stream frames, without a start, when the refusal is swallowed. */
  lemma UnopenedStreamExample()
    ensures Play(Fresh(false, false), [Call(ReplySse, true, true), Call(ReplyEvent, true, true)]).sent == [Event(true)]
  {
    var s := Fresh(false, false);
    var c0, c1 := Call(ReplySse, true, true), Call(ReplyEvent, true, true);
    assert [c0, c1][..1] == [c0] && [c0][..0] == [];
    assert Play(s, []) == s;
    assert Play(s, [c0]) == After(s, c0);
  }

  // ---- the fields and the calls that update them ----

  class Exchange {
    const stream: bool
    var preparePhase: bool
    var replyMode: Mode
    var replyDone: bool
    var sseStarted: bool
    var sink: seq<Attempt> // what the sink has been asked so far

    constructor (stream: bool, preparePhase: bool)
      ensures Now() == Fresh(stream, preparePhase)
    {
      this.stream, this.preparePhase := stream, preparePhase;
      replyMode, replyDone, sseStarted, sink := Unclaimed, false, false, [];
    }

    function Now(): State
      reads this
    {
      State(stream, preparePhase, replyMode, replyDone, sseStarted, sink)
    }

    method Claim(mode: Mode) returns (thrown: bool)
      requires mode != Unclaimed
      modifies `replyMode
      ensures thrown <==> replyDone || (old(replyMode) != Unclaimed && old(replyMode) != mode)
      ensures replyMode == if !replyDone && old(replyMode) == Unclaimed then mode else old(replyMode)
    {
      if replyDone {
        return true;
      }
      if replyMode == Unclaimed {
        replyMode := mode;
        return false;
      }
      thrown := replyMode != mode;
    }

    method ReplyWithJson(status: int, sinkOk: bool) returns (thrown: bool)
      modifies this
      ensures Now() == After(old(Now()), Call(ReplyJson(status), true, sinkOk))
      ensures thrown <==> Throws(old(Now()), Call(ReplyJson(status), true, sinkOk))
    {
      if preparePhase {
        return true;
      }
      var code := 200;
      if status != 0 {
        code := status;
      }
      var refused := Claim(Json);
      if refused || stream {
        return true;
      }
      sink := sink + [JSON(code, sinkOk)];
      if !sinkOk {
        return true;
      }
      replyDone := true;
      thrown := false;
    }

    method StartStream(sinkOk: bool) returns (thrown: bool)
      modifies this
      ensures Now() == After(old(Now()), Call(ReplySse, true, sinkOk))
      ensures thrown <==> Throws(old(Now()), Call(ReplySse, true, sinkOk))
    {
      if preparePhase {
        return true;
      }
      var refused := Claim(Sse);
      if refused || !stream {
        return true;
      }
      sink := sink + [SSEStart(sinkOk)];
      if !sinkOk {
        return true;
      }
      sseStarted := true;
      thrown := false;
    }

    method SendEvent(argsOk: bool, sinkOk: bool) returns (thrown: bool)
      modifies this
      ensures Now() == After(old(Now()), Call(ReplyEvent, argsOk, sinkOk))
      ensures thrown <==> Throws(old(Now()), Call(ReplyEvent, argsOk, sinkOk))
    {
      if !argsOk || replyMode != Sse || replyDone {
        return true;
      }
      sink := sink + [Event(sinkOk)];
      thrown := !sinkOk;
    }

    method EndStream(sinkOk: bool) returns (thrown: bool)
      modifies this
      ensures Now() == After(old(Now()), Call(ReplyEnd, true, sinkOk))
      ensures thrown <==> Throws(old(Now()), Call(ReplyEnd, true, sinkOk))
    {
      if preparePhase || replyMode != Sse || replyDone {
        return true;
      }
      sink := sink + [End(sinkOk)];
      if !sinkOk {
        return true;
      }
      replyDone := true;
      thrown := false;
    }

    method SendError(argsOk: bool, sinkOk: bool) returns (thrown: bool)
      modifies this
      ensures Now() == After(old(Now()), Call(ReplyError, argsOk, sinkOk))
      ensures thrown <==> Throws(old(Now()), Call(ReplyError, argsOk, sinkOk))
    {
      if !argsOk || replyMode != Sse || replyDone {
        return true;
      }
      sink := sink + [ErrorFrame(sinkOk)];
      if !sinkOk {
        return true;
      }
      replyDone := true;
      thrown := false;
    }

    method TerminalError(frameOk: bool) returns (failed: bool)
      requires Inv(Now())
      modifies this
      ensures (Now(), failed) == Finish(old(Now()), true, frameOk)
    {
      if replyMode == Json && replyDone {
        return false;
      }
      if sseStarted && replyDone {
        return false;
      }
      if sseStarted && !replyDone {
        sink := sink + [ErrorFrame(frameOk)];
      }
      failed := true;
    }

    method NormalTerminal(frameOk: bool) returns (failed: bool)
      modifies this
      ensures (Now(), failed) == Finish(old(Now()), false, frameOk)
    {
      if replyMode == Unclaimed {
        return true;
      }
      if replyMode == Sse && !replyDone {
        sink := sink + [ErrorFrame(frameOk)];
      }
      failed := false;
    }

    method Make(c: Call) returns (thrown: bool)
      modifies this
      ensures Now() == After(old(Now()), c)
      ensures thrown <==> Throws(old(Now()), c)
    {
      match c.op
      case ReplyJson(status) => thrown := ReplyWithJson(status, c.sinkOk);
      case ReplySse => thrown := StartStream(c.sinkOk);
      case ReplyEvent => thrown := SendEvent(c.argsOk, c.sinkOk);
      case ReplyEnd => thrown := EndStream(c.sinkOk);
      case ReplyError => thrown := SendError(c.argsOk, c.sinkOk);
    }

    method MakeAll(calls: seq<Call>)
      modifies this
      ensures Now() == Play(old(Now()), calls)
    {
      var i := 0;
      while i < |calls|
        invariant i <= |calls|
        invariant Now() == Play(old(Now()), calls[..i])
      {
        assert calls[..i + 1][..i] == calls[..i];
        var _ := Make(calls[i]);
        i := i + 1;
      }
      assert calls[..i] == calls;
    }

    /**
     One execution: an optional preparation during which no reply is possible, the handler's
     calls, and the end that its outcome calls for.
     */
    method Run(hasPrepare: bool, early: seq<Call>, prepareFails: bool, calls: seq<Call>, threw: bool, frameOk: bool)
      returns (failed: bool)
      requires Now() == Fresh(stream, preparePhase)
      modifies this
      ensures hasPrepare && prepareFails ==> failed && sink == []
      ensures !(hasPrepare && prepareFails) ==>
                (Now(), failed) == Finish(Play(Fresh(stream, false), calls), threw, frameOk)
    {
      preparePhase := true;
      if hasPrepare {
        PrepareIsSilent(stream, early);
        MakeAll(early);
        if prepareFails {
          return true;
        }
      }
      preparePhase := false;
      MakeAll(calls);
      if threw {
        PlayKeeps(Fresh(stream, false), calls);
        failed := TerminalError(frameOk);
      } else {
        failed := NormalTerminal(frameOk);
      }
    }
  }
}
