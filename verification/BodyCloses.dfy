/**
 How often the body of a response is closed. close() does it, whoever calls it first, and so
 does the goroutine that reads frames when it comes to its end; neither knows of the other.
 */
module BodyCloses {
  import opened Sources

  /** How often the body has been closed. */
  function Closes(s: Sys): nat {
    |s.bodyCloses| + s.pumpCloses
  }

  /** Somebody has asked for a frame, which started the pump. */
  predicate FramesPumped(s: Sys) {
    s.reading == Some(Frames) && s.pump != Unstarted
  }

  /** The pump of frames is started, or can still be. */
  predicate MayPump(s: Sys) {
    || FramesPumped(s)
    || (&& !s.src.dead && !s.src.closed
        && (s.reading == Some(Frames) || (s.reading == None && Suits(Frames, s.response))))
  }

  // ---- what every step keeps ----

  /** The pump runs for the reading that was granted, and has closed the body once it is past its end. */
  predicate PumpOk(s: Sys) {
    && (s.reading == None <==> !s.src.consumed)
    && (s.pump != Unstarted ==> s.reading == Some(Frames) || s.reading == Some(Chunks))
    && (s.pump == BodyClosed ==> s.reading == Some(Frames))
    && s.pumpCloses == (if s.reading == Some(Frames) && (s.pump == BodyClosed || s.pump == Finished) then 1 else 0)
  }

  /** The end of the stream is seen only after the pump has finished. */
  ghost predicate EndOk(s: Sys) {
    && (s.src.dead && s.src.terminal == None ==> s.pump == Finished)
    && (forall i <- s.procs | s.procs[i].pc.Received? && s.procs[i].pc.item.EndOfStream? :: s.pump == Finished)
  }

  ghost predicate PumpInv(s: Sys) {
    PumpOk(s) && EndOk(s)
  }

  lemma PumpStays(s: Sys, i: Pid, ev: Event)
    requires PumpOk(s) && Enabled(s, i, ev)
    ensures PumpOk(Apply(s, i, ev)) && (s.pump == Finished ==> Apply(s, i, ev).pump == Finished)
  {
    hide MapReadError, DeadlineError, Enter;
  }

  lemma EndStays(s: Sys, i: Pid, ev: Event)
    requires EndOk(s) && Enabled(s, i, ev) && (s.pump == Finished ==> Apply(s, i, ev).pump == Finished)
    ensures EndOk(Apply(s, i, ev))
  {
    OnlyOwn(s, i, ev);
    hide MapReadError, Consume;
  }

  lemma StepKeepsPump(s: Sys, i: Pid, ev: Event)
    requires PumpInv(s) && Enabled(s, i, ev)
    ensures PumpInv(Apply(s, i, ev))
  {
    hide PumpOk, EndOk, Enabled, Apply;
    PumpStays(s, i, ev);
    EndStays(s, i, ev);
  }

  lemma {:induction false} RunKeepsPump(s: Sys, trace: seq<(Pid, Event)>)
    requires PumpInv(s) && Possible(s, trace)
    ensures PumpInv(Final(s, trace))
    decreases |trace|
  {
    hide PumpInv, Enabled, Apply;
    if trace != [] {
      StepKeepsPump(s, trace[0].0, trace[0].1);
      RunKeepsPump(Apply(s, trace[0].0, trace[0].1), trace[1..]);
    }
  }

  lemma Reached(response: Response, totalAt: int, idle: nat, trace: seq<(Pid, Event)>)
    requires Possible(Initial(response, totalAt, idle), trace)
    ensures Inv(Final(Initial(response, totalAt, idle), trace)) && PumpInv(Final(Initial(response, totalAt, idle), trace))
  {
    ReachedHolds(response, totalAt, idle, trace);
    RunKeepsPump(Initial(response, totalAt, idle), trace);
  }

  lemma OwnCloses(s: Sys)
    requires Inv(s)
    ensures |s.bodyCloses| <= 1 && (s.announced ==> |s.bodyCloses| == 1)
  {
    if s.src.closed && !s.announced {
      assert ProcOk(s, s.closer);
    }
    hide LogOk;
  }

  /** Over any run close() closes the body at most once, and the pump at most once, and only if it reads frames. */
  lemma AtMostTwice(response: Response, totalAt: int, idle: nat, trace: seq<(Pid, Event)>)
    requires Possible(Initial(response, totalAt, idle), trace)
    ensures var s := Final(Initial(response, totalAt, idle), trace);
            && |s.bodyCloses| <= 1 && s.pumpCloses <= 1 && Closes(s) <= 2
            && (s.pumpCloses == 1 ==> FramesPumped(s))
  {
    Reached(response, totalAt, idle, trace);
    OwnCloses(Final(Initial(response, totalAt, idle), trace));
    hide Possible, Final, Inv;
  }

  /**
   A reading of frames that has come to the end of the stream, which is the only death without
   an error, has closed the body exactly twice once close() has returned.
   */
  lemma EndClosesTwice(response: Response, totalAt: int, idle: nat, trace: seq<(Pid, Event)>)
    requires Possible(Initial(response, totalAt, idle), trace)
    requires var s := Final(Initial(response, totalAt, idle), trace);
             s.reading == Some(Frames) && s.src.dead && s.src.terminal == None && s.announced
    ensures Closes(Final(Initial(response, totalAt, idle), trace)) == 2
  {
    Reached(response, totalAt, idle, trace);
    OwnCloses(Final(Initial(response, totalAt, idle), trace));
    hide Possible, Final, Inv;
  }

  // ---- when the body is closed no more than once ----

  lemma StillNoPump(s: Sys, i: Pid, ev: Event)
    requires Inv(s) && PumpInv(s) && Enabled(s, i, ev) && !MayPump(s)
    ensures !MayPump(Apply(s, i, ev))
  {
    hide Inv, MapReadError, DeadlineError;
  }

  lemma {:induction false} NeverPumped(s: Sys, later: seq<(Pid, Event)>)
    requires Inv(s) && PumpInv(s) && Possible(s, later) && !MayPump(s)
    ensures !MayPump(Final(s, later)) && Inv(Final(s, later)) && PumpInv(Final(s, later))
    decreases |later|
  {
    hide Inv, PumpInv, MayPump, Enabled, Apply;
    if later != [] {
      StepKeeps(s, later[0].0, later[0].1);
      StepKeepsPump(s, later[0].0, later[0].1);
      StillNoPump(s, later[0].0, later[0].1);
      NeverPumped(Apply(s, later[0].0, later[0].1), later[1..]);
    }
  }

  lemma NotPumpedOnce(s: Sys, later: seq<(Pid, Event)>)
    requires Inv(s) && PumpInv(s) && Possible(s, later) && !MayPump(s)
    ensures Closes(Final(s, later)) <= 1 && !FramesPumped(Final(s, later))
  {
    NeverPumped(s, later);
    OwnCloses(Final(s, later));
    hide Inv, Possible, Final;
  }

  // ---- how the second close comes about ----

  lemma Joined(s: Sys, a: seq<(Pid, Event)>, b: seq<(Pid, Event)>)
    requires Possible(s, a) && Possible(Final(s, a), b)
    ensures Possible(s, a + b) && Final(s, a + b) == Final(Final(s, a), b)
    decreases |a|
  {
    hide Enabled, Apply;
    if a == [] {
      assert a + b == b;
    } else {
      assert (a + b)[1..] == a[1..] + b;
      Joined(Apply(s, a[0].0, a[0].1), a[1..], b);
    }
  }

  lemma OneStep(s: Sys, i: Pid, ev: Event)
    requires Enabled(s, i, ev)
    ensures Possible(s, [(i, ev)]) && Final(s, [(i, ev)]) == Apply(s, i, ev)
  {
    assert [(i, ev)][1..] == [];
  }

  lemma NoStep(s: Sys)
    ensures Possible(s, []) && Final(s, []) == s
  {
  }

  lemma Unused(pids: set<Pid>) returns (i: Pid)
    ensures i !in pids
  {
    i := 0;
    var rest := pids;
    while exists j :: j in rest && j >= i
      invariant rest <= pids && forall j <- pids :: j >= i ==> j in rest
      decreases |rest|
    {
      var j :| j in rest && j >= i;
      rest := rest - {j};
      i := j + 1;
    }
  }

  /** frames() is called, unless it has been, and asked for the first frame. */
  lemma StartPump(s: Sys) returns (later: seq<(Pid, Event)>)
    requires PumpInv(s) && MayPump(s)
    ensures Possible(s, later) && FramesPumped(Final(s, later))
  {
    if FramesPumped(s) {
      NoStep(s);
      return [];
    }
    var i := Unused(s.procs.Keys);
    var t := s;
    var front: seq<(Pid, Event)> := [];
    NoStep(s);
    if s.reading == None {
      OneStep(s, i, Use(Frames));
      front := [(i, Use(Frames))];
      t := Apply(s, i, Use(Frames));
    }
    var t1 := Apply(t, i, StartNext(None));
    var t2 := Apply(t1, i, Look);
    assert FramesPumped(t2);
    hide Apply, Enabled, Possible, Final, MayPump, FramesPumped, PumpInv;
    Snoc(s, front, i, StartNext(None));
    Snoc(s, front + [(i, StartNext(None))], i, Look);
    later := front + [(i, StartNext(None))] + [(i, Look)];
  }

  /** The pump comes to its end. */
  lemma EndPump(s: Sys) returns (later: seq<(Pid, Event)>)
    requires PumpInv(s) && FramesPumped(s)
    ensures Possible(s, later) && Final(s, later).pumpCloses == 1
  {
    if s.pump == Running {
      OneStep(s, 0, PumpCloses);
      later := [(0, PumpCloses)];
    } else {
      NoStep(s);
      later := [];
    }
  }

  /** Somebody calls close(), unless that has happened, and goes on to close the body. */
  lemma CloseIt(s: Sys) returns (later: seq<(Pid, Event)>)
    requires Inv(s)
    ensures Possible(s, later) && |Final(s, later).bodyCloses| == 1 && Final(s, later).pumpCloses == s.pumpCloses
  {
    if s.bodyCloses != [] {
      OwnCloses(s);
      NoStep(s);
      return [];
    }
    if s.src.closed {
      var i := s.closer;
      assert ProcOk(s, i);
      OneStep(s, i, CloseBody(None));
      return [(i, CloseBody(None))];
    }
    var i := Unused(s.procs.Keys);
    var t1 := Apply(s, i, StartClose);
    var t2 := Apply(t1, i, EnterClose);
    var t3 := Apply(t2, i, CloseBody(None));
    assert t3.bodyCloses == [None] && t3.pumpCloses == s.pumpCloses;
    hide Inv, Apply, Enabled, Possible, Final;
    OneStep(s, i, StartClose);
    Snoc(s, [(i, StartClose)], i, EnterClose);
    Snoc(s, [(i, StartClose)] + [(i, EnterClose)], i, CloseBody(None));
    later := [(i, StartClose)] + [(i, EnterClose)] + [(i, CloseBody(None))];
  }

  /** Whatever happened so far, a reading of frames that can begin or has begun can close the body twice. */
  lemma ReachTwo(s: Sys) returns (later: seq<(Pid, Event)>)
    requires Inv(s) && PumpInv(s) && MayPump(s)
    ensures Possible(s, later) && Closes(Final(s, later)) == 2
  {
    hide Inv, PumpInv, Possible, Final, MayPump, FramesPumped;
    var a := StartPump(s);
    RunKeeps(s, a);
    RunKeepsPump(s, a);
    var s1 := Final(s, a);
    var b := EndPump(s1);
    RunKeeps(s1, b);
    var s2 := Final(s1, b);
    var c := CloseIt(s2);
    Joined(s1, b, c);
    Joined(s, a, b + c);
    later := a + (b + c);
  }

  /**
   The body stays closed at most once, whatever happens later, exactly when the pump of frames
   is not started and never will be: because chunks or the whole body are read, because frames
   do not suit the response, or because the source was dead or closed before a frame was asked for.
   */
  lemma OnceIff(response: Response, totalAt: int, idle: nat, trace: seq<(Pid, Event)>)
    requires Possible(Initial(response, totalAt, idle), trace)
    ensures var s := Final(Initial(response, totalAt, idle), trace);
            && ((forall later | Possible(s, later) :: Closes(Final(s, later)) <= 1) <==> !MayPump(s))
            && ((forall later | Possible(s, later) :: !FramesPumped(Final(s, later))) <==> !MayPump(s))
  {
    Reached(response, totalAt, idle, trace);
    var s := Final(Initial(response, totalAt, idle), trace);
    hide Inv, PumpInv, Possible, Final, MayPump, FramesPumped, Closes;
    if MayPump(s) {
      var first := StartPump(s);
      var second := ReachTwo(s);
      assert Possible(s, first) && FramesPumped(Final(s, first));
      assert Possible(s, second) && Closes(Final(s, second)) > 1;
    } else {
      forall later | Possible(s, later)
        ensures Closes(Final(s, later)) <= 1 && !FramesPumped(Final(s, later))
      {
        NotPumpedOnce(s, later);
      }
    }
  }

  // ---- an example ----

  /** One reader of frames at pc, and nobody else. */
  function OneReader(pump: Pump, pumpCloses: nat, src: Source, bodyCloses: seq<Option<string>>, pc: Pc): Sys {
    Sys(Streaming, Some(Frames), pump, pumpCloses, src, 9, 9, 0, 0, None, false, bodyCloses,
        map[0 := Proc(pc, None, false, 0)], 1, [])
  }

  const Begun: Source := Source(true, false, false, None)

  /** It waits for the first frame. */
  lemma Waits() returns (trace: seq<(Pid, Event)>)
    ensures Possible(Initial(Streaming, 9, 9), trace)
    ensures Final(Initial(Streaming, 9, 9), trace) == OneReader(Running, 0, Begun, [], Selecting(9))
  {
    var s0 := Initial(Streaming, 9, 9);
    var s1 := Apply(s0, 0, Use(Frames));
    var s2 := Apply(s1, 0, StartNext(None));
    var s3 := Apply(s2, 0, Look);
    var s4 := Apply(s3, 0, CheckDeadline);
    assert s2 == OneReader(Unstarted, 0, Begun, [], Entering);
    assert s4 == OneReader(Running, 0, Begun, [], Selecting(9));
    assert Enabled(s0, 0, Use(Frames)) && Enabled(s1, 0, StartNext(None));
    assert Enabled(s2, 0, Look) && Enabled(s3, 0, CheckDeadline);
    OneStep(s0, 0, Use(Frames));
    hide Apply, Enabled, Possible, Final, Initial, OneReader;
    trace := [(0, Use(Frames))];
    Snoc(s0, trace, 0, StartNext(None));
    trace := trace + [(0, StartNext(None))];
    Snoc(s0, trace, 0, Look);
    trace := trace + [(0, Look)];
    Snoc(s0, trace, 0, CheckDeadline);
    trace := trace + [(0, CheckDeadline)];
  }

  /** The stream is empty: the pump comes to its end, and the reader sees it. */
  lemma SeesTheEnd() returns (trace: seq<(Pid, Event)>)
    ensures Possible(Initial(Streaming, 9, 9), trace)
    ensures Final(Initial(Streaming, 9, 9), trace) == OneReader(Finished, 1, Begun, [], Received(9, EndOfStream))
  {
    trace := Waits();
    var s0, s4 := Initial(Streaming, 9, 9), OneReader(Running, 0, Begun, [], Selecting(9));
    var s5 := Apply(s4, 0, PumpCloses);
    var s6 := Apply(s5, 0, PumpEnds);
    var s7 := Apply(s6, 0, Deliver(EndOfStream));
    assert s7 == OneReader(Finished, 1, Begun, [], Received(9, EndOfStream));
    assert Enabled(s4, 0, PumpCloses) && Enabled(s5, 0, PumpEnds) && Enabled(s6, 0, Deliver(EndOfStream));
    hide Apply, Enabled, Possible, Final, Initial, OneReader;
    Snoc(s0, trace, 0, PumpCloses);
    trace := trace + [(0, PumpCloses)];
    Snoc(s0, trace, 0, PumpEnds);
    trace := trace + [(0, PumpEnds)];
    Snoc(s0, trace, 0, Deliver(EndOfStream));
    trace := trace + [(0, Deliver(EndOfStream))];
  }

  /** It takes the source for dead and closes it. */
  lemma ClosesIt() returns (trace: seq<(Pid, Event)>)
    ensures Possible(Initial(Streaming, 9, 9), trace)
    ensures Final(Initial(Streaming, 9, 9), trace)
         == OneReader(Finished, 1, Source(true, true, true, None), [None], Storing(Own(Ends), None))
  {
    trace := SeesTheEnd();
    var s0, s7 := Initial(Streaming, 9, 9), OneReader(Finished, 1, Begun, [], Received(9, EndOfStream));
    var s8 := Apply(s7, 0, SeeItem);
    var s9 := Apply(s8, 0, EnterClose);
    var s10 := Apply(s9, 0, CloseBody(None));
    assert s8 == OneReader(Finished, 1, Source(true, true, false, None), [], Shutting(Own(Ends)));
    assert s10 == OneReader(Finished, 1, Source(true, true, true, None), [None], Storing(Own(Ends), None));
    assert Enabled(s7, 0, SeeItem) && Enabled(s8, 0, EnterClose) && Enabled(s9, 0, CloseBody(None));
    hide Apply, Enabled, Possible, Final, Initial, OneReader;
    Snoc(s0, trace, 0, SeeItem);
    trace := trace + [(0, SeeItem)];
    Snoc(s0, trace, 0, EnterClose);
    trace := trace + [(0, EnterClose)];
    Snoc(s0, trace, 0, CloseBody(None));
    trace := trace + [(0, CloseBody(None))];
  }

  /** A single reader that asks for frames up to the end: the body is closed twice, and nobody is told. */
  lemma TwiceExample() returns (trace: seq<(Pid, Event)>)
    ensures Possible(Initial(Streaming, 9, 9), trace)
    ensures var s := Final(Initial(Streaming, 9, 9), trace);
            Closes(s) == 2 && s.log == [FromNext(Ends, false, 0, None)] && s.procs == map[]
  {
    trace := ClosesIt();
    var s0 := Initial(Streaming, 9, 9);
    var s10 := OneReader(Finished, 1, Source(true, true, true, None), [None], Storing(Own(Ends), None));
    var s11 := Apply(s10, 0, Store);
    var s12 := Apply(s11, 0, Announce);
    assert Enabled(s10, 0, Store) && Enabled(s11, 0, Announce);
    assert s12.bodyCloses == [None] && s12.log == [FromNext(Ends, false, 0, None)] && s12.procs == map[];
    hide Apply, Enabled, Possible, Final, Initial, OneReader;
    Snoc(s0, trace, 0, Store);
    trace := trace + [(0, Store)];
    Snoc(s0, trace, 0, Announce);
    trace := trace + [(0, Announce)];
  }
}
