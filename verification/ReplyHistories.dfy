/** What the sink is asked to write, said of the calls alone: which of them reach it, and with which status. */
module ReplyHistories {
  import opened Replies

  /** The form of the reply: that of the first call that starts one. */
  function FirstForm(calls: seq<Call>): Mode {
    if calls == [] then Unclaimed
    else
      var earlier := FirstForm(calls[..|calls| - 1]);
      if earlier != Unclaimed then earlier
      else
        match calls[|calls| - 1].op
        case ReplyJson(_) => Json
        case ReplySse => Sse
        case _ => Unclaimed
  }

  /** A call that finishes the reply, if it is not finished yet. */
  predicate Finishes(stream: bool, front: seq<Call>, c: Call) {
    c.sinkOk &&
    match c.op
    case ReplyJson(_) => !stream && FirstForm(front + [c]) == Json
    case ReplyEnd => FirstForm(front) == Sse
    case ReplyError => FirstForm(front) == Sse && c.argsOk
    case _ => false
  }

  predicate Finished(stream: bool, calls: seq<Call>) {
    exists k | 0 <= k < |calls| :: Finishes(stream, calls[..k], calls[k])
  }

  /** The status that goes out: 200 exactly where the call gave none. */
  function StatusOf(given: int): int {
    if given == 0 then 200 else given
  }

  /** What a call after others leads to. */
  function Reaches(stream: bool, front: seq<Call>, c: Call): seq<Attempt> {
    if Finished(stream, front) then []
    else
      match c.op
      case ReplyJson(given) =>
        if !stream && FirstForm(front + [c]) == Json then [JSON(StatusOf(given), c.sinkOk)] else []
      case ReplySse => if stream && FirstForm(front + [c]) == Sse then [SSEStart(c.sinkOk)] else []
      case ReplyEvent => if FirstForm(front) == Sse && c.argsOk then [Event(c.sinkOk)] else []
      case ReplyEnd => if FirstForm(front) == Sse then [End(c.sinkOk)] else []
      case ReplyError => if FirstForm(front) == Sse && c.argsOk then [ErrorFrame(c.sinkOk)] else []
  }

  lemma FormGrows(front: seq<Call>, c: Call)
    ensures FirstForm(front + [c]) ==
            if FirstForm(front) != Unclaimed then FirstForm(front)
            else if c.op.ReplyJson? then Json else if c.op.ReplySse? then Sse else Unclaimed
  {
    assert (front + [c])[..|front|] == front;
  }

  lemma FinishedGrows(stream: bool, front: seq<Call>, c: Call)
    ensures Finished(stream, front + [c]) <==> Finished(stream, front) || Finishes(stream, front, c)
  {
    var calls := front + [c];
    hide Finishes;
    assert calls[..|front|] == front && calls[|front|] == c;
    forall k | 0 <= k < |front|
      ensures Finishes(stream, calls[..k], calls[k]) == Finishes(stream, front[..k], front[k])
    {
      assert calls[..k] == front[..k];
    }
    if Finished(stream, front) {
      var k :| 0 <= k < |front| && Finishes(stream, front[..k], front[k]);
      assert Finishes(stream, calls[..k], calls[k]);
    }
    if Finishes(stream, front, c) {
      assert Finishes(stream, calls[..|front|], calls[|front|]);
    }
  }

  /** After preparation the state of the reply is what the calls say. */
  lemma {:induction false} StateFollows(stream: bool, calls: seq<Call>)
    ensures var s := Play(Fresh(stream, false), calls);
            s.mode == FirstForm(calls) && s.done == Finished(stream, calls) && s.stream == stream && !s.prepare
  {
    if calls != [] {
      var front, c := calls[..|calls| - 1], calls[|calls| - 1];
      assert calls == front + [c];
      StateFollows(stream, front);
      FinishedForm(stream, front);
      FormGrows(front, c);
      FinishedGrows(stream, front, c);
      hide FirstForm, Finished;
    }
  }

  /** Only a reply that has a form can be finished. */
  lemma {:induction false} FinishedForm(stream: bool, calls: seq<Call>)
    ensures Finished(stream, calls) ==> FirstForm(calls) != Unclaimed
  {
    if calls != [] {
      var front, c := calls[..|calls| - 1], calls[|calls| - 1];
      assert calls == front + [c];
      FinishedForm(stream, front);
      FormGrows(front, c);
      FinishedGrows(stream, front, c);
    }
  }

  /**
   Which calls reach the sink, and with what: for every sequence of calls, the next one leads to
   the attempt that its history says, a JSON answer with the status it gave, or 200 if it gave none.
   */
  lemma ReachesSink(stream: bool, front: seq<Call>, c: Call)
    ensures Play(Fresh(stream, false), front + [c]).sent
         == Play(Fresh(stream, false), front).sent + Reaches(stream, front, c)
  {
    var calls := front + [c];
    assert calls[..|calls| - 1] == front;
    StateFollows(stream, front);
    FormGrows(front, c);
    hide Finished, FirstForm;
  }

  /** A call throws exactly when it does not reach the sink, or the sink refuses what it asks for. */
  lemma ThrowsIff(stream: bool, front: seq<Call>, c: Call)
    ensures Throws(Play(Fresh(stream, false), front), c) <==> Reaches(stream, front, c) == [] || !c.sinkOk
  {
    StateFollows(stream, front);
    FormGrows(front, c);
    hide Finished, FirstForm, Play;
  }

  /** During preparation nothing reaches the sink and every call throws. */
  lemma PreparationThrows(stream: bool, front: seq<Call>, c: Call)
    ensures Throws(Play(Fresh(stream, true), front), c) && Play(Fresh(stream, true), front + [c]).sent == []
  {
    PrepareIsSilent(stream, front);
    PrepareIsSilent(stream, front + [c]);
    hide Play;
  }

  /** The i-th attempt is a JSON answer that the k-th call asked for, with the status it gave, or 200. */
  predicate AskedFor(s: State, calls: seq<Call>, i: nat, k: nat)
    requires i < |Play(s, calls).sent| && k < |calls|
  {
    && calls[k].op.ReplyJson?
    && Play(s, calls).sent[i] == JSON(StatusOf(calls[k].op.status), calls[k].sinkOk)
    && Play(s, calls[..k]).sent == Play(s, calls).sent[..i]
  }

  lemma SentGrows(s: State, calls: seq<Call>)
    requires calls != []
    ensures var front, c := calls[..|calls| - 1], calls[|calls| - 1];
            && Play(s, calls).sent == Play(s, front).sent + Attempts(Play(s, front), c)
            && |Attempts(Play(s, front), c)| <= 1
            && forall a <- Attempts(Play(s, front), c) | a.JSON? ::
                 c.op.ReplyJson? && a == JSON(StatusOf(c.op.status), c.sinkOk)
  {
  }

  /** Every JSON answer in the sink was asked for by a call with that status, or with none and then it is 200. */
  lemma {:induction false} StatusIsGiven(stream: bool, prepare: bool, calls: seq<Call>, i: nat)
    requires i < |Play(Fresh(stream, prepare), calls).sent| && Play(Fresh(stream, prepare), calls).sent[i].JSON?
    ensures exists k | 0 <= k < |calls| :: AskedFor(Fresh(stream, prepare), calls, i, k)
  {
    var s := Fresh(stream, prepare);
    if calls != [] {
      var n := |calls| - 1;
      var front, c := calls[..n], calls[n];
      SentGrows(s, calls);
      hide Play, Attempts, Fresh;
      if i < |Play(s, front).sent| {
        StatusIsGiven(stream, prepare, front, i);
        var k :| 0 <= k < n && AskedFor(s, front, i, k);
        assert front[..k] == calls[..k] && Play(s, calls).sent[..i] == Play(s, front).sent[..i];
        assert AskedFor(s, calls, i, k);
      } else {
        assert Play(s, calls).sent[i] in Attempts(Play(s, front), c);
        assert Play(s, calls).sent[..i] == Play(s, front).sent;
        assert AskedFor(s, calls, i, n);
      }
    }
  }

  /** The first reply.json of a plain request goes out, if no stream was asked for before. */
  lemma FirstJsonGoesOut(front: seq<Call>, c: Call)
    requires c.op.ReplyJson? && forall d <- front :: !d.op.ReplyJson? && !d.op.ReplySse?
    ensures Play(Fresh(false, false), front + [c]).sent == [JSON(StatusOf(c.op.status), c.sinkOk)]
  {
    NoForm(front);
    FinishedForm(false, front);
    FormGrows(front, c);
    ReachesSink(false, front, c);
    PlayKeeps(Fresh(false, false), front);
    StateFollows(false, front);
    hide Finished, FirstForm;
  }

  lemma {:induction false} NoForm(calls: seq<Call>)
    requires forall d <- calls :: !d.op.ReplyJson? && !d.op.ReplySse?
    ensures FirstForm(calls) == Unclaimed
  {
    if calls != [] {
      assert calls[|calls| - 1] in calls;
      NoForm(calls[..|calls| - 1]);
    }
  }

  /**
   How an execution ends: an unfinished stream gets one error frame, after an exception only if it
   was really started; and run() fails after an exception unless the reply was finished in a form
   that was started, and after a return exactly when no form was ever chosen.
   */
  lemma EndFollows(stream: bool, calls: seq<Call>, threw: bool, frameOk: bool)
    ensures var sent := Play(Fresh(stream, false), calls).sent;
            var (t, failed) := Finish(Play(Fresh(stream, false), calls), threw, frameOk);
            var started := SSEStart(true) in sent;
            && t.sent == sent + (if !Finished(stream, calls) && (if threw then started else FirstForm(calls) == Sse)
                                 then [ErrorFrame(frameOk)] else [])
            && (failed <==> if threw then !Finished(stream, calls) || (FirstForm(calls) == Sse && !started)
                            else FirstForm(calls) == Unclaimed)
  {
    StateFollows(stream, calls);
    FinishedForm(stream, calls);
    PlayKeeps(Fresh(stream, false), calls);
    hide Finished, FirstForm, Play;
  }
}
