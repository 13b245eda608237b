/**
 How executions come to their end. Every move of an execution towards its end lowers a rank,
 no move of another one raises it, and until the end there is always such a move to make.
 */
module Progress {
  import opened LockSteps
  import opened Sessions
  import opened SharedSlots
  import Store = SlotStore

  /**
   Moves towards the end. Being cancelled, buffering a write and asking for another slot are
   none, and neither is a vain attempt to give up.
   */
  predicate Advances(s: Sys, e: Eid, ev: Event) {
    && !ev.Start? && !ev.Cancel? && !ev.Set? && !ev.Delete? && !ev.Lock?
    && (ev.GiveUp? ==>
          && e in s.execs && s.execs[e].pc.Waiting? && s.execs[e].pc.waiter < |s.locks.waiters|
          && Abandon(s.locks, s.execs[e].pc.slot, s.execs[e].pc.waiter).1)
  }

  /** How many moves towards its end an execution can still make, if it asks for no other slot. */
  function Rank(x: Exec): nat {
    match x.pc
    case Waiting(_, _) => 3 * |x.held| + 10
    case Got(_, _) => 3 * |x.held| + 9
    case Registered(_) => 3 * |x.held| + 5
    case Letting(_) => 3 * |x.held| + 3
    case Refused(_, _) => 3 * |x.held| + 5
    case Removed(_, _) => 3 * |x.held| + 5
    case Ready => 3 * |x.held| + 4
    case Finalizing => 3 * |x.held| + 3
    case Merged => 3 * |x.held| + 2
    case Releasing(rest) => |rest| + 1
    case Done => 0
  }

  lemma Smaller(m: map<Slot, nat>, slot: Slot)
    requires slot in m
    ensures |m - {slot}| == |m| - 1
  {
    assert m.Keys == (m - {slot}).Keys + {slot};
  }

  lemma Larger(m: map<Slot, nat>, slot: Slot, t: nat)
    requires slot !in m
    ensures |m[slot := t]| == |m| + 1
  {
    assert m[slot := t].Keys == m.Keys + {slot};
  }

  lemma RegisterLowers(s: Sys, e: Eid)
    requires Enabled(s, e, Register) && WellPlaced(s.execs[e])
    ensures e in Apply(s, e, Register).execs && Rank(Apply(s, e, Register).execs[e]) < Rank(s.execs[e])
  {
    var x := s.execs[e];
    assert Apply(s, e, Register).execs[e] == Registering(x);
    Larger(x.held, x.pc.slot, x.pc.ticket);
  }

  lemma RemoveLowers(s: Sys, e: Eid)
    requires Enabled(s, e, Remove)
    ensures e in Apply(s, e, Remove).execs && Rank(Apply(s, e, Remove).execs[e]) < Rank(s.execs[e])
  {
    Smaller(s.execs[e].held, s.execs[e].pc.slot);
  }

  lemma ReleaseOneLowers(s: Sys, e: Eid, slot: Slot)
    requires Enabled(s, e, ReleaseOne(slot))
    ensures var s' := Apply(s, e, ReleaseOne(slot));
            e in s'.execs && Rank(s'.execs[e]) < Rank(s.execs[e])
  {
    var rest := s.execs[e].pc.rest;
    Smaller(rest, slot);
    assert Apply(s, e, ReleaseOne(slot)).execs[e].pc == Releasing(rest - {slot});
    hide Apply, Enabled;
  }

  lemma ReleaseLowers(s: Sys, e: Eid)
    requires Enabled(s, e, Release)
    ensures e in Apply(s, e, Release).execs && Rank(Apply(s, e, Release).execs[e]) < Rank(s.execs[e])
  {
    assert Apply(s, e, Release).execs[e] == s.execs[e].(pc := Ready);
    hide Apply;
  }

  lemma WaiterLowers(s: Sys, e: Eid, ev: Event)
    requires Enabled(s, e, ev) && Advances(s, e, ev) && (ev.Wake? || ev.GiveUp?)
    ensures e in Apply(s, e, ev).execs && Rank(Apply(s, e, ev).execs[e]) < Rank(s.execs[e])
  {
    hide Abandon;
  }

  lemma UnlockLowers(s: Sys, e: Eid, ev: Event)
    requires Enabled(s, e, ev) && (ev.LoadValue? || ev.UnlockWrite? || ev.UnlockPlain?)
    ensures e in Apply(s, e, ev).execs && Rank(Apply(s, e, ev).execs[e]) < Rank(s.execs[e])
  {
  }

  lemma FinalLowers(s: Sys, e: Eid, ev: Event)
    requires Enabled(s, e, ev) && (ev.Finish? || ev.Merge? || ev.Swap? || ev.End?)
    ensures e in Apply(s, e, ev).execs && Rank(Apply(s, e, ev).execs[e]) < Rank(s.execs[e])
  {
    hide Store.Merged;
  }

  /** Every move towards the end counts. */
  lemma AdvanceLowers(s: Sys, e: Eid, ev: Event)
    requires Enabled(s, e, ev) && Advances(s, e, ev) && WellPlaced(s.execs[e])
    ensures e in Apply(s, e, ev).execs && Rank(Apply(s, e, ev).execs[e]) < Rank(s.execs[e])
  {
    hide Apply, Rank, Enabled, WellPlaced;
    if ev.Register? {
      RegisterLowers(s, e);
    } else if ev.Remove? {
      RemoveLowers(s, e);
    } else if ev.ReleaseOne? {
      ReleaseOneLowers(s, e, ev.slot);
    } else if ev.Release? {
      ReleaseLowers(s, e);
    } else if ev.Wake? || ev.GiveUp? {
      WaiterLowers(s, e, ev);
    } else if ev.LoadValue? || ev.UnlockWrite? || ev.UnlockPlain? {
      UnlockLowers(s, e, ev);
    } else {
      FinalLowers(s, e, ev);
    }
  }

  /** No other move of its own costs it anything, except that asking for a slot adds six moves. */
  lemma OtherMovesKeep(s: Sys, e: Eid, ev: Event)
    requires Enabled(s, e, ev) && !Advances(s, e, ev) && !ev.Start?
    ensures e in Apply(s, e, ev).execs
    ensures Rank(Apply(s, e, ev).execs[e]) <= Rank(s.execs[e]) + (if ev.Lock? then 6 else 0)
  {
    hide LockSteps.Release, Abandon, CanRelease, Store.Merged;
  }

  /** Nor does anything that others do. */
  lemma OthersKeep(s: Sys, e: Eid, who: Eid, ev: Event)
    requires Enabled(s, who, ev) && e in s.execs && who != e
    ensures e in Apply(s, who, ev).execs && Apply(s, who, ev).execs[e] == s.execs[e]
  {
    hide LockSteps.Release, Acquire, Abandon, CanRelease, Store.Merged;
  }

  /** Handler code may write what nobody has locked, lock what it does not hold, and unlock what it holds. */
  lemma HandlerCan(s: Sys, e: Eid)
    requires e in s.execs && s.execs[e].pc.Ready?
    ensures forall key, value :: Enabled(s, e, Set(key, value)) <==> key !in s.locks.owners
    ensures forall key :: Enabled(s, e, Delete(key)) <==> key !in s.locks.owners
    ensures forall slot :: Enabled(s, e, Lock(slot)) <==> slot !in s.execs[e].held
    ensures forall slot, value, ok :: Enabled(s, e, UnlockWrite(slot, value, ok)) <==> slot in s.execs[e].held
    ensures forall slot :: Enabled(s, e, UnlockPlain(slot)) <==> slot in s.execs[e].held
    ensures Enabled(s, e, Finish) && Enabled(s, e, Cancel)
  {
  }

  // ---- there is always a move to make ----

  lemma WaiterFacts(s: Sys, e: Eid)
    requires LockInv(s) && e in s.execs && s.execs[e].pc.Waiting?
    ensures var w := s.execs[e].pc.waiter;
            && w < |s.locks.waiters| && (s.locks.waiters[w].granted <==> s.locks.waiters[w].ticket.Some?)
            && (!s.locks.waiters[w].granted ==> Abandon(s.locks, s.execs[e].pc.slot, w).1)
  {
    var slot, w := s.execs[e].pc.slot, s.execs[e].pc.waiter;
    assert s.locks.waiters[w].slot == slot && !s.locks.waiters[w].abandoned;
    hide WaitInv, OwnersInv;
    AbandonMeaning(s.locks, slot, w);
  }

  lemma WakeLeads(s: Sys, e: Eid)
    requires Enabled(s, e, Wake)
    ensures e in Apply(s, e, Wake).execs && Apply(s, e, Wake).execs[e].pc.Got?
  {
  }

  lemma GiveUpLeads(s: Sys, e: Eid)
    requires Enabled(s, e, GiveUp) && Abandon(s.locks, s.execs[e].pc.slot, s.execs[e].pc.waiter).1
    ensures e in Apply(s, e, GiveUp).execs && Apply(s, e, GiveUp).execs[e].pc == Ready
  {
    hide Abandon;
  }

  /** A waiter that was granted the lock can wake up with its ticket; one that was not can give up and go on. */
  lemma WaiterMoves(s: Sys, e: Eid)
    requires LockInv(s) && e in s.execs && s.execs[e].pc.Waiting?
    ensures s.execs[e].pc.waiter < |s.locks.waiters|
    ensures s.locks.waiters[s.execs[e].pc.waiter].granted ==>
              && Enabled(s, e, Wake) && e in Apply(s, e, Wake).execs && Apply(s, e, Wake).execs[e].pc.Got?
    ensures !s.locks.waiters[s.execs[e].pc.waiter].granted ==>
              && Enabled(s, e, GiveUp) && Advances(s, e, GiveUp)
              && e in Apply(s, e, GiveUp).execs && Apply(s, e, GiveUp).execs[e].pc == Ready
  {
    WaiterFacts(s, e);
    hide LockInv, Abandon, Apply;
    if s.locks.waiters[s.execs[e].pc.waiter].granted {
      assert Enabled(s, e, Wake);
      WakeLeads(s, e);
    } else {
      assert Enabled(s, e, GiveUp);
      GiveUpLeads(s, e);
    }
  }

  lemma ReleaseIsPossible(s: Sys, e: Eid, slot: Slot)
    requires LockInv(s) && e in s.execs && slot in Owns(s.locks, s.execs[e])
    ensures CanRelease(s, slot, Owns(s.locks, s.execs[e])[slot])
  {
    OwnMapAt(s.locks, s.execs, e);
    assert slot in OwnMap(s.locks, s.execs)[e];
    ReleaseDefined(s.locks, slot);
  }

  lemma ReleaserMoves(s: Sys, e: Eid) returns (ev: Event)
    requires LockInv(s) && e in s.execs
    requires s.execs[e].pc.Removed? || s.execs[e].pc.Refused? || s.execs[e].pc.Releasing?
    ensures Enabled(s, e, ev) && Advances(s, e, ev)
  {
    hide LockInv, LockSteps.Release;
    var pc := s.execs[e].pc;
    if !pc.Releasing? {
      ReleaseIsPossible(s, e, pc.slot);
      ev := Release;
    } else if pc.rest == map[] {
      ev := End;
    } else {
      var slot :| slot in pc.rest;
      ReleaseIsPossible(s, e, slot);
      ev := ReleaseOne(slot);
    }
  }

  lemma OthersMove(s: Sys, e: Eid) returns (ev: Event)
    requires e in s.execs && WellPlaced(s.execs[e]) && !s.execs[e].pc.Done?
    requires var pc := s.execs[e].pc; !pc.Waiting? && !pc.Removed? && !pc.Refused? && !pc.Releasing?
    ensures Enabled(s, e, ev) && Advances(s, e, ev)
  {
    var pc := s.execs[e].pc;
    ev :=
      if pc.Ready? then Finish else if pc.Got? then Register else if pc.Registered? then LoadValue(false)
      else if pc.Letting? then Remove else if pc.Finalizing? then Merge(false) else Swap;
  }

  /** Whatever the others do, an execution that has not ended can make a move towards its end. */
  lemma NeverStuck(s: Sys, e: Eid) returns (ev: Event)
    requires LockInv(s) && e in s.execs && !s.execs[e].pc.Done?
    ensures Enabled(s, e, ev) && Advances(s, e, ev)
    ensures e in Apply(s, e, ev).execs && Rank(Apply(s, e, ev).execs[e]) < Rank(s.execs[e])
    ensures Apply(s, e, ev).execs[e].pc != s.execs[e].pc
  {
    assert WellPlaced(s.execs[e]);
    hide LockInv, WellPlaced, Apply, Rank, Abandon;
    var pc := s.execs[e].pc;
    if pc.Waiting? {
      WaiterMoves(s, e);
      ev := if s.locks.waiters[pc.waiter].granted then Wake else GiveUp;
    } else if pc.Removed? || pc.Refused? || pc.Releasing? {
      ev := ReleaserMoves(s, e);
    } else {
      ev := OthersMove(s, e);
    }
    AdvanceLowers(s, e, ev);
    AdvanceMoves(s, e, ev);
  }

  lemma AdvanceMoves(s: Sys, e: Eid, ev: Event)
    requires Enabled(s, e, ev) && Advances(s, e, ev)
    ensures e in Apply(s, e, ev).execs && Apply(s, e, ev).execs[e].pc != s.execs[e].pc
  {
    hide LockSteps.Release, Acquire, Abandon, CanRelease, Store.Merged;
    if ev.ReleaseOne? {
      var rest := s.execs[e].pc.rest;
      assert ev.slot in rest && ev.slot !in rest - {ev.slot};
    }
  }

  /** From any reachable state an execution can be brought to its end by its own moves, in no more of them than its rank. */
  lemma {:induction false} EndsByItself(s: Sys, e: Eid) returns (trace: seq<(Eid, Event)>)
    requires LockInv(s) && e in s.execs
    ensures Possible(s, trace) && |trace| <= Rank(s.execs[e])
    ensures forall k | 0 <= k < |trace| :: trace[k].0 == e
    ensures e in Final(s, trace).execs && Final(s, trace).execs[e].pc.Done?
    decreases Rank(s.execs[e])
  {
    trace := [];
    if !s.execs[e].pc.Done? {
      hide LockInv, Enabled, Apply, Rank, Advances;
      var ev := NeverStuck(s, e);
      StepKeepsLocks(s, e, ev);
      var rest := EndsByItself(Apply(s, e, ev), e);
      trace := [(e, ev)] + rest;
      assert trace[1..] == rest;
    }
  }

  // ---- and only finitely many ----

  /** The moves of one execution towards its end in a run. */
  ghost function Moves(s: Sys, trace: seq<(Eid, Event)>, e: Eid): nat
    requires Possible(s, trace)
    decreases |trace|
  {
    if trace == [] then 0
    else
      var (who, ev) := trace[0];
      (if who == e && Advances(s, e, ev) then 1 else 0) + Moves(Apply(s, who, ev), trace[1..], e)
  }

  /** How often it asks for a slot. */
  function Asks(trace: seq<(Eid, Event)>, e: Eid): nat {
    if trace == [] then 0
    else (if trace[0].0 == e && trace[0].1.Lock? then 1 else 0) + Asks(trace[1..], e)
  }

  /**
   Over any interleaving, an execution makes at most as many moves towards its end as its
   rank says, and six more for every slot it asks for on the way.
   */
  lemma {:induction false} MovesAreFew(s: Sys, trace: seq<(Eid, Event)>, e: Eid)
    requires LockInv(s) && e in s.execs && Possible(s, trace)
    ensures e in Final(s, trace).execs
    ensures Moves(s, trace, e) + Rank(Final(s, trace).execs[e]) <= Rank(s.execs[e]) + 6 * Asks(trace, e)
    decreases |trace|
  {
    if trace != [] {
      var who, ev := trace[0].0, trace[0].1;
      assert WellPlaced(s.execs[e]);
      assert ev.Start? ==> who !in s.execs;
      hide LockInv, Enabled, Apply, Rank, Advances, WellPlaced;
      StepKeepsLocks(s, who, ev);
      if who != e {
        OthersKeep(s, e, who, ev);
      } else if Advances(s, e, ev) {
        AdvanceLowers(s, e, ev);
      } else {
        OtherMovesKeep(s, e, ev);
      }
      MovesAreFew(Apply(s, who, ev), trace[1..], e);
    }
  }
}
