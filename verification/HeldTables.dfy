/** The table of tickets that an execution has registered, and how it follows the steps of a run. */
module HeldTables {
  import opened LockSteps
  import opened Sessions
  import opened SharedSlots
  import Progress
  import Store = SlotStore

  /** Each method is one section under the table's mutex. */
  class HeldTable {
    var held: map<Slot, nat>
    var cancelled: bool

    predicate Is(x: Exec)
      reads this
    {
      held == x.held && cancelled == x.cancelled
    }

    constructor ()
      ensures Is(Exec(Ready, map[], map[], false))
    {
      held, cancelled := map[], false;
    }

    /** The context of the execution is cancelled. */
    method Cancel(ghost s: Sys, ghost e: Eid)
      requires Enabled(s, e, Event.Cancel) && Is(s.execs[e])
      modifies this
      ensures Is(Apply(s, e, Event.Cancel).execs[e])
    {
      cancelled := true;
    }

    /** A cancelled execution registers nothing more; the caller releases at once. */
    method Register(slot: Slot, t: nat, ghost s: Sys, ghost e: Eid) returns (ok: bool)
      requires Enabled(s, e, Event.Register) && s.execs[e].pc == Got(slot, t) && Is(s.execs[e])
      modifies this
      ensures var x := Apply(s, e, Event.Register).execs[e];
              Is(x) && x.pc == if ok then Registered(slot) else Refused(slot, t)
    {
      if cancelled {
        return false;
      }
      held := held[slot := t];
      ok := true;
    }

    /** Taking a slot out of the table; only the one who takes it out releases it. */
    method Take(slot: Slot, ghost s: Sys, ghost e: Eid) returns (t: Store.Option<nat>)
      requires e in s.execs && s.execs[e].pc == Letting(slot) && Is(s.execs[e])
      modifies this
      ensures t.Some? <==> Enabled(s, e, Remove)
      ensures t.Some? ==>
                var x := Apply(s, e, Remove).execs[e];
                Is(x) && x.pc == Removed(slot, t.value)
      ensures t.None? ==> Is(s.execs[e])
    {
      if slot !in held {
        return Store.None;
      }
      t := Store.Some(held[slot]);
      held := held - {slot};
    }

    /** What is left at the end is taken out at once. */
    method TakeAll(ghost s: Sys, ghost e: Eid) returns (rest: map<Slot, nat>)
      requires Enabled(s, e, Swap) && Is(s.execs[e])
      modifies this
      ensures var x := Apply(s, e, Swap).execs[e];
              Is(x) && x.pc == Releasing(rest)
    {
      rest := held;
      held := map[];
    }
  }

  predicate Touches(ev: Event) {
    ev.Start? || ev.Cancel? || ev.Register? || ev.Remove? || ev.Swap?
  }

  predicate SameTable(x: Exec, y: Exec) {
    x.held == y.held && x.cancelled == y.cancelled
  }

  lemma LocksSpare(s: Sys, e: Eid, ev: Event)
    requires Enabled(s, e, ev) && (ev.Lock? || ev.Wake? || ev.GiveUp? || ev.Release? || ev.ReleaseOne?)
    ensures e in Apply(s, e, ev).execs && SameTable(s.execs[e], Apply(s, e, ev).execs[e])
  {
    hide LockSteps.Release, Acquire, Abandon, CanRelease;
  }

  lemma StoreSpares(s: Sys, e: Eid, ev: Event)
    requires Enabled(s, e, ev) && !Touches(ev)
    requires !ev.Lock? && !ev.Wake? && !ev.GiveUp? && !ev.Release? && !ev.ReleaseOne?
    ensures e in Apply(s, e, ev).execs && SameTable(s.execs[e], Apply(s, e, ev).execs[e])
  {
    hide Store.Merged;
  }

  lemma OthersSpare(s: Sys, e: Eid, ev: Event)
    requires Enabled(s, e, ev) && !Touches(ev)
    ensures e in Apply(s, e, ev).execs && SameTable(s.execs[e], Apply(s, e, ev).execs[e])
  {
    hide Enabled, Apply;
    if ev.Lock? || ev.Wake? || ev.GiveUp? || ev.Release? || ev.ReleaseOne? {
      LocksSpare(s, e, ev);
    } else {
      StoreSpares(s, e, ev);
    }
  }

  /** One step of the execution, carried out on its table; pc is where it stands. */
  method Follow(table: HeldTable, ghost s: Sys, ghost e: Eid, ev: Event, pc: Pc)
    requires Enabled(s, e, ev) && !ev.Start? && pc == s.execs[e].pc && table.Is(s.execs[e])
    modifies table
    ensures e in Apply(s, e, ev).execs && table.Is(Apply(s, e, ev).execs[e])
  {
    match ev
    case Cancel => table.Cancel(s, e);
    case Register => var _ := table.Register(pc.slot, pc.ticket, s, e);
    case Remove => var _ := table.Take(pc.slot, s, e);
    case Swap => var _ := table.TakeAll(s, e);
    case _ => OthersSpare(s, e, ev);
  }

  lemma StartedOnce(s: Sys, who: Eid, e: Eid, ev: Event)
    requires Enabled(s, who, ev) && e in s.execs
    ensures e in Apply(s, who, ev).execs && (who == e ==> !ev.Start?)
  {
    hide LockSteps.Release, Acquire, Abandon, CanRelease, Store.Merged;
  }

  /** Where execution e stands before each step of the run. */
  ghost predicate Positions(s: Sys, trace: seq<(Eid, Event)>, e: Eid, pcs: seq<Pc>)
    requires Possible(s, trace)
    decreases |trace|
  {
    |pcs| == |trace| &&
    (trace != [] ==>
       && e in s.execs && pcs[0] == s.execs[e].pc
       && Positions(Apply(s, trace[0].0, trace[0].1), trace[1..], e, pcs[1..]))
  }

  /** Over any interleaving, the table of an execution holds what the steps say. */
  method RunTable(ghost s: Sys, e: Eid, trace: seq<(Eid, Event)>, pcs: seq<Pc>) returns (table: HeldTable)
    requires e in s.execs && s.execs[e] == Exec(Ready, map[], map[], false)
    requires Possible(s, trace) && Positions(s, trace, e, pcs)
    ensures e in Final(s, trace).execs && table.Is(Final(s, trace).execs[e])
  {
    table := new HeldTable();
    ghost var now := s;
    var i := 0;
    while i < |trace|
      invariant i <= |trace| == |pcs|
      invariant Possible(now, trace[i..]) && Final(now, trace[i..]) == Final(s, trace)
      invariant Positions(now, trace[i..], e, pcs[i..])
      invariant e in now.execs && table.Is(now.execs[e]) && fresh(table)
    {
      hide Enabled, Apply;
      var (who, ev) := trace[i];
      assert trace[i..][0] == trace[i] && trace[i..][1..] == trace[i + 1..];
      assert pcs[i..][0] == pcs[i] && pcs[i..][1..] == pcs[i + 1..];
      StartedOnce(now, who, e, ev);
      if who == e {
        Follow(table, now, e, ev, pcs[i]);
      } else {
        Progress.OthersKeep(now, e, who, ev);
      }
      now := Apply(now, who, ev);
      i := i + 1;
    }
  }
}
