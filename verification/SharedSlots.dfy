/**
 What handler executions see of each other through a locked slot: nobody overwrites a value
 they have not read, whatever interleaving, failure or cancellation happens in between.
 */
module SharedSlots {
  import opened LockSteps
  import opened Sessions
  import Store = SlotStore

  // ---- what the accesses to a slot look like ----

  /** The value of the latest write, or the one the slot started with. */
  function Current(log: seq<Access>, start: string): string {
    if log == [] then start
    else if log[|log| - 1].Wrote? then log[|log| - 1].value
    else Current(log[..|log| - 1], start)
  }

  /** Execution e has read the slot, and nobody has written it since. */
  predicate Fresh(log: seq<Access>, e: Eid) {
    log != [] && log[|log| - 1].Read? && (log[|log| - 1].who == e || Fresh(log[..|log| - 1], e))
  }

  predicate HasWrite(log: seq<Access>) {
    exists i | 0 <= i < |log| :: log[i].Wrote?
  }

  /** How an access fits those before it, on a slot with a starting value that may be marked. */
  predicate Fits(log: seq<Access>, a: Access, start: string, marked: bool) {
    match a
    case Read(_, value, seen) => (seen <==> marked || HasWrite(log)) && (seen ==> value == Current(log, start))
    case Wrote(e, _) => Fresh(log, e)
  }

  /** Reads see the latest write once the slot is marked; nobody writes without a fresh read. */
  predicate GoodLog(log: seq<Access>, start: string, marked: bool) {
    log == [] ||
    (var front := log[..|log| - 1];
     GoodLog(front, start, marked) && Fits(front, log[|log| - 1], start, marked))
  }

  /** A slot is marked from the start or by its first write, and then holds the latest write. */
  ghost predicate SlotInv(s: Sys, slot: Slot, start: string, marked: bool) {
    && GoodLog(Log(s, slot), start, marked)
    && (slot in s.authority <==> marked || HasWrite(Log(s, slot)))
    && (slot in s.authority ==> Stored(s.kv, slot) == Current(Log(s, slot), start))
  }

  ghost predicate SlotsInv(s: Sys, kv: map<Slot, string>, authority: set<Slot>) {
    forall slot: Slot :: SlotInv(s, slot, Stored(kv, slot), slot in authority)
  }

  /** Whoever could write a slot now has read it, and nobody has written it since. */
  ghost predicate FreshInv(s: Sys) {
    forall e <- s.execs, slot <- s.execs[e].held ::
      s.execs[e].pc != Registered(slot) && s.execs[e].pc != Letting(slot) ==> Fresh(Log(s, slot), e)
  }

  ghost predicate DataInv(s: Sys, kv: map<Slot, string>, authority: set<Slot>) {
    SlotsInv(s, kv, authority) && FreshInv(s)
  }

  lemma AppendRead(log: seq<Access>, start: string, r: Access, e: Eid)
    requires r.Read?
    ensures Current(log + [r], start) == Current(log, start)
    ensures Fresh(log, e) ==> Fresh(log + [r], e)
    ensures Fresh(log + [r], r.who)
    ensures HasWrite(log + [r]) == HasWrite(log)
  {
    assert (log + [r])[..|log|] == log;
    assert forall i | 0 <= i < |log| :: (log + [r])[i] == log[i];
  }

  lemma AppendGood(log: seq<Access>, start: string, marked: bool, a: Access)
    requires GoodLog(log, start, marked) && Fits(log, a, start, marked)
    ensures GoodLog(log + [a], start, marked)
    ensures a.Wrote? ==> Current(log + [a], start) == a.value && HasWrite(log + [a])
  {
    assert (log + [a])[..|log|] == log;
    assert (log + [a])[|log|] == a;
  }

  /** Two executions never hold the same slot. */
  lemma Exclusive(s: Sys, e: Eid, f: Eid, slot: Slot)
    requires LockInv(s) && e in s.execs && f in s.execs && slot in s.execs[e].held && slot in s.execs[f].held
    ensures e == f
  {
    HeldIsOwned(s, e, slot);
    HeldIsOwned(s, f, slot);
  }

  lemma HeldIsOwned(s: Sys, e: Eid, slot: Slot)
    requires LockInv(s) && e in s.execs && slot in s.execs[e].held
    ensures slot in s.holder && s.holder[slot] == e
  {
    assert WellPlaced(s.execs[e]);
    assert slot in Owns(s.locks, s.execs[e]);
    OwnMapAt(s.locks, s.execs, e);
    hide Inv, WaitInv, Owns;
    assert slot in OwnMap(s.locks, s.execs)[e];
  }

  /** A step that keeps the marks, the values of marked slots and the logs, and lets no execution skip its read. */
  lemma QuietKeeps(s: Sys, s': Sys, e: Eid, kv: map<Slot, string>, authority: set<Slot>)
    requires DataInv(s, kv, authority)
    requires s'.authority == s.authority && s'.logs == s.logs
    requires forall slot <- s.authority :: Stored(s'.kv, slot) == Stored(s.kv, slot)
    requires e in s'.execs && s'.execs == s.execs[e := s'.execs[e]]
    requires forall slot <- s'.execs[e].held |
               s'.execs[e].pc != Registered(slot) && s'.execs[e].pc != Letting(slot) ::
               && e in s.execs && slot in s.execs[e].held
               && s.execs[e].pc != Registered(slot) && s.execs[e].pc != Letting(slot)
    ensures DataInv(s', kv, authority)
  {
    hide GoodLog, Fresh, HasWrite, Current;
    forall slot: Slot
      ensures Log(s', slot) == Log(s, slot) && SlotInv(s', slot, Stored(kv, slot), slot in authority)
    {
      assert SlotInv(s, slot, Stored(kv, slot), slot in authority);
    }
    hide SlotsInv, Log;
  }

  /** One access is added to the log of one slot; a write also sets value and mark. */
  predicate Grows(s: Sys, s': Sys, slot: Slot, a: Access) {
    && s'.logs == s.logs[slot := Log(s, slot) + [a]]
    && match a
       case Read(_, value, marked) =>
         && value == Stored(s.kv, slot) && marked == (slot in s.authority)
         && s'.kv == s.kv && s'.authority == s.authority
       case Wrote(_, value) =>
         s'.kv == s.kv[slot := value] && s'.authority == s.authority + {slot}
  }

  lemma GrowsAt(s: Sys, s': Sys, slot: Slot, a: Access, other: Slot)
    requires Grows(s, s', slot, a)
    ensures Log(s', other) == if other == slot then Log(s, slot) + [a] else Log(s, other)
    ensures other in s'.authority <==> other in s.authority || (a.Wrote? && other == slot)
    ensures Stored(s'.kv, other) == if a.Wrote? && other == slot then a.value else Stored(s.kv, other)
  {
  }

  lemma GrowsKeepsSlot(s: Sys, s': Sys, slot: Slot, a: Access, other: Slot, start: string, marked: bool)
    requires SlotInv(s, other, start, marked) && Grows(s, s', slot, a)
    requires a.Wrote? ==> Fresh(Log(s, slot), a.who)
    ensures SlotInv(s', other, start, marked)
  {
    GrowsAt(s, s', slot, a, other);
    if other == slot {
      AppendGood(Log(s, slot), start, marked, a);
      if a.Read? {
        AppendRead(Log(s, slot), start, a, 0);
      }
    }
    hide Log, Stored, GoodLog, Fresh, HasWrite, Current;
  }

  lemma GrowsKeepsSlots(s: Sys, s': Sys, slot: Slot, a: Access, kv: map<Slot, string>, authority: set<Slot>)
    requires SlotsInv(s, kv, authority) && Grows(s, s', slot, a)
    requires a.Wrote? ==> Fresh(Log(s, slot), a.who)
    ensures SlotsInv(s', kv, authority)
  {
    hide SlotInv, Grows, Fresh, Log;
    forall other: Slot
      ensures SlotInv(s', other, Stored(kv, other), other in authority)
    {
      GrowsKeepsSlot(s, s', slot, a, other, Stored(kv, other), other in authority);
    }
  }

  lemma LoadKeeps(s: Sys, e: Eid, kv: map<Slot, string>, authority: set<Slot>)
    requires DataInv(s, kv, authority) && Enabled(s, e, LoadValue(true))
    ensures DataInv(Apply(s, e, LoadValue(true)), kv, authority)
  {
    var s' := Apply(s, e, LoadValue(true));
    var slot := s.execs[e].pc.slot;
    var r := Read(e, Stored(s.kv, slot), slot in s.authority);
    assert Grows(s, s', slot, r);
    assert s'.execs == s.execs[e := s.execs[e].(pc := Ready)];
    hide Apply, SlotsInv, FreshInv;
    GrowsKeepsSlots(s, s', slot, r, kv, authority);
    ReadKeepsFresh(s, s', slot, r);
    forall other: Slot | other != slot
      ensures Log(s', other) == Log(s, other)
    {
      GrowsAt(s, s', slot, r, other);
    }
    OthersFresh(s, s', e, slot);
  }

  lemma ReadKeepsFresh(s: Sys, s': Sys, slot: Slot, r: Access)
    requires Grows(s, s', slot, r) && r.Read?
    ensures forall f: Eid :: Fresh(Log(s, slot), f) ==> Fresh(Log(s', slot), f)
    ensures Fresh(Log(s', slot), r.who)
  {
    GrowsAt(s, s', slot, r, slot);
    hide Fresh, Log, Grows;
    forall f: Eid
      ensures Fresh(Log(s, slot), f) ==> Fresh(Log(s', slot), f)
      ensures Fresh(Log(s', slot), r.who)
    {
      AppendRead(Log(s, slot), "", r, f);
    }
  }

  /** Only the log of one slot grows, and everybody who was fresh stays so. */
  lemma OthersFresh(s: Sys, s': Sys, e: Eid, slot: Slot)
    requires FreshInv(s) && e in s.execs && s.execs[e].pc == Registered(slot)
    requires s'.execs == s.execs[e := s.execs[e].(pc := Ready)]
    requires forall other: Slot | other != slot :: Log(s', other) == Log(s, other)
    requires forall f: Eid :: Fresh(Log(s, slot), f) ==> Fresh(Log(s', slot), f)
    requires Fresh(Log(s', slot), e)
    ensures FreshInv(s')
  {
    hide Fresh, Log;
    forall f <- s'.execs, k <- s'.execs[f].held | s'.execs[f].pc != Registered(k) && s'.execs[f].pc != Letting(k)
      ensures Fresh(Log(s', k), f)
    {
      if f != e || k != slot {
        assert Fresh(Log(s, k), f);
      }
    }
  }

  lemma WriteKeeps(s: Sys, e: Eid, slot: Slot, value: string, kv: map<Slot, string>, authority: set<Slot>)
    requires LockInv(s) && DataInv(s, kv, authority) && Enabled(s, e, UnlockWrite(slot, value, true))
    ensures DataInv(Apply(s, e, UnlockWrite(slot, value, true)), kv, authority)
  {
    var s' := Apply(s, e, UnlockWrite(slot, value, true));
    assert Grows(s, s', slot, Wrote(e, value));
    assert s'.execs == s.execs[e := s.execs[e].(pc := Letting(slot))];
    assert slot in s.execs[e].held && s.execs[e].pc == Ready;
    assert Fresh(Log(s, slot), e);
    hide Apply, Enabled, SlotsInv;
    GrowsKeepsSlots(s, s', slot, Wrote(e, value), kv, authority);
    forall f <- s.execs | f != e
      ensures slot !in s.execs[f].held
    {
      if slot in s.execs[f].held {
        Exclusive(s, e, f, slot);
      }
    }
    hide LockInv;
    WriterLeaves(s, s', e, slot, Wrote(e, value));
  }

  /** The writer is the only holder and is about to let go, so nobody's reading is out of date. */
  lemma WriterLeaves(s: Sys, s': Sys, e: Eid, slot: Slot, a: Access)
    requires FreshInv(s) && Grows(s, s', slot, a) && e in s.execs
    requires s'.execs == s.execs[e := s.execs[e].(pc := Letting(slot))] && s.execs[e].pc == Ready
    requires forall f <- s.execs | f != e :: slot !in s.execs[f].held
    ensures FreshInv(s')
  {
    hide Grows, Fresh, Log;
    forall f <- s'.execs, k <- s'.execs[f].held | s'.execs[f].pc != Registered(k) && s'.execs[f].pc != Letting(k)
      ensures Fresh(Log(s', k), f)
    {
      assert k != slot;
      GrowsAt(s, s', slot, a, k);
    }
  }

  /** A merge touches no marked slot. */
  lemma MergeSpares(kv: map<Slot, string>, authority: set<Slot>, writes: Store.Writes, slot: Slot)
    requires slot in authority
    ensures Stored(Store.Merged(kv, authority, writes), slot) == Stored(kv, slot)
  {
  }

  lemma MergeKeeps(s: Sys, e: Eid, kv: map<Slot, string>, authority: set<Slot>)
    requires DataInv(s, kv, authority) && Enabled(s, e, Merge(true))
    ensures DataInv(Apply(s, e, Merge(true)), kv, authority)
  {
    var s' := Apply(s, e, Merge(true));
    var writes := s.execs[e].writes;
    assert s'.kv == Store.Merged(s.kv, s.authority, writes) && s'.authority == s.authority && s'.logs == s.logs;
    assert s'.execs == s.execs[e := s.execs[e].(pc := Merged)] && s.execs[e].pc == Finalizing;
    hide Apply, Enabled, Store.Merged, Stored, DataInv;
    forall slot <- s.authority
      ensures Stored(s'.kv, slot) == Stored(s.kv, slot)
    {
      MergeSpares(s.kv, s.authority, writes, slot);
    }
    QuietKeeps(s, s', e, kv, authority);
  }

  /** Steps that touch neither the store nor a log. */
  predicate IsQuiet(ev: Event) {
    ev != LoadValue(true) && !(ev.UnlockWrite? && ev.ok) && ev != Merge(true)
  }

  lemma QuietEffect(s: Sys, e: Eid, ev: Event)
    requires Enabled(s, e, ev) && IsQuiet(ev)
    ensures var s' := Apply(s, e, ev);
            && s'.kv == s.kv && s'.authority == s.authority && s'.logs == s.logs
            && e in s'.execs && s'.execs == s.execs[e := s'.execs[e]]
            && (forall slot <- s'.execs[e].held |
                  s'.execs[e].pc != Registered(slot) && s'.execs[e].pc != Letting(slot) ::
                  && e in s.execs && slot in s.execs[e].held
                  && s.execs[e].pc != Registered(slot) && s.execs[e].pc != Letting(slot))
  {
    hide LockSteps.Release, Acquire, Abandon, CanRelease;
  }

  lemma StepKeepsData(s: Sys, e: Eid, ev: Event, kv: map<Slot, string>, authority: set<Slot>)
    requires LockInv(s) && DataInv(s, kv, authority) && Enabled(s, e, ev)
    ensures DataInv(Apply(s, e, ev), kv, authority)
  {
    hide DataInv, LockInv, Apply;
    if ev == LoadValue(true) {
      LoadKeeps(s, e, kv, authority);
    } else if ev.UnlockWrite? && ev.ok {
      WriteKeeps(s, e, ev.slot, ev.value, kv, authority);
    } else if ev == Merge(true) {
      MergeKeeps(s, e, kv, authority);
    } else {
      QuietEffect(s, e, ev);
      QuietKeeps(s, Apply(s, e, ev), e, kv, authority);
    }
  }

  // ---- runs ----

  function InitialState(kv: map<Slot, string>, authority: set<Slot>): Sys {
    Sys(Initial, [], map[], kv, authority, map[], map[])
  }

  ghost predicate Possible(s: Sys, trace: seq<(Eid, Event)>)
    decreases |trace|
  {
    trace == [] ||
    (Enabled(s, trace[0].0, trace[0].1) && Possible(Apply(s, trace[0].0, trace[0].1), trace[1..]))
  }

  ghost function Final(s: Sys, trace: seq<(Eid, Event)>): Sys
    requires Possible(s, trace)
    decreases |trace|
  {
    if trace == [] then s else Final(Apply(s, trace[0].0, trace[0].1), trace[1..])
  }

  lemma InitialHolds(kv: map<Slot, string>, authority: set<Slot>)
    ensures LockInv(InitialState(kv, authority)) && DataInv(InitialState(kv, authority), kv, authority)
  {
    InvInitial();
  }

  lemma {:induction false} RunKeeps(s: Sys, trace: seq<(Eid, Event)>, kv: map<Slot, string>, authority: set<Slot>)
    requires LockInv(s) && DataInv(s, kv, authority) && Possible(s, trace)
    ensures LockInv(Final(s, trace)) && DataInv(Final(s, trace), kv, authority)
    decreases |trace|
  {
    hide LockInv, DataInv, Enabled, Apply;
    if trace != [] {
      StepKeepsLocks(s, trace[0].0, trace[0].1);
      StepKeepsData(s, trace[0].0, trace[0].1, kv, authority);
      RunKeeps(Apply(s, trace[0].0, trace[0].1), trace[1..], kv, authority);
    }
  }

  lemma ReachedHolds(kv: map<Slot, string>, authority: set<Slot>, trace: seq<(Eid, Event)>)
    requires Possible(InitialState(kv, authority), trace)
    ensures var s := Final(InitialState(kv, authority), trace);
            LockInv(s) && DataInv(s, kv, authority)
  {
    InitialHolds(kv, authority);
    RunKeeps(InitialState(kv, authority), trace, kv, authority);
  }

  // ---- no lost update ----

  lemma {:induction false} LogAt(log: seq<Access>, start: string, marked: bool, j: nat)
    requires GoodLog(log, start, marked) && j < |log|
    ensures Fits(log[..j], log[j], start, marked)
  {
    if j < |log| - 1 {
      var front := log[..|log| - 1];
      LogAt(front, start, marked, j);
      assert front[..j] == log[..j];
    }
  }

  /** Reads change nothing. */
  lemma {:induction false} ReadsSkip(log: seq<Access>, i: nat, start: string)
    requires i <= |log| && forall k | i <= k < |log| :: log[k].Read?
    ensures Current(log, start) == Current(log[..i], start) && HasWrite(log) == HasWrite(log[..i])
  {
    if i < |log| {
      var front := log[..|log| - 1];
      ReadsSkip(front, i, start);
      assert front[..i] == log[..i];
    } else {
      assert log[..i] == log;
    }
  }

  /** The access at j writes on top of the read at i: same execution, and no write between them. */
  predicate Answers(log: seq<Access>, i: int, j: int) {
    && 0 <= i < j < |log| && log[i].Read? && log[j].Wrote? && log[i].who == log[j].who
    && (forall k | i < k < j :: log[k].Read?)
  }

  lemma {:induction false} FreshRead(log: seq<Access>, e: Eid) returns (i: nat)
    requires Fresh(log, e)
    ensures i < |log| && log[i].Read? && log[i].who == e && (forall k | i < k < |log| :: log[k].Read?)
  {
    i := |log| - 1;
    if log[i].who != e {
      i := FreshRead(log[..i], e);
    }
  }

  /**
   Under every interleaving, failure and cancellation: a reading of a marked slot is the value
   of the latest successful write, and whoever writes a slot has read it since the write
   before, so no write is overwritten unseen.
   */
  lemma NoLostUpdate(kv: map<Slot, string>, authority: set<Slot>, trace: seq<(Eid, Event)>, slot: Slot, j: nat)
    requires Possible(InitialState(kv, authority), trace)
    requires j < |Log(Final(InitialState(kv, authority), trace), slot)|
    ensures var log, start := Log(Final(InitialState(kv, authority), trace), slot), Stored(kv, slot);
            match log[j]
            case Read(_, value, marked) =>
              && (marked <==> slot in authority || HasWrite(log[..j]))
              && (marked ==> value == Current(log[..j], start))
            case Wrote(_, _) =>
              exists i :: Answers(log, i, j) && (log[i].marked ==> log[i].value == Current(log[..j], start))
  {
    ReachedHolds(kv, authority, trace);
    var log, start := Log(Final(InitialState(kv, authority), trace), slot), Stored(kv, slot);
    assert GoodLog(log, start, slot in authority);
    hide Possible, Final, LockInv, DataInv, Log;
    LogAt(log, start, slot in authority, j);
    if log[j].Wrote? {
      var i := FreshRead(log[..j], log[j].who);
      assert log[..j][i] == log[i];
      assert forall k | i < k < j :: log[..j][k] == log[k];
      assert Answers(log, i, j);
      LogAt(log, start, slot in authority, i);
      ReadsSkip(log[..j], i, start);
      assert log[..j][..i] == log[..i];
    }
  }

  /** A marked slot holds the latest value written under its lock, whatever was buffered and merged. */
  lemma StoreIsCurrent(kv: map<Slot, string>, authority: set<Slot>, trace: seq<(Eid, Event)>, slot: Slot)
    requires Possible(InitialState(kv, authority), trace)
    ensures var s := Final(InitialState(kv, authority), trace);
            && (slot in s.authority <==> slot in authority || HasWrite(Log(s, slot)))
            && (slot in s.authority ==> Stored(s.kv, slot) == Current(Log(s, slot), Stored(kv, slot)))
  {
    ReachedHolds(kv, authority, trace);
    assert SlotInv(Final(InitialState(kv, authority), trace), slot, Stored(kv, slot), slot in authority);
    hide Possible, Final, LockInv, DataInv, HasWrite, Current, Log, GoodLog;
  }

  function Writes(log: seq<Access>): nat {
    if log == [] then 0 else Writes(log[..|log| - 1]) + (if log[|log| - 1].Wrote? then 1 else 0)
  }

  function Iterate(f: string -> string, n: nat, start: string): string {
    if n == 0 then start else f(Iterate(f, n - 1, start))
  }

  /** Every write applies f to the value its writer has read. */
  ghost predicate AppliesTo(log: seq<Access>, f: string -> string) {
    forall i, j | Answers(log, i, j) :: log[j].value == f(log[i].value)
  }

  lemma {:induction false} CurrentIterates(log: seq<Access>, start: string, f: string -> string)
    requires GoodLog(log, start, true) && AppliesTo(log, f)
    ensures Current(log, start) == Iterate(f, Writes(log), start)
  {
    if log != [] {
      var n := |log| - 1;
      var front := log[..n];
      forall i, j | Answers(front, i, j)
        ensures front[j].value == f(front[i].value)
      {
        assert forall k | i < k < j :: log[k] == front[k];
        assert Answers(log, i, j);
      }
      CurrentIterates(front, start, f);
      if log[n].Wrote? {
        var i := FreshRead(front, log[n].who);
        assert forall k | i < k < n :: log[k] == front[k];
        assert Answers(log, i, n);
        LogAt(front, start, true, i);
        ReadsSkip(front, i, start);
      }
    }
  }

  /**
   Executions that each replace what they read by f of it add up: after n successful writes
   to a marked slot its stored value is f applied n times.
   */
  lemma UpdatesAddUp(kv: map<Slot, string>, authority: set<Slot>, trace: seq<(Eid, Event)>, slot: Slot, f: string -> string)
    requires Possible(InitialState(kv, authority), trace) && slot in authority
    requires AppliesTo(Log(Final(InitialState(kv, authority), trace), slot), f)
    ensures var s := Final(InitialState(kv, authority), trace);
            Stored(s.kv, slot) == Iterate(f, Writes(Log(s, slot)), Stored(kv, slot))
  {
    ReachedHolds(kv, authority, trace);
    hide Possible, Final, LockInv, Current, GoodLog, AppliesTo, Iterate, Writes;
    var s := Final(InitialState(kv, authority), trace);
    CurrentIterates(Log(s, slot), Stored(kv, slot), f);
  }

  /** What a merge would store for a slot: a deleted value reads as the empty string. */
  function Buffered(writes: Store.Writes, slot: Slot): string
    requires slot in writes
  {
    if writes[slot].Some? then writes[slot].value else ""
  }

  lemma MergeStores(kv: map<Slot, string>, authority: set<Slot>, writes: Store.Writes, slot: Slot)
    ensures Stored(Store.Merged(kv, authority, writes), slot)
         == if slot !in authority && slot in writes then Buffered(writes, slot) else Stored(kv, slot)
  {
  }

  /**
   While one execution holds a slot, another one changes the stored value exactly when it
   merges a different buffered value and the slot is unmarked.
   */
  lemma Interference(s: Sys, e: Eid, who: Eid, ev: Event, slot: Slot)
    requires LockInv(s) && e in s.execs && slot in s.execs[e].held && who != e && Enabled(s, who, ev)
    ensures Stored(Apply(s, who, ev).kv, slot) != Stored(s.kv, slot) <==>
              && ev == Merge(true) && slot !in s.authority
              && slot in s.execs[who].writes && Buffered(s.execs[who].writes, slot) != Stored(s.kv, slot)
  {
    if ev == Merge(true) {
      MergeStores(s.kv, s.authority, s.execs[who].writes, slot);
    } else if ev.UnlockWrite? && ev.ok {
      if ev.slot == slot {
        Exclusive(s, e, who, slot);
      }
    } else if ev != LoadValue(true) {
      QuietEffect(s, who, ev);
    }
    hide LockInv, LockSteps.Release, Acquire, Abandon, Store.Merged;
  }

  lemma {:induction false} Snoc(s: Sys, trace: seq<(Eid, Event)>, e: Eid, ev: Event)
    requires Possible(s, trace) && Enabled(Final(s, trace), e, ev)
    ensures Possible(s, trace + [(e, ev)]) && Final(s, trace + [(e, ev)]) == Apply(Final(s, trace), e, ev)
    decreases |trace|
  {
    hide Enabled, Apply;
    if trace != [] {
      Snoc(Apply(s, trace[0].0, trace[0].1), trace[1..], e, ev);
      assert (trace + [(e, ev)])[1..] == trace[1..] + [(e, ev)];
    } else {
      assert (trace + [(e, ev)])[1..] == [];
    }
  }

  /** One execution has buffered a write, another is about to read the slot under its lock. */
  ghost predicate RaceIsOn(s: Sys) {
    && s.kv == map[] && s.authority == {} && s.logs == map[] && {1, 2} <= s.execs.Keys
    && s.execs[1].pc == Ready && s.execs[1].writes == map["k" := Store.Some("x")]
    && s.execs[2].pc == Registered("k") && "k" in s.execs[2].held
  }

  lemma RaceBegins() returns (trace: seq<(Eid, Event)>)
    ensures Possible(InitialState(map[], {}), trace) && RaceIsOn(Final(InitialState(map[], {}), trace))
  {
    var s0 := InitialState(map[], {});
    var s1 := Apply(s0, 1, Start);
    var s2 := Apply(s1, 2, Start);
    var s3 := Apply(s2, 1, Set("k", "x"));
    var s4 := Apply(s3, 2, Lock("k"));
    var s5 := Apply(s4, 2, Register);
    assert Enabled(s0, 1, Start) && Enabled(s1, 2, Start) && Enabled(s2, 1, Set("k", "x"));
    assert Enabled(s3, 2, Lock("k")) && Enabled(s4, 2, Register) && RaceIsOn(s5);
    hide Apply, Enabled, InitialState, RaceIsOn;
    trace := [];
    Snoc(s0, trace, 1, Start);
    trace := trace + [(1, Start)];
    Snoc(s0, trace, 2, Start);
    trace := trace + [(2, Start)];
    Snoc(s0, trace, 1, Set("k", "x"));
    trace := trace + [(1, Set("k", "x"))];
    hide Possible, Final;
    Snoc(s0, trace, 2, Lock("k"));
    trace := trace + [(2, Lock("k"))];
    Snoc(s0, trace, 2, Register);
    trace := trace + [(2, Register)];
  }

  /** Before its first write a slot is unmarked, and a merge can change it under the lock. */
  lemma RacingExample() returns (trace: seq<(Eid, Event)>)
    ensures Possible(InitialState(map[], {}), trace)
    ensures var s := Final(InitialState(map[], {}), trace);
            && 2 in s.execs && "k" in s.execs[2].held
            && Log(s, "k") == [Read(2, "", false)] && Stored(s.kv, "k") == "x"
  {
    trace := RaceBegins();
    var s0 := InitialState(map[], {});
    var s5 := Final(s0, trace);
    var s6 := Apply(s5, 2, LoadValue(true));
    var s7 := Apply(s6, 1, Finish);
    var s8 := Apply(s7, 1, Merge(true));
    MergeStores(s7.kv, s7.authority, s7.execs[1].writes, "k");
    assert "k" in s8.execs[2].held && Log(s8, "k") == [Read(2, "", false)] && Stored(s8.kv, "k") == "x";
    assert Enabled(s5, 2, LoadValue(true)) && Enabled(s6, 1, Finish) && Enabled(s7, 1, Merge(true));
    hide Apply, Enabled, Log, Stored, InitialState, Possible, Final;
    Snoc(s0, trace, 2, LoadValue(true));
    trace := trace + [(2, LoadValue(true))];
    Snoc(s0, trace, 1, Finish);
    trace := trace + [(1, Finish)];
    Snoc(s0, trace, 1, Merge(true));
    trace := trace + [(1, Merge(true))];
  }

  // ---- letting go of a slot ----

  /** The execution is between deciding to let go of the slot and having released it. */
  predicate LeavingSlot(s: Sys, e: Eid, slot: Slot) {
    && e in s.execs
    && var pc := s.execs[e].pc;
       (pc.Letting? || pc.Removed? || pc.Refused?) && pc.slot == slot
  }

  /** Unlocking with or without a value, failing to read, and being cancelled too late. */
  ghost predicate LetsGo(s: Sys, e: Eid, ev: Event, slot: Slot) {
    && Enabled(s, e, ev)
    && (((ev.UnlockWrite? || ev.UnlockPlain?) && ev.slot == slot)
        || (ev == LoadValue(false) && s.execs[e].pc == Registered(slot))
        || (ev == Register && s.execs[e].cancelled && s.execs[e].pc.slot == slot))
  }

  lemma LeadsToLeaving(s: Sys, e: Eid, ev: Event, slot: Slot)
    requires LetsGo(s, e, ev, slot)
    ensures LeavingSlot(Apply(s, e, ev), e, slot)
  {
    hide LockSteps.Release, Acquire, Abandon, CanRelease, Store.Merged;
  }

  lemma LeavingStays(s: Sys, e: Eid, slot: Slot, who: Eid, ev: Event)
    requires Enabled(s, who, ev) && LeavingSlot(s, e, slot) && !(who == e && ev == Release)
    ensures LeavingSlot(Apply(s, who, ev), e, slot)
  {
    hide LockSteps.Release, Acquire, Abandon, CanRelease, Store.Merged;
  }

  /** Whoever starts to let go of a slot does nothing else until it has released it. */
  lemma {:induction false} LeavingReleases(s: Sys, trace: seq<(Eid, Event)>, e: Eid, slot: Slot)
    requires Possible(s, trace) && LeavingSlot(s, e, slot) && !LeavingSlot(Final(s, trace), e, slot)
    ensures exists i | 0 <= i < |trace| ::
              && trace[i] == (e, Release) && Possible(s, trace[..i])
              && LeavingSlot(Final(s, trace[..i]), e, slot)
    decreases |trace|
  {
    hide LeavingSlot, Enabled, Apply;
    var who, ev := trace[0].0, trace[0].1;
    if who == e && ev == Release {
      assert trace[..0] == [];
      assert trace[0] == (e, Release) && Possible(s, trace[..0]) && LeavingSlot(Final(s, trace[..0]), e, slot);
    } else {
      LeavingStays(s, e, slot, who, ev);
      var s', rest := Apply(s, who, ev), trace[1..];
      LeavingReleases(s', rest, e, slot);
      var i :| 0 <= i < |rest| && rest[i] == (e, Release) && Possible(s', rest[..i]) && LeavingSlot(Final(s', rest[..i]), e, slot);
      assert trace[..i + 1][1..] == rest[..i] && trace[..i + 1][0] == trace[0];
      assert trace[i + 1] == (e, Release) && Possible(s, trace[..i + 1]) && LeavingSlot(Final(s, trace[..i + 1]), e, slot);
    }
  }

  /** After the release the slot is somebody else's or nobody's. */
  lemma ReleaseLoses(s: Sys, e: Eid, slot: Slot)
    requires LockInv(s) && Enabled(s, e, Release) && LeavingSlot(s, e, slot)
    ensures var s' := Apply(s, e, Release);
            slot in s'.holder ==> s'.holder[slot] != e
  {
    var s' := Apply(s, e, Release);
    assert WellPlaced(s.execs[e]);
    assert s'.execs[e] == s.execs[e].(pc := Ready) && slot !in s'.execs[e].held;
    StepKeepsLocks(s, e, Release);
    hide Apply, LockInv, Enabled;
    OwnedByHolder(s', slot);
  }

  lemma {:induction false} PrefixPossible(s: Sys, trace: seq<(Eid, Event)>, i: nat)
    requires Possible(s, trace) && i < |trace|
    ensures Possible(s, trace[..i]) && Enabled(Final(s, trace[..i]), trace[i].0, trace[i].1)
    decreases |trace|
  {
    hide Enabled, Apply;
    if i > 0 {
      PrefixPossible(Apply(s, trace[0].0, trace[0].1), trace[1..], i - 1);
      assert trace[..i][1..] == trace[1..][..i - 1];
      assert trace[..i][0] == trace[0];
    }
  }

  lemma {:induction false} LocksKept(s: Sys, trace: seq<(Eid, Event)>)
    requires LockInv(s) && Possible(s, trace)
    ensures LockInv(Final(s, trace))
    decreases |trace|
  {
    hide LockInv, Enabled, Apply;
    if trace != [] {
      StepKeepsLocks(s, trace[0].0, trace[0].1);
      LocksKept(Apply(s, trace[0].0, trace[0].1), trace[1..]);
    }
  }

  /** The only steps left to an execution that lets go of a slot. */
  predicate IsLeaving(ev: Event) {
    ev.Cancel? || ev.Remove? || ev.Release?
  }

  lemma OnlyLeaves(s: Sys, e: Eid, ev: Event, slot: Slot)
    requires Enabled(s, e, ev) && LeavingSlot(s, e, slot)
    ensures IsLeaving(ev)
  {
  }

  /** After this run somebody else owns the slot, or nobody. */
  ghost predicate GivenAway(s: Sys, trace: seq<(Eid, Event)>, e: Eid, slot: Slot) {
    && Possible(s, trace)
    && var s' := Final(s, trace);
       (slot in s'.holder ==> s'.holder[slot] != e)
  }

  lemma ReleasedAt(s: Sys, trace: seq<(Eid, Event)>, e: Eid, slot: Slot, i: nat)
    requires LockInv(s) && Possible(s, trace) && i < |trace| && trace[i] == (e, Release)
    requires Possible(s, trace[..i]) && LeavingSlot(Final(s, trace[..i]), e, slot)
    ensures GivenAway(s, trace[..i + 1], e, slot)
  {
    hide LockInv, LeavingSlot, Apply, Enabled, Possible, Final;
    PrefixPossible(s, trace, i);
    LocksKept(s, trace[..i]);
    ReleaseLoses(Final(s, trace[..i]), e, slot);
    Snoc(s, trace[..i], e, Release);
    assert trace[..i] + [(e, Release)] == trace[..i + 1];
  }

  lemma LeavingGivesAway(s: Sys, trace: seq<(Eid, Event)>, e: Eid, slot: Slot, j: nat)
    requires LockInv(s) && LeavingSlot(s, e, slot) && Possible(s, trace)
    requires j < |trace| && trace[j].0 == e && !IsLeaving(trace[j].1)
    ensures exists i | 0 <= i < j :: trace[i] == (e, Release) && GivenAway(s, trace[..i + 1], e, slot)
  {
    hide LockInv, LeavingSlot, Apply, Enabled, IsLeaving, GivenAway, Possible, Final;
    PrefixPossible(s, trace, j);
    if LeavingSlot(Final(s, trace[..j]), e, slot) {
      OnlyLeaves(Final(s, trace[..j]), e, trace[j].1, slot);
    }
    LeavingReleases(s, trace[..j], e, slot);
    var i :| 0 <= i < |trace[..j]| && trace[..j][i] == (e, Release) && Possible(s, trace[..j][..i])
          && LeavingSlot(Final(s, trace[..j][..i]), e, slot);
    assert trace[..j][..i] == trace[..i] && trace[i] == (e, Release);
    ReleasedAt(s, trace, e, slot, i);
  }

  /**
   Whatever others do in between, an execution that unlocked, failed to read, or was cancelled
   too late has given the slot away before it does anything else.
   */
  lemma UnlockReleases(s: Sys, e: Eid, ev: Event, slot: Slot, trace: seq<(Eid, Event)>, j: nat)
    requires LockInv(s) && LetsGo(s, e, ev, slot) && Possible(Apply(s, e, ev), trace)
    requires j < |trace| && trace[j].0 == e && !IsLeaving(trace[j].1)
    ensures exists i | 0 <= i < j :: trace[i] == (e, Release) && GivenAway(Apply(s, e, ev), trace[..i + 1], e, slot)
  {
    hide LockInv, LeavingSlot, Apply, Enabled, IsLeaving, GivenAway, Possible, Final;
    LeadsToLeaving(s, e, ev, slot);
    StepKeepsLocks(s, e, ev);
    LeavingGivesAway(Apply(s, e, ev), trace, e, slot, j);
  }

  // ---- the end of an execution ----

  predicate PastMerge(s: Sys, e: Eid) {
    e in s.execs && (s.execs[e].pc.Merged? || s.execs[e].pc.Releasing? || s.execs[e].pc.Done?)
  }

  lemma OnlyMergePasses(s: Sys, e: Eid, who: Eid, ev: Event)
    requires Enabled(s, who, ev) && !PastMerge(s, e) && PastMerge(Apply(s, who, ev), e)
    ensures who == e && ev.Merge?
  {
    hide LockSteps.Release, Acquire, Abandon, CanRelease, Store.Merged;
  }

  lemma {:induction false} MergedBefore(s: Sys, trace: seq<(Eid, Event)>, e: Eid)
    requires Possible(s, trace) && !PastMerge(s, e) && PastMerge(Final(s, trace), e)
    ensures exists j | 0 <= j < |trace| :: trace[j].0 == e && trace[j].1.Merge?
    decreases |trace|
  {
    hide PastMerge, Enabled, Apply;
    if trace != [] {
      var s' := Apply(s, trace[0].0, trace[0].1);
      if PastMerge(s', e) {
        OnlyMergePasses(s, e, trace[0].0, trace[0].1);
      } else {
        MergedBefore(s', trace[1..], e);
        var j :| 0 <= j < |trace| - 1 && trace[1..][j].0 == e && trace[1..][j].1.Merge?;
        assert trace[j + 1] == trace[1..][j];
      }
    }
  }

  /** What an execution still holds at its end is released only after its buffer was merged. */
  lemma MergePrecedesRelease(kv: map<Slot, string>, authority: set<Slot>, trace: seq<(Eid, Event)>, i: nat)
    requires Possible(InitialState(kv, authority), trace) && i < |trace| && trace[i].1.ReleaseOne?
    ensures exists j | 0 <= j < i :: trace[j].0 == trace[i].0 && trace[j].1.Merge?
  {
    var s := InitialState(kv, authority);
    PrefixPossible(s, trace, i);
    assert PastMerge(Final(s, trace[..i]), trace[i].0);
    hide Possible, Final, Enabled, PastMerge;
    assert !PastMerge(s, trace[i].0) by { StartsEmpty(kv, authority, trace[i].0); }
    MergedBefore(s, trace[..i], trace[i].0);
    var j :| 0 <= j < i && trace[..i][j].0 == trace[i].0 && trace[..i][j].1.Merge?;
    assert trace[..i][j] == trace[j];
  }

  lemma StartsEmpty(kv: map<Slot, string>, authority: set<Slot>, e: Eid)
    ensures !PastMerge(InitialState(kv, authority), e)
  {
  }

  lemma OwnedByHolder(s: Sys, slot: Slot)
    requires LockInv(s)
    ensures slot in s.locks.owners <==> slot in s.holder
    ensures slot in s.holder ==> s.holder[slot] in s.execs && slot in Owns(s.locks, s.execs[s.holder[slot]])
  {
    if slot in s.holder {
      assert s.holder[slot] in OwnMap(s.locks, s.execs);
      OwnMapAt(s.locks, s.execs, s.holder[slot]);
    }
    hide Inv, WaitInv, Owns;
  }

  /** Whoever waits, waits for an execution that has not ended; one that has ended owns nothing. */
  lemma NothingLeftBehind(s: Sys, slot: Slot)
    requires LockInv(s)
    ensures slot in s.locks.owners ==>
              slot in s.holder && s.holder[slot] in s.execs && !s.execs[s.holder[slot]].pc.Done?
    ensures (exists w: nat :: IsWaiting(s.locks, slot, w)) ==> slot in s.locks.owners
  {
    OwnedByHolder(s, slot);
    if slot in s.locks.owners {
      assert WellPlaced(s.execs[s.holder[slot]]);
    }
    if w: nat :| IsWaiting(s.locks, slot, w) {
      assert w in Queue(s.locks, slot);
    }
  }

  lemma DoneFrees(s: Sys, slot: Slot, w: nat)
    requires LockInv(s) && forall e <- s.execs :: s.execs[e].pc.Done?
    ensures slot !in s.locks.owners && !IsWaiting(s.locks, slot, w)
  {
    hide LockInv, IsWaiting;
    NothingLeftBehind(s, slot);
  }

  /** Once every execution has ended, no slot is owned and nobody waits. */
  lemma AllDoneFreesAll(kv: map<Slot, string>, authority: set<Slot>, trace: seq<(Eid, Event)>)
    requires Possible(InitialState(kv, authority), trace)
    requires var s := Final(InitialState(kv, authority), trace);
             forall e <- s.execs :: s.execs[e].pc.Done?
    ensures var s := Final(InitialState(kv, authority), trace);
            s.locks.owners == map[] && forall slot: Slot, w: nat :: !IsWaiting(s.locks, slot, w)
  {
    ReachedHolds(kv, authority, trace);
    hide Possible, Final, LockInv, DataInv, IsWaiting;
    var s := Final(InitialState(kv, authority), trace);
    forall slot: Slot, w: nat
      ensures slot !in s.locks.owners && !IsWaiting(s.locks, slot, w)
    {
      DoneFrees(s, slot, w);
    }
  }
}
