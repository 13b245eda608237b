/**
 What a slot holds and what executions read from it, said of the history of a run alone: which
 calls took effect in which order. And one store object that carries a whole run out.
 */
module Readings {
  import opened LockSteps
  import opened Sessions
  import opened SharedSlots
  import Store = SlotStore

  type History = seq<(Eid, Event)>

  /** The slot an execution has asked for last. */
  function LastAsked(trace: History, e: Eid): Store.Option<Slot> {
    if trace == [] then Store.None
    else
      var (who, ev) := trace[|trace| - 1];
      if who == e && ev.Lock? then Store.Some(ev.slot) else LastAsked(trace[..|trace| - 1], e)
  }

  /** What an execution has buffered. */
  function Buffer(trace: History, e: Eid): Store.Writes {
    if trace == [] then map[]
    else
      var buffer := Buffer(trace[..|trace| - 1], e);
      var (who, ev) := trace[|trace| - 1];
      if who == e && ev.Set? then buffer[ev.key := Store.Some(ev.value)]
      else if who == e && ev.Delete? then buffer[ev.key := Store.None]
      else buffer
  }

  /** Whether an execution has been cancelled. */
  predicate WasCancelled(trace: History, e: Eid) {
    trace != [] && (WasCancelled(trace[..|trace| - 1], e) || trace[|trace| - 1] == (e, Cancel))
  }

  /** A slot is marked from the start, or by the first write under its lock. */
  predicate Marked(authority: set<Slot>, trace: History, slot: Slot) {
    if trace == [] then slot in authority
    else
      var ev := trace[|trace| - 1].1;
      Marked(authority, trace[..|trace| - 1], slot) || (ev.UnlockWrite? && ev.ok && ev.slot == slot)
  }

  /**
   What a slot holds: the value of the latest write under its lock, or of the latest merge that
   reached it while it was unmarked, or what it held in the beginning.
   */
  function Stands(kv: map<Slot, string>, authority: set<Slot>, trace: History, slot: Slot): string {
    if trace == [] then (if slot in kv then kv[slot] else "")
    else
      var front, e, ev := trace[..|trace| - 1], trace[|trace| - 1].0, trace[|trace| - 1].1;
      if ev.UnlockWrite? && ev.ok && ev.slot == slot then ev.value
      else if ev == Merge(true) && slot in Buffer(front, e) && !Marked(authority, front, slot) then
        (if Buffer(front, e)[slot].Some? then Buffer(front, e)[slot].value else "")
      else Stands(kv, authority, front, slot)
  }

  /** The accesses under the lock of a slot: each reading is what the slot holds at that moment. */
  function Accesses(kv: map<Slot, string>, authority: set<Slot>, trace: History, slot: Slot): seq<Access> {
    if trace == [] then []
    else
      var front, e, ev := trace[..|trace| - 1], trace[|trace| - 1].0, trace[|trace| - 1].1;
      Accesses(kv, authority, front, slot)
      + if ev == LoadValue(true) && LastAsked(front, e) == Store.Some(slot) then
          [Read(e, Stands(kv, authority, front, slot), Marked(authority, front, slot))]
        else if ev.UnlockWrite? && ev.ok && ev.slot == slot then [Wrote(e, ev.value)]
        else []
  }

  // ---- a run does what its history says ----

  ghost predicate StoreAgrees(s: Sys, kv: map<Slot, string>, authority: set<Slot>, trace: History, slot: Slot) {
    && Stored(s.kv, slot) == Stands(kv, authority, trace, slot)
    && (slot in s.authority <==> Marked(authority, trace, slot))
    && Log(s, slot) == Accesses(kv, authority, trace, slot)
  }

  predicate AsksFor(pc: Pc) {
    pc.Waiting? || pc.Got? || pc.Refused? || pc.Registered?
  }

  predicate ExecAgrees(s: Sys, trace: History, e: Eid) {
    if e in s.execs then
      && s.execs[e].writes == Buffer(trace, e) && s.execs[e].cancelled == WasCancelled(trace, e)
      && (AsksFor(s.execs[e].pc) ==> LastAsked(trace, e) == Store.Some(s.execs[e].pc.slot))
    else Buffer(trace, e) == map[] && !WasCancelled(trace, e)
  }

  lemma Grown(trace: History, e: Eid, ev: Event)
    ensures var more := trace + [(e, ev)];
            |more| == |trace| + 1 && more[..|trace|] == trace && more[|trace|] == (e, ev)
  {
  }

  predicate AtLocks(ev: Event) {
    ev.Lock? || ev.Wake? || ev.GiveUp? || ev.Release? || ev.ReleaseOne?
  }

  lemma WaitSteps(s: Sys, trace: History, e: Eid, ev: Event)
    requires Enabled(s, e, ev) && AtLocks(ev) && ExecAgrees(s, trace, e)
    ensures ExecAgrees(Apply(s, e, ev), trace + [(e, ev)], e)
  {
    Grown(trace, e, ev);
    hide Abandon, CanRelease;
  }

  lemma CallSteps(s: Sys, trace: History, e: Eid, ev: Event)
    requires Enabled(s, e, ev) && !AtLocks(ev) && ExecAgrees(s, trace, e)
    ensures ExecAgrees(Apply(s, e, ev), trace + [(e, ev)], e)
  {
    Grown(trace, e, ev);
    hide Store.Merged, CanRelease;
  }

  lemma OwnSteps(s: Sys, trace: History, e: Eid, ev: Event)
    requires Enabled(s, e, ev) && ExecAgrees(s, trace, e)
    ensures ExecAgrees(Apply(s, e, ev), trace + [(e, ev)], e)
  {
    hide Enabled, Apply, ExecAgrees;
    if AtLocks(ev) {
      WaitSteps(s, trace, e, ev);
    } else {
      CallSteps(s, trace, e, ev);
    }
  }

  lemma ExecSteps(s: Sys, trace: History, e: Eid, ev: Event, f: Eid)
    requires Enabled(s, e, ev) && ExecAgrees(s, trace, f)
    ensures ExecAgrees(Apply(s, e, ev), trace + [(e, ev)], f)
  {
    if f == e {
      OwnSteps(s, trace, e, ev);
    } else {
      Grown(trace, e, ev);
      OthersSame(s, e, ev, f);
      hide Enabled, Apply;
    }
  }

  lemma OthersSame(s: Sys, e: Eid, ev: Event, f: Eid)
    requires Enabled(s, e, ev) && f != e
    ensures f in Apply(s, e, ev).execs <==> f in s.execs
    ensures f in s.execs ==> Apply(s, e, ev).execs[f] == s.execs[f]
  {
    hide LockSteps.Release, Acquire, Abandon, CanRelease, Store.Merged;
  }

  // ---- the store and the accesses, step by step ----

  lemma LoadSteps(s: Sys, kv: map<Slot, string>, authority: set<Slot>, trace: History, e: Eid, slot: Slot)
    requires Enabled(s, e, LoadValue(true)) && ExecAgrees(s, trace, e) && StoreAgrees(s, kv, authority, trace, slot)
    ensures StoreAgrees(Apply(s, e, LoadValue(true)), kv, authority, trace + [(e, LoadValue(true))], slot)
  {
    Grown(trace, e, LoadValue(true));
    hide LockSteps.Release, Acquire, Abandon, CanRelease, Store.Merged;
  }

  lemma WriteSteps(
    s: Sys, kv: map<Slot, string>, authority: set<Slot>, trace: History, e: Eid, ev: Event, slot: Slot)
    requires Enabled(s, e, ev) && ev.UnlockWrite? && ev.ok && StoreAgrees(s, kv, authority, trace, slot)
    ensures StoreAgrees(Apply(s, e, ev), kv, authority, trace + [(e, ev)], slot)
  {
    Grown(trace, e, ev);
    hide LockSteps.Release, Acquire, Abandon, CanRelease, Store.Merged;
  }

  lemma MergeSteps(s: Sys, kv: map<Slot, string>, authority: set<Slot>, trace: History, e: Eid, slot: Slot)
    requires Enabled(s, e, Merge(true)) && ExecAgrees(s, trace, e) && StoreAgrees(s, kv, authority, trace, slot)
    ensures StoreAgrees(Apply(s, e, Merge(true)), kv, authority, trace + [(e, Merge(true))], slot)
  {
    Grown(trace, e, Merge(true));
    MergeStores(s.kv, s.authority, s.execs[e].writes, slot);
    var s' := Apply(s, e, Merge(true));
    assert s'.authority == s.authority && s'.logs == s.logs;
    assert s'.kv == Store.Merged(s.kv, s.authority, s.execs[e].writes);
    hide Apply, Enabled, Store.Merged, Stored, Stands, Marked;
    assert Stands(kv, authority, trace + [(e, Merge(true))], slot) ==
           if slot in Buffer(trace, e) && !Marked(authority, trace, slot) then Buffered(Buffer(trace, e), slot)
           else Stands(kv, authority, trace, slot) by {
      StandsAfterMerge(kv, authority, trace, e, slot);
    }
    MarkedAfterMerge(authority, trace, e, slot);
  }

  lemma StandsAfterMerge(kv: map<Slot, string>, authority: set<Slot>, trace: History, e: Eid, slot: Slot)
    ensures Stands(kv, authority, trace + [(e, Merge(true))], slot) ==
            if slot in Buffer(trace, e) && !Marked(authority, trace, slot) then Buffered(Buffer(trace, e), slot)
            else Stands(kv, authority, trace, slot)
  {
    Grown(trace, e, Merge(true));
    hide Marked, Buffer;
  }

  lemma MarkedAfterMerge(authority: set<Slot>, trace: History, e: Eid, slot: Slot)
    ensures Marked(authority, trace + [(e, Merge(true))], slot) == Marked(authority, trace, slot)
  {
    Grown(trace, e, Merge(true));
  }

  lemma QuietSteps(
    s: Sys, kv: map<Slot, string>, authority: set<Slot>, trace: History, e: Eid, ev: Event, slot: Slot)
    requires Enabled(s, e, ev) && IsQuiet(ev) && StoreAgrees(s, kv, authority, trace, slot)
    ensures StoreAgrees(Apply(s, e, ev), kv, authority, trace + [(e, ev)], slot)
  {
    QuietEffect(s, e, ev);
    Grown(trace, e, ev);
    hide Apply, Enabled, Buffer;
  }

  lemma StoreSteps(
    s: Sys, kv: map<Slot, string>, authority: set<Slot>, trace: History, e: Eid, ev: Event, slot: Slot)
    requires Enabled(s, e, ev) && ExecAgrees(s, trace, e) && StoreAgrees(s, kv, authority, trace, slot)
    ensures StoreAgrees(Apply(s, e, ev), kv, authority, trace + [(e, ev)], slot)
  {
    hide Apply, Enabled, ExecAgrees, StoreAgrees;
    if ev == LoadValue(true) {
      LoadSteps(s, kv, authority, trace, e, slot);
    } else if ev.UnlockWrite? && ev.ok {
      WriteSteps(s, kv, authority, trace, e, ev, slot);
    } else if ev == Merge(true) {
      MergeSteps(s, kv, authority, trace, e, slot);
    } else {
      QuietSteps(s, kv, authority, trace, e, ev, slot);
    }
  }

  lemma LastStep(s: Sys, trace: History)
    requires Possible(s, trace) && trace != []
    ensures var front, e, ev := trace[..|trace| - 1], trace[|trace| - 1].0, trace[|trace| - 1].1;
            && trace == front + [(e, ev)] && Possible(s, front) && Enabled(Final(s, front), e, ev)
            && Final(s, trace) == Apply(Final(s, front), e, ev)
  {
    var front, e, ev := trace[..|trace| - 1], trace[|trace| - 1].0, trace[|trace| - 1].1;
    hide Possible, Final, Enabled, Apply;
    PrefixPossible(s, trace, |trace| - 1);
    Snoc(s, front, e, ev);
    assert trace == front + [(e, ev)];
  }

  lemma {:induction false} ExecsFollow(kv: map<Slot, string>, authority: set<Slot>, trace: History, e: Eid)
    requires Possible(InitialState(kv, authority), trace)
    ensures ExecAgrees(Final(InitialState(kv, authority), trace), trace, e)
  {
    if trace != [] {
      var s, front := InitialState(kv, authority), trace[..|trace| - 1];
      hide Possible, Final, Enabled, Apply, ExecAgrees;
      LastStep(s, trace);
      ExecsFollow(kv, authority, front, e);
      ExecSteps(Final(s, front), front, trace[|trace| - 1].0, trace[|trace| - 1].1, e);
    }
  }

  /**
   Over every interleaving, with failures, timeouts and cancellations: a slot stores what its
   history says, marked or not, and its accesses are the history's, so every reading, also of an
   unmarked slot, is the value that stands at that moment.
   */
  lemma {:induction false} StoreFollows(kv: map<Slot, string>, authority: set<Slot>, trace: History, slot: Slot)
    requires Possible(InitialState(kv, authority), trace)
    ensures var s := Final(InitialState(kv, authority), trace);
            && Stored(s.kv, slot) == Stands(kv, authority, trace, slot)
            && (slot in s.authority <==> Marked(authority, trace, slot))
            && Log(s, slot) == Accesses(kv, authority, trace, slot)
  {
    if trace != [] {
      var s, front := InitialState(kv, authority), trace[..|trace| - 1];
      hide Possible, Final, Enabled, Apply, Stands, Marked, Accesses, ExecAgrees, Log, Stored;
      LastStep(s, trace);
      StoreFollows(kv, authority, front, slot);
      ExecsFollow(kv, authority, front, trace[|trace| - 1].0);
      StoreSteps(Final(s, front), kv, authority, front, trace[|trace| - 1].0, trace[|trace| - 1].1, slot);
    }
  }

  /** A successful getWithLock reads what its slot holds then, and is told whether the slot is marked. */
  lemma ReadsWhatStands(kv: map<Slot, string>, authority: set<Slot>, trace: History, e: Eid)
    requires Possible(InitialState(kv, authority), trace + [(e, LoadValue(true))])
    ensures LastAsked(trace, e).Some?
    ensures var slot := LastAsked(trace, e).value;
            Log(Final(InitialState(kv, authority), trace + [(e, LoadValue(true))]), slot)
            == Accesses(kv, authority, trace, slot)
               + [Read(e, Stands(kv, authority, trace, slot), Marked(authority, trace, slot))]
  {
    var s, more := InitialState(kv, authority), trace + [(e, LoadValue(true))];
    Grown(trace, e, LoadValue(true));
    LastStep(s, more);
    ExecsFollow(kv, authority, trace, e);
    assert Enabled(Final(s, trace), e, LoadValue(true)) ==> AsksFor(Final(s, trace).execs[e].pc);
    hide Possible, Final, Enabled, Apply, Stands, Marked, Buffer;
    StoreFollows(kv, authority, more, LastAsked(trace, e).value);
  }

  /** An acquired slot is registered exactly when its execution has not been cancelled by then; otherwise it is let go. */
  lemma RegistersIff(kv: map<Slot, string>, authority: set<Slot>, trace: History, e: Eid)
    requires Possible(InitialState(kv, authority), trace + [(e, Register)])
    ensures LastAsked(trace, e).Some?
    ensures var t, slot := Final(InitialState(kv, authority), trace + [(e, Register)]), LastAsked(trace, e).value;
            && e in t.execs
            && (if WasCancelled(trace, e) then t.execs[e].pc.Refused? && slot !in t.execs[e].held
                else t.execs[e].pc == Registered(slot) && slot in t.execs[e].held)
            && LeavingSlot(t, e, slot) == WasCancelled(trace, e)
  {
    var s, more := InitialState(kv, authority), trace + [(e, Register)];
    Grown(trace, e, Register);
    LastStep(s, more);
    ExecsFollow(kv, authority, trace, e);
    ReachedHolds(kv, authority, trace);
    assert WellPlaced(Final(s, trace).execs[e]);
    hide Possible, Final, LockInv, DataInv, Buffer;
  }

  // ---- the store steps, carried out ----

  /** The log of every slot with one more access. */
  function Noted(logs: map<Slot, seq<Access>>, slot: Slot, a: Access): map<Slot, seq<Access>> {
    logs[slot := (if slot in logs then logs[slot] else []) + [a]]
  }

  method PerformLoad(
    store: Store.SlotStore, logs: map<Slot, seq<Access>>, e: Eid, slot: Slot, ok: bool, ghost s: Sys)
    returns (after: map<Slot, seq<Access>>)
    requires Enabled(s, e, LoadValue(ok)) && s.execs[e].pc == Registered(slot)
    requires store.kv == s.kv && store.authority == s.authority && logs == s.logs
    ensures var t := Apply(s, e, LoadValue(ok));
            store.kv == t.kv && store.authority == t.authority && after == t.logs
  {
    after := logs;
    var found, value, marked := store.GetAuth(slot, if ok then 3 else 0);
    if found {
      after := Noted(logs, slot, Read(e, value, marked));
    }
  }

  method PerformWrite(
    store: Store.SlotStore, logs: map<Slot, seq<Access>>, e: Eid, slot: Slot, value: string, ok: bool, ghost s: Sys)
    returns (after: map<Slot, seq<Access>>)
    requires Enabled(s, e, UnlockWrite(slot, value, ok))
    requires store.kv == s.kv && store.authority == s.authority && logs == s.logs
    modifies store
    ensures var t := Apply(s, e, UnlockWrite(slot, value, ok));
            store.kv == t.kv && store.authority == t.authority && after == t.logs
  {
    after := logs;
    var done := store.UnlockWrite(slot, value, if ok then 4 else 0);
    if done {
      after := Noted(logs, slot, Wrote(e, value));
    }
  }

  method PerformMerge(store: Store.SlotStore, writes: Store.Writes, ok: bool, ghost s: Sys, ghost e: Eid)
    requires Enabled(s, e, Merge(ok)) && writes == s.execs[e].writes
    requires store.kv == s.kv && store.authority == s.authority
    modifies store
    ensures var t := Apply(s, e, Merge(ok));
            store.kv == t.kv && store.authority == t.authority && s.logs == t.logs
  {
    hide Store.Merged;
    var _, _ := store.Merge(writes, if ok then 2 + 2 * |writes| else 0);
  }

  lemma StoreUntouched(s: Sys, e: Eid, ev: Event)
    requires Enabled(s, e, ev) && !ev.LoadValue? && !ev.UnlockWrite? && !ev.Merge?
    ensures var t := Apply(s, e, ev);
            t.kv == s.kv && t.authority == s.authority && t.logs == s.logs
  {
    hide LockSteps.Release, Acquire, Abandon, CanRelease;
  }

  lemma LoadsWhatItAskedFor(s: Sys, trace: History, e: Eid, ok: bool)
    requires ExecAgrees(s, trace, e) && Enabled(s, e, LoadValue(ok))
    ensures s.execs[e].pc.Registered? && LastAsked(trace, e) == Store.Some(s.execs[e].pc.slot)
  {
  }

  lemma MergesItsBuffer(s: Sys, trace: History, e: Eid, ok: bool)
    requires ExecAgrees(s, trace, e) && Enabled(s, e, Merge(ok))
    ensures Buffer(trace, e) == s.execs[e].writes
  {
  }

  /** One step on the store. A failing transaction fails at its first statement; the others run to their end. */
  method Perform(store: Store.SlotStore, logs: map<Slot, seq<Access>>, trace: History, e: Eid, ev: Event, ghost s: Sys)
    returns (after: map<Slot, seq<Access>>)
    requires Enabled(s, e, ev) && ExecAgrees(s, trace, e)
    requires store.kv == s.kv && store.authority == s.authority && logs == s.logs
    modifies store
    ensures var t := Apply(s, e, ev);
            store.kv == t.kv && store.authority == t.authority && after == t.logs
  {
    after := logs;
    hide Enabled, Apply, ExecAgrees;
    if ev.LoadValue? {
      LoadsWhatItAskedFor(s, trace, e, ev.ok);
      after := PerformLoad(store, logs, e, LastAsked(trace, e).value, ev.ok, s);
    } else if ev.UnlockWrite? {
      after := PerformWrite(store, logs, e, ev.slot, ev.value, ev.ok, s);
    } else if ev.Merge? {
      MergesItsBuffer(s, trace, e, ev.ok);
      PerformMerge(store, Buffer(trace, e), ev.ok, s, e);
    } else {
      StoreUntouched(s, e, ev);
    }
  }

  /** Any interleaving of executions, carried out on one store: what it holds and what was read. */
  method Replay(kv: map<Slot, string>, authority: set<Slot>, trace: History)
    returns (store: Store.SlotStore, logs: map<Slot, seq<Access>>)
    requires Possible(InitialState(kv, authority), trace)
    ensures var t := Final(InitialState(kv, authority), trace);
            store.kv == t.kv && store.authority == t.authority && logs == t.logs
  {
    ghost var start := InitialState(kv, authority);
    store := new Store.SlotStore();
    store.kv, store.authority, logs := kv, authority, map[];
    var k := 0;
    assert trace[..0] == [];
    while k < |trace|
      invariant k <= |trace| && fresh(store) && Possible(start, trace[..k])
      invariant var s := Final(start, trace[..k]);
                store.kv == s.kv && store.authority == s.authority && logs == s.logs
    {
      hide Possible, Final, Enabled, Apply, ExecAgrees;
      var (e, ev) := trace[k];
      PrefixPossible(start, trace, k);
      ExecsFollow(kv, authority, trace[..k], e);
      Snoc(start, trace[..k], e, ev);
      assert trace[..k] + [(e, ev)] == trace[..k + 1];
      logs := Perform(store, logs, trace[..k], e, ev, Final(start, trace[..k]));
      k := k + 1;
    }
    assert trace[..k] == trace;
  }
}
