/**
 Handler executions that share slot locks and an authoritative store. Every mutex section,
 table update and transaction is one step, and executions interleave freely; cancellation,
 timeouts and database failures may strike at any step.
 */
module Sessions {
  import opened LockSteps
  import Store = SlotStore

  type Eid = nat

  /** Where an execution stands between two steps. */
  datatype Pc =
    | Ready                                 // in handler code, or about to end
    | Waiting(slot: Slot, waiter: nat)      // queued in Acquire
    | Got(slot: Slot, ticket: nat)          // acquired, not yet in the held table
    | Refused(slot: Slot, ticket: nat)      // cancelled before the table was updated
    | Registered(slot: Slot)                // in the table, value not yet read
    | Letting(slot: Slot)                   // about to leave the table
    | Removed(slot: Slot, ticket: nat)      // out of the table, not yet released
    | Finalizing                            // handler code is over, buffer not yet merged
    | Merged                                // merge attempted, table not yet swapped
    | Releasing(rest: map<Slot, nat>)       // releasing what was still held
    | Done

  datatype Exec = Exec(pc: Pc, held: map<Slot, nat>, writes: Store.Writes, cancelled: bool)

  /** Accesses to a slot under its lock, in the order in which they took effect. */
  datatype Access =
    | Read(who: Eid, value: string, marked: bool)
    | Wrote(who: Eid, value: string)

  datatype Sys = Sys(
    locks: LockState,
    queuedBy: seq<Eid>,      // who each waiter is
    holder: map<Slot, Eid>,  // whose ticket owns each slot
    kv: map<Slot, string>,
    authority: set<Slot>,
    execs: map<Eid, Exec>,
    logs: map<Slot, seq<Access>>)

  datatype Event =
    | Start
    | Cancel
    | Set(key: Slot, value: string)
    | Delete(key: Slot)
    | Lock(slot: Slot)
    | Wake
    | GiveUp
    | Register
    | LoadValue(ok: bool)
    | UnlockWrite(slot: Slot, value: string, ok: bool)
    | UnlockPlain(slot: Slot)
    | Remove
    | Release
    | Finish
    | Merge(ok: bool)
    | Swap
    | ReleaseOne(slot: Slot)
    | End

  function Stored(kv: map<Slot, string>, slot: Slot): string {
    if slot in kv then kv[slot] else ""
  }

  function Log(s: Sys, slot: Slot): seq<Access> {
    if slot in s.logs then s.logs[slot] else []
  }

  function Put(s: Sys, e: Eid, x: Exec): Sys {
    s.(execs := s.execs[e := x])
  }

  /** The lock that changes hands when e releases ticket t of a slot. */
  function Released(s: Sys, slot: Slot, t: nat): Sys
    requires t < |s.locks.tickets|
    requires Queue(s.locks, slot) != [] ==> Queue(s.locks, slot)[0] < |s.locks.waiters|
    requires Queue(s.locks, slot) != [] ==> Queue(s.locks, slot)[0] < |s.queuedBy|
  {
    var queue := Queue(s.locks, slot);
    s.(locks := LockSteps.Release(s.locks, slot, t),
       holder := if queue != [] then s.holder[slot := s.queuedBy[queue[0]]] else s.holder - {slot})
  }

  ghost predicate CanRelease(s: Sys, slot: Slot, t: nat) {
    && t < |s.locks.tickets|
    && (Queue(s.locks, slot) != [] ==>
          Queue(s.locks, slot)[0] < |s.locks.waiters| && Queue(s.locks, slot)[0] < |s.queuedBy|)
  }

  /** Whether execution e can make a step, and what the step leaves. */
  ghost predicate Enabled(s: Sys, e: Eid, ev: Event) {
    if ev.Start? then e !in s.execs
    else
      && e in s.execs
      && var x := s.execs[e];
      match ev
      case Cancel => true
      case Set(key, _) => x.pc.Ready? && key !in s.locks.owners
      case Delete(key) => x.pc.Ready? && key !in s.locks.owners
      case Lock(slot) => x.pc.Ready? && slot !in x.held
      case Wake => x.pc.Waiting? && x.pc.waiter < |s.locks.waiters| && s.locks.waiters[x.pc.waiter].ticket.Some?
      case GiveUp => x.pc.Waiting? && x.pc.waiter < |s.locks.waiters|
      case Register => x.pc.Got?
      case LoadValue(_) => x.pc.Registered?
      case UnlockWrite(slot, _, _) => x.pc.Ready? && slot in x.held
      case UnlockPlain(slot) => x.pc.Ready? && slot in x.held
      case Remove => x.pc.Letting? && x.pc.slot in x.held
      case Release => (x.pc.Removed? || x.pc.Refused?) && CanRelease(s, x.pc.slot, x.pc.ticket)
      case Finish => x.pc.Ready?
      case Merge(_) => x.pc.Finalizing?
      case Swap => x.pc.Merged?
      case ReleaseOne(slot) => x.pc.Releasing? && slot in x.pc.rest && CanRelease(s, slot, x.pc.rest[slot])
      case End => x.pc.Releasing? && x.pc.rest == map[]
      case Start => false
  }

  function Apply(s: Sys, e: Eid, ev: Event): Sys
    requires Enabled(s, e, ev)
  {
    if ev.Start? then Put(s, e, Exec(Ready, map[], map[], false))
    else
      var x := s.execs[e];
      match ev
      case Cancel => Put(s, e, x.(cancelled := true))
      case Set(key, value) => Put(s, e, x.(writes := x.writes[key := Store.Some(value)]))
      case Delete(key) => Put(s, e, x.(writes := x.writes[key := Store.None]))
      case Lock(slot) => ApplyLock(s, e, slot)
      // the channel is closed: the waiter takes the ticket it was given
      case Wake => Put(s, e, x.(pc := Got(x.pc.slot, s.locks.waiters[x.pc.waiter].ticket.value)))
      // on failure the waiter is left to wake up
      case GiveUp =>
        var (locks, ok) := Abandon(s.locks, x.pc.slot, x.pc.waiter);
        Put(s.(locks := locks), e, if ok then x.(pc := Ready) else x)
      case Register =>
        Put(s, e, Registering(x))
      case LoadValue(ok) =>
        if !ok then Put(s, e, x.(pc := Letting(x.pc.slot)))
        else
          var slot := x.pc.slot;
          Put(s.(logs := s.logs[slot := Log(s, slot) + [Read(e, Stored(s.kv, slot), slot in s.authority)]]),
              e, x.(pc := Ready))
      case UnlockWrite(slot, value, ok) =>
        if !ok then Put(s, e, x.(pc := Letting(slot)))
        else
          Put(s.(kv := s.kv[slot := value], authority := s.authority + {slot},
                 logs := s.logs[slot := Log(s, slot) + [Wrote(e, value)]]),
              e, x.(pc := Letting(slot)))
      case UnlockPlain(slot) => Put(s, e, x.(pc := Letting(slot)))
      case Remove => Put(s, e, x.(pc := Removed(x.pc.slot, x.held[x.pc.slot]), held := x.held - {x.pc.slot}))
      case Release => Put(Released(s, x.pc.slot, x.pc.ticket), e, x.(pc := Ready))
      case Finish => Put(s, e, x.(pc := Finalizing))
      case Merge(ok) =>
        Put(if ok then s.(kv := Store.Merged(s.kv, s.authority, x.writes)) else s, e, x.(pc := Merged))
      case Swap => Put(s, e, x.(pc := Releasing(x.held), held := map[]))
      case ReleaseOne(slot) =>
        Put(Released(s, slot, x.pc.rest[slot]), e, x.(pc := Releasing(x.pc.rest - {slot})))
      case End => Put(s, e, x.(pc := Done))
  }

  function ApplyLock(s: Sys, e: Eid, slot: Slot): Sys
    requires e in s.execs
  {
    var x := s.execs[e];
    var (locks, entry) := Acquire(s.locks, slot);
    match entry
    case Holding(t) =>
      Put(s.(locks := locks, holder := s.holder[slot := e]), e, x.(pc := Got(slot, t)))
    case Waiting(w) =>
      Put(s.(locks := locks, queuedBy := s.queuedBy + [e]), e, x.(pc := Pc.Waiting(slot, w)))
  }

  /** The registration of an acquired ticket. */
  function Registering(x: Exec): Exec
    requires x.pc.Got?
  {
    if x.cancelled then x.(pc := Refused(x.pc.slot, x.pc.ticket))
    else x.(pc := Registered(x.pc.slot), held := x.held[x.pc.slot := x.pc.ticket])
  }

  // ---- who owns what ----

  /** The tickets an execution is responsible for. */
  function Owns(locks: LockState, x: Exec): map<Slot, nat> {
    match x.pc
    case Waiting(slot, w) =>
      if w < |locks.waiters| && locks.waiters[w].ticket.Some? then x.held[slot := locks.waiters[w].ticket.value]
      else x.held
    case Got(slot, t) => x.held[slot := t]
    case Refused(slot, t) => x.held[slot := t]
    case Removed(slot, t) => x.held[slot := t]
    case Releasing(rest) => rest
    case _ => x.held
  }

  /** What an execution's position says about its own table. */
  predicate WellPlaced(x: Exec) {
    match x.pc
    case Waiting(slot, _) => slot !in x.held
    case Got(slot, _) => slot !in x.held
    case Refused(slot, _) => slot !in x.held
    case Removed(slot, _) => slot !in x.held
    case Registered(slot) => slot in x.held
    case Letting(slot) => slot in x.held
    case Releasing(_) => x.held == map[]
    case Done => x.held == map[]
    case _ => true
  }

  function With(own: map<Slot, nat>, slot: Slot, t: nat): map<Slot, nat> {
    own[slot := t]
  }

  function OwnMap(locks: LockState, execs: map<Eid, Exec>): map<Eid, map<Slot, nat>> {
    map e | e in execs :: Owns(locks, execs[e])
  }

  /** Every owned slot is owned through exactly one execution, and that one has its live ticket. */
  ghost predicate Partition(owners: map<Slot, nat>, holder: map<Slot, Eid>, own: map<Eid, map<Slot, nat>>) {
    && holder.Keys == owners.Keys
    && (forall slot <- holder :: holder[slot] in own)
    && (forall e <- own, slot: Slot :: slot in own[e] <==> slot in holder && holder[slot] == e)
    && (forall e <- own, slot <- own[e] :: slot in owners && own[e][slot] == owners[slot])
  }

  lemma Take(owners: map<Slot, nat>, holder: map<Slot, Eid>, own: map<Eid, map<Slot, nat>>, e: Eid, slot: Slot, t: nat)
    requires Partition(owners, holder, own) && e in own && slot !in owners
    ensures Partition(owners[slot := t], holder[slot := e], own[e := With(own[e], slot, t)])
  {
  }

  lemma Give(owners: map<Slot, nat>, holder: map<Slot, Eid>, own: map<Eid, map<Slot, nat>>, e: Eid, slot: Slot)
    requires Partition(owners, holder, own) && e in own && slot in own[e]
    ensures Partition(owners - {slot}, holder - {slot}, own[e := own[e] - {slot}])
  {
    var own' := own[e := own[e] - {slot}];
    assert own'.Keys == own.Keys;
    forall f <- own', k: Slot
      ensures k in own'[f] <==> k in holder - {slot} && (holder - {slot})[k] == f
    {
      assert k in own[f] <==> k in holder && holder[k] == f;
    }
    assert slot in own[e] && holder[slot] == e;
    forall f <- own', k <- own'[f]
      ensures k in owners - {slot} && own'[f][k] == (owners - {slot})[k]
    {
      assert k in own[f] && own'[f][k] == own[f][k];
    }
  }

  lemma Enter(owners: map<Slot, nat>, holder: map<Slot, Eid>, own: map<Eid, map<Slot, nat>>, e: Eid)
    requires Partition(owners, holder, own) && e !in own
    ensures Partition(owners, holder, own[e := map[]])
  {
  }

  ghost predicate OwnersInv(s: Sys) {
    && Partition(s.locks.owners, s.holder, OwnMap(s.locks, s.execs))
    && (forall e <- s.execs :: WellPlaced(s.execs[e]))
  }

  /** Waiters in the lock manager and executions waiting there match one to one. */
  ghost predicate WaitInv(s: Sys) {
    && |s.queuedBy| == |s.locks.waiters|
    && (forall e <- s.execs | s.execs[e].pc.Waiting? ::
          var w := s.execs[e].pc.waiter;
          && w < |s.locks.waiters| && s.queuedBy[w] == e
          && s.locks.waiters[w].slot == s.execs[e].pc.slot && !s.locks.waiters[w].abandoned)
    && (forall w | 0 <= w < |s.locks.waiters| && !s.locks.waiters[w].granted && !s.locks.waiters[w].abandoned ::
          s.queuedBy[w] in s.execs && s.execs[s.queuedBy[w]].pc == Pc.Waiting(s.locks.waiters[w].slot, w))
  }

  ghost predicate LockInv(s: Sys) {
    Inv(s.locks) && OwnersInv(s) && WaitInv(s)
  }

  lemma StartKeeps(s: Sys, e: Eid)
    requires LockInv(s) && e !in s.execs
    ensures LockInv(Put(s, e, Exec(Ready, map[], map[], false)))
  {
    var s' := Put(s, e, Exec(Ready, map[], map[], false));
    assert OwnMap(s'.locks, s'.execs) == OwnMap(s.locks, s.execs)[e := map[]];
    assert e !in OwnMap(s.locks, s.execs);
    Enter(s.locks.owners, s.holder, OwnMap(s.locks, s.execs), e);
    PlacedAtStart();
    hide Inv, Owns, WellPlaced, OwnMap, Partition;
  }

  lemma PlacedAtStart()
    ensures WellPlaced(Exec(Ready, map[], map[], false))
  {
  }

  /** A step of one execution that moves no ticket and leaves no queue. */
  lemma LocalKeeps(s: Sys, s': Sys, e: Eid, x: Exec)
    requires LockInv(s) && e in s.execs
    requires s'.locks == s.locks && s'.queuedBy == s.queuedBy && s'.holder == s.holder && s'.execs == s.execs[e := x]
    requires Owns(s.locks, x) == Owns(s.locks, s.execs[e]) && WellPlaced(x)
    requires x.pc.Waiting? ==> x.pc == s.execs[e].pc
    requires s.execs[e].pc.Waiting? && x.pc != s.execs[e].pc ==>
               var w := s.execs[e].pc.waiter; w < |s.locks.waiters| && s.locks.waiters[w].granted
    ensures LockInv(s')
  {
    assert OwnMap(s'.locks, s'.execs) == OwnMap(s.locks, s.execs);
    hide Inv, Owns, WellPlaced, OwnMap, Partition;
  }

  /** Owned tickets depend on the lock manager only through the waiter an execution stands for. */
  lemma OwnsStable(a: LockState, b: LockState, x: Exec)
    requires x.pc.Waiting? ==>
               var w := x.pc.waiter; w < |a.waiters| && w < |b.waiters| && a.waiters[w].ticket == b.waiters[w].ticket
    ensures Owns(a, x) == Owns(b, x)
  {
  }

  /** Where the tickets of waiters known before stay the same, only one execution's holdings change. */
  lemma OwnMapStable(s: Sys, locks: LockState, e: Eid, x: Exec)
    requires WaitInv(s) && |locks.waiters| >= |s.locks.waiters|
    requires forall w | 0 <= w < |s.locks.waiters| :: locks.waiters[w].ticket == s.locks.waiters[w].ticket
    ensures OwnMap(locks, s.execs[e := x]) == OwnMap(s.locks, s.execs)[e := Owns(locks, x)]
  {
    forall f <- s.execs
      ensures Owns(locks, s.execs[f]) == Owns(s.locks, s.execs[f])
    {
      OwnsStable(s.locks, locks, s.execs[f]);
    }
    hide Owns;
  }

  lemma LockKeeps(s: Sys, e: Eid, slot: Slot)
    requires LockInv(s) && Enabled(s, e, Lock(slot))
    ensures LockInv(ApplyLock(s, e, slot))
  {
    AcquireKeeps(s.locks, slot);
    LockKeepsWaits(s, e, slot);
    var s' := ApplyLock(s, e, slot);
    OwnMapAt(s.locks, s.execs, e);
    if slot !in s.locks.owners {
      LockFreeOwns(s, e, slot);
      hide Inv, Partition, OwnMap, Queue, WaitInv;
      var own := OwnMap(s.locks, s.execs);
      Take(s.locks.owners, s.holder, own, e, slot, |s.locks.tickets|);
      Assemble(s, s', e, own[e := With(own[e], slot, |s.locks.tickets|)]);
    } else {
      LockQueuedOwns(s, e, slot);
      hide Inv, Partition, OwnMap, Queue, WaitInv;
      Assemble(s, s', e, OwnMap(s.locks, s.execs));
    }
  }

  lemma LockFreeOwns(s: Sys, e: Eid, slot: Slot)
    requires WaitInv(s) && Enabled(s, e, Lock(slot)) && slot !in s.locks.owners
    ensures var s', own := ApplyLock(s, e, slot), OwnMap(s.locks, s.execs);
            e in own && OwnMap(s'.locks, s'.execs) == own[e := With(own[e], slot, |s.locks.tickets|)]
  {
    var s' := ApplyLock(s, e, slot);
    OwnMapStable(s, s'.locks, e, s'.execs[e]);
    OwnMapAt(s.locks, s.execs, e);
    hide OwnMap, WaitInv;
  }

  lemma LockQueuedOwns(s: Sys, e: Eid, slot: Slot)
    requires WaitInv(s) && Enabled(s, e, Lock(slot)) && slot in s.locks.owners
    ensures var s' := ApplyLock(s, e, slot);
            OwnMap(s'.locks, s'.execs) == OwnMap(s.locks, s.execs)
  {
    var s' := ApplyLock(s, e, slot);
    var own := OwnMap(s.locks, s.execs);
    OwnMapStable(s, s'.locks, e, s'.execs[e]);
    OwnMapAt(s.locks, s.execs, e);
    hide OwnMap, WaitInv;
    assert own[e := own[e]] == own;
  }

  /** The parts of the lock invariant after a step of execution e. */
  lemma Assemble(s: Sys, s': Sys, e: Eid, own: map<Eid, map<Slot, nat>>)
    requires OwnersInv(s) && e in s'.execs && s'.execs == s.execs[e := s'.execs[e]] && WellPlaced(s'.execs[e])
    requires Inv(s'.locks) && WaitInv(s')
    requires own == OwnMap(s'.locks, s'.execs) && Partition(s'.locks.owners, s'.holder, own)
    ensures LockInv(s')
  {
    hide Inv, WaitInv, Partition, OwnMap, WellPlaced;
  }

  lemma Replace<T>(m: map<Slot, T>, k: Slot, v: T)
    ensures (m - {k})[k := v] == m[k := v]
  {
  }

  lemma LockKeepsWaits(s: Sys, e: Eid, slot: Slot)
    requires WaitInv(s) && Enabled(s, e, Lock(slot))
    ensures WaitInv(ApplyLock(s, e, slot))
  {
    hide Queue;
  }

  lemma GiveUpKeeps(s: Sys, e: Eid)
    requires LockInv(s) && Enabled(s, e, GiveUp)
    ensures LockInv(Apply(s, e, GiveUp))
  {
    var x := s.execs[e];
    AbandonKeeps(s.locks, x.pc.slot, x.pc.waiter);
    AbandonFrame(s.locks, x.pc.slot, x.pc.waiter);
    GiveUpKeepsWaits(s, e);
    GiveUpOwns(s, e);
    var s' := Apply(s, e, GiveUp);
    PlacedAfterGiveUp(x);
    hide Inv, Partition, Abandon, OwnMap, WellPlaced, WaitInv;
    Assemble(s, s', e, OwnMap(s.locks, s.execs));
  }

  lemma GiveUpOwns(s: Sys, e: Eid)
    requires Inv(s.locks) && WaitInv(s) && Enabled(s, e, GiveUp)
    ensures var s' := Apply(s, e, GiveUp);
            OwnMap(s'.locks, s'.execs) == OwnMap(s.locks, s.execs)
  {
    AbandonFrame(s.locks, s.execs[e].pc.slot, s.execs[e].pc.waiter);
    hide Inv, Abandon, OwnMap, WaitInv;
    var s' := Apply(s, e, GiveUp);
    var own := OwnMap(s.locks, s.execs);
    OwnMapStable(s, s'.locks, e, s'.execs[e]);
    OwnMapAt(s.locks, s.execs, e);
    assert Owns(s'.locks, s'.execs[e]) == own[e];
    assert own[e := own[e]] == own;
  }

  lemma PlacedAfterGiveUp(x: Exec)
    requires WellPlaced(x)
    ensures WellPlaced(x.(pc := Ready))
  {
  }

  lemma OwnMapAt(locks: LockState, execs: map<Eid, Exec>, e: Eid)
    requires e in execs
    ensures e in OwnMap(locks, execs) && OwnMap(locks, execs)[e] == Owns(locks, execs[e])
  {
  }

  lemma GiveUpKeepsWaits(s: Sys, e: Eid)
    requires Inv(s.locks) && WaitInv(s) && Enabled(s, e, GiveUp)
    ensures WaitInv(Apply(s, e, GiveUp))
  {
    var x := s.execs[e];
    var s' := Apply(s, e, GiveUp);
    var ok := Abandon(s.locks, x.pc.slot, x.pc.waiter).1;
    AbandonFrame(s.locks, x.pc.slot, x.pc.waiter);
    assert s'.queuedBy == s.queuedBy;
    if ok {
      assert s'.execs == s.execs[e := x.(pc := Ready)];
    } else {
      assert s'.execs == s.execs[e := x] == s.execs;
    }
    hide Inv, Abandon, Apply, Enabled;
    if ok {
      GaveUpWaits(s, s', e);
    }
  }

  lemma GaveUpWaits(s: Sys, s': Sys, e: Eid)
    requires WaitInv(s) && e in s.execs && s.execs[e].pc.Waiting? && s.execs[e].pc.waiter < |s.locks.waiters|
    requires var w := s.execs[e].pc.waiter;
             s'.locks.waiters == s.locks.waiters[w := s.locks.waiters[w].(abandoned := true)]
    requires s'.queuedBy == s.queuedBy && s'.execs == s.execs[e := s.execs[e].(pc := Ready)]
    ensures WaitInv(s')
  {
  }

  /** Giving up marks the waiter and changes no other waiter, ticket or owner. */
  lemma AbandonFrame(s: LockState, slot: Slot, w: nat)
    requires Inv(s) && w < |s.waiters|
    ensures var (s', ok) := Abandon(s, slot, w);
            && s'.owners == s.owners && s'.tickets == s.tickets && |s'.waiters| == |s.waiters|
            && (forall v | 0 <= v < |s.waiters| :: s'.waiters[v].ticket == s.waiters[v].ticket)
            && (ok ==> s'.waiters == s.waiters[w := s.waiters[w].(abandoned := true)])
            && (ok ==> !s.waiters[w].granted && s.waiters[w].ticket == None)
            && (!ok ==> s' == s)
  {
    if Abandon(s, slot, w).1 {
      assert w in Queue(s, slot);
      assert IsWaiting(s, slot, w);
    }
  }

  /** What a release does to the lock manager, with or without a waiter to hand over to. */
  lemma ReleaseFrame(s: LockState, slot: Slot, t: nat)
    requires Inv(s) && slot in s.owners && s.owners[slot] == t
    ensures t < |s.tickets| && (Queue(s, slot) != [] ==> IsWaiting(s, slot, Queue(s, slot)[0]))
    ensures var s' := LockSteps.Release(s, slot, t);
            && Inv(s') && |s'.waiters| == |s.waiters|
            && (Queue(s, slot) == [] ==> s'.owners == s.owners - {slot} && s'.waiters == s.waiters)
            && (Queue(s, slot) != [] ==>
                  var w := Queue(s, slot)[0];
                  && s'.owners == s.owners[slot := |s.tickets|]
                  && s'.waiters == s.waiters[w := WaiterState(slot, true, false, Some(|s.tickets|))])
  {
    ReleaseDefined(s, slot);
    ReleaseKeeps(s, slot, t);
  }

  /** An execution passes on the ticket of one slot and keeps its others. */
  lemma ReleasedKeeps(s: Sys, e: Eid, slot: Slot, t: nat, x: Exec)
    requires LockInv(s) && e in s.execs && CanRelease(s, slot, t)
    requires slot in Owns(s.locks, s.execs[e]) && Owns(s.locks, s.execs[e])[slot] == t
    requires !s.execs[e].pc.Waiting? && !x.pc.Waiting? && WellPlaced(x)
    requires Owns(s.locks, x) == Owns(s.locks, s.execs[e]) - {slot}
    ensures LockInv(Put(Released(s, slot, t), e, x))
  {
    assert slot in OwnMap(s.locks, s.execs)[e];
    assert slot in s.locks.owners && s.locks.owners[slot] == t;
    ReleaseFrame(s.locks, slot, t);
    Give(s.locks.owners, s.holder, OwnMap(s.locks, s.execs), e, slot);
    if Queue(s.locks, slot) == [] {
      FreedKeeps(s, e, slot, t, x);
    } else {
      HandedOverKeeps(s, e, slot, t, x);
    }
  }

  lemma FreedKeeps(s: Sys, e: Eid, slot: Slot, t: nat, x: Exec)
    requires LockInv(s) && e in s.execs && CanRelease(s, slot, t) && Queue(s.locks, slot) == []
    requires slot in s.locks.owners && s.locks.owners[slot] == t
    requires !s.execs[e].pc.Waiting? && !x.pc.Waiting? && WellPlaced(x)
    requires Owns(s.locks, x) == Owns(s.locks, s.execs[e]) - {slot}
    requires var own := OwnMap(s.locks, s.execs);
             Partition(s.locks.owners - {slot}, s.holder - {slot}, own[e := own[e] - {slot}])
    ensures LockInv(Put(Released(s, slot, t), e, x))
  {
    ReleaseFrame(s.locks, slot, t);
    var s' := Put(Released(s, slot, t), e, x);
    hide Inv, Partition, LockSteps.Release, Queue, OwnMap, WellPlaced, Owns;
    FreedWaits(s, s', e, x);
    OwnMapStable(s, s'.locks, e, x);
    OwnsStable(s.locks, s'.locks, x);
    OwnMapAt(s.locks, s.execs, e);
    hide WaitInv;
    Assemble(s, s', e, OwnMap(s.locks, s.execs)[e := Owns(s.locks, x)]);
  }

  lemma FreedWaits(s: Sys, s': Sys, e: Eid, x: Exec)
    requires WaitInv(s) && e in s.execs && !x.pc.Waiting? && !s.execs[e].pc.Waiting?
    requires s'.locks.waiters == s.locks.waiters && s'.queuedBy == s.queuedBy && s'.execs == s.execs[e := x]
    ensures WaitInv(s')
  {
  }

  lemma HandedOverKeeps(s: Sys, e: Eid, slot: Slot, t: nat, x: Exec)
    requires LockInv(s) && e in s.execs && CanRelease(s, slot, t) && Queue(s.locks, slot) != []
    requires slot in s.locks.owners && s.locks.owners[slot] == t
    requires !s.execs[e].pc.Waiting? && !x.pc.Waiting? && WellPlaced(x)
    requires Owns(s.locks, x) == Owns(s.locks, s.execs[e]) - {slot}
    requires var own := OwnMap(s.locks, s.execs);
             Partition(s.locks.owners - {slot}, s.holder - {slot}, own[e := own[e] - {slot}])
    ensures LockInv(Put(Released(s, slot, t), e, x))
  {
    ReleaseFrame(s.locks, slot, t);
    var s' := Put(Released(s, slot, t), e, x);
    var w, next := Queue(s.locks, slot)[0], |s.locks.tickets|;
    assert s.execs[s.queuedBy[w]].pc == Pc.Waiting(slot, w);
    hide Inv, Partition, OwnMap, LockSteps.Release, WellPlaced, Owns, Queue;
    HandedOverWaits(s, s', e, x, slot, w, next);
    HandedOverOwns(s, e, x, slot, w, next, s'.locks);
    hide WaitInv;
    HandedOverPartition(s, s', e, x, slot, w, next);
    Assemble(s, s', e, OwnMap(s'.locks, s'.execs));
  }

  lemma HandedOverPartition(s: Sys, s': Sys, e: Eid, x: Exec, slot: Slot, w: nat, next: nat)
    requires e in s.execs && w < |s.queuedBy|
    requires s'.execs == s.execs[e := x]
    requires s'.locks.owners == s.locks.owners[slot := next] && s'.holder == s.holder[slot := s.queuedBy[w]]
    requires Owns(s.locks, x) == Owns(s.locks, s.execs[e]) - {slot}
    requires var own, g := OwnMap(s.locks, s.execs), s.queuedBy[w];
             && e in own && g in own && g != e
             && OwnMap(s'.locks, s'.execs) == own[e := Owns(s.locks, x)][g := With(own[g], slot, next)]
             && Partition(s.locks.owners - {slot}, s.holder - {slot}, own[e := own[e] - {slot}])
    ensures Partition(s'.locks.owners, s'.holder, OwnMap(s'.locks, s'.execs))
  {
    OwnMapAt(s.locks, s.execs, e);
    hide Partition, OwnMap, Owns;
    var own, g := OwnMap(s.locks, s.execs), s.queuedBy[w];
    Pass(s.locks.owners, s.holder, own[e := own[e] - {slot}], g, slot, next);
  }

  /** A slot that was given up and taken again. */
  lemma Pass(owners: map<Slot, nat>, holder: map<Slot, Eid>, own: map<Eid, map<Slot, nat>>, g: Eid, slot: Slot, next: nat)
    requires Partition(owners - {slot}, holder - {slot}, own) && g in own
    ensures Partition(owners[slot := next], holder[slot := g], own[g := With(own[g], slot, next)])
  {
    hide Partition;
    Take(owners - {slot}, holder - {slot}, own, g, slot, next);
    Replace(owners, slot, next);
    Replace(holder, slot, g);
  }

  lemma HandedOverOwns(s: Sys, e: Eid, x: Exec, slot: Slot, w: nat, next: nat, locks: LockState)
    requires WaitInv(s) && e in s.execs && !x.pc.Waiting? && !s.execs[e].pc.Waiting?
    requires IsWaiting(s.locks, slot, w) && s.queuedBy[w] in s.execs && s.execs[s.queuedBy[w]].pc == Pc.Waiting(slot, w)
    requires locks.waiters == s.locks.waiters[w := WaiterState(slot, true, false, Some(next))]
    ensures var own, g := OwnMap(s.locks, s.execs), s.queuedBy[w];
            && g in own && g != e
            && OwnMap(locks, s.execs[e := x]) == own[e := Owns(s.locks, x)][g := With(own[g], slot, next)]
  {
    var g := s.queuedBy[w];
    forall f <- s.execs | f != g
      ensures Owns(locks, s.execs[f]) == Owns(s.locks, s.execs[f])
    {
      OwnsStable(s.locks, locks, s.execs[f]);
    }
    OwnsStable(s.locks, locks, x);
    assert Owns(locks, s.execs[g]) == Owns(s.locks, s.execs[g])[slot := next];
    hide Owns;
  }

  lemma HandedOverWaits(s: Sys, s': Sys, e: Eid, x: Exec, slot: Slot, w: nat, next: nat)
    requires WaitInv(s) && e in s.execs && !x.pc.Waiting? && !s.execs[e].pc.Waiting? && w < |s.locks.waiters|
    requires s.locks.waiters[w].slot == slot
    requires s'.locks.waiters == s.locks.waiters[w := WaiterState(slot, true, false, Some(next))]
    requires s'.queuedBy == s.queuedBy && s'.execs == s.execs[e := x]
    ensures WaitInv(s')
  {
  }

  // ---- every step keeps the lock invariant ----

  lemma ReleaseStepKeeps(s: Sys, e: Eid)
    requires LockInv(s) && Enabled(s, e, Release)
    ensures LockInv(Apply(s, e, Release))
  {
    var x := s.execs[e];
    var slot, t := x.pc.slot, x.pc.ticket;
    assert Owns(s.locks, x) == x.held[slot := t];
    assert x.held[slot := t] - {slot} == x.held;
    ReleasedKeeps(s, e, slot, t, x.(pc := Ready));
  }

  lemma ReleaseOneKeeps(s: Sys, e: Eid, slot: Slot)
    requires LockInv(s) && Enabled(s, e, ReleaseOne(slot))
    ensures LockInv(Apply(s, e, ReleaseOne(slot)))
  {
    var x := s.execs[e];
    ReleasedKeeps(s, e, slot, x.pc.rest[slot], x.(pc := Releasing(x.pc.rest - {slot})));
  }

  /** Steps that leave the lock manager alone. */
  predicate IsLocal(ev: Event) {
    !ev.Start? && !ev.Lock? && !ev.GiveUp? && !ev.Release? && !ev.ReleaseOne?
  }

  lemma LocalEffect(s: Sys, e: Eid, ev: Event)
    requires Enabled(s, e, ev) && IsLocal(ev)
    ensures var s' := Apply(s, e, ev);
            && e in s.execs && e in s'.execs && s'.execs == s.execs[e := s'.execs[e]]
            && s'.locks == s.locks && s'.queuedBy == s.queuedBy && s'.holder == s.holder
  {
  }

  /** A local step moves tickets only between an execution's table and its position. */
  ghost predicate SameHoldings(s: Sys, x: Exec, y: Exec, ev: Event) {
    && WellPlaced(y) && Owns(s.locks, y) == Owns(s.locks, x)
    && (y.pc.Waiting? ==> y.pc == x.pc)
    && (x.pc.Waiting? && y.pc != x.pc ==> ev.Wake?)
  }

  lemma LocalOwns(s: Sys, e: Eid, ev: Event)
    requires Enabled(s, e, ev) && IsLocal(ev) && WellPlaced(s.execs[e])
    ensures e in Apply(s, e, ev).execs && SameHoldings(s, s.execs[e], Apply(s, e, ev).execs[e], ev)
  {
    if ev.Remove? {
      RemoveOwns(s, e);
    } else if ev.Register? || ev.Swap? || ev.Wake? {
      TableOwns(s, e, ev);
    } else {
      OtherOwns(s, e, ev);
    }
  }

  lemma RemoveOwns(s: Sys, e: Eid)
    requires Enabled(s, e, Remove) && WellPlaced(s.execs[e])
    ensures e in Apply(s, e, Remove).execs && SameHoldings(s, s.execs[e], Apply(s, e, Remove).execs[e], Remove)
  {
    var x := s.execs[e];
    assert (x.held - {x.pc.slot})[x.pc.slot := x.held[x.pc.slot]] == x.held;
  }

  lemma TableOwns(s: Sys, e: Eid, ev: Event)
    requires Enabled(s, e, ev) && (ev.Register? || ev.Swap? || ev.Wake?) && WellPlaced(s.execs[e])
    ensures e in Apply(s, e, ev).execs && SameHoldings(s, s.execs[e], Apply(s, e, ev).execs[e], ev)
  {
  }

  lemma OtherOwns(s: Sys, e: Eid, ev: Event)
    requires Enabled(s, e, ev) && IsLocal(ev) && !ev.Remove? && !ev.Register? && !ev.Swap? && !ev.Wake?
    requires WellPlaced(s.execs[e])
    ensures e in Apply(s, e, ev).execs && SameHoldings(s, s.execs[e], Apply(s, e, ev).execs[e], ev)
  {
    hide Store.Merged;
  }

  lemma LocalStepKeeps(s: Sys, e: Eid, ev: Event)
    requires LockInv(s) && Enabled(s, e, ev) && IsLocal(ev)
    ensures LockInv(Apply(s, e, ev))
  {
    LocalEffect(s, e, ev);
    LocalOwns(s, e, ev);
    if ev.Wake? {
      assert s.locks.waiters[s.execs[e].pc.waiter].granted;
    }
    hide Enabled, Apply, Inv, Owns, WellPlaced, OwnMap, Partition, WaitInv;
    LocalKeeps(s, Apply(s, e, ev), e, Apply(s, e, ev).execs[e]);
  }

  lemma StepKeepsLocks(s: Sys, e: Eid, ev: Event)
    requires LockInv(s) && Enabled(s, e, ev)
    ensures LockInv(Apply(s, e, ev))
  {
    hide LockInv;
    match ev
    case Start => StartKeeps(s, e);
    case Lock(slot) => LockKeeps(s, e, slot);
    case GiveUp => GiveUpKeeps(s, e);
    case Release => ReleaseStepKeeps(s, e);
    case ReleaseOne(slot) => ReleaseOneKeeps(s, e, slot);
    case _ => LocalStepKeeps(s, e, ev);
  }
}
