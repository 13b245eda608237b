/**
 Pools as their methods update them. The flag, the wait group and the channel are fields, every
 method is one section or channel operation, and together with the budget they carry out runs.
 */
module InstancePools {
  import opened Budgets
  import opened Pools
  import Lendings

  class InstancePool {
    const pkg: Pkg
    const limit: Option<nat>
    const capacity: nat
    var closed: bool
    var inFlight: int
    var instances: seq<VmId>

    constructor (pkg: Pkg, limit: Option<nat>, capacity: nat)
      ensures Now() == Pool(pkg, limit, capacity, false, 0, [])
    {
      this.pkg, this.limit, this.capacity := pkg, limit, capacity;
      closed, inFlight, instances := false, 0, [];
    }

    function Now(): Pool
      reads this
    {
      Pool(pkg, limit, capacity, closed, inFlight, instances)
    }

    /** Testing the flag and joining the group are one section. */
    method Join(ghost s: Sys, ghost i: Pid, ghost p: PoolId) returns (ok: bool)
      requires p in s.pools && s.pools[p] == Now()
      modifies this
      ensures ok == !old(closed)
      ensures Enter(s, i, p) == if ok then Goto(SetPool(s, p, Now()), i, Window(p)) else s
      ensures !ok ==> Now() == old(Now())
    {
      if closed {
        return false;
      }
      inFlight := inFlight + 1;
      ok := true;
    }

    method Leave(ghost s: Sys, ghost i: Pid, ghost p: PoolId) returns (panics: bool)
      requires p in s.pools && s.pools[p] == Now()
      modifies this
      ensures Done(s, i, p) == if panics then s.(panicked := true) else Gone(SetPool(s, p, Now()), i)
    {
      if inFlight <= 0 {
        return true;
      }
      inFlight := inFlight - 1;
      panics := false;
    }

    /** A borrower or a closer receives from the channel, if there is an instance. */
    method Receive(ghost s: Sys, ghost i: Pid, ghost m: Move) returns (v: Option<VmId>)
      requires Known(s, i) && s.pools[s.procs[i].pool] == Now()
      requires (m == TakeIdle && (s.procs[i].Window? || s.procs[i].Selecting?)) || (m == Drain && s.procs[i].Draining?)
      requires forall w <- instances :: w in s.vms
      modifies this
      ensures v.Some? ==>
                && CanMove(s, i, m)
                && var t, p := Moved(s, i, m), s.procs[i].pool;
                   && t.pools == s.pools[p := Now()]
                   && t.procs == s.procs[i := if m == TakeIdle then Lent(p, v.value) else DrainDiscard(p, v.value)]
                   && v.value in t.vms && t.vms[v.value].at == Some(i)
      ensures v.None? ==>
                && Now() == old(Now()) && (m == TakeIdle ==> !CanMove(s, i, m))
                && (m == Drain ==> CanMove(s, i, m) && Moved(s, i, m) == Goto(s, i, Closed(s.procs[i].pool)))
    {
      if |instances| == 0 {
        return None;
      }
      assert instances[0] in instances;
      v := Some(instances[0]);
      instances := instances[1..];
    }

    /** Offering an instance to the channel: refused when it is full. */
    method Offer(v: VmId, ghost s: Sys, ghost i: Pid) returns (ok: bool)
      requires Known(s, i) && s.procs[i].Sending? && s.procs[i].vm == v && s.pools[s.procs[i].pool] == Now()
      modifies this
      ensures var t, p := Moved(s, i, Send), s.procs[i].pool;
              if ok then
                && t.pools == s.pools[p := Now()] && t.procs == s.procs[i := Leaving(p)]
                && t.vms == s.vms[v := s.vms[v].(at := None)]
              else Now() == old(Now()) && t == Goto(s, i, Discarding(p, v))
    {
      if |instances| >= capacity {
        return false;
      }
      instances := instances + [v];
      ok := true;
    }

    method MarkClosed(ghost s: Sys, ghost i: Pid, ghost p: PoolId)
      requires Enabled(s, i, Close(p)) && s.pools[p] == Now()
      modifies this
      ensures Apply(s, i, Close(p)) == Goto(SetPool(s, p, Now()), i, Waiting(p))
    {
      closed := true;
    }
  }

  // ---- the moves of borrowers and closers, carried out ----

  /** The objects say what the state says, as far as this pool is concerned. */
  predicate Shows(budget: VmBudget, pool: InstancePool, s: Sys, p: PoolId)
    reads budget, pool
  {
    budget.Now() == s.budget && p in s.pools && pool.Now() == s.pools[p]
  }

  lemma IdleKnown(s: Sys, p: PoolId)
    requires Inv(s) && p in s.pools
    ensures forall v <- s.pools[p].idle :: v in s.vms
  {
    assert IdleOf(s, p);
  }

  /** The state after a move that took process i to next, or away, with the budget and the pool as they are now. */
  predicate Reached(t: Sys, budget: VmBudget, pool: InstancePool, s: Sys, i: Pid, p: PoolId, next: Option<Pc>)
    reads budget, pool
  {
    && t.budget == budget.Now() && t.pools == s.pools[p := pool.Now()]
    && t.procs == if next.Some? then s.procs[i := next.value] else s.procs - {i}
  }

  /** A process that takes an instance out of the channel. */
  method Fetch(budget: VmBudget, pool: InstancePool, m: Move, ghost s: Sys, i: Pid, p: PoolId) returns (next: Option<Pc>)
    requires Known(s, i) && CanMove(s, i, m) && (m == TakeIdle || m == Drain)
    requires p == s.procs[i].pool && Shows(budget, pool, s, p) && forall v <- pool.instances :: v in s.vms
    modifies budget, pool
    ensures Reached(Moved(s, i, m), budget, pool, s, i, p, next)
  {
    var v := pool.Receive(s, i, m);
    next := Some(if v.None? then Closed(p) else if m == TakeIdle then Lent(p, v.value) else DrainDiscard(p, v.value));
  }

  method Spend(budget: VmBudget, pool: InstancePool, v: VmId, ghost s: Sys, i: Pid, p: PoolId) returns (next: Option<Pc>)
    requires Known(s, i) && CanMove(s, i, Try(v)) && p == s.procs[i].pool && Shows(budget, pool, s, p)
    modifies budget, pool
    ensures Reached(Moved(s, i, Try(v)), budget, pool, s, i, p, next)
  {
    hide TryAcquire;
    var ok := budget.Acquire(pool.pkg);
    next := Some(if ok then Building(p, v) else Selecting(p));
  }

  method Refund(budget: VmBudget, pool: InstancePool, pc: Pc, ghost s: Sys, i: Pid, p: PoolId) returns (next: Option<Pc>)
    requires Known(s, i) && CanMove(s, i, Destroy) && !Moved(s, i, Destroy).panicked && !s.panicked
    requires pc == s.procs[i] && p == pc.pool && Shows(budget, pool, s, p)
    modifies budget, pool
    ensures Reached(Moved(s, i, Destroy), budget, pool, s, i, p, next)
  {
    hide Release;
    var _ := budget.GiveBack(pool.pkg);
    next := Some(if pc.DrainDiscard? then Draining(p) else Leaving(p));
  }

  method GiveBack(budget: VmBudget, pool: InstancePool, pc: Pc, ghost s: Sys, i: Pid, p: PoolId) returns (next: Option<Pc>)
    requires Known(s, i) && CanMove(s, i, Send) && pc == s.procs[i] && p == pc.pool && Shows(budget, pool, s, p)
    modifies budget, pool
    ensures Reached(Moved(s, i, Send), budget, pool, s, i, p, next)
  {
    var ok := pool.Offer(pc.vm, s, i);
    next := Some(if ok then Leaving(p) else Discarding(p, pc.vm));
  }

  method Quit(budget: VmBudget, pool: InstancePool, ghost s: Sys, i: Pid, p: PoolId) returns (next: Option<Pc>)
    requires Known(s, i) && CanMove(s, i, LeaveGroup) && !Moved(s, i, LeaveGroup).panicked && !s.panicked
    requires p == s.procs[i].pool && Shows(budget, pool, s, p)
    modifies budget, pool
    ensures Reached(Moved(s, i, LeaveGroup), budget, pool, s, i, p, next)
  {
    var _ := pool.Leave(s, i, p);
    next := None;
  }

  /** Moves that change neither the budget nor the pool. */
  method Decide(budget: VmBudget, pool: InstancePool, pc: Pc, m: Move, borrows: nat, ghost s: Sys, i: Pid) returns (next: Option<Pc>)
    requires Known(s, i) && CanMove(s, i, m) && pc == s.procs[i] && Shows(budget, pool, s, pc.pool)
    requires HoldsVm(pc) ==> borrows == s.vms[pc.vm].borrows
    requires !m.TakeIdle? && !m.Drain? && !m.Try? && !m.Destroy? && !m.Send? && !m.LeaveGroup?
    ensures Reached(Moved(s, i, m), budget, pool, s, i, pc.pool, next)
  {
    var p := pc.pool;
    var worn := pool.limit.Some? && borrows >= pool.limit.value;
    next := Some(
      match m
      case GiveUp => Leaving(p)
      case WindowOver => Checking(p)
      case Check => if pool.closed then Leaving(p) else Polling(p)
      case Tick => Polling(p)
      case Build(ok) => if ok then Lent(p, pc.vm) else Unbuilt(p, pc.vm)
      case Return(broken) => if broken || worn then Discarding(p, pc.vm) else Returning(p, pc.vm)
      case Look => if pool.closed then Discarding(p, pc.vm) else Sending(p, pc.vm)
      case _ => Draining(p));
  }

  lemma NoPanic(s: Sys, i: Pid, m: Move)
    requires Inv(s) && Known(s, i) && CanMove(s, i, m)
    ensures !s.panicked && !Moved(s, i, m).panicked
  {
    MoveKeeps(s, i, m);
    hide BudgetInv, GroupInv, PlaceInv, ProcsInv, Moved, CanMove, Known;
  }

  /** One move; pc is where the process stands and borrows how often the instance it has was lent. */
  method Perform(budget: VmBudget, pool: InstancePool, pc: Pc, m: Move, borrows: nat, ghost s: Sys, i: Pid)
    returns (next: Option<Pc>)
    requires Inv(s) && Known(s, i) && CanMove(s, i, m) && pc == s.procs[i] && Shows(budget, pool, s, pc.pool)
    requires HoldsVm(pc) ==> borrows == s.vms[pc.vm].borrows
    modifies budget, pool
    ensures Reached(Moved(s, i, m), budget, pool, s, i, pc.pool, next)
  {
    var p := pc.pool;
    NoPanic(s, i, m);
    IdleKnown(s, p);
    hide Inv, Moved, CanMove, Reached;
    match m
    case TakeIdle => next := Fetch(budget, pool, m, s, i, p);
    case Drain => next := Fetch(budget, pool, m, s, i, p);
    case Try(v) => next := Spend(budget, pool, v, s, i, p);
    case Destroy => next := Refund(budget, pool, pc, s, i, p);
    case Send => next := GiveBack(budget, pool, pc, s, i, p);
    case LeaveGroup => next := Quit(budget, pool, s, i, p);
    case _ => next := Decide(budget, pool, pc, m, borrows, s, i);
  }

  // ---- whole runs, carried out ----

  /** Every process works on pool p. */
  predicate AllAt(procs: map<Pid, Pc>, p: PoolId) {
    forall i <- procs :: procs[i].pool == p
  }

  /** How often each instance was lent. */
  ghost predicate Counts(uses: map<VmId, nat>, vms: map<VmId, Vm>) {
    forall v <- vms :: v in uses && uses[v] == vms[v].borrows
  }

  /** A new name starts at nothing, and every time an instance is handed to a borrower counts. */
  function Counted(uses: map<VmId, nat>, m: Move, next: Option<Pc>): map<VmId, nat> {
    if m.Try? then uses[m.vm := 0]
    else if next.Some? && next.value.Lent? then
      var v := next.value.vm;
      uses[v := 1 + if v in uses then uses[v] else 0]
    else uses
  }

  predicate Went(s: Sys, t: Sys, i: Pid, next: Option<Pc>) {
    t.procs == if next.Some? then s.procs[i := next.value] else s.procs - {i}
  }

  lemma LendsIf(s: Sys, i: Pid, m: Move, v: VmId, next: Option<Pc>)
    requires Enabled(s, i, Go(m)) && Went(s, Apply(s, i, Go(m)), i, next)
    ensures Lendings.Lends(s, i, Go(m), v) <==> next.Some? && next.value.Lent? && next.value.vm == v
  {
    hide TryAcquire, Release;
  }

  lemma TryIsNew(s: Sys, i: Pid, v: VmId, next: Option<Pc>)
    requires Enabled(s, i, Go(Try(v))) && Went(s, Apply(s, i, Go(Try(v))), i, next)
    ensures v !in s.vms && !(next.Some? && next.value.Lent?)
  {
    hide TryAcquire, Release;
    assert i in Apply(s, i, Go(Try(v))).procs && !Apply(s, i, Go(Try(v))).procs[i].Lent?;
    assert next.Some? ==> Apply(s, i, Go(Try(v))).procs[i] == next.value;
  }

  lemma CountedAt(s: Sys, i: Pid, m: Move, uses: map<VmId, nat>, next: Option<Pc>, v: VmId)
    requires Inv(s) && Enabled(s, i, Go(m)) && Counts(uses, s.vms) && v in Apply(s, i, Go(m)).vms
    requires Went(s, Apply(s, i, Go(m)), i, next)
    ensures v in Counted(uses, m, next) && Counted(uses, m, next)[v] == Apply(s, i, Go(m)).vms[v].borrows
  {
    hide Inv, Enabled, Apply, Lendings.Lends, Went;
    LendsIf(s, i, m, v, next);
    Lendings.CountsLending(s, i, Go(m), v);
    if m.Try? {
      TryIsNew(s, i, m.vm, next);
    }
    if v !in s.vms && m != Try(v) {
      Lendings.NewNames(s, i, Go(m), v);
    }
  }

  lemma CountedKeeps(s: Sys, i: Pid, m: Move, uses: map<VmId, nat>, next: Option<Pc>)
    requires Inv(s) && Enabled(s, i, Go(m)) && Counts(uses, s.vms) && Went(s, Apply(s, i, Go(m)), i, next)
    ensures Counts(Counted(uses, m, next), Apply(s, i, Go(m)).vms)
  {
    hide Inv, Enabled, Apply, Went, Counted;
    forall v <- Apply(s, i, Go(m)).vms
      ensures v in Counted(uses, m, next) && Counted(uses, m, next)[v] == Apply(s, i, Go(m)).vms[v].borrows
    {
      CountedAt(s, i, m, uses, next, v);
    }
  }

  /** Where the processes of one pool stand, and how often each instance was lent. */
  datatype Rest = Rest(procs: map<Pid, Pc>, uses: map<VmId, nat>)

  ghost predicate Follows(budget: VmBudget, pool: InstancePool, rest: Rest, s: Sys, p: PoolId)
    reads budget, pool
  {
    Shows(budget, pool, s, p) && rest.procs == s.procs && AllAt(s.procs, p) && Counts(rest.uses, s.vms)
  }

  lemma KnownMeans(s: Sys, i: Pid, m: Move)
    requires Enabled(s, i, Go(m))
    ensures Known(s, i) && CanMove(s, i, m) && Apply(s, i, Go(m)) == Moved(s, i, m)
    ensures i in s.procs && (HoldsVm(s.procs[i]) ==> s.procs[i].vm in s.vms)
  {
  }

  lemma StillAt(s: Sys, i: Pid, ev: Event, p: PoolId)
    requires Enabled(s, i, ev) && AllAt(s.procs, p) && (ev.Borrow? || ev.Close? ==> ev.pool == p)
    ensures AllAt(Apply(s, i, ev).procs, p)
  {
    hide TryAcquire, Release;
  }

  /** One move of a process, carried out. */
  method Advance(budget: VmBudget, pool: InstancePool, rest: Rest, i: Pid, m: Move, ghost s: Sys, p: PoolId)
    returns (after: Rest)
    requires Inv(s) && Enabled(s, i, Go(m)) && Follows(budget, pool, rest, s, p)
    modifies budget, pool
    ensures Follows(budget, pool, after, Apply(s, i, Go(m)), p)
  {
    KnownMeans(s, i, m);
    StillAt(s, i, Go(m), p);
    var pc := rest.procs[i];
    assert pc.pool == p;
    var borrows := if HoldsVm(pc) && pc.vm in rest.uses then rest.uses[pc.vm] else 0;
    assert HoldsVm(pc) ==> borrows == s.vms[pc.vm].borrows;
    hide Inv, Enabled, Apply, CanMove, Moved, HoldsVm, Known, Counts, AllAt, Counted;
    var next := Perform(budget, pool, pc, m, borrows, s, i);
    CountedKeeps(s, i, m, rest.uses, next);
    after := Rest(if next.Some? then rest.procs[i := next.value] else rest.procs - {i}, Counted(rest.uses, m, next));
  }

  method Step(budget: VmBudget, pool: InstancePool, rest: Rest, i: Pid, ev: Event, ghost s: Sys, p: PoolId)
    returns (after: Rest)
    requires Inv(s) && Enabled(s, i, ev) && Follows(budget, pool, rest, s, p)
    requires ev.Go? || ev == Borrow(p) || ev == Close(p)
    modifies budget, pool
    ensures Follows(budget, pool, after, Apply(s, i, ev), p)
  {
    hide Inv, Moved, CanMove, Known;
    match ev
    case Borrow(_) =>
      StillAt(s, i, ev, p);
      var ok := pool.Join(s, i, p);
      after := if ok then rest.(procs := rest.procs[i := Window(p)]) else rest;
    case Close(_) =>
      StillAt(s, i, ev, p);
      pool.MarkClosed(s, i, p);
      after := rest.(procs := rest.procs[i := Waiting(p)]);
    case Go(m) =>
      after := Advance(budget, pool, rest, i, m, s, p);
  }

  /** Any interleaving of borrowers and closers of one pool, carried out on one budget and one pool. */
  method Replay(pkg: Pkg, limit: Option<nat>, capacity: nat, p: PoolId, first: Pid, trace: seq<(Pid, Event)>)
    returns (budget: VmBudget, pool: InstancePool, rest: Rest)
    requires forall k | 0 <= k < |trace| :: trace[k].1.Go? || trace[k].1 == Borrow(p) || trace[k].1 == Close(p)
    requires Possible(Apply(Initial, first, Create(p, pkg, limit, capacity)), trace)
    ensures Follows(budget, pool, rest, Final(Apply(Initial, first, Create(p, pkg, limit, capacity)), trace), p)
  {
    ghost var start := Apply(Initial, first, Create(p, pkg, limit, capacity));
    InitialHolds();
    StepKeeps(Initial, first, Create(p, pkg, limit, capacity));
    budget := new VmBudget();
    pool := new InstancePool(pkg, limit, capacity);
    rest := Rest(map[], map[]);
    ghost var now := start;
    var k := 0;
    while k < |trace|
      invariant k <= |trace| && fresh(budget) && fresh(pool)
      invariant Inv(now) && Possible(now, trace[k..]) && Final(now, trace[k..]) == Final(start, trace)
      invariant Follows(budget, pool, rest, now, p)
    {
      hide Inv, Enabled, Apply, Follows;
      var (i, ev) := trace[k];
      assert trace[k..][0] == trace[k] && trace[k..][1..] == trace[k + 1..];
      StepKeeps(now, i, ev);
      rest := Step(budget, pool, rest, i, ev, now, p);
      now := Apply(now, i, ev);
      k := k + 1;
    }
  }
}
