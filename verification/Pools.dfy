/**
 Instance pools under the shared budget. Borrowers, returners and closers of any number of
 pools take their steps in any order; one step is one mutex section, channel operation,
 wait-group operation or build.
 */
module Pools {
  import opened Budgets

  type PoolId = nat
  type Pid = nat
  type VmId = nat

  /** The limit is the number of times a handler instance may be lent; plain pools have none. */
  datatype Pool = Pool(
    pkg: Pkg, limit: Option<nat>, capacity: nat, closed: bool, inFlight: int, idle: seq<VmId>)

  /** An instance, from the acquisition of its budget to the release; at is who has it, or None when idle. */
  datatype Vm = Vm(pool: PoolId, pkg: Pkg, at: Option<Pid>, borrows: nat)

  datatype Pc =
    | Window(pool: PoolId)                   // waiting briefly for an idle instance
    | Checking(pool: PoolId)                 // about to look at the closed flag again
    | Polling(pool: PoolId)                  // about to try the budget
    | Selecting(pool: PoolId)                // budget exhausted, waiting
    | Building(pool: PoolId, vm: VmId)       // budget taken, factory running
    | Unbuilt(pool: PoolId, vm: VmId)        // factory failed, budget not yet given back
    | Lent(pool: PoolId, vm: VmId)           // in use by the borrower
    | Returning(pool: PoolId, vm: VmId)      // about to look at the closed flag
    | Sending(pool: PoolId, vm: VmId)        // about to offer the instance to the channel
    | Discarding(pool: PoolId, vm: VmId)     // destroying the instance
    | Leaving(pool: PoolId)                  // about to leave the wait group
    | Waiting(pool: PoolId)                  // closer: flag set, waiting for the group
    | Draining(pool: PoolId)                 // closer: emptying the channel
    | DrainDiscard(pool: PoolId, vm: VmId)   // closer: destroying an instance
    | Closed(pool: PoolId)                   // closer: Close has returned

  datatype Sys = Sys(
    budget: Budget, pools: map<PoolId, Pool>, vms: map<VmId, Vm>, procs: map<Pid, Pc>, panicked: bool)

  const Initial := Sys(Unused, map[], map[], map[], false)

  predicate HoldsVm(pc: Pc) {
    pc.Building? || pc.Unbuilt? || pc.Lent? || pc.Returning? || pc.Sending? || pc.Discarding? || pc.DrainDiscard?
  }

  /** Between joining the wait group and leaving it. */
  predicate Joined(pc: Pc) {
    !pc.Waiting? && !pc.Draining? && !pc.DrainDiscard? && !pc.Closed?
  }

  // ---- the steps ----

  function Goto(s: Sys, i: Pid, pc: Pc): Sys {
    s.(procs := s.procs[i := pc])
  }

  function Gone(s: Sys, i: Pid): Sys {
    s.(procs := s.procs - {i})
  }

  function SetPool(s: Sys, p: PoolId, pool: Pool): Sys {
    s.(pools := s.pools[p := pool])
  }

  function Enter(s: Sys, i: Pid, p: PoolId): Sys
    requires p in s.pools
  {
    if s.pools[p].closed then s
    else Goto(SetPool(s, p, s.pools[p].(inFlight := s.pools[p].inFlight + 1)), i, Window(p))
  }

  /** Leaving the wait group; its counter panics below zero. */
  function Done(s: Sys, i: Pid, p: PoolId): Sys
    requires p in s.pools
  {
    if s.pools[p].inFlight <= 0 then s.(panicked := true)
    else Gone(SetPool(s, p, s.pools[p].(inFlight := s.pools[p].inFlight - 1)), i)
  }

  function Take(s: Sys, i: Pid, p: PoolId, borrows: nat, pc: Pc): Sys
    requires p in s.pools && s.pools[p].idle != [] && s.pools[p].idle[0] in s.vms
  {
    var v := s.pools[p].idle[0];
    var t := SetPool(s, p, s.pools[p].(idle := s.pools[p].idle[1..]));
    Goto(t.(vms := t.vms[v := t.vms[v].(at := Some(i), borrows := t.vms[v].borrows + borrows)]), i, pc)
  }

  /** A full channel turns the instance away. */
  function Put(s: Sys, i: Pid, p: PoolId, v: VmId): Sys
    requires p in s.pools && v in s.vms
  {
    if |s.pools[p].idle| >= s.pools[p].capacity then Goto(s, i, Discarding(p, v))
    else
      var t := SetPool(s, p, s.pools[p].(idle := s.pools[p].idle + [v]));
      Goto(t.(vms := t.vms[v := t.vms[v].(at := None)]), i, Leaving(p))
  }

  function Acquire(s: Sys, i: Pid, p: PoolId, v: VmId): Sys
    requires p in s.pools
  {
    match TryAcquire(s.budget, s.pools[p].pkg)
    case None => Goto(s, i, Selecting(p))
    case Some(b) =>
      Goto(s.(budget := b, vms := s.vms[v := Vm(p, s.pools[p].pkg, Some(i), 0)]), i, Building(p, v))
  }

  function Free(s: Sys, i: Pid, p: PoolId, v: VmId, pc: Pc): Sys
    requires p in s.pools
  {
    match Release(s.budget, s.pools[p].pkg)
    case None => s.(panicked := true)
    case Some(b) => Goto(s.(budget := b, vms := s.vms - {v}), i, pc)
  }

  function Built(s: Sys, i: Pid, p: PoolId, v: VmId): Sys
    requires v in s.vms
  {
    Goto(s.(vms := s.vms[v := s.vms[v].(borrows := s.vms[v].borrows + 1)]), i, Lent(p, v))
  }

  /** Whether a returned instance has been lent as often as it may be. */
  predicate Exhausted(pool: Pool, vm: Vm) {
    pool.limit.Some? && vm.borrows >= pool.limit.value
  }

  /** What a borrower or closer does next. */
  datatype Move =
    | TakeIdle
    | GiveUp             // cancelled, or out of time
    | WindowOver
    | Check
    | Try(vm: VmId)      // with a name for the instance that may come of it
    | Tick
    | Build(ok: bool)
    | Return(broken: bool)
    | Look
    | Send
    | Destroy            // the instance is closed and its budget given back
    | LeaveGroup
    | GroupEmpty
    | Drain

  datatype Event =
    | Create(pool: PoolId, pkg: Pkg, limit: Option<nat>, capacity: nat)
    | Borrow(pool: PoolId)
    | Close(pool: PoolId)
    | Go(move: Move)

  predicate CanTake(s: Sys, p: PoolId)
    requires p in s.pools
  {
    s.pools[p].idle != [] && s.pools[p].idle[0] in s.vms
  }

  predicate Known(s: Sys, i: Pid) {
    && i in s.procs && s.procs[i].pool in s.pools
    && (HoldsVm(s.procs[i]) ==> s.procs[i].vm in s.vms)
  }

  predicate CanMove(s: Sys, i: Pid, m: Move)
    requires Known(s, i)
  {
    var pc := s.procs[i];
    match m
    case TakeIdle => (pc.Window? || pc.Selecting?) && CanTake(s, pc.pool)
    case GiveUp => pc.Window? || pc.Selecting?
    case WindowOver => pc.Window?
    case Check => pc.Checking?
    case Try(v) => pc.Polling? && v !in s.vms
    case Tick => pc.Selecting?
    case Build(_) => pc.Building?
    case Return(_) => pc.Lent?
    case Look => pc.Returning?
    case Send => pc.Sending?
    case Destroy => pc.Discarding? || pc.Unbuilt? || pc.DrainDiscard?
    case LeaveGroup => pc.Leaving?
    case GroupEmpty => pc.Waiting? && s.pools[pc.pool].inFlight == 0
    case Drain => pc.Draining? && (s.pools[pc.pool].idle == [] || CanTake(s, pc.pool))
  }

  function Moved(s: Sys, i: Pid, m: Move): Sys
    requires Known(s, i) && CanMove(s, i, m)
  {
    var pc := s.procs[i];
    var p, pool := pc.pool, s.pools[pc.pool];
    match m
    case TakeIdle => Take(s, i, p, 1, Lent(p, pool.idle[0]))
    case GiveUp => Goto(s, i, Leaving(p))
    case WindowOver => Goto(s, i, Checking(p))
    case Check => Goto(s, i, if pool.closed then Leaving(p) else Polling(p))
    case Try(v) => Acquire(s, i, p, v)
    case Tick => Goto(s, i, Polling(p))
    case Build(ok) => if ok then Built(s, i, p, pc.vm) else Goto(s, i, Unbuilt(p, pc.vm))
    case Return(broken) =>
      Goto(s, i, if broken || Exhausted(pool, s.vms[pc.vm]) then Discarding(p, pc.vm) else Returning(p, pc.vm))
    case Look => Goto(s, i, if pool.closed then Discarding(p, pc.vm) else Sending(p, pc.vm))
    case Send => Put(s, i, p, pc.vm)
    case Destroy => Free(s, i, p, pc.vm, if pc.DrainDiscard? then Draining(p) else Leaving(p))
    case LeaveGroup => Done(s, i, p)
    case GroupEmpty => Goto(s, i, Draining(p))
    case Drain =>
      if pool.idle == [] then Goto(s, i, Closed(p)) else Take(s, i, p, 0, DrainDiscard(p, pool.idle[0]))
  }

  predicate Enabled(s: Sys, i: Pid, ev: Event) {
    match ev
    case Create(p, _, _, _) => p !in s.pools
    case Borrow(p) => i !in s.procs && p in s.pools
    case Close(p) => i !in s.procs && p in s.pools
    case Go(m) => Known(s, i) && CanMove(s, i, m)
  }

  function Apply(s: Sys, i: Pid, ev: Event): Sys
    requires Enabled(s, i, ev)
  {
    match ev
    case Create(p, pkg, limit, capacity) => SetPool(s, p, Pool(pkg, limit, capacity, false, 0, []))
    case Borrow(p) => Enter(s, i, p)
    case Close(p) => Goto(SetPool(s, p, s.pools[p].(closed := true)), i, Waiting(p))
    case Go(m) => Moved(s, i, m)
  }

  // ---- what every step keeps ----

  function VmsOf(vms: map<VmId, Vm>, pkg: Pkg): set<VmId> {
    set v | v in vms && vms[v].pkg == pkg
  }

  /** The counters count the instances. */
  ghost predicate BudgetInv(s: Sys) {
    && Sound(s.budget)
    && s.budget.global == |s.vms|
    && (forall pkg: Pkg :: Used(s.budget, pkg) == |VmsOf(s.vms, pkg)|)
  }

  function InGroup(procs: map<Pid, Pc>, p: PoolId): set<Pid> {
    set i | i in procs && procs[i].pool == p && Joined(procs[i])
  }

  /** The wait groups count the borrowers. */
  ghost predicate GroupInv(s: Sys) {
    && (forall i <- s.procs :: s.procs[i].pool in s.pools)
    && (forall p <- s.pools :: s.pools[p].inFlight == |InGroup(s.procs, p)|)
  }

  /** Nobody has the instance; then it is in its pool's channel. */
  predicate Owned(s: Sys, v: VmId)
    requires v in s.vms
  {
    var vm := s.vms[v];
    && vm.pool in s.pools && vm.pkg == s.pools[vm.pool].pkg
    && match vm.at
       case None => v in s.pools[vm.pool].idle
       case Some(i) => i in s.procs && HoldsVm(s.procs[i]) && s.procs[i].vm == v && s.procs[i].pool == vm.pool
  }

  ghost predicate NoDuplicates(q: seq<VmId>) {
    forall j, k | 0 <= j < k < |q| :: q[j] != q[k]
  }

  ghost predicate IdleOf(s: Sys, p: PoolId)
    requires p in s.pools
  {
    var pool := s.pools[p];
    && |pool.idle| <= pool.capacity && NoDuplicates(pool.idle)
    && (forall v <- pool.idle :: v in s.vms && s.vms[v].at == None && s.vms[v].pool == p
                                 && (pool.limit.Some? ==> s.vms[v].borrows < pool.limit.value))
  }

  /** A process that has an instance is the one recorded with it. */
  predicate Has(s: Sys, i: Pid)
    requires i in s.procs
  {
    HoldsVm(s.procs[i]) ==> s.procs[i].vm in s.vms && s.vms[s.procs[i].vm].at == Some(i)
  }

  ghost predicate AllOwned(s: Sys) {
    forall v <- s.vms :: Owned(s, v)
  }

  ghost predicate AllIdle(s: Sys) {
    forall p <- s.pools :: IdleOf(s, p)
  }

  ghost predicate AllHave(s: Sys) {
    forall i <- s.procs :: Has(s, i)
  }

  /** Every instance is in one place: idle in its pool, or with one process that knows it. */
  ghost predicate PlaceInv(s: Sys) {
    AllOwned(s) && AllIdle(s) && AllHave(s)
  }

  /** How often the instance a process has may have been lent by now. */
  predicate BorrowOk(s: Sys, pc: Pc) {
    HoldsVm(pc) && pc.vm in s.vms && pc.pool in s.pools ==>
      var borrows, limit := s.vms[pc.vm].borrows, s.pools[pc.pool].limit;
      if pc.Building? || pc.Unbuilt? then borrows == 0
      else
        && (limit.Some? ==> borrows <= if limit.value == 0 then 1 else limit.value)
        && (limit.Some? && (pc.Returning? || pc.Sending?) ==> borrows < limit.value)
  }

  /** A closer past the wait has a closed pool that nobody is using or will use again. */
  predicate CloseOk(s: Sys, pc: Pc) {
    !Joined(pc) && pc.pool in s.pools ==>
      var pool := s.pools[pc.pool];
      && pool.closed
      && (!pc.Waiting? ==> pool.inFlight == 0)
      && (pc.Closed? ==> pool.idle == [])
  }

  ghost predicate ProcsInv(s: Sys) {
    forall i <- s.procs :: BorrowOk(s, s.procs[i]) && CloseOk(s, s.procs[i])
  }

  ghost predicate Inv(s: Sys) {
    && !s.panicked && BudgetInv(s) && GroupInv(s) && PlaceInv(s) && ProcsInv(s)
  }

  lemma InitialHolds()
    ensures Inv(Initial)
  {
    assert forall pkg: Pkg :: VmsOf(map[], pkg) == {};
  }

  // ---- set sizes ----

  lemma GroupSplit(procs: map<Pid, Pc>, i: Pid, p: PoolId)
    ensures |InGroup(procs, p)| == |InGroup(procs - {i}, p)| + (if i in procs && procs[i].pool == p && Joined(procs[i]) then 1 else 0)
  {
    hide Joined;
    var rest := InGroup(procs - {i}, p);
    if i in procs && procs[i].pool == p && Joined(procs[i]) {
      assert InGroup(procs, p) == rest + {i};
    } else {
      assert InGroup(procs, p) == rest;
    }
  }

  /** One process changes position: every group gains it, loses it, or stays. */
  lemma GroupChange(procs: map<Pid, Pc>, i: Pid, pc: Pc, p: PoolId)
    ensures var was := i in procs && procs[i].pool == p && Joined(procs[i]);
            var now := pc.pool == p && Joined(pc);
            |InGroup(procs[i := pc], p)| == |InGroup(procs, p)| - (if was then 1 else 0) + (if now then 1 else 0)
  {
    hide InGroup, Joined;
    GroupSplit(procs, i, p);
    GroupSplit(procs[i := pc], i, p);
    assert procs[i := pc] - {i} == procs - {i};
  }

  lemma VmsGrow(vms: map<VmId, Vm>, v: VmId, vm: Vm, pkg: Pkg)
    requires v !in vms
    ensures |VmsOf(vms[v := vm], pkg)| == |VmsOf(vms, pkg)| + (if vm.pkg == pkg then 1 else 0)
    ensures |vms[v := vm]| == |vms| + 1
  {
    assert VmsOf(vms[v := vm], pkg) == VmsOf(vms, pkg) + if vm.pkg == pkg then {v} else {};
  }

  lemma VmsShrink(vms: map<VmId, Vm>, v: VmId, pkg: Pkg)
    requires v in vms
    ensures |VmsOf(vms - {v}, pkg)| == |VmsOf(vms, pkg)| - (if vms[v].pkg == pkg then 1 else 0)
    ensures |vms - {v}| == |vms| - 1
  {
    assert VmsOf(vms, pkg) == VmsOf(vms - {v}, pkg) + if vms[v].pkg == pkg then {v} else {};
    assert vms.Keys == (vms - {v}).Keys + {v};
  }

  /** Changing who has an instance, or how often it was lent, changes no count. */
  lemma VmsSame(vms: map<VmId, Vm>, v: VmId, vm: Vm, pkg: Pkg)
    requires v in vms && vm.pkg == vms[v].pkg
    ensures |VmsOf(vms[v := vm], pkg)| == |VmsOf(vms, pkg)| && |vms[v := vm]| == |vms|
  {
    assert VmsOf(vms[v := vm], pkg) == VmsOf(vms, pkg);
    assert vms[v := vm].Keys == vms.Keys;
  }

  // ---- the parts of the invariant, step by step ----

  lemma SameBudget(s: Sys, s': Sys, v: VmId, vm: Vm)
    requires BudgetInv(s) && s'.budget == s.budget
    requires v in s.vms && vm.pkg == s.vms[v].pkg && s'.vms == s.vms[v := vm]
    ensures BudgetInv(s')
  {
    hide VmsOf, Sound;
    forall pkg: Pkg
      ensures Used(s'.budget, pkg) == |VmsOf(s'.vms, pkg)| && |s'.vms| == |s.vms|
    {
      VmsSame(s.vms, v, vm, pkg);
    }
  }

  /** A process moves on within its group, or outside any. */
  lemma GroupKept(s: Sys, s': Sys, i: Pid, pc: Pc)
    requires GroupInv(s) && i in s.procs && s'.procs == s.procs[i := pc]
    requires pc.pool == s.procs[i].pool && Joined(pc) == Joined(s.procs[i])
    requires s'.pools.Keys == s.pools.Keys && forall p <- s.pools :: s'.pools[p].inFlight == s.pools[p].inFlight
    ensures GroupInv(s')
  {
    hide InGroup, Joined;
    forall p <- s'.pools
      ensures s'.pools[p].inFlight == |InGroup(s'.procs, p)|
    {
      GroupChange(s.procs, i, pc, p);
    }
  }

  lemma GotoKeeps(s: Sys, i: Pid, pc: Pc)
    requires Inv(s) && i in s.procs
    requires pc.pool == s.procs[i].pool && Joined(pc) == Joined(s.procs[i])
    requires HoldsVm(pc) == HoldsVm(s.procs[i]) && (HoldsVm(pc) ==> pc.vm == s.procs[i].vm)
    requires BorrowOk(s, pc) && CloseOk(s, pc)
    ensures Inv(Goto(s, i, pc))
  {
    hide BudgetInv, PlaceInv, BorrowOk, CloseOk, HoldsVm, GroupInv, ProcsInv;
    var s' := Goto(s, i, pc);
    GotoPlaces(s, i, pc);
    NoCountChange(s, s');
    GroupKept(s, s', i, pc);
    GotoProcs(s, i, pc);
  }

  lemma GotoProcs(s: Sys, i: Pid, pc: Pc)
    requires ProcsInv(s) && i in s.procs && BorrowOk(s, pc) && CloseOk(s, pc)
    ensures ProcsInv(Goto(s, i, pc))
  {
    var s' := Goto(s, i, pc);
    assert BorrowOk(s', pc) && CloseOk(s', pc);
    forall j <- s'.procs | j != i
      ensures BorrowOk(s', s'.procs[j]) && CloseOk(s', s'.procs[j])
    {
      assert BorrowOk(s, s.procs[j]) && CloseOk(s, s.procs[j]);
    }
    hide BorrowOk, CloseOk;
  }

  lemma NoCountChange(s: Sys, s': Sys)
    requires BudgetInv(s) && s'.budget == s.budget && s'.vms == s.vms
    ensures BudgetInv(s')
  {
  }

  lemma GotoPlaces(s: Sys, i: Pid, pc: Pc)
    requires PlaceInv(s) && i in s.procs && pc.pool == s.procs[i].pool
    requires HoldsVm(pc) == HoldsVm(s.procs[i]) && (HoldsVm(pc) ==> pc.vm == s.procs[i].vm)
    ensures PlaceInv(Goto(s, i, pc))
  {
    var s' := Goto(s, i, pc);
    forall v <- s'.vms
      ensures Owned(s', v)
    {
      assert Owned(s, v);
    }
    forall p <- s'.pools
      ensures IdleOf(s', p)
    {
      assert IdleOf(s, p);
    }
    forall j <- s'.procs
      ensures Has(s', j)
    {
      assert Has(s, if j == i then i else j);
    }
  }

  lemma CreateKeeps(s: Sys, p: PoolId, pkg: Pkg, limit: Option<nat>, capacity: nat)
    requires Inv(s) && p !in s.pools
    ensures Inv(SetPool(s, p, Pool(pkg, limit, capacity, false, 0, [])))
  {
    var s' := SetPool(s, p, Pool(pkg, limit, capacity, false, 0, []));
    NoCountChange(s, s');
    hide BudgetInv, NoDuplicates;
    assert InGroup(s.procs, p) == {};
    assert GroupInv(s');
    hide InGroup;
    PoolEdited(s, s', p);
    hide ProcsInv, PlaceInv;
  }

  /** A pool appears, is marked closed, or changes its count while it is not yet being drained. */
  predicate Edited(s: Sys, s': Sys, p: PoolId) {
    && s'.vms == s.vms && s'.procs == s.procs && p in s'.pools && s'.pools == s.pools[p := s'.pools[p]]
    && if p in s.pools then
         var a, b := s.pools[p], s'.pools[p];
         && b.pkg == a.pkg && b.limit == a.limit && b.capacity == a.capacity && b.idle == a.idle
         && (a.closed ==> b.closed && (a.inFlight == 0 ==> b.inFlight == 0))
       else s'.pools[p].idle == []
  }

  lemma PoolEdited(s: Sys, s': Sys, p: PoolId)
    requires PlaceInv(s) && ProcsInv(s) && GroupInv(s) && Edited(s, s', p)
    ensures PlaceInv(s') && ProcsInv(s')
  {
    hide PlaceInv, ProcsInv, GroupInv, Edited;
    EditedPlaces(s, s', p);
    EditedProcs(s, s', p);
  }

  lemma EditedPlaces(s: Sys, s': Sys, p: PoolId)
    requires PlaceInv(s) && Edited(s, s', p)
    ensures PlaceInv(s')
  {
    hide NoDuplicates;
    forall v <- s'.vms
      ensures Owned(s', v)
    {
      assert Owned(s, v);
    }
    forall q <- s'.pools
      ensures IdleOf(s', q)
    {
      assert q in s.pools ==> IdleOf(s, q);
      if q !in s.pools {
        NoneTwice();
      }
    }
    forall i <- s'.procs
      ensures Has(s', i)
    {
      assert Has(s, i);
    }
    hide Owned, IdleOf, Has;
  }

  lemma EditedProcs(s: Sys, s': Sys, p: PoolId)
    requires ProcsInv(s) && GroupInv(s) && Edited(s, s', p)
    ensures ProcsInv(s')
  {
    hide InGroup;
    forall i <- s'.procs
      ensures BorrowOk(s', s'.procs[i]) && CloseOk(s', s'.procs[i])
    {
      assert BorrowOk(s, s.procs[i]) && CloseOk(s, s.procs[i]);
    }
    hide BorrowOk, CloseOk;
  }

  lemma NoneTwice()
    ensures NoDuplicates([])
  {
  }

  /** A process without an instance appears. */
  lemma Appears(s: Sys, i: Pid, pc: Pc)
    requires PlaceInv(s) && ProcsInv(s) && i !in s.procs && !HoldsVm(pc) && CloseOk(s, pc)
    ensures PlaceInv(Goto(s, i, pc)) && ProcsInv(Goto(s, i, pc))
  {
    hide PlaceInv, ProcsInv;
    AppearsPlaces(s, i, pc);
    AppearsProcs(s, i, pc);
  }

  lemma AppearsPlaces(s: Sys, i: Pid, pc: Pc)
    requires PlaceInv(s) && i !in s.procs && !HoldsVm(pc)
    ensures PlaceInv(Goto(s, i, pc))
  {
    hide NoDuplicates;
    var s' := Goto(s, i, pc);
    forall v <- s'.vms
      ensures Owned(s', v)
    {
      assert Owned(s, v);
    }
    forall q <- s'.pools
      ensures IdleOf(s', q)
    {
      assert IdleOf(s, q);
    }
    forall j <- s'.procs
      ensures Has(s', j)
    {
      assert j != i ==> Has(s, j);
    }
    hide Owned, IdleOf, Has;
  }

  lemma AppearsProcs(s: Sys, i: Pid, pc: Pc)
    requires ProcsInv(s) && i !in s.procs && !HoldsVm(pc) && CloseOk(s, pc)
    ensures ProcsInv(Goto(s, i, pc))
  {
    var s' := Goto(s, i, pc);
    forall j <- s'.procs
      ensures BorrowOk(s', s'.procs[j]) && CloseOk(s', s'.procs[j])
    {
      assert j != i ==> BorrowOk(s, s.procs[j]) && CloseOk(s, s.procs[j]);
    }
    hide BorrowOk, CloseOk;
  }

  /** A process without an instance goes away. */
  lemma Disappears(s: Sys, i: Pid)
    requires PlaceInv(s) && ProcsInv(s) && i in s.procs && !HoldsVm(s.procs[i])
    ensures PlaceInv(Gone(s, i)) && ProcsInv(Gone(s, i))
  {
    var s' := Gone(s, i);
    hide NoDuplicates;
    forall v <- s'.vms
      ensures Owned(s', v)
    {
      assert Owned(s, v);
    }
    forall q <- s'.pools
      ensures IdleOf(s', q)
    {
      assert IdleOf(s, q);
    }
    forall j <- s'.procs
      ensures Has(s', j) && BorrowOk(s', s'.procs[j]) && CloseOk(s', s'.procs[j])
    {
      assert Has(s, j) && BorrowOk(s, s.procs[j]) && CloseOk(s, s.procs[j]);
    }
    hide Owned, IdleOf, Has, BorrowOk, CloseOk;
  }

  lemma CloseGroups(s: Sys, i: Pid, p: PoolId)
    requires GroupInv(s) && i !in s.procs && p in s.pools
    ensures GroupInv(Goto(SetPool(s, p, s.pools[p].(closed := true)), i, Waiting(p)))
  {
    var s' := Goto(SetPool(s, p, s.pools[p].(closed := true)), i, Waiting(p));
    forall q <- s'.pools
      ensures s'.pools[q].inFlight == |InGroup(s'.procs, q)|
    {
      GroupChange(s.procs, i, Waiting(p), q);
    }
    hide InGroup;
  }

  lemma CloseKeeps(s: Sys, i: Pid, p: PoolId)
    requires Inv(s) && i !in s.procs && p in s.pools
    ensures Inv(Goto(SetPool(s, p, s.pools[p].(closed := true)), i, Waiting(p)))
  {
    hide BudgetInv, PlaceInv, ProcsInv, GroupInv;
    var t := SetPool(s, p, s.pools[p].(closed := true));
    CloseGroups(s, i, p);
    NoCountChange(s, Goto(t, i, Waiting(p)));
    ClosedMarked(s, p);
    Appears(t, i, Waiting(p));
  }

  lemma EnterGroups(s: Sys, i: Pid, p: PoolId)
    requires GroupInv(s) && i !in s.procs && p in s.pools
    ensures GroupInv(Enter(s, i, p))
  {
    var s' := Enter(s, i, p);
    if !s.pools[p].closed {
      forall q <- s'.pools
        ensures s'.pools[q].inFlight == |InGroup(s'.procs, q)|
      {
        GroupChange(s.procs, i, Window(p), q);
      }
    }
    hide InGroup;
  }

  lemma ClosedMarked(s: Sys, p: PoolId)
    requires PlaceInv(s) && ProcsInv(s) && GroupInv(s) && p in s.pools
    ensures var t := SetPool(s, p, s.pools[p].(closed := true));
            PlaceInv(t) && ProcsInv(t)
  {
    hide PlaceInv, ProcsInv, GroupInv;
    PoolEdited(s, SetPool(s, p, s.pools[p].(closed := true)), p);
  }

  lemma CountEdited(s: Sys, p: PoolId, n: int)
    requires PlaceInv(s) && ProcsInv(s) && GroupInv(s) && p in s.pools
    requires s.pools[p].closed && s.pools[p].inFlight == 0 ==> n == 0
    ensures var t := SetPool(s, p, s.pools[p].(inFlight := n));
            PlaceInv(t) && ProcsInv(t)
  {
    var t := SetPool(s, p, s.pools[p].(inFlight := n));
    hide PlaceInv, ProcsInv, GroupInv;
    PoolEdited(s, t, p);
  }

  lemma EnterKeeps(s: Sys, i: Pid, p: PoolId)
    requires Inv(s) && i !in s.procs && p in s.pools
    ensures Inv(Enter(s, i, p))
  {
    hide BudgetInv, PlaceInv, ProcsInv, GroupInv;
    if !s.pools[p].closed {
      var t := SetPool(s, p, s.pools[p].(inFlight := s.pools[p].inFlight + 1));
      EnterGroups(s, i, p);
      NoCountChange(s, Enter(s, i, p));
      CountEdited(s, p, s.pools[p].inFlight + 1);
      Appears(t, i, Window(p));
    }
  }

  /** Whoever leaves a group is counted in it, so its counter never drops below zero. */
  lemma DoneGroups(s: Sys, i: Pid)
    requires GroupInv(s) && i in s.procs && s.procs[i].Leaving?
    ensures var p := s.procs[i].pool;
            p in s.pools && s.pools[p].inFlight > 0 && GroupInv(Done(s, i, p))
  {
    var p := s.procs[i].pool;
    assert i in InGroup(s.procs, p);
    var s' := Done(s, i, p);
    forall q <- s.pools
      ensures |InGroup(s.procs - {i}, q)| == s.pools[q].inFlight - (if q == p then 1 else 0)
    {
      GroupSplit(s.procs, i, q);
    }
    hide InGroup;
  }

  lemma DoneKeeps(s: Sys, i: Pid)
    requires Inv(s) && i in s.procs && s.procs[i].Leaving?
    ensures s.procs[i].pool in s.pools && Inv(Done(s, i, s.procs[i].pool))
  {
    hide BudgetInv, PlaceInv, ProcsInv, GroupInv;
    var p := s.procs[i].pool;
    DoneGroups(s, i);
    var t := SetPool(s, p, s.pools[p].(inFlight := s.pools[p].inFlight - 1));
    NoCountChange(s, Done(s, i, p));
    CountEdited(s, p, s.pools[p].inFlight - 1);
    Disappears(t, i);
  }

  // ---- steps that move an instance ----

  lemma BuiltKeeps(s: Sys, i: Pid)
    requires Inv(s) && i in s.procs && s.procs[i].Building?
    ensures s.procs[i].vm in s.vms && Inv(Built(s, i, s.procs[i].pool, s.procs[i].vm))
  {
    hide BudgetInv, PlaceInv, ProcsInv, GroupInv;
    BuiltPlaces(s, i);
    BuiltProcs(s, i);
    var p, v := s.procs[i].pool, s.procs[i].vm;
    var s' := Built(s, i, p, v);
    GroupKept(s, s', i, Lent(p, v));
    SameBudget(s, s', v, s'.vms[v]);
  }

  lemma BuiltPlaces(s: Sys, i: Pid)
    requires PlaceInv(s) && i in s.procs && s.procs[i].Building?
    ensures s.procs[i].vm in s.vms && PlaceInv(Built(s, i, s.procs[i].pool, s.procs[i].vm))
  {
    hide NoDuplicates;
    var v := s.procs[i].vm;
    assert Has(s, i);
    var s' := Built(s, i, s.procs[i].pool, v);
    forall w <- s'.vms
      ensures Owned(s', w)
    {
      assert Owned(s, w);
    }
    forall q <- s'.pools
      ensures IdleOf(s', q)
    {
      assert IdleOf(s, q);
    }
    forall j <- s'.procs
      ensures Has(s', j)
    {
      assert Has(s, j);
    }
    hide Owned, IdleOf, Has;
  }

  lemma BuiltProcs(s: Sys, i: Pid)
    requires PlaceInv(s) && ProcsInv(s) && i in s.procs && s.procs[i].Building?
    ensures s.procs[i].vm in s.vms && ProcsInv(Built(s, i, s.procs[i].pool, s.procs[i].vm))
  {
    var v := s.procs[i].vm;
    assert Has(s, i);
    var s' := Built(s, i, s.procs[i].pool, v);
    forall j <- s'.procs
      ensures BorrowOk(s', s'.procs[j]) && CloseOk(s', s'.procs[j])
    {
      assert Has(s, j) && BorrowOk(s, s.procs[j]) && CloseOk(s, s.procs[j]);
    }
    hide BorrowOk, CloseOk, Has;
  }

  // taking an idle instance

  lemma NoDuplicatesTail(q: seq<VmId>)
    requires NoDuplicates(q) && q != []
    ensures NoDuplicates(q[1..]) && q[0] !in q[1..]
  {
  }

  lemma NoDuplicatesAppend(q: seq<VmId>, v: VmId)
    requires NoDuplicates(q) && v !in q
    ensures NoDuplicates(q + [v])
  {
  }

  predicate Takes(s: Sys, i: Pid, borrows: nat, pc: Pc) {
    && i in s.procs && s.procs[i].pool in s.pools && CanTake(s, s.procs[i].pool)
    && !HoldsVm(s.procs[i]) && HoldsVm(pc) && !pc.Building? && !pc.Unbuilt? && !pc.Returning? && !pc.Sending?
    && pc.pool == s.procs[i].pool && pc.vm == s.pools[pc.pool].idle[0]
    && Joined(pc) == Joined(s.procs[i]) && (Joined(pc) || s.procs[i].Draining?) && borrows <= 1
  }

  lemma TakeOwned(s: Sys, i: Pid, borrows: nat, pc: Pc, w: VmId)
    requires PlaceInv(s) && Takes(s, i, borrows, pc) && w in s.vms
    ensures Owned(Take(s, i, pc.pool, borrows, pc), w)
  {
    var p, v := pc.pool, pc.vm;
    var s' := Take(s, i, p, borrows, pc);
    assert s.pools[p].idle == [v] + s'.pools[p].idle;
    assert IdleOf(s, p) && v in s.pools[p].idle;
    assert Owned(s, w);
    hide AllOwned, AllIdle, AllHave, NoDuplicates, IdleOf;
  }

  lemma TakeIdles(s: Sys, i: Pid, borrows: nat, pc: Pc, q: PoolId)
    requires PlaceInv(s) && Takes(s, i, borrows, pc) && q in s.pools
    ensures IdleOf(Take(s, i, pc.pool, borrows, pc), q)
  {
    var p, v := pc.pool, pc.vm;
    var s' := Take(s, i, p, borrows, pc);
    assert IdleOf(s, p) && IdleOf(s, q);
    assert s.pools[p].idle == [v] + s'.pools[p].idle;
    NoDuplicatesTail(s.pools[p].idle);
    hide AllOwned, AllIdle, AllHave, NoDuplicates;
  }

  lemma TakeHas(s: Sys, i: Pid, borrows: nat, pc: Pc, j: Pid)
    requires PlaceInv(s) && Takes(s, i, borrows, pc) && (j in s.procs || j == i)
    ensures Has(Take(s, i, pc.pool, borrows, pc), j)
  {
    assert IdleOf(s, pc.pool) && pc.vm in s.pools[pc.pool].idle;
    assert Has(s, j);
    hide AllOwned, AllIdle, AllHave, NoDuplicates, IdleOf;
  }

  lemma TakePlaces(s: Sys, i: Pid, borrows: nat, pc: Pc)
    requires PlaceInv(s) && Takes(s, i, borrows, pc)
    ensures PlaceInv(Take(s, i, pc.pool, borrows, pc))
  {
    var s' := Take(s, i, pc.pool, borrows, pc);
    forall w <- s'.vms
      ensures Owned(s', w)
    {
      TakeOwned(s, i, borrows, pc, w);
    }
    forall q <- s'.pools
      ensures IdleOf(s', q)
    {
      TakeIdles(s, i, borrows, pc, q);
    }
    forall j <- s'.procs
      ensures Has(s', j)
    {
      TakeHas(s, i, borrows, pc, j);
    }
    hide Owned, IdleOf, Has;
  }

  lemma TakeProc(s: Sys, i: Pid, borrows: nat, pc: Pc, j: Pid)
    requires PlaceInv(s) && ProcsInv(s) && Takes(s, i, borrows, pc) && j in s.procs && j != i
    ensures var s' := Take(s, i, pc.pool, borrows, pc);
            BorrowOk(s', s.procs[j]) && CloseOk(s', s.procs[j])
  {
    assert IdleOf(s, pc.pool) && pc.vm in s.pools[pc.pool].idle;
    assert Has(s, j) && BorrowOk(s, s.procs[j]) && CloseOk(s, s.procs[j]);
    hide AllOwned, AllIdle, AllHave, NoDuplicates, IdleOf, ProcsInv;
  }

  lemma TakerOk(s: Sys, i: Pid, borrows: nat, pc: Pc)
    requires PlaceInv(s) && ProcsInv(s) && Takes(s, i, borrows, pc)
    ensures var s' := Take(s, i, pc.pool, borrows, pc);
            BorrowOk(s', pc) && CloseOk(s', pc)
  {
    assert IdleOf(s, pc.pool) && pc.vm in s.pools[pc.pool].idle;
    assert CloseOk(s, s.procs[i]);
    hide AllOwned, AllIdle, AllHave, NoDuplicates, ProcsInv;
  }

  lemma TakeProcs(s: Sys, i: Pid, borrows: nat, pc: Pc)
    requires PlaceInv(s) && ProcsInv(s) && Takes(s, i, borrows, pc)
    ensures ProcsInv(Take(s, i, pc.pool, borrows, pc))
  {
    var s' := Take(s, i, pc.pool, borrows, pc);
    TakerOk(s, i, borrows, pc);
    forall j <- s'.procs
      ensures BorrowOk(s', s'.procs[j]) && CloseOk(s', s'.procs[j])
    {
      if j != i {
        TakeProc(s, i, borrows, pc, j);
      }
    }
    hide BorrowOk, CloseOk, PlaceInv;
  }

  lemma TakeKeeps(s: Sys, i: Pid, borrows: nat, pc: Pc)
    requires Inv(s) && Takes(s, i, borrows, pc)
    ensures Inv(Take(s, i, pc.pool, borrows, pc))
  {
    hide BudgetInv, PlaceInv, ProcsInv, GroupInv;
    var s' := Take(s, i, pc.pool, borrows, pc);
    TakePlaces(s, i, borrows, pc);
    TakeProcs(s, i, borrows, pc);
    GroupKept(s, s', i, pc);
    SameBudget(s, s', pc.vm, s'.vms[pc.vm]);
  }

  // offering an instance to the channel

  predicate Offers(s: Sys, i: Pid) {
    && i in s.procs && s.procs[i].Sending? && s.procs[i].pool in s.pools && s.procs[i].vm in s.vms
    && |s.pools[s.procs[i].pool].idle| < s.pools[s.procs[i].pool].capacity
  }

  lemma PutOwned(s: Sys, i: Pid, w: VmId)
    requires PlaceInv(s) && Offers(s, i) && w in s.vms
    ensures Owned(Put(s, i, s.procs[i].pool, s.procs[i].vm), w)
  {
    assert Has(s, i) && Owned(s, s.procs[i].vm);
    assert Owned(s, w);
    hide AllOwned, AllIdle, AllHave, NoDuplicates, IdleOf;
  }

  lemma PutIdles(s: Sys, i: Pid, q: PoolId)
    requires PlaceInv(s) && ProcsInv(s) && Offers(s, i) && q in s.pools
    ensures IdleOf(Put(s, i, s.procs[i].pool, s.procs[i].vm), q)
  {
    var p, v := s.procs[i].pool, s.procs[i].vm;
    assert Has(s, i) && Owned(s, v) && BorrowOk(s, s.procs[i]);
    assert IdleOf(s, p) && IdleOf(s, q);
    assert v !in s.pools[p].idle;
    NoDuplicatesAppend(s.pools[p].idle, v);
    hide AllOwned, AllIdle, AllHave, NoDuplicates, ProcsInv;
  }

  lemma PutHas(s: Sys, i: Pid, j: Pid)
    requires PlaceInv(s) && Offers(s, i) && j in s.procs
    ensures var s' := Put(s, i, s.procs[i].pool, s.procs[i].vm);
            j in s'.procs && Has(s', j)
  {
    assert Has(s, i) && Has(s, j);
    hide AllOwned, AllIdle, AllHave, NoDuplicates, IdleOf;
  }

  /** The offering process is in the group, and it alone has the instance. */
  lemma OfferFacts(s: Sys, i: Pid)
    requires PlaceInv(s) && GroupInv(s) && Offers(s, i)
    ensures s.pools[s.procs[i].pool].inFlight > 0 && s.vms[s.procs[i].vm].at == Some(i)
  {
    assert Has(s, i);
    assert i in InGroup(s.procs, s.procs[i].pool);
  }

  lemma PutProc(s: Sys, i: Pid, j: Pid)
    requires AllHave(s) && ProcsInv(s) && Offers(s, i) && j in s.procs
    requires s.pools[s.procs[i].pool].inFlight > 0 && s.vms[s.procs[i].vm].at == Some(i)
    ensures var s' := Put(s, i, s.procs[i].pool, s.procs[i].vm);
            j in s'.procs && BorrowOk(s', s'.procs[j]) && CloseOk(s', s'.procs[j])
  {
    assert Has(s, j) && BorrowOk(s, s.procs[j]) && CloseOk(s, s.procs[j]);
    hide AllHave, ProcsInv;
  }

  lemma PutPlaces(s: Sys, i: Pid)
    requires PlaceInv(s) && ProcsInv(s) && Offers(s, i)
    ensures PlaceInv(Put(s, i, s.procs[i].pool, s.procs[i].vm))
  {
    var s' := Put(s, i, s.procs[i].pool, s.procs[i].vm);
    forall w <- s'.vms
      ensures Owned(s', w)
    {
      PutOwned(s, i, w);
    }
    forall q <- s'.pools
      ensures IdleOf(s', q)
    {
      PutIdles(s, i, q);
    }
    forall j <- s'.procs
      ensures Has(s', j)
    {
      PutHas(s, i, j);
    }
    hide Owned, IdleOf, Has;
  }

  lemma PutProcs(s: Sys, i: Pid)
    requires PlaceInv(s) && ProcsInv(s) && GroupInv(s) && Offers(s, i)
    ensures ProcsInv(Put(s, i, s.procs[i].pool, s.procs[i].vm))
  {
    var s' := Put(s, i, s.procs[i].pool, s.procs[i].vm);
    OfferFacts(s, i);
    forall j <- s'.procs
      ensures BorrowOk(s', s'.procs[j]) && CloseOk(s', s'.procs[j])
    {
      PutProc(s, i, j);
    }
    hide BorrowOk, CloseOk, PlaceInv, GroupInv;
  }

  lemma PutKeeps(s: Sys, i: Pid)
    requires Inv(s) && Offers(s, i)
    ensures Inv(Put(s, i, s.procs[i].pool, s.procs[i].vm))
  {
    hide BudgetInv, PlaceInv, ProcsInv, GroupInv;
    var p, v := s.procs[i].pool, s.procs[i].vm;
    var s' := Put(s, i, p, v);
    PutPlaces(s, i);
    PutProcs(s, i);
    GroupKept(s, s', i, Leaving(p));
    SameBudget(s, s', v, s'.vms[v]);
  }

  // taking and giving back budget

  predicate Tries(s: Sys, i: Pid, v: VmId) {
    && i in s.procs && s.procs[i].Polling? && s.procs[i].pool in s.pools && v !in s.vms
    && TryAcquire(s.budget, s.pools[s.procs[i].pool].pkg).Some?
  }

  lemma AcquirePlaces(s: Sys, i: Pid, v: VmId)
    requires PlaceInv(s) && Tries(s, i, v)
    ensures PlaceInv(Acquire(s, i, s.procs[i].pool, v))
  {
    hide NoDuplicates, TryAcquire, AllOwned, AllIdle, AllHave, Acquire;
    AcquireOwned(s, i, v);
    AcquireIdle(s, i, v);
    AcquireHave(s, i, v);
  }

  lemma AcquireOwned(s: Sys, i: Pid, v: VmId)
    requires AllOwned(s) && Tries(s, i, v)
    ensures AllOwned(Acquire(s, i, s.procs[i].pool, v))
  {
    hide TryAcquire;
    var s' := Acquire(s, i, s.procs[i].pool, v);
    forall w <- s'.vms
      ensures Owned(s', w)
    {
      assert w in s.vms ==> Owned(s, w);
    }
    hide Owned;
  }

  lemma AcquireIdle(s: Sys, i: Pid, v: VmId)
    requires AllIdle(s) && Tries(s, i, v)
    ensures AllIdle(Acquire(s, i, s.procs[i].pool, v))
  {
    hide NoDuplicates, TryAcquire;
    var s' := Acquire(s, i, s.procs[i].pool, v);
    forall q <- s'.pools
      ensures IdleOf(s', q)
    {
      assert IdleOf(s, q);
    }
    hide IdleOf;
  }

  lemma AcquireHave(s: Sys, i: Pid, v: VmId)
    requires AllHave(s) && Tries(s, i, v)
    ensures AllHave(Acquire(s, i, s.procs[i].pool, v))
  {
    hide TryAcquire;
    var s' := Acquire(s, i, s.procs[i].pool, v);
    forall j <- s'.procs
      ensures Has(s', j)
    {
      assert Has(s, j);
    }
    hide Has;
  }

  lemma AcquireProcs(s: Sys, i: Pid, v: VmId)
    requires PlaceInv(s) && ProcsInv(s) && Tries(s, i, v)
    ensures ProcsInv(Acquire(s, i, s.procs[i].pool, v))
  {
    hide TryAcquire;
    var s' := Acquire(s, i, s.procs[i].pool, v);
    forall j <- s'.procs
      ensures BorrowOk(s', s'.procs[j]) && CloseOk(s', s'.procs[j])
    {
      assert Has(s, j) && BorrowOk(s, s.procs[j]) && CloseOk(s, s.procs[j]);
    }
    hide BorrowOk, CloseOk, PlaceInv;
  }

  lemma AcquireCounts(s: Sys, i: Pid, v: VmId)
    requires BudgetInv(s) && Tries(s, i, v)
    ensures BudgetInv(Acquire(s, i, s.procs[i].pool, v))
  {
    var p := s.procs[i].pool;
    var s' := Acquire(s, i, p, v);
    AcquireSound(s.budget, s.pools[p].pkg);
    hide VmsOf, Sound;
    forall pkg: Pkg
      ensures Used(s'.budget, pkg) == |VmsOf(s'.vms, pkg)| && s'.budget.global == |s'.vms|
    {
      VmsGrow(s.vms, v, s'.vms[v], pkg);
    }
  }

  lemma AcquireKeeps(s: Sys, i: Pid, v: VmId)
    requires Inv(s) && Tries(s, i, v)
    ensures Inv(Acquire(s, i, s.procs[i].pool, v))
  {
    hide BudgetInv, PlaceInv, ProcsInv, GroupInv;
    var s' := Acquire(s, i, s.procs[i].pool, v);
    AcquirePlaces(s, i, v);
    AcquireProcs(s, i, v);
    AcquireCounts(s, i, v);
    GroupKept(s, s', i, Building(s.procs[i].pool, v));
  }

  predicate Frees(s: Sys, i: Pid, pc: Pc) {
    && i in s.procs && s.procs[i].pool in s.pools && HoldsVm(s.procs[i]) && s.procs[i].vm in s.vms
    && pc.pool == s.procs[i].pool && !HoldsVm(pc) && Joined(pc) == Joined(s.procs[i])
    && (Joined(pc) || pc.Draining?)
  }

  /** Whoever gives budget back has an instance that was counted, so the release cannot panic. */
  lemma FreeFacts(s: Sys, i: Pid, pc: Pc)
    requires BudgetInv(s) && PlaceInv(s) && Frees(s, i, pc)
    ensures s.vms[s.procs[i].vm].pkg == s.pools[pc.pool].pkg && s.vms[s.procs[i].vm].at == Some(i)
    ensures Release(s.budget, s.pools[pc.pool].pkg).Some?
  {
    var v, pkg := s.procs[i].vm, s.pools[pc.pool].pkg;
    assert Has(s, i) && Owned(s, v);
    hide PlaceInv, Release;
    assert v in VmsOf(s.vms, pkg);
    ReleaseSound(s.budget, pkg);
    hide VmsOf, Sound;
    assert Used(s.budget, pkg) == |VmsOf(s.vms, pkg)|;
  }

  lemma FreeCounts(s: Sys, i: Pid, pc: Pc)
    requires BudgetInv(s) && Frees(s, i, pc) && s.vms[s.procs[i].vm].pkg == s.pools[pc.pool].pkg
    requires Release(s.budget, s.pools[pc.pool].pkg).Some?
    ensures BudgetInv(Free(s, i, pc.pool, s.procs[i].vm, pc))
  {
    var v := s.procs[i].vm;
    ReleaseSound(s.budget, s.pools[pc.pool].pkg);
    var s' := Free(s, i, pc.pool, v, pc);
    hide VmsOf, Sound;
    forall k: Pkg
      ensures Used(s'.budget, k) == |VmsOf(s'.vms, k)| && s'.budget.global == |s'.vms|
    {
      VmsShrink(s.vms, v, k);
    }
  }

  lemma FreePlaces(s: Sys, i: Pid, pc: Pc)
    requires PlaceInv(s) && Frees(s, i, pc) && Release(s.budget, s.pools[pc.pool].pkg).Some?
    requires s.vms[s.procs[i].vm].at == Some(i)
    ensures PlaceInv(Free(s, i, pc.pool, s.procs[i].vm, pc))
  {
    hide NoDuplicates, Release, AllOwned, AllIdle, AllHave;
    FreeOwned(s, i, pc);
    FreeIdle(s, i, pc);
    FreeHave(s, i, pc);
  }

  lemma FreeOwned(s: Sys, i: Pid, pc: Pc)
    requires AllOwned(s) && Frees(s, i, pc) && Release(s.budget, s.pools[pc.pool].pkg).Some?
    ensures AllOwned(Free(s, i, pc.pool, s.procs[i].vm, pc))
  {
    hide Release;
    var s' := Free(s, i, pc.pool, s.procs[i].vm, pc);
    forall w <- s'.vms
      ensures Owned(s', w)
    {
      assert Owned(s, w);
    }
    hide Owned;
  }

  lemma FreeIdle(s: Sys, i: Pid, pc: Pc)
    requires AllIdle(s) && Frees(s, i, pc) && Release(s.budget, s.pools[pc.pool].pkg).Some?
    requires s.vms[s.procs[i].vm].at == Some(i)
    ensures AllIdle(Free(s, i, pc.pool, s.procs[i].vm, pc))
  {
    hide NoDuplicates, Release;
    var s' := Free(s, i, pc.pool, s.procs[i].vm, pc);
    forall q <- s'.pools
      ensures IdleOf(s', q)
    {
      assert IdleOf(s, q);
    }
    hide IdleOf;
  }

  lemma FreeHave(s: Sys, i: Pid, pc: Pc)
    requires AllHave(s) && Frees(s, i, pc) && Release(s.budget, s.pools[pc.pool].pkg).Some?
    ensures AllHave(Free(s, i, pc.pool, s.procs[i].vm, pc))
  {
    hide Release;
    var s' := Free(s, i, pc.pool, s.procs[i].vm, pc);
    assert Has(s, i);
    forall j <- s'.procs
      ensures Has(s', j)
    {
      assert Has(s, j);
    }
    hide Has;
  }

  lemma FreeProc(s: Sys, i: Pid, pc: Pc, j: Pid)
    requires j in s.procs && Has(s, j) && BorrowOk(s, s.procs[j]) && CloseOk(s, s.procs[j])
    requires Frees(s, i, pc) && Release(s.budget, s.pools[pc.pool].pkg).Some?
    ensures var s' := Free(s, i, pc.pool, s.procs[i].vm, pc);
            j in s'.procs && BorrowOk(s', s'.procs[j]) && CloseOk(s', s'.procs[j])
  {
    hide Release;
  }

  lemma FreeProcs(s: Sys, i: Pid, pc: Pc)
    requires PlaceInv(s) && ProcsInv(s) && Frees(s, i, pc) && Release(s.budget, s.pools[pc.pool].pkg).Some?
    ensures ProcsInv(Free(s, i, pc.pool, s.procs[i].vm, pc))
  {
    hide Release, BorrowOk, CloseOk, AllOwned, AllIdle, Has;
    var s' := Free(s, i, pc.pool, s.procs[i].vm, pc);
    forall j <- s'.procs
      ensures BorrowOk(s', s'.procs[j]) && CloseOk(s', s'.procs[j])
    {
      FreeProc(s, i, pc, j);
    }
  }

  lemma FreeKeeps(s: Sys, i: Pid, pc: Pc)
    requires Inv(s) && Frees(s, i, pc)
    ensures Inv(Free(s, i, pc.pool, s.procs[i].vm, pc))
  {
    hide BudgetInv, PlaceInv, ProcsInv, GroupInv, Release;
    FreeFacts(s, i, pc);
    FreeCounts(s, i, pc);
    FreePlaces(s, i, pc);
    FreeProcs(s, i, pc);
    GroupKept(s, Free(s, i, pc.pool, s.procs[i].vm, pc), i, pc);
  }

  // ---- every step ----

  lemma Knows(s: Sys, i: Pid)
    requires Inv(s) && i in s.procs
    ensures Known(s, i) && BorrowOk(s, s.procs[i]) && CloseOk(s, s.procs[i])
    ensures s.pools[s.procs[i].pool].idle != [] ==> CanTake(s, s.procs[i].pool)
  {
    hide BudgetInv, NoDuplicates, BorrowOk, CloseOk, Owned, InGroup;
    assert Has(s, i);
    var p := s.procs[i].pool;
    assert IdleOf(s, p);
    assert s.pools[p].idle != [] ==> s.pools[p].idle[0] in s.pools[p].idle;
  }

  /** Moves that only change the position of the process. */
  function Next(s: Sys, i: Pid, m: Move): (pc: Pc)
    requires Known(s, i) && CanMove(s, i, m)
  {
    var pc := s.procs[i];
    var p, pool := pc.pool, s.pools[pc.pool];
    match m
    case GiveUp => Leaving(p)
    case WindowOver => Checking(p)
    case Check => if pool.closed then Leaving(p) else Polling(p)
    case Try(_) => Selecting(p)
    case Tick => Polling(p)
    case Build(_) => Unbuilt(p, pc.vm)
    case Return(broken) =>
      if broken || Exhausted(pool, s.vms[pc.vm]) then Discarding(p, pc.vm) else Returning(p, pc.vm)
    case Look => if pool.closed then Discarding(p, pc.vm) else Sending(p, pc.vm)
    case Send => Discarding(p, pc.vm)
    case GroupEmpty => Draining(p)
    case Drain => Closed(p)
    case _ => pc
  }

  /** Moves that take, offer, acquire, build, or free an instance, or leave the group, have their own lemmas. */
  predicate IsPlain(s: Sys, i: Pid, m: Move)
    requires Known(s, i) && CanMove(s, i, m)
  {
    var pool := s.pools[s.procs[i].pool];
    match m
    case TakeIdle => false
    case Try(_) => TryAcquire(s.budget, pool.pkg).None?
    case Build(ok) => !ok
    case Send => |pool.idle| >= pool.capacity
    case Destroy => false
    case LeaveGroup => false
    case Drain => pool.idle == []
    case _ => true
  }

  lemma PlainNext(s: Sys, i: Pid, m: Move)
    requires Known(s, i) && CanMove(s, i, m) && IsPlain(s, i, m)
    requires BorrowOk(s, s.procs[i]) && CloseOk(s, s.procs[i])
    ensures var pc := Next(s, i, m);
            && Moved(s, i, m) == Goto(s, i, pc) && pc.pool == s.procs[i].pool && Joined(pc) == Joined(s.procs[i])
            && HoldsVm(pc) == HoldsVm(s.procs[i]) && (HoldsVm(pc) ==> pc.vm == s.procs[i].vm)
            && BorrowOk(s, pc) && CloseOk(s, pc)
  {
    hide TryAcquire;
  }

  lemma PlainKeeps(s: Sys, i: Pid, m: Move)
    requires Inv(s) && Known(s, i) && CanMove(s, i, m) && IsPlain(s, i, m)
    ensures Inv(Moved(s, i, m))
  {
    hide Inv, Known, CanMove, IsPlain, Moved, Next, BorrowOk, CloseOk;
    InProcs(s, i);
    Knows(s, i);
    PlainNext(s, i, m);
    GotoKeeps(s, i, Next(s, i, m));
  }

  lemma InProcs(s: Sys, i: Pid)
    requires Known(s, i)
    ensures i in s.procs
  {
  }

  lemma MoveKeeps(s: Sys, i: Pid, m: Move)
    requires Inv(s) && Known(s, i) && CanMove(s, i, m)
    ensures Inv(Moved(s, i, m))
  {
    hide Inv, BorrowOk, CloseOk;
    Knows(s, i);
    if IsPlain(s, i, m) {
      PlainKeeps(s, i, m);
    } else {
      var pc := s.procs[i];
      match m
      case TakeIdle => TakeKeeps(s, i, 1, Lent(pc.pool, s.pools[pc.pool].idle[0]));
      case Try(v) => AcquireKeeps(s, i, v);
      case Build(_) => BuiltKeeps(s, i);
      case Send => PutKeeps(s, i);
      case Destroy => FreeKeeps(s, i, if pc.DrainDiscard? then Draining(pc.pool) else Leaving(pc.pool));
      case LeaveGroup => DoneKeeps(s, i);
      case Drain => TakeKeeps(s, i, 0, DrainDiscard(pc.pool, s.pools[pc.pool].idle[0]));
    }
  }

  lemma StepKeeps(s: Sys, i: Pid, ev: Event)
    requires Inv(s) && Enabled(s, i, ev)
    ensures Inv(Apply(s, i, ev))
  {
    hide Inv, Moved, CanMove;
    match ev
    case Create(p, pkg, limit, capacity) => CreateKeeps(s, p, pkg, limit, capacity);
    case Borrow(p) => EnterKeeps(s, i, p);
    case Close(p) => CloseKeeps(s, i, p);
    case Go(m) => MoveKeeps(s, i, m);
  }

  // ---- runs ----

  ghost predicate Possible(s: Sys, trace: seq<(Pid, Event)>)
    decreases |trace|
  {
    trace == [] ||
    (Enabled(s, trace[0].0, trace[0].1) && Possible(Apply(s, trace[0].0, trace[0].1), trace[1..]))
  }

  ghost function Final(s: Sys, trace: seq<(Pid, Event)>): Sys
    requires Possible(s, trace)
    decreases |trace|
  {
    if trace == [] then s else Final(Apply(s, trace[0].0, trace[0].1), trace[1..])
  }

  lemma {:induction false} RunKeeps(s: Sys, trace: seq<(Pid, Event)>)
    requires Inv(s) && Possible(s, trace)
    ensures Inv(Final(s, trace))
    decreases |trace|
  {
    hide Inv, Enabled, Apply;
    if trace != [] {
      StepKeeps(s, trace[0].0, trace[0].1);
      RunKeeps(Apply(s, trace[0].0, trace[0].1), trace[1..]);
    }
  }

  function IdleVms(s: Sys): set<VmId> {
    set v | v in s.vms && s.vms[v].at == None
  }

  function UnfinishedVms(s: Sys): set<VmId> {
    set v | v in s.vms && s.vms[v].at.Some? && s.vms[v].at.value in s.procs
            && var pc := s.procs[s.vms[v].at.value]; pc.Building? || pc.Unbuilt?
  }

  /** Lent to a borrower, on the way back, or being destroyed. */
  function LentVms(s: Sys): set<VmId> {
    set v | v in s.vms && s.vms[v].at.Some? && v !in UnfinishedVms(s)
  }

  /** The counters count what there is, within both caps, in every interleaving. */
  lemma Accounting(trace: seq<(Pid, Event)>, pkg: Pkg)
    requires Possible(Initial, trace)
    ensures var s := Final(Initial, trace);
            && s.budget.global == |IdleVms(s)| + |LentVms(s)| + |UnfinishedVms(s)|
            && s.budget.global == Sum(s.budget.perPkg) <= GLOBAL_CAP
            && Used(s.budget, pkg) == |VmsOf(s.vms, pkg)| <= PER_PACKAGE_CAP
  {
    InitialHolds();
    RunKeeps(Initial, trace);
    var s := Final(Initial, trace);
    hide Final, Possible, GroupInv, PlaceInv, ProcsInv;
    Counted(s);
  }

  lemma Counted(s: Sys)
    requires s.budget.global == |s.vms|
    ensures s.budget.global == |IdleVms(s)| + |LentVms(s)| + |UnfinishedVms(s)|
  {
    var idle, lent, unfinished := IdleVms(s), LentVms(s), UnfinishedVms(s);
    assert s.vms.Keys == idle + lent + unfinished && idle !! lent && (idle + lent) !! unfinished;
    hide IdleVms, LentVms, UnfinishedVms;
    Disjoint(idle, lent);
    Disjoint(idle + lent, unfinished);
    assert |s.vms| == |s.vms.Keys|;
  }

  lemma Disjoint(a: set<VmId>, b: set<VmId>)
    requires a !! b
    ensures |a + b| == |a| + |b|
  {
  }

  /** Neither the budget nor a wait group ever drops below zero. */
  lemma NeverPanics(trace: seq<(Pid, Event)>)
    requires Possible(Initial, trace)
    ensures !Final(Initial, trace).panicked
  {
    InitialHolds();
    RunKeeps(Initial, trace);
  }

  /** A process moves nobody but itself. */
  lemma MovesAlone(s: Sys, who: Pid, m: Move, i: Pid)
    requires Known(s, who) && CanMove(s, who, m) && i in s.procs && i != who
    ensures i in Moved(s, who, m).procs && Moved(s, who, m).procs[i] == s.procs[i]
  {
    hide TryAcquire, Release, CanMove;
  }

  lemma {:induction false} Snoc(s: Sys, trace: seq<(Pid, Event)>, i: Pid, ev: Event)
    requires Possible(s, trace) && Enabled(Final(s, trace), i, ev)
    ensures Possible(s, trace + [(i, ev)]) && Final(s, trace + [(i, ev)]) == Apply(Final(s, trace), i, ev)
    decreases |trace|
  {
    hide Enabled, Apply;
    if trace != [] {
      Snoc(Apply(s, trace[0].0, trace[0].1), trace[1..], i, ev);
      assert (trace + [(i, ev)])[1..] == trace[1..] + [(i, ev)];
    } else {
      assert (trace + [(i, ev)])[1..] == [];
    }
  }
}
