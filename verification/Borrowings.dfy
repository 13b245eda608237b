/** When a borrower is served, when an instance is kept, and how a closer comes to its end. */
module Borrowings {
  import opened Budgets
  import opened Pools

  /** There is room for one more instance of the package. */
  predicate Room(s: Sys, pkg: Pkg) {
    |s.vms| < 128 && |VmsOf(s.vms, pkg)| < 64
  }

  lemma Roomy(s: Sys, pkg: Pkg)
    requires BudgetInv(s)
    ensures TryAcquire(s.budget, pkg).Some? <==> Room(s, pkg)
  {
    hide VmsOf, Sound;
    assert Used(s.budget, pkg) == |VmsOf(s.vms, pkg)|;
  }

  lemma TryStep(s: Sys, i: Pid, v: VmId)
    requires BudgetInv(s) && Enabled(s, i, Go(Try(v)))
    ensures i in s.procs && s.procs[i].pool in s.pools
    ensures var p := s.procs[i].pool;
            var pkg := s.pools[p].pkg;
            var t := Apply(s, i, Go(Try(v)));
            if Room(s, pkg) then
              && t.procs == s.procs[i := Building(p, v)] && t.vms == s.vms[v := Vm(p, pkg, Some(i), 0)]
              && t.pools == s.pools
            else t == Goto(s, i, Selecting(p))
  {
    Roomy(s, s.pools[s.procs[i].pool].pkg);
    hide BudgetInv, Room, TryAcquire;
  }

  /** In every run, a try succeeds exactly when fewer than 128 instances exist and fewer than 64 of the package. */
  lemma GrantedIff(trace: seq<(Pid, Event)>, i: Pid, v: VmId)
    requires Possible(Initial, trace) && Enabled(Final(Initial, trace), i, Go(Try(v)))
    ensures i in Final(Initial, trace).procs && Final(Initial, trace).procs[i].pool in Final(Initial, trace).pools
    ensures var s := Final(Initial, trace);
            var p := s.procs[i].pool;
            var pkg := s.pools[p].pkg;
            var t := Apply(s, i, Go(Try(v)));
            if |s.vms| < 128 && |VmsOf(s.vms, pkg)| < 64 then
              && t.procs == s.procs[i := Building(p, v)] && t.vms == s.vms[v := Vm(p, pkg, Some(i), 0)]
              && t.pools == s.pools
            else t == Goto(s, i, Selecting(p))
  {
    InitialHolds();
    RunKeeps(Initial, trace);
    hide Possible, Final, GroupInv, PlaceInv, ProcsInv, BudgetInv, Enabled, Apply, VmsOf;
    TryStep(Final(Initial, trace), i, v);
  }

  lemma OneMove(s: Sys, i: Pid, m: Move)
    requires Enabled(s, i, Go(m))
    ensures Possible(s, [(i, Go(m))]) && Final(s, [(i, Go(m))]) == Moved(s, i, m)
  {
    assert [(i, Go(m))][1..] == [];
  }

  lemma NoMove(s: Sys)
    ensures Possible(s, []) && Final(s, []) == s
  {
  }

  predicate OnlyBy(moves: seq<(Pid, Event)>, i: Pid) {
    forall k | 0 <= k < |moves| :: moves[k].0 == i
  }

  /** The process has been handed a new instance of its pool, and nothing else has changed but the budget. */
  predicate Serves(s: Sys, t: Sys, i: Pid, p: PoolId, v: VmId) {
    && p in s.pools && t.procs == s.procs[i := Lent(p, v)] && t.pools == s.pools
    && t.vms == s.vms[v := Vm(p, s.pools[p].pkg, Some(i), 1)]
  }

  /** From anywhere on the way of a borrower to the next look at the budget. */
  lemma ToPolling(s: Sys, i: Pid) returns (moves: seq<(Pid, Event)>)
    requires i in s.procs && s.procs[i].pool in s.pools && !s.pools[s.procs[i].pool].closed
    requires s.procs[i].Window? || s.procs[i].Checking? || s.procs[i].Polling? || s.procs[i].Selecting?
    ensures Possible(s, moves) && Final(s, moves) == Goto(s, i, Polling(s.procs[i].pool))
    ensures OnlyBy(moves, i)
  {
    var p := s.procs[i].pool;
    if s.procs[i].Polling? {
      NoMove(s);
      moves := [];
      assert s.procs[i := Polling(p)] == s.procs;
    } else if s.procs[i].Selecting? {
      OneMove(s, i, Tick);
      moves := [(i, Go(Tick))];
    } else if s.procs[i].Checking? {
      OneMove(s, i, Check);
      moves := [(i, Go(Check))];
    } else {
      OneMove(s, i, WindowOver);
      moves := [(i, Go(WindowOver))];
      var t := Goto(s, i, Checking(p));
      assert Moved(t, i, Check) == Goto(t, i, Polling(p)) == Goto(s, i, Polling(p));
      assert Enabled(t, i, Go(Check));
      hide Possible, Final, Enabled;
      Snoc(s, moves, i, Go(Check));
      moves := moves + [(i, Go(Check))];
    }
  }

  /** A borrower of an open pool gets a new instance as long as there is room, whatever position it is in. */
  lemma GetsNew(s: Sys, i: Pid, v: VmId) returns (moves: seq<(Pid, Event)>)
    requires Inv(s) && i in s.procs && v !in s.vms
    requires s.procs[i].Window? || s.procs[i].Checking? || s.procs[i].Polling? || s.procs[i].Selecting?
    requires s.procs[i].pool in s.pools && !s.pools[s.procs[i].pool].closed && Room(s, s.pools[s.procs[i].pool].pkg)
    ensures Possible(s, moves) && OnlyBy(moves, i)
    ensures Serves(s, Final(s, moves), i, s.procs[i].pool, v)
  {
    hide Inv, BudgetInv, Possible, Final, Apply, Enabled, Room;
    var p, pkg := s.procs[i].pool, s.pools[s.procs[i].pool].pkg;
    moves := ToPolling(s, i);
    var t := Goto(s, i, Polling(p));
    Elsewhere(s, i, p, v);
    TryStep(t, i, v);
    var t1 := Apply(t, i, Go(Try(v)));
    BuildStep(t1, i, p, v);
    Snoc(s, moves, i, Go(Try(v)));
    Snoc(s, moves + [(i, Go(Try(v)))], i, Go(Build(true)));
    moves := moves + [(i, Go(Try(v)))] + [(i, Go(Build(true)))];
  }

  lemma Elsewhere(s: Sys, i: Pid, p: PoolId, v: VmId)
    requires Inv(s) && i in s.procs && p in s.pools && v !in s.vms
    ensures BudgetInv(Goto(s, i, Polling(p))) && Enabled(Goto(s, i, Polling(p)), i, Go(Try(v)))
    ensures Room(Goto(s, i, Polling(p)), s.pools[p].pkg) == Room(s, s.pools[p].pkg)
  {
    hide GroupInv, PlaceInv, ProcsInv, Sound, VmsOf;
  }

  lemma BuildStep(s: Sys, i: Pid, p: PoolId, v: VmId)
    requires i in s.procs && s.procs[i] == Building(p, v) && p in s.pools && v in s.vms
    ensures Enabled(s, i, Go(Build(true)))
    ensures var t := Apply(s, i, Go(Build(true)));
            && t.procs == s.procs[i := Lent(p, v)] && t.pools == s.pools
            && t.vms == s.vms[v := s.vms[v].(borrows := s.vms[v].borrows + 1)]
  {
  }

  /** A borrower that waits takes the instance that has been idle longest. */
  lemma GetsIdle(s: Sys, i: Pid)
    requires Inv(s) && i in s.procs && (s.procs[i].Window? || s.procs[i].Selecting?)
    requires s.procs[i].pool in s.pools && s.pools[s.procs[i].pool].idle != []
    ensures Enabled(s, i, Go(TakeIdle))
    ensures var p, t := s.procs[i].pool, Apply(s, i, Go(TakeIdle));
            var pool := s.pools[p];
            && pool.idle[0] in s.vms
            && t.procs == s.procs[i := Lent(p, pool.idle[0])] && t.pools == s.pools[p := pool.(idle := pool.idle[1..])]
            && t.vms == s.vms[pool.idle[0] := Vm(p, pool.pkg, Some(i), s.vms[pool.idle[0]].borrows + 1)]
  {
    hide Inv, Enabled, Apply;
    IdleIsOurs(s, s.procs[i].pool);
    TakeEffect(s, i, s.procs[i].pool);
  }

  lemma TakeEffect(s: Sys, i: Pid, p: PoolId)
    requires i in s.procs && (s.procs[i].Window? || s.procs[i].Selecting?) && s.procs[i].pool == p
    requires p in s.pools && s.pools[p].idle != [] && s.pools[p].idle[0] in s.vms
    ensures Enabled(s, i, Go(TakeIdle))
    ensures var t, v := Apply(s, i, Go(TakeIdle)), s.pools[p].idle[0];
            && t.procs == s.procs[i := Lent(p, v)] && t.pools == s.pools[p := s.pools[p].(idle := s.pools[p].idle[1..])]
            && t.vms == s.vms[v := Vm(s.vms[v].pool, s.vms[v].pkg, Some(i), s.vms[v].borrows + 1)]
  {
  }

  lemma IdleIsOurs(s: Sys, p: PoolId)
    requires Inv(s) && p in s.pools && s.pools[p].idle != []
    ensures s.pools[p].idle[0] in s.vms
    ensures s.vms[s.pools[p].idle[0]].pool == p && s.vms[s.pools[p].idle[0]].pkg == s.pools[p].pkg
  {
    var v := s.pools[p].idle[0];
    assert IdleOf(s, p) && v in s.pools[p].idle;
    assert Owned(s, v);
    hide BudgetInv, GroupInv, ProcsInv, NoDuplicates;
  }

  lemma ReturnSteps(s: Sys, i: Pid, p: PoolId, v: VmId)
    requires i in s.procs && s.procs[i] == Lent(p, v) && p in s.pools && v in s.vms
    requires !s.pools[p].closed && |s.pools[p].idle| < s.pools[p].capacity
    requires s.pools[p].limit.Some? ==> s.vms[v].borrows < s.pools[p].limit.value
    ensures Enabled(s, i, Go(Return(false)))
    ensures var s1 := Apply(s, i, Go(Return(false)));
            && Enabled(s1, i, Go(Look))
            && var s2 := Apply(s1, i, Go(Look));
               && Enabled(s2, i, Go(Send))
               && var t := Apply(s2, i, Go(Send));
                  && t.procs == s.procs[i := Leaving(p)]
                  && t.pools == s.pools[p := s.pools[p].(idle := s.pools[p].idle + [v])]
                  && t.vms == s.vms[v := s.vms[v].(at := None)] && t.budget == s.budget
  {
    assert Apply(s, i, Go(Return(false))) == Goto(s, i, Returning(p, v));
    assert Apply(Goto(s, i, Returning(p, v)), i, Go(Look)) == Goto(s, i, Sending(p, v));
  }

  /** An instance that is neither broken nor worn out is kept by an open pool whose channel has room. */
  lemma ComesBack(s: Sys, i: Pid, p: PoolId, v: VmId) returns (moves: seq<(Pid, Event)>)
    requires i in s.procs && s.procs[i] == Lent(p, v) && p in s.pools && v in s.vms
    requires !s.pools[p].closed && |s.pools[p].idle| < s.pools[p].capacity
    requires s.pools[p].limit.Some? ==> s.vms[v].borrows < s.pools[p].limit.value
    ensures moves == [(i, Go(Return(false)))] + [(i, Go(Look))] + [(i, Go(Send))] && Possible(s, moves)
    ensures var t := Final(s, moves);
            && t.procs == s.procs[i := Leaving(p)]
            && t.pools == s.pools[p := s.pools[p].(idle := s.pools[p].idle + [v])]
            && t.vms == s.vms[v := s.vms[v].(at := None)] && t.budget == s.budget
  {
    ReturnSteps(s, i, p, v);
    OneMove(s, i, Return(false));
    hide Possible, Final, Apply, Enabled;
    moves := [(i, Go(Return(false)))];
    Snoc(s, moves, i, Go(Look));
    moves := moves + [(i, Go(Look))];
    Snoc(s, moves, i, Go(Send));
    moves := moves + [(i, Go(Send))];
  }

  // ---- borrowers that end with nothing ----

  /** The borrower is gone, and so is its place in the group; instances and budget are as they were. */
  predicate LeftAlone(s: Sys, t: Sys, i: Pid, p: PoolId) {
    && p in s.pools && t.procs == s.procs - {i} && t.vms == s.vms && t.budget == s.budget && !t.panicked
    && t.pools == s.pools[p := s.pools[p].(inFlight := s.pools[p].inFlight - 1)]
  }

  lemma LeaveStep(s: Sys, t: Sys, i: Pid, p: PoolId)
    requires i in s.procs && p in s.pools && s.pools[p].inFlight > 0 && !s.panicked && t == Goto(s, i, Leaving(p))
    ensures Enabled(t, i, Go(LeaveGroup)) && LeftAlone(s, Apply(t, i, Go(LeaveGroup)), i, p)
  {
    assert t.procs - {i} == s.procs - {i};
  }

  lemma InTheGroup(s: Sys, i: Pid)
    requires Inv(s) && i in s.procs && Joined(s.procs[i])
    ensures s.procs[i].pool in s.pools && s.pools[s.procs[i].pool].inFlight > 0 && !s.panicked
  {
    hide BudgetInv, PlaceInv, ProcsInv;
    assert i in InGroup(s.procs, s.procs[i].pool);
  }

  /** A borrower that gives up while it waits leaves everything as it was. */
  lemma GivesUp(s: Sys, i: Pid) returns (moves: seq<(Pid, Event)>)
    requires Inv(s) && i in s.procs && (s.procs[i].Window? || s.procs[i].Selecting?)
    ensures moves == [(i, Go(GiveUp))] + [(i, Go(LeaveGroup))] && Possible(s, moves)
    ensures LeftAlone(s, Final(s, moves), i, s.procs[i].pool)
  {
    InTheGroup(s, i);
    var p := s.procs[i].pool;
    assert Enabled(s, i, Go(GiveUp)) && Apply(s, i, Go(GiveUp)) == Goto(s, i, Leaving(p));
    hide Inv, Possible, Final, Apply, Enabled, LeftAlone;
    LeaveStep(s, Goto(s, i, Leaving(p)), i, p);
    OneStep(s, i, Go(GiveUp));
    moves := [(i, Go(GiveUp))];
    Snoc(s, moves, i, Go(LeaveGroup));
    moves := moves + [(i, Go(LeaveGroup))];
  }

  /** A borrower that finds the pool closed after its short wait is refused, room or no room. */
  lemma RefusedWhenClosed(s: Sys, i: Pid) returns (moves: seq<(Pid, Event)>)
    requires Inv(s) && i in s.procs && s.procs[i].Checking?
    requires s.procs[i].pool in s.pools && s.pools[s.procs[i].pool].closed
    ensures moves == [(i, Go(Check))] + [(i, Go(LeaveGroup))] && Possible(s, moves)
    ensures LeftAlone(s, Final(s, moves), i, s.procs[i].pool)
  {
    InTheGroup(s, i);
    var p := s.procs[i].pool;
    assert Enabled(s, i, Go(Check)) && Apply(s, i, Go(Check)) == Goto(s, i, Leaving(p));
    hide Inv, Possible, Final, Apply, Enabled, LeftAlone;
    LeaveStep(s, Goto(s, i, Leaving(p)), i, p);
    OneStep(s, i, Go(Check));
    moves := [(i, Go(Check))];
    Snoc(s, moves, i, Go(LeaveGroup));
    moves := moves + [(i, Go(LeaveGroup))];
  }

  /** A build that fails hands nothing out: the instance is gone and its budget given back. */
  lemma BuildFails(s: Sys, i: Pid, p: PoolId, v: VmId)
    requires Inv(s) && i in s.procs && s.procs[i] == Building(p, v)
    ensures p in s.pools && Enabled(s, i, Go(Build(false)))
    ensures var t := Apply(s, i, Go(Build(false)));
            && Enabled(t, i, Go(Destroy))
            && var u := Apply(t, i, Go(Destroy));
               && u.procs == s.procs[i := Leaving(p)] && u.vms == s.vms - {v} && u.pools == s.pools && !u.panicked
               && Release(s.budget, s.pools[p].pkg) == Some(u.budget)
  {
    hide Inv, Release, Apply, Enabled;
    RefundOf(s, i, p, v);
    UnbuiltStep(s, i, p, v);
    RefundStep(s, i, p, v);
  }

  lemma UnbuiltStep(s: Sys, i: Pid, p: PoolId, v: VmId)
    requires i in s.procs && s.procs[i] == Building(p, v) && p in s.pools && v in s.vms
    ensures Enabled(s, i, Go(Build(false))) && Apply(s, i, Go(Build(false))) == Goto(s, i, Unbuilt(p, v))
  {
  }

  lemma RefundStep(s: Sys, i: Pid, p: PoolId, v: VmId)
    requires i in s.procs && p in s.pools && v in s.vms && !s.panicked && Release(s.budget, s.pools[p].pkg).Some?
    ensures var t := Goto(s, i, Unbuilt(p, v));
            && Enabled(t, i, Go(Destroy))
            && var u := Apply(t, i, Go(Destroy));
               && u.procs == s.procs[i := Leaving(p)] && u.vms == s.vms - {v} && u.pools == s.pools && !u.panicked
               && Release(s.budget, s.pools[p].pkg) == Some(u.budget)
  {
    hide Release;
  }

  lemma RefundOf(s: Sys, i: Pid, p: PoolId, v: VmId)
    requires Inv(s) && i in s.procs && s.procs[i] == Building(p, v)
    ensures !s.panicked && p in s.pools && v in s.vms && Release(s.budget, s.pools[p].pkg).Some?
  {
    hide BudgetInv, GroupInv, PlaceInv, ProcsInv, Release, BorrowOk, CloseOk, CanTake;
    Knows(s, i);
    FreeFacts(s, i, Leaving(p));
  }

  // ---- how a closer comes to its end ----

  lemma DrainSteps(s: Sys, i: Pid, p: PoolId)
    requires Inv(s) && i in s.procs && s.procs[i] == Draining(p)
    ensures p in s.pools && Enabled(s, i, Go(Drain))
    ensures var t := Apply(s, i, Go(Drain));
            if s.pools[p].idle == [] then t == Goto(s, i, Closed(p))
            else
              && i in t.procs && t.procs[i] == DrainDiscard(p, s.pools[p].idle[0])
              && p in t.pools && t.pools[p].idle == s.pools[p].idle[1..]
  {
    Knows(s, i);
    hide Inv;
  }

  lemma DestroySteps(s: Sys, i: Pid, p: PoolId, v: VmId)
    requires Inv(s) && i in s.procs && s.procs[i] == DrainDiscard(p, v)
    ensures p in s.pools && Enabled(s, i, Go(Destroy))
    ensures var t := Apply(s, i, Go(Destroy));
            && i in t.procs && t.procs[i] == Draining(p) && t.pools == s.pools
  {
    hide Inv, Release, Enabled, Apply;
    CanRefund(s, i, p, v);
    DestroyEffect(s, i, p, v);
  }

  lemma CanRefund(s: Sys, i: Pid, p: PoolId, v: VmId)
    requires Inv(s) && i in s.procs && s.procs[i] == DrainDiscard(p, v)
    ensures p in s.pools && v in s.vms && Release(s.budget, s.pools[p].pkg).Some?
  {
    hide BudgetInv, GroupInv, PlaceInv, ProcsInv, Release, BorrowOk, CloseOk, CanTake;
    Knows(s, i);
    FreeFacts(s, i, Draining(p));
  }

  lemma DestroyEffect(s: Sys, i: Pid, p: PoolId, v: VmId)
    requires i in s.procs && s.procs[i] == DrainDiscard(p, v) && p in s.pools && v in s.vms
    requires Release(s.budget, s.pools[p].pkg).Some?
    ensures Enabled(s, i, Go(Destroy))
    ensures var t := Apply(s, i, Go(Destroy));
            i in t.procs && t.procs[i] == Draining(p) && t.pools == s.pools
  {
    hide Release;
  }

  /** A closer that is past the wait destroys what is idle, one by one, and then returns. */
  lemma {:induction false} CloserEnds(s: Sys, i: Pid, p: PoolId) returns (moves: seq<(Pid, Event)>)
    requires Inv(s) && i in s.procs && p in s.pools && s.procs[i] == Draining(p)
    ensures Possible(s, moves) && OnlyBy(moves, i) && |moves| == 2 * |s.pools[p].idle| + 1
    ensures i in Final(s, moves).procs && Final(s, moves).procs[i] == Closed(p)
    decreases |s.pools[p].idle|
  {
    hide Inv, Possible, Final, Apply, Enabled;
    DrainSteps(s, i, p);
    var t := Apply(s, i, Go(Drain));
    if s.pools[p].idle == [] {
      moves := [(i, Go(Drain))];
      OneStep(s, i, Go(Drain));
    } else {
      StepKeeps(s, i, Go(Drain));
      DestroySteps(t, i, p, s.pools[p].idle[0]);
      StepKeeps(t, i, Go(Destroy));
      var u := Apply(t, i, Go(Destroy));
      var rest := CloserEnds(u, i, p);
      Ahead(t, i, Go(Destroy), rest);
      Ahead(s, i, Go(Drain), [(i, Go(Destroy))] + rest);
      moves := [(i, Go(Drain))] + ([(i, Go(Destroy))] + rest);
    }
  }

  lemma OneStep(s: Sys, i: Pid, ev: Event)
    requires Enabled(s, i, ev)
    ensures Possible(s, [(i, ev)]) && Final(s, [(i, ev)]) == Apply(s, i, ev)
  {
    assert [(i, ev)][1..] == [];
  }

  lemma Ahead(s: Sys, i: Pid, ev: Event, rest: seq<(Pid, Event)>)
    requires Enabled(s, i, ev) && Possible(Apply(s, i, ev), rest)
    ensures Possible(s, [(i, ev)] + rest) && Final(s, [(i, ev)] + rest) == Final(Apply(s, i, ev), rest)
  {
    assert ([(i, ev)] + rest)[1..] == rest;
    hide Enabled, Apply;
  }
}
