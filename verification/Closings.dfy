/** What a pool owns once it has been closed. */
module Closings {
  import opened Budgets
  import opened Pools

  lemma CountedIn(s: Sys, j: Pid)
    requires GroupInv(s) && j in s.procs && Joined(s.procs[j])
    ensures s.pools[s.procs[j].pool].inFlight > 0
  {
    assert j in InGroup(s.procs, s.procs[j].pool);
  }

  /**
   Once a Close has returned, its pool owns exactly the instances that other closers of the
   same pool are still destroying.
   */
  lemma ClosedOwns(s: Sys, i: Pid, v: VmId)
    requires Inv(s) && i in s.procs && s.procs[i].Closed?
    ensures v in s.vms && s.vms[v].pool == s.procs[i].pool
      <==> exists j <- s.procs :: s.procs[j] == DrainDiscard(s.procs[i].pool, v)
  {
    if v in s.vms && s.vms[v].pool == s.procs[i].pool {
      DrainedBy(s, i, v);
    }
    hide BudgetInv, GroupInv, AllIdle, ProcsInv;
    if exists j <- s.procs :: s.procs[j] == DrainDiscard(s.procs[i].pool, v) {
      var j :| j in s.procs && s.procs[j] == DrainDiscard(s.procs[i].pool, v);
      assert Has(s, j) && Owned(s, v);
    }
  }

  lemma DrainedBy(s: Sys, i: Pid, v: VmId)
    requires Inv(s) && i in s.procs && s.procs[i].Closed? && v in s.vms && s.vms[v].pool == s.procs[i].pool
    ensures exists j <- s.procs :: s.procs[j] == DrainDiscard(s.procs[i].pool, v)
  {
    Knows(s, i);
    assert Owned(s, v);
    hide BudgetInv, PlaceInv, GroupInv, ProcsInv;
    var j := s.vms[v].at.value;
    if Joined(s.procs[j]) {
      CountedIn(s, j);
    }
    assert s.procs[j] == DrainDiscard(s.procs[i].pool, v);
  }

  lemma ClosedStays(s: Sys, i: Pid, who: Pid, ev: Event)
    requires Enabled(s, who, ev) && i in s.procs && s.procs[i].Closed?
    ensures i in Apply(s, who, ev).procs && Apply(s, who, ev).procs[i] == s.procs[i]
  {
    hide Moved;
    if ev.Go? {
      assert who != i;
      hide CanMove;
      MovesAlone(s, who, ev.move, i);
    }
  }

  lemma {:induction false} ClosedForever(s: Sys, i: Pid, trace: seq<(Pid, Event)>)
    requires Possible(s, trace) && i in s.procs && s.procs[i].Closed?
    ensures i in Final(s, trace).procs && Final(s, trace).procs[i] == s.procs[i]
    decreases |trace|
  {
    hide Enabled, Apply;
    if trace != [] {
      ClosedStays(s, i, trace[0].0, trace[0].1);
      ClosedForever(Apply(s, trace[0].0, trace[0].1), i, trace[1..]);
    }
  }

  /** Some Close of the pool is destroying an instance. */
  predicate Drained(s: Sys, p: PoolId) {
    exists j <- s.procs :: s.procs[j].DrainDiscard? && s.procs[j].pool == p
  }

  /** An empty channel stays empty once its pool is closed, so nobody finds an instance to destroy. */
  lemma NobodyDrains(s: Sys, i: Pid, who: Pid, ev: Event)
    requires Inv(s) && i in s.procs && s.procs[i].Closed? && !Drained(s, s.procs[i].pool) && Enabled(s, who, ev)
    ensures !Drained(Apply(s, who, ev), s.procs[i].pool)
  {
    var p := s.procs[i].pool;
    var s' := Apply(s, who, ev);
    assert CloseOk(s, s.procs[i]) && s.procs[i].pool in s.pools;
    hide Inv, CloseOk, Apply, Enabled, Drained;
    if Drained(s', p) {
      var j := Drainer(s', p);
      DrainerWas(s, who, ev, j);
    }
  }

  lemma Drainer(s: Sys, p: PoolId) returns (j: Pid)
    requires Drained(s, p)
    ensures j in s.procs && s.procs[j].DrainDiscard? && s.procs[j].pool == p
  {
    j :| j in s.procs && s.procs[j].DrainDiscard? && s.procs[j].pool == p;
  }

  lemma SameElsewhere(s: Sys, who: Pid, ev: Event, j: Pid)
    requires Enabled(s, who, ev) && j != who && j in Apply(s, who, ev).procs
    ensures j in s.procs && s.procs[j] == Apply(s, who, ev).procs[j]
  {
    hide TryAcquire, Release, CanMove;
  }

  lemma DrainerItself(s: Sys, j: Pid, ev: Event)
    requires Enabled(s, j, ev) && j in Apply(s, j, ev).procs && Apply(s, j, ev).procs[j].DrainDiscard?
    ensures j in s.procs && s.procs[j].pool == Apply(s, j, ev).procs[j].pool
    ensures s.procs[j].DrainDiscard? || (s.procs[j].pool in s.pools && s.pools[s.procs[j].pool].idle != [])
  {
    hide TryAcquire, Release;
  }

  /** Whoever destroys an instance of a pool was at it before, or found it in the channel. */
  lemma DrainerWas(s: Sys, who: Pid, ev: Event, j: Pid)
    requires Enabled(s, who, ev) && j in Apply(s, who, ev).procs && Apply(s, who, ev).procs[j].DrainDiscard?
    ensures j in s.procs && s.procs[j].pool == Apply(s, who, ev).procs[j].pool
    ensures s.procs[j].DrainDiscard? || (s.procs[j].pool in s.pools && s.pools[s.procs[j].pool].idle != [])
  {
    hide Apply, Enabled;
    if j == who {
      DrainerItself(s, j, ev);
    } else {
      SameElsewhere(s, who, ev, j);
    }
  }

  lemma {:induction false} NobodyDrainsLater(s: Sys, i: Pid, later: seq<(Pid, Event)>)
    requires Inv(s) && i in s.procs && s.procs[i].Closed? && !Drained(s, s.procs[i].pool) && Possible(s, later)
    ensures !Drained(Final(s, later), s.procs[i].pool)
    decreases |later|
  {
    hide Inv, Enabled, Apply, Drained;
    if later != [] {
      NobodyDrains(s, i, later[0].0, later[0].1);
      ClosedStays(s, i, later[0].0, later[0].1);
      StepKeeps(s, later[0].0, later[0].1);
      NobodyDrainsLater(Apply(s, later[0].0, later[0].1), i, later[1..]);
    }
  }

  /** If nobody is destroying an instance when Close returns, the pool owns nothing from then on. */
  lemma AfterClose(s: Sys, i: Pid, later: seq<(Pid, Event)>, v: VmId)
    requires Inv(s) && i in s.procs && s.procs[i].Closed? && !Drained(s, s.procs[i].pool)
    requires Possible(s, later) && v in Final(s, later).vms
    ensures Final(s, later).vms[v].pool != s.procs[i].pool
  {
    hide Inv, Possible, Final;
    ClosedForever(s, i, later);
    RunKeeps(s, later);
    NobodyDrainsLater(s, i, later);
    var t := Final(s, later);
    ClosedOwns(t, i, v);
  }

  // ---- a pool that is closed once ----

  /** How often a pool is closed in a run. */
  function Closes(trace: seq<(Pid, Event)>, p: PoolId): nat {
    if trace == [] then 0 else (if trace[0].1 == Close(p) then 1 else 0) + Closes(trace[1..], p)
  }

  function Closers(procs: map<Pid, Pc>, p: PoolId): set<Pid> {
    set i | i in procs && procs[i].pool == p && !Joined(procs[i])
  }

  lemma CloserItself(s: Sys, j: Pid, ev: Event)
    requires Enabled(s, j, ev) && j in Apply(s, j, ev).procs && !Joined(Apply(s, j, ev).procs[j])
    ensures if ev.Close? then Apply(s, j, ev).procs[j].pool == ev.pool
            else j in s.procs && s.procs[j].pool == Apply(s, j, ev).procs[j].pool && !Joined(s.procs[j])
  {
    hide TryAcquire, Release;
  }

  lemma CloserWas(s: Sys, who: Pid, ev: Event, p: PoolId, j: Pid)
    requires Enabled(s, who, ev) && j in Closers(Apply(s, who, ev).procs, p)
    ensures j in Closers(s.procs, p) || (ev == Close(p) && j == who)
  {
    hide Apply, Enabled, Joined;
    if j == who {
      CloserItself(s, j, ev);
    } else {
      SameElsewhere(s, who, ev, j);
    }
  }

  lemma ClosersGrow(s: Sys, who: Pid, ev: Event, p: PoolId)
    requires Enabled(s, who, ev)
    ensures |Closers(Apply(s, who, ev).procs, p)| <= |Closers(s.procs, p)| + (if ev == Close(p) then 1 else 0)
  {
    var before, after := Closers(s.procs, p), Closers(Apply(s, who, ev).procs, p);
    var bound := if ev == Close(p) then before + {who} else before;
    hide Apply, Enabled, Closers;
    forall j <- after
      ensures j in bound
    {
      CloserWas(s, who, ev, p, j);
    }
    Fewer(after, bound);
  }

  lemma Fewer(a: set<Pid>, b: set<Pid>)
    requires a <= b
    ensures |a| <= |b|
  {
    assert b == a + (b - a);
  }

  lemma {:induction false} ClosersAreFew(s: Sys, trace: seq<(Pid, Event)>, p: PoolId)
    requires Possible(s, trace)
    ensures |Closers(Final(s, trace).procs, p)| <= |Closers(s.procs, p)| + Closes(trace, p)
    decreases |trace|
  {
    hide Enabled, Apply, Closers;
    if trace != [] {
      ClosersGrow(s, trace[0].0, trace[0].1, p);
      ClosersAreFew(Apply(s, trace[0].0, trace[0].1), trace[1..], p);
    }
  }

  lemma Two(a: set<Pid>, i: Pid, j: Pid)
    requires |a| <= 1 && i in a && j in a
    ensures i == j
  {
    assert {i} <= a && {j} <= a;
    if i != j {
      Fewer({i, j}, a);
    }
  }

  lemma OneCloserDrainsNot(trace: seq<(Pid, Event)>, i: Pid)
    requires Possible(Initial, trace) && i in Final(Initial, trace).procs && Final(Initial, trace).procs[i].Closed?
    requires Closes(trace, Final(Initial, trace).procs[i].pool) <= 1
    ensures !Drained(Final(Initial, trace), Final(Initial, trace).procs[i].pool)
  {
    var s := Final(Initial, trace);
    var p := s.procs[i].pool;
    ClosersAreFew(Initial, trace, p);
    assert Closers(Initial.procs, p) == {};
    assert i in Closers(s.procs, p);
    hide Possible, Final, Drained;
    if Drained(s, p) {
      var j := Drainer(s, p);
      assert j in Closers(s.procs, p);
      Two(Closers(s.procs, p), i, j);
    }
  }

  /** The instances of other pools. */
  function Others(vms: map<VmId, Vm>, p: PoolId): set<VmId> {
    set v | v in vms && vms[v].pool != p
  }

  /**
   Once the Close of a pool that is closed only once has returned, whatever happens later, even
   further calls of Close, the pool owns no instance and holds nothing of any budget.
   */
  lemma ClosedOnce(trace: seq<(Pid, Event)>, i: Pid, p: PoolId, later: seq<(Pid, Event)>, pkg: Pkg)
    requires Possible(Initial, trace) && Closes(trace, p) <= 1
    requires i in Final(Initial, trace).procs && Final(Initial, trace).procs[i] == Closed(p)
    requires Possible(Final(Initial, trace), later)
    ensures var t := Final(Final(Initial, trace), later);
            && t.vms.Keys == Others(t.vms, p)
            && t.budget.global == |Others(t.vms, p)|
            && Used(t.budget, pkg) == |VmsOf(t.vms, pkg) * Others(t.vms, p)|
  {
    var s := Final(Initial, trace);
    OneCloserDrainsNot(trace, i);
    InitialHolds();
    RunKeeps(Initial, trace);
    RunKeeps(s, later);
    var t := Final(s, later);
    hide Possible, Final, Drained, GroupInv, PlaceInv, ProcsInv, Closes;
    forall v <- t.vms
      ensures t.vms[v].pool != p
    {
      AfterClose(s, i, later, v);
    }
    assert VmsOf(t.vms, pkg) == VmsOf(t.vms, pkg) * Others(t.vms, p);
  }

  // ---- closing a pool twice ----

  /** One pool of capacity one, with one instance and these processes. */
  function OnePool(closed: bool, inFlight: int, idle: seq<VmId>, vm: Vm, procs: map<Pid, Pc>): Sys {
    Sys(Budget(1, map["p" := 1]), map[0 := Pool("p", None, 1, closed, inFlight, idle)], map[0 := vm], procs, false)
  }

  /** A borrower finds no idle instance. */
  lemma PollingOnce() returns (trace: seq<(Pid, Event)>)
    ensures Possible(Initial, trace)
    ensures Final(Initial, trace)
         == Sys(Unused, map[0 := Pool("p", None, 1, false, 1, [])], map[], map[1 := Polling(0)], false)
  {
    var s1 := Apply(Initial, 1, Create(0, "p", None, 1));
    var s2 := Apply(s1, 1, Borrow(0));
    var s3 := Apply(s2, 1, Go(WindowOver));
    var s4 := Apply(s3, 1, Go(Check));
    assert s4 == Sys(Unused, map[0 := Pool("p", None, 1, false, 1, [])], map[], map[1 := Polling(0)], false);
    assert Enabled(Initial, 1, Create(0, "p", None, 1)) && Enabled(s1, 1, Borrow(0));
    assert Enabled(s2, 1, Go(WindowOver)) && Enabled(s3, 1, Go(Check));
    hide Apply, Enabled, Possible, Final;
    trace := [];
    NoSteps(Initial);
    Snoc(Initial, trace, 1, Create(0, "p", None, 1));
    trace := trace + [(1, Create(0, "p", None, 1))];
    Snoc(Initial, trace, 1, Borrow(0));
    trace := trace + [(1, Borrow(0))];
    Snoc(Initial, trace, 1, Go(WindowOver));
    trace := trace + [(1, Go(WindowOver))];
    Snoc(Initial, trace, 1, Go(Check));
    trace := trace + [(1, Go(Check))];
  }

  /** An instance is built and lent. */
  lemma LentOnce() returns (trace: seq<(Pid, Event)>)
    ensures Possible(Initial, trace)
    ensures Final(Initial, trace) == OnePool(false, 1, [], Vm(0, "p", Some(1), 1), map[1 := Lent(0, 0)])
  {
    trace := PollingOnce();
    var s0 := Final(Initial, trace);
    var s1 := Apply(s0, 1, Go(Try(0)));
    var s2 := Apply(s1, 1, Go(Build(true)));
    assert s1 == OnePool(false, 1, [], Vm(0, "p", Some(1), 0), map[1 := Building(0, 0)]);
    assert s2 == OnePool(false, 1, [], Vm(0, "p", Some(1), 1), map[1 := Lent(0, 0)]);
    assert Enabled(s0, 1, Go(Try(0))) && Enabled(s1, 1, Go(Build(true)));
    hide Apply, Enabled, Possible, Final;
    Snoc(Initial, trace, 1, Go(Try(0)));
    trace := trace + [(1, Go(Try(0)))];
    Snoc(Initial, trace, 1, Go(Build(true)));
    trace := trace + [(1, Go(Build(true)))];
  }

  lemma NoSteps(s: Sys)
    ensures Possible(s, []) && Final(s, []) == s
  {
  }

  /** The borrower offers it to the channel. */
  lemma OnOffer() returns (trace: seq<(Pid, Event)>)
    ensures Possible(Initial, trace)
    ensures Final(Initial, trace) == OnePool(false, 1, [], Vm(0, "p", Some(1), 1), map[1 := Sending(0, 0)])
  {
    trace := LentOnce();
    var s0 := Final(Initial, trace);
    var s1 := Apply(s0, 1, Go(Return(false)));
    var s2 := Apply(s1, 1, Go(Look));
    assert s2 == OnePool(false, 1, [], Vm(0, "p", Some(1), 1), map[1 := Sending(0, 0)]);
    assert Enabled(s0, 1, Go(Return(false))) && Enabled(s1, 1, Go(Look));
    hide Apply, Enabled, Possible, Final;
    Snoc(Initial, trace, 1, Go(Return(false)));
    trace := trace + [(1, Go(Return(false)))];
    Snoc(Initial, trace, 1, Go(Look));
    trace := trace + [(1, Go(Look))];
  }

  /** It is given back and the borrower is gone. */
  lemma GivenBack() returns (trace: seq<(Pid, Event)>)
    ensures Possible(Initial, trace)
    ensures Final(Initial, trace) == OnePool(false, 0, [0], Vm(0, "p", None, 1), map[])
  {
    trace := OnOffer();
    var s0 := Final(Initial, trace);
    var s1 := Apply(s0, 1, Go(Send));
    var s2 := Apply(s1, 1, Go(LeaveGroup));
    var none: seq<VmId> := [];
    assert none + [0] == [0];
    assert s1 == OnePool(false, 1, [0], Vm(0, "p", None, 1), map[1 := Leaving(0)]);
    assert s2 == OnePool(false, 0, [0], Vm(0, "p", None, 1), map[]);
    assert Enabled(s0, 1, Go(Send)) && Enabled(s1, 1, Go(LeaveGroup));
    hide Apply, Enabled, Possible, Final;
    Snoc(Initial, trace, 1, Go(Send));
    trace := trace + [(1, Go(Send))];
    Snoc(Initial, trace, 1, Go(LeaveGroup));
    trace := trace + [(1, Go(LeaveGroup))];
  }

  /** Two closers get past the wait. */
  lemma TwoClosers() returns (trace: seq<(Pid, Event)>)
    ensures Possible(Initial, trace)
    ensures Final(Initial, trace) == OnePool(true, 0, [0], Vm(0, "p", None, 1), map[2 := Draining(0), 3 := Draining(0)])
  {
    trace := GivenBack();
    var s0 := Final(Initial, trace);
    var s1 := Apply(s0, 2, Close(0));
    var s2 := Apply(s1, 3, Close(0));
    var s3 := Apply(s2, 2, Go(GroupEmpty));
    var s4 := Apply(s3, 3, Go(GroupEmpty));
    assert s2 == OnePool(true, 0, [0], Vm(0, "p", None, 1), map[2 := Waiting(0), 3 := Waiting(0)]);
    assert s4 == OnePool(true, 0, [0], Vm(0, "p", None, 1), map[2 := Draining(0), 3 := Draining(0)]);
    assert Enabled(s0, 2, Close(0)) && Enabled(s1, 3, Close(0));
    assert Enabled(s2, 2, Go(GroupEmpty)) && Enabled(s3, 3, Go(GroupEmpty));
    hide Apply, Enabled, Possible, Final;
    Snoc(Initial, trace, 2, Close(0));
    trace := trace + [(2, Close(0))];
    Snoc(Initial, trace, 3, Close(0));
    trace := trace + [(3, Close(0))];
    Snoc(Initial, trace, 2, Go(GroupEmpty));
    trace := trace + [(2, Go(GroupEmpty))];
    Snoc(Initial, trace, 3, Go(GroupEmpty));
    trace := trace + [(3, Go(GroupEmpty))];
  }

  /** When a pool is closed twice at once, one Close can return while the other still has an instance. */
  lemma ClosedTwiceExample() returns (trace: seq<(Pid, Event)>)
    ensures Possible(Initial, trace)
    ensures var s := Final(Initial, trace);
            && 3 in s.procs && s.procs[3] == Closed(0)
            && 0 in s.vms && s.vms[0].pool == 0 && s.budget.global == 1
  {
    trace := TwoClosers();
    var s0 := Final(Initial, trace);
    var s1 := Apply(s0, 2, Go(Drain));
    var s2 := Apply(s1, 3, Go(Drain));
    assert s1 == OnePool(true, 0, [], Vm(0, "p", Some(2), 1), map[2 := DrainDiscard(0, 0), 3 := Draining(0)]);
    assert Enabled(s0, 2, Go(Drain)) && Enabled(s1, 3, Go(Drain));
    assert s2.procs[3] == Closed(0) && s2.vms[0].pool == 0;
    hide Apply, Enabled, Possible, Final;
    Snoc(Initial, trace, 2, Go(Drain));
    trace := trace + [(2, Go(Drain))];
    Snoc(Initial, trace, 3, Go(Drain));
    trace := trace + [(3, Go(Drain))];
  }
}
