/** How often instances are lent, and what becomes of those that must not be lent again. */
module Lendings {
  import opened Budgets
  import opened Pools

  predicate HasInUse(procs: map<Pid, Pc>, i: Pid, v: VmId) {
    i in procs && procs[i].Lent? && procs[i].vm == v
  }

  /** A step hands the instance to a borrower. */
  predicate Lends(s: Sys, i: Pid, ev: Event, v: VmId)
    requires Enabled(s, i, ev)
  {
    HasInUse(Apply(s, i, ev).procs, i, v) && !HasInUse(s.procs, i, v)
  }

  /** The count kept with an instance is the number of times it was lent since it was acquired. */
  lemma CountsLending(s: Sys, i: Pid, ev: Event, v: VmId)
    requires Inv(s) && Enabled(s, i, ev) && v in Apply(s, i, ev).vms
    ensures var s' := Apply(s, i, ev);
            if v in s.vms then s'.vms[v].borrows == s.vms[v].borrows + (if Lends(s, i, ev, v) then 1 else 0)
            else s'.vms[v].borrows == 0 && !Lends(s, i, ev, v)
  {
    hide BudgetInv, GroupInv, AllOwned, AllIdle, BorrowOk, CloseOk, TryAcquire, Release;
    if ev.Go? {
      assert Has(s, i);
    }
  }

  /** How often the instance is handed to a borrower in a run. */
  ghost function Lendings(s: Sys, trace: seq<(Pid, Event)>, v: VmId): nat
    requires Possible(s, trace)
    decreases |trace|
  {
    if trace == [] then 0
    else
      (if Lends(s, trace[0].0, trace[0].1, v) then 1 else 0)
      + Lendings(Apply(s, trace[0].0, trace[0].1), trace[1..], v)
  }

  /** The name of the instance is not used again for another one. */
  predicate NotRenewed(trace: seq<(Pid, Event)>, v: VmId) {
    forall k | 0 <= k < |trace| :: trace[k].1 != Go(Try(v))
  }

  lemma NeverAppears(s: Sys, i: Pid, ev: Event, v: VmId)
    requires Inv(s) && Enabled(s, i, ev) && ev != Go(Try(v)) && v !in s.vms
    ensures v !in Apply(s, i, ev).vms && !Lends(s, i, ev, v)
  {
    StepKeeps(s, i, ev);
    hide BudgetInv, GroupInv, AllOwned, AllIdle, ProcsInv, TryAcquire, Release;
    NewNames(s, i, ev, v);
    assert i in Apply(s, i, ev).procs ==> Has(Apply(s, i, ev), i);
  }

  lemma NewNames(s: Sys, i: Pid, ev: Event, v: VmId)
    requires Enabled(s, i, ev) && ev != Go(Try(v)) && v !in s.vms
    ensures v !in Apply(s, i, ev).vms
  {
    hide TryAcquire, Release;
  }

  lemma {:induction false} GoneIsNotLent(s: Sys, trace: seq<(Pid, Event)>, v: VmId)
    requires Inv(s) && Possible(s, trace) && NotRenewed(trace, v) && v !in s.vms
    ensures Lendings(s, trace, v) == 0
    decreases |trace|
  {
    hide Inv, Enabled, Apply, Lends;
    if trace != [] {
      assert trace[0].1 != Go(Try(v));
      StepKeeps(s, trace[0].0, trace[0].1);
      NeverAppears(s, trace[0].0, trace[0].1, v);
      GoneIsNotLent(Apply(s, trace[0].0, trace[0].1), trace[1..], v);
    }
  }

  lemma SamePool(s: Sys, i: Pid, ev: Event, v: VmId)
    requires Enabled(s, i, ev) && v in s.vms && v in Apply(s, i, ev).vms
    ensures Apply(s, i, ev).vms[v].pool == s.vms[v].pool
  {
    hide TryAcquire, Release;
  }

  lemma PoolsStay(s: Sys, i: Pid, ev: Event, p: PoolId)
    requires Enabled(s, i, ev) && p in s.pools
    ensures p in Apply(s, i, ev).pools && Apply(s, i, ev).pools[p].limit == s.pools[p].limit
  {
    hide TryAcquire, Release;
  }

  /** Where an instance came from stays with it, and so does what its pool allows. */
  lemma SameLimit(s: Sys, i: Pid, ev: Event, v: VmId)
    requires Inv(s) && Enabled(s, i, ev) && v in s.vms && v in Apply(s, i, ev).vms
    ensures var s' := Apply(s, i, ev);
            && s'.vms[v].pool == s.vms[v].pool && s.vms[v].pool in s.pools && s.vms[v].pool in s'.pools
            && s'.pools[s.vms[v].pool].limit == s.pools[s.vms[v].pool].limit
  {
    assert Owned(s, v);
    hide Inv, Apply, Enabled;
    SamePool(s, i, ev, v);
    PoolsStay(s, i, ev, s.vms[v].pool);
  }

  /** What a limit comes to: an instance that was built is lent at least once. */
  function Most(limit: nat): nat {
    if limit == 0 then 1 else limit
  }

  lemma WithinLimit(s: Sys, v: VmId)
    requires Inv(s) && v in s.vms
    ensures s.vms[v].pool in s.pools
    ensures var limit := s.pools[s.vms[v].pool].limit;
            limit.Some? ==> s.vms[v].borrows <= Most(limit.value)
  {
    assert Owned(s, v);
    hide BudgetInv, GroupInv, NoDuplicates;
    if s.vms[v].at.Some? {
      assert BorrowOk(s, s.procs[s.vms[v].at.value]);
    } else {
      assert IdleOf(s, s.vms[v].pool);
    }
  }

  lemma {:induction false} LendingsAdd(s: Sys, trace: seq<(Pid, Event)>, v: VmId)
    requires Inv(s) && Possible(s, trace) && NotRenewed(trace, v) && v in s.vms
    requires s.vms[v].pool in s.pools && s.pools[s.vms[v].pool].limit.Some?
    ensures s.vms[v].borrows + Lendings(s, trace, v) <= Most(s.pools[s.vms[v].pool].limit.value)
    decreases |trace|
  {
    hide Inv, Enabled, Apply, Lends, Most;
    if trace == [] {
      WithinLimit(s, v);
    } else {
      var s' := Apply(s, trace[0].0, trace[0].1);
      assert trace[0].1 != Go(Try(v));
      StepKeeps(s, trace[0].0, trace[0].1);
      if v in s'.vms {
        CountsLending(s, trace[0].0, trace[0].1, v);
        SameLimit(s, trace[0].0, trace[0].1, v);
        LendingsAdd(s', trace[1..], v);
      } else {
        WithinLimit(s, v);
        DestroysUnlent(s, trace[0].0, trace[0].1, v);
        GoneIsNotLent(s', trace[1..], v);
      }
    }
  }

  lemma DestroysUnlent(s: Sys, i: Pid, ev: Event, v: VmId)
    requires Inv(s) && Enabled(s, i, ev) && v !in Apply(s, i, ev).vms
    ensures !Lends(s, i, ev, v)
  {
    StepKeeps(s, i, ev);
    hide BudgetInv, GroupInv, AllOwned, AllIdle, ProcsInv, Apply, Enabled;
    assert i in Apply(s, i, ev).procs ==> Has(Apply(s, i, ev), i);
  }

  /** From its acquisition on, an instance is lent at most as often as its pool allows, over any interleaving. */
  lemma LentAtMost(trace: seq<(Pid, Event)>, i: Pid, v: VmId, later: seq<(Pid, Event)>)
    requires Possible(Initial, trace) && Enabled(Final(Initial, trace), i, Go(Try(v)))
    requires Possible(Apply(Final(Initial, trace), i, Go(Try(v))), later) && NotRenewed(later, v)
    ensures var s := Apply(Final(Initial, trace), i, Go(Try(v)));
            if v in s.vms then
              && s.vms[v].pool in s.pools
              && (s.pools[s.vms[v].pool].limit.Some? ==>
                    Lendings(s, later, v) <= Most(s.pools[s.vms[v].pool].limit.value))
            else Lendings(s, later, v) == 0
  {
    InitialHolds();
    RunKeeps(Initial, trace);
    hide Inv, Possible, Final, Apply, Enabled, Lendings;
    StepKeeps(Final(Initial, trace), i, Go(Try(v)));
    var s := Apply(Final(Initial, trace), i, Go(Try(v)));
    if v in s.vms {
      WithinLimit(s, v);
      if s.pools[s.vms[v].pool].limit.Some? {
        LendingsAdd(s, later, v);
      }
    } else {
      GoneIsNotLent(s, later, v);
    }
  }

  /** Nobody shares an instance, and nobody gets one that was lent as often as its pool allows. */
  lemma LentSafely(trace: seq<(Pid, Event)>, i: Pid, j: Pid)
    requires Possible(Initial, trace)
    requires var s := Final(Initial, trace);
             i in s.procs && j in s.procs && HoldsVm(s.procs[i])
    ensures var s := Final(Initial, trace);
            && s.procs[i].vm in s.vms && s.procs[i].pool in s.pools
            && s.vms[s.procs[i].vm].pool == s.procs[i].pool
            && (HoldsVm(s.procs[j]) && s.procs[j].vm == s.procs[i].vm ==> i == j)
            && (s.pools[s.procs[i].pool].limit.Some? && s.pools[s.procs[i].pool].limit.value > 0 ==>
                  s.vms[s.procs[i].vm].borrows <= s.pools[s.procs[i].pool].limit.value)
  {
    InitialHolds();
    RunKeeps(Initial, trace);
    var s := Final(Initial, trace);
    hide Final, Possible, BudgetInv, NoDuplicates, IdleOf;
    assert Has(s, i) && Has(s, j) && BorrowOk(s, s.procs[i]) && Owned(s, s.procs[i].vm);
  }

  /** A move after which an instance must not be lent again: it is broken, worn out, or no longer wanted. */
  predicate Retires(s: Sys, i: Pid, m: Move, v: VmId) {
    && Known(s, i) && CanMove(s, i, m) && HoldsVm(s.procs[i]) && s.procs[i].vm == v
    && var pool := s.pools[s.procs[i].pool];
       (m == Return(true) || (m.Return? && Exhausted(pool, s.vms[v])) || (m.Look? && pool.closed)
        || (m.Send? && |pool.idle| >= pool.capacity))
  }

  lemma LeadsToDiscarding(s: Sys, i: Pid, m: Move, v: VmId)
    requires Retires(s, i, m, v)
    ensures i in s.procs && Enabled(s, i, Go(m)) && i in Apply(s, i, Go(m)).procs
    ensures Apply(s, i, Go(m)).procs[i] == Discarding(s.procs[i].pool, v)
  {
  }

  lemma DiscardingStays(s: Sys, i: Pid, pc: Pc, who: Pid, ev: Event)
    requires Enabled(s, who, ev) && i in s.procs && s.procs[i] == pc && pc.Discarding? && (who, ev) != (i, Go(Destroy))
    ensures i in Apply(s, who, ev).procs && Apply(s, who, ev).procs[i] == pc
  {
    hide Moved;
    if ev.Go? {
      assert who != i;
      hide CanMove;
      MovesAlone(s, who, ev.move, i);
    }
  }

  /** Nothing happens to such an instance but its destruction: it is never lent again. */
  lemma {:induction false} DiscardedForGood(s: Sys, i: Pid, pc: Pc, trace: seq<(Pid, Event)>)
    requires Inv(s) && Possible(s, trace) && i in s.procs && s.procs[i] == pc && pc.Discarding?
    requires (i, Go(Destroy)) !in trace
    ensures var t := Final(s, trace);
            && i in t.procs && t.procs[i] == pc && pc.vm in t.vms
            && forall j <- t.procs :: t.procs[j].Lent? ==> t.procs[j].vm != pc.vm
    decreases |trace|
  {
    hide Enabled, Apply, Inv;
    if trace != [] {
      assert trace[0] in trace;
      DiscardingStays(s, i, pc, trace[0].0, trace[0].1);
      StepKeeps(s, trace[0].0, trace[0].1);
      DiscardedForGood(Apply(s, trace[0].0, trace[0].1), i, pc, trace[1..]);
    } else {
      OnlyOne(s, i);
    }
  }

  /** Whoever has an instance is the only one to have it. */
  lemma OnlyOne(s: Sys, i: Pid)
    requires Inv(s) && i in s.procs && HoldsVm(s.procs[i])
    ensures s.procs[i].vm in s.vms
    ensures forall j <- s.procs | HoldsVm(s.procs[j]) && s.procs[j].vm == s.procs[i].vm :: j == i
  {
    assert Has(s, i);
    hide BudgetInv, GroupInv, AllOwned, AllIdle, ProcsInv;
    forall j <- s.procs | HoldsVm(s.procs[j]) && s.procs[j].vm == s.procs[i].vm
      ensures j == i
    {
      assert Has(s, j);
    }
  }

  lemma {:induction false} PrefixPossible(s: Sys, trace: seq<(Pid, Event)>, k: nat)
    requires Possible(s, trace) && k < |trace|
    ensures Possible(s, trace[..k]) && Enabled(Final(s, trace[..k]), trace[k].0, trace[k].1)
    decreases |trace|
  {
    hide Enabled, Apply;
    if k > 0 {
      PrefixPossible(Apply(s, trace[0].0, trace[0].1), trace[1..], k - 1);
      assert trace[..k][1..] == trace[1..][..k - 1];
      assert trace[..k][0] == trace[0];
    }
  }

  lemma DestroyLendsNothing(s: Sys, i: Pid, v: VmId)
    requires Enabled(s, i, Go(Destroy))
    ensures !Lends(s, i, Go(Destroy), v)
  {
  }

  lemma LendsInUse(s: Sys, i: Pid, ev: Event, v: VmId)
    requires Enabled(s, i, ev)
    ensures Lends(s, i, ev, v) ==>
              i in Apply(s, i, ev).procs && Apply(s, i, ev).procs[i].Lent? && Apply(s, i, ev).procs[i].vm == v
  {
  }

  lemma DiscardedNotLent(s: Sys, i: Pid, trace: seq<(Pid, Event)>, k: nat)
    requires Inv(s) && i in s.procs && s.procs[i].Discarding? && Possible(s, trace) && k < |trace|
    requires (i, Go(Destroy)) !in trace[..k]
    ensures Possible(s, trace[..k]) && Enabled(Final(s, trace[..k]), trace[k].0, trace[k].1)
    ensures !Lends(Final(s, trace[..k]), trace[k].0, trace[k].1, s.procs[i].vm)
  {
    hide Inv, Possible, Final, Enabled, Apply, Lends;
    PrefixPossible(s, trace, k);
    var t, who, ev, v := Final(s, trace[..k]), trace[k].0, trace[k].1, s.procs[i].vm;
    if (who, ev) == (i, Go(Destroy)) {
      DestroyLendsNothing(t, i, v);
    } else {
      var front := trace[..k] + [(who, ev)];
      Snoc(s, trace[..k], who, ev);
      DiscardedForGood(s, i, s.procs[i], front);
      LendsInUse(t, who, ev, v);
    }
  }

  /**
   A retired instance is never lent again: over any continuation, whoever gets an instance of
   that name gets it after this one was destroyed.
   */
  lemma RetiredNeverLent(s: Sys, i: Pid, m: Move, v: VmId, later: seq<(Pid, Event)>, k: nat)
    requires Inv(s) && Enabled(s, i, Go(m)) && Retires(s, i, m, v)
    requires Possible(Apply(s, i, Go(m)), later) && k < |later|
    ensures Possible(Apply(s, i, Go(m)), later[..k])
    ensures var t := Final(Apply(s, i, Go(m)), later[..k]);
            && Enabled(t, later[k].0, later[k].1)
            && (Lends(t, later[k].0, later[k].1, v) ==> (i, Go(Destroy)) in later[..k])
  {
    hide Inv, Possible, Final, Enabled, Apply, Retires, Lends;
    LeadsToDiscarding(s, i, m, v);
    StepKeeps(s, i, Go(m));
    PrefixPossible(Apply(s, i, Go(m)), later, k);
    if (i, Go(Destroy)) !in later[..k] {
      DiscardedNotLent(Apply(s, i, Go(m)), i, later, k);
    }
  }

  /** Destroying it takes it out of the world. */
  lemma DestroyRemoves(s: Sys, i: Pid)
    requires Inv(s) && Known(s, i) && CanMove(s, i, Destroy)
    ensures s.procs[i].vm !in Moved(s, i, Destroy).vms
  {
    hide BudgetInv, PlaceInv, GroupInv, ProcsInv, Release;
    var pc := s.procs[i];
    FreeFacts(s, i, if pc.DrainDiscard? then Draining(pc.pool) else Leaving(pc.pool));
  }
}
