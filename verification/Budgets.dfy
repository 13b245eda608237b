/**
 The process-wide budget of script engines: one total and one counter per package, both
 capped, with empty entries dropped and a panic on a release without acquisition.
 */
module Budgets {

  type Pkg = string

  const PER_PACKAGE_CAP := 64
  const GLOBAL_CAP := 128

  datatype Option<+T> = None | Some(value: T)

  datatype Budget = Budget(global: int, perPkg: map<Pkg, int>)

  const Unused := Budget(0, map[])

  function Used(b: Budget, pkg: Pkg): int {
    if pkg in b.perPkg then b.perPkg[pkg] else 0
  }

  function TryAcquire(b: Budget, pkg: Pkg): Option<Budget> {
    if b.global >= GLOBAL_CAP || Used(b, pkg) >= PER_PACKAGE_CAP then None
    else Some(Budget(b.global + 1, b.perPkg[pkg := Used(b, pkg) + 1]))
  }

  /** None stands for the panic. */
  function Release(b: Budget, pkg: Pkg): Option<Budget> {
    if b.global <= 0 || Used(b, pkg) <= 0 then None
    else Some(Budget(b.global - 1,
                     if Used(b, pkg) > 1 then b.perPkg[pkg := Used(b, pkg) - 1] else b.perPkg - {pkg}))
  }

  ghost function Sum(m: map<Pkg, int>): int
    decreases |m|
  {
    if m == map[] then 0
    else
      var k :| k in m;
      m[k] + Sum(m - {k})
  }

  lemma {:induction false} SumWithout(m: map<Pkg, int>, k: Pkg)
    requires k in m
    ensures Sum(m) == m[k] + Sum(m - {k})
    decreases |m|
  {
    var c :| c in m && Sum(m) == m[c] + Sum(m - {c});
    if c != k {
      SumWithout(m - {c}, k);
      SumWithout(m - {k}, c);
      assert m - {c} - {k} == m - {k} - {c};
    }
  }

  lemma SumUpdate(m: map<Pkg, int>, k: Pkg, n: int)
    ensures Sum(m[k := n]) == Sum(m - {k}) + n
  {
    SumWithout(m[k := n], k);
    assert m[k := n] - {k} == m - {k};
  }

  /** The counters add up, stay positive, and respect both caps. */
  ghost predicate Sound(b: Budget) {
    && b.global == Sum(b.perPkg)
    && 0 <= b.global <= GLOBAL_CAP
    && (forall k <- b.perPkg :: 0 < b.perPkg[k] <= PER_PACKAGE_CAP)
  }

  lemma AcquireSound(b: Budget, pkg: Pkg)
    requires Sound(b)
    ensures TryAcquire(b, pkg).Some? ==> Sound(TryAcquire(b, pkg).value)
  {
    SumUpdate(b.perPkg, pkg, Used(b, pkg) + 1);
    if pkg in b.perPkg {
      SumWithout(b.perPkg, pkg);
    } else {
      assert b.perPkg - {pkg} == b.perPkg;
    }
  }

  lemma {:induction false} SumPositive(m: map<Pkg, int>)
    requires forall k <- m :: m[k] > 0
    ensures Sum(m) >= |m|
    decreases |m|
  {
    if m != map[] {
      var c :| c in m && Sum(m) == m[c] + Sum(m - {c});
      SumPositive(m - {c});
    }
  }

  /** A release panics exactly when the package has nothing acquired. */
  lemma ReleaseSound(b: Budget, pkg: Pkg)
    requires Sound(b)
    ensures Release(b, pkg).Some? <==> pkg in b.perPkg
    ensures Release(b, pkg).Some? ==> Sound(Release(b, pkg).value)
  {
    SumPositive(b.perPkg);
    if pkg in b.perPkg {
      SumWithout(b.perPkg, pkg);
      SumPositive(b.perPkg - {pkg});
      SumUpdate(b.perPkg, pkg, Used(b, pkg) - 1);
    }
  }

  /** Releasing undoes acquiring. */
  lemma ReleaseUndoes(b: Budget, pkg: Pkg)
    requires Sound(b) && TryAcquire(b, pkg).Some?
    ensures Release(TryAcquire(b, pkg).value, pkg) == Some(b)
  {
    if pkg in b.perPkg {
      assert b.perPkg[pkg := b.perPkg[pkg] + 1][pkg := b.perPkg[pkg]] == b.perPkg;
    } else {
      assert b.perPkg[pkg := 1] - {pkg} == b.perPkg;
    }
  }

  /** The budget as the process keeps it. */
  class VmBudget {
    var global: int
    var perPkg: map<Pkg, int>

    constructor ()
      ensures Now() == Unused
    {
      global, perPkg := 0, map[];
    }

    function Now(): Budget
      reads this
    {
      Budget(global, perPkg)
    }

    method Acquire(pkg: Pkg) returns (ok: bool)
      modifies this
      ensures ok <==> TryAcquire(old(Now()), pkg).Some?
      ensures Now() == if ok then TryAcquire(old(Now()), pkg).value else old(Now())
    {
      var count := if pkg in perPkg then perPkg[pkg] else 0;
      if global >= GLOBAL_CAP || count >= PER_PACKAGE_CAP {
        return false;
      }
      global := global + 1;
      perPkg := perPkg[pkg := count + 1];
      ok := true;
    }

    method GiveBack(pkg: Pkg) returns (panics: bool)
      modifies this
      ensures panics <==> Release(old(Now()), pkg).None?
      ensures Now() == if panics then old(Now()) else Release(old(Now()), pkg).value
    {
      if global <= 0 {
        return true;
      }
      if pkg !in perPkg || perPkg[pkg] <= 0 {
        return true;
      }
      global := global - 1;
      perPkg := perPkg[pkg := perPkg[pkg] - 1];
      if perPkg[pkg] <= 0 {
        perPkg := perPkg - {pkg};
        assert perPkg == old(perPkg) - {pkg};
      }
      panics := false;
    }
  }
}
