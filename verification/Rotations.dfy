/**
 Round-robin selection by an ever-growing 64-bit counter taken modulo the number of
 candidates, as used for keys of a package and for model names that several groups offer.
 */
module Rotations {

  const WRAP: nat := 0x1_0000_0000_0000_0000

  /** Adding to a counter of 64 bits. */
  function Wrap(n: nat): (r: nat)
    ensures r < WRAP
  {
    n % WRAP
  }

  /** Whose turn it is. */
  function Turn(n: nat, size: nat): (r: nat)
    requires size > 0
    ensures r < size
  {
    n % size
  }

  // ---- fairness ----

  /** How many of n consecutive counter values from start on select candidate i out of size. */
  function Picks(start: nat, n: nat, size: nat, i: nat): nat
    requires size > 0
  {
    if n == 0 then 0 else Picks(start, n - 1, size, i) + (if (start + n - 1) % size == i then 1 else 0)
  }

  lemma ModShift(a: nat, k: nat, size: nat, i: nat)
    requires size > 0 && k < size && i < size
    ensures (a + k) % size == i <==> (i + size - a % size) % size == k
  {
    var r := a % size;
    assert a == size * (a / size) + r;
    ModAdd(r + k, a / size, size);
    assert a + k == (r + k) + size * (a / size);
    if r + k < size {
      ModSmall(r + k, size);
      if i >= r {
        ModAdd(i - r, 1, size);
        ModSmall(i - r, size);
      } else {
        ModSmall(i + size - r, size);
      }
    } else {
      ModAdd(r + k - size, 1, size);
      ModSmall(r + k - size, size);
      if i >= r {
        ModAdd(i - r, 1, size);
        ModSmall(i - r, size);
      } else {
        ModSmall(i + size - r, size);
      }
    }
  }

  lemma ModSmall(a: nat, size: nat)
    requires a < size
    ensures a % size == a
  {
  }

  lemma {:induction false} ModAdd(a: nat, m: nat, size: nat)
    requires size > 0
    ensures (a + size * m) % size == a % size
  {
    var q := a / size;
    assert a == size * q + a % size;
    DivUnique(a + size * m, q + m, a % size, size);
  }

  lemma DivUnique(a: nat, q: nat, r: nat, size: nat)
    requires size > 0 && r < size && a == size * q + r
    ensures a % size == r && a / size == q
  {
    var q' := a / size;
    assert a == size * q' + a % size;
    if q' < q {
      Grows(size, q' + 1, q);
    } else if q' > q {
      Grows(size, q + 1, q');
    }
  }

  lemma Grows(a: nat, b: nat, c: nat)
    requires b <= c
    ensures a * b <= a * c
  {
  }

  lemma OneLess(n: nat, size: nat)
    requires 0 < size <= n
    ensures (n - size) / size == n / size - 1 && (n - size) % size == n % size
  {
    assert n == size * (n / size) + n % size;
    if n / size == 0 {
      ModSmall(n, size);
    }
    Distribute(size, n / size - 1);
    DivUnique(n - size, n / size - 1, n % size, size);
  }

  /** Within one round everybody is selected at most once, and exactly once in a full one. */
  lemma {:induction false} OneRound(start: nat, n: nat, size: nat, i: nat)
    requires i < size && n <= size
    ensures Picks(start, n, size, i) == if (i + size - start % size) % size < n then 1 else 0
  {
    if n > 0 {
      OneRound(start, n - 1, size, i);
      ModShift(start, n - 1, size, i);
    }
  }

  lemma {:induction false} PicksSplit(start: nat, m: nat, n: nat, size: nat, i: nat)
    requires size > 0
    ensures Picks(start, m + n, size, i) == Picks(start, m, size, i) + Picks(start + m, n, size, i)
  {
    if n > 0 {
      PicksSplit(start, m, n - 1, size, i);
    }
  }

  /** The least and the most that a fair share of n selections among size candidates can be. */
  function Least(n: nat, size: nat): nat
    requires size > 0
  {
    n / size
  }

  function Most(n: nat, size: nat): nat
    requires size > 0
  {
    n / size + (if n % size == 0 then 0 else 1)
  }

  lemma SharesSmall(n: nat, size: nat)
    requires n < size
    ensures Least(n, size) == 0 && Most(n, size) == if n == 0 then 0 else 1
  {
    ModSmall(n, size);
  }

  lemma SharesLess(n: nat, size: nat)
    requires 0 < size <= n
    ensures Least(n, size) == Least(n - size, size) + 1 && Most(n, size) == Most(n - size, size) + 1
  {
    OneLess(n, size);
  }

  /** Over any n consecutive selections each of size candidates comes up n/size times, rounded down or up. */
  lemma {:induction false} Fair(start: nat, n: nat, size: nat, i: nat)
    requires i < size
    ensures Least(n, size) <= Picks(start, n, size, i) <= Most(n, size)
    decreases n
  {
    hide Least, Most, Picks;
    if n < size {
      OneRound(start, n, size, i);
      SharesSmall(n, size);
      assert n == 0 ==> Picks(start, 0, size, i) == 0 by { NoPicks(start, size, i); }
    } else {
      PicksSplit(start, size, n - size, size, i);
      OneRound(start, size, size, i);
      FullRound(start, size, i);
      Fair(start + size, n - size, size, i);
      SharesLess(n, size);
    }
  }

  lemma NoPicks(start: nat, size: nat, i: nat)
    requires size > 0
    ensures Picks(start, 0, size, i) == 0
  {
  }

  lemma FullRound(start: nat, size: nat, i: nat)
    requires i < size
    ensures (i + size - start % size) % size < size
  {
  }

  /** Across the wrap of the counter the order goes on exactly when the size divides 2^64. */
  lemma WrapGoesOn(size: nat)
    requires size > 0
    ensures 0 % size == ((WRAP - 1) % size + 1) % size <==> WRAP % size == 0
  {
    var r := (WRAP - 1) % size;
    assert WRAP - 1 == size * ((WRAP - 1) / size) + r;
    if r + 1 < size {
      DivUnique(WRAP, (WRAP - 1) / size, r + 1, size);
      ModSmall(r + 1, size);
    } else {
      assert WRAP == size * ((WRAP - 1) / size + 1) by { Distribute(size, (WRAP - 1) / size); }
      DivUnique(WRAP, (WRAP - 1) / size + 1, 0, size);
    }
  }

  lemma Distribute(a: nat, b: nat)
    ensures a * (b + 1) == a * b + a
  {
  }

  /** With three candidates the wrap selects the first one twice in a row. */
  lemma WrapRepeats()
    ensures (WRAP - 1) % 3 == 0 && ((WRAP - 1 + 1) % WRAP) % 3 == 0
  {
  }

  // ---- what is selected ----

  /** How often something occurs. */
  function CountOf<T(==)>(keys: seq<T>, key: T): nat {
    if keys == [] then 0
    else CountOf(keys[..|keys| - 1], key) + (if keys[|keys| - 1] == key then 1 else 0)
  }

  predicate Distinct<T(==)>(list: seq<T>) {
    forall i, j | 0 <= i < j < |list| :: list[i] != list[j]
  }

  /** Selected one after the other from a list, round and round. */
  ghost predicate InTurn<T>(keys: seq<T>, list: seq<T>, start: nat)
    requires list != []
  {
    forall j | 0 <= j < |keys| :: keys[j] == list[Turn(start + j, |list|)]
  }

  lemma {:induction false} CountIsPicks<T>(keys: seq<T>, list: seq<T>, start: nat, i: nat)
    requires i < |list| && Distinct(list) && InTurn(keys, list, start)
    ensures CountOf(keys, list[i]) == Picks(start, |keys|, |list|, i)
  {
    if keys != [] {
      var n := |keys| - 1;
      CountIsPicks(keys[..n], list, start, i);
      assert keys[n] == list[i] <==> Turn(start + n, |list|) == i;
    }
  }

  /** A fair share of n selections for everybody in the list. */
  ghost predicate Shared<T>(keys: seq<T>, list: seq<T>, least: nat, most: nat) {
    forall key <- list :: least <= CountOf(keys, key) <= most
  }

  lemma FairShare<T>(keys: seq<T>, list: seq<T>, start: nat)
    requires list != [] && Distinct(list) && InTurn(keys, list, start)
    ensures Shared(keys, list, Least(|keys|, |list|), Most(|keys|, |list|))
  {
    forall key <- list
      ensures Least(|keys|, |list|) <= CountOf(keys, key) <= Most(|keys|, |list|)
    {
      var i :| 0 <= i < |list| && list[i] == key;
      CountIsPicks(keys, list, start, i);
      Fair(start, |keys|, |list|, i);
    }
  }

  lemma {:induction false} CountAdds<T>(a: seq<T>, b: seq<T>, key: T)
    ensures CountOf(a + b, key) == CountOf(a, key) + CountOf(b, key)
  {
    if b == [] {
      assert a + b == a;
    } else {
      CountAdds(a, b[..|b| - 1], key);
      assert (a + b)[..|a + b| - 1] == a + b[..|b| - 1];
    }
  }

  /** Selected by a counter that wraps around. */
  ghost predicate ByCounter<T>(keys: seq<T>, list: seq<T>, start: nat)
    requires list != []
  {
    forall j | 0 <= j < |keys| :: keys[j] == list[Turn(Wrap(start + j), |list|)]
  }

  lemma WrapSmall(n: nat)
    requires n < WRAP
    ensures Wrap(n) == n
  {
    ModSmall(n, WRAP);
  }

  lemma BeforeWrap<T>(keys: seq<T>, list: seq<T>, start: nat)
    requires list != [] && ByCounter(keys, list, start) && start + |keys| <= WRAP
    ensures InTurn(keys, list, start)
  {
    hide Turn, Wrap;
    forall j | 0 <= j < |keys|
      ensures keys[j] == list[Turn(start + j, |list|)]
    {
      WrapSmall(start + j);
    }
  }

  lemma ModMod(a: nat, size: nat)
    requires size > 0 && WRAP % size == 0
    ensures Turn(Wrap(a), size) == Turn(a, size)
  {
    var q, k := a / WRAP, WRAP / size;
    assert WRAP == size * k && a == WRAP * q + a % WRAP;
    Regroup(size, k, q);
    ModAdd(a % WRAP, k * q, size);
  }

  lemma Regroup(a: nat, b: nat, c: nat)
    ensures a * b * c == a * (b * c)
  {
  }

  /** The wrap makes no difference to a list whose length divides 2^64. */
  lemma EvenWrap<T>(keys: seq<T>, list: seq<T>, start: nat)
    requires list != [] && ByCounter(keys, list, start) && WRAP % |list| == 0
    ensures InTurn(keys, list, start)
  {
    hide Turn, Wrap;
    forall j | 0 <= j < |keys|
      ensures keys[j] == list[Turn(start + j, |list|)]
    {
      ModMod(start + j, |list|);
    }
  }

  lemma ShiftWrap(start: nat, a: nat, j: nat)
    requires start + a == WRAP && j < WRAP
    ensures Wrap(start + (a + j)) == j
  {
  }

  /** Across the wrap there are two stretches that are fair, each for itself. */
  lemma AcrossWrap<T>(keys: seq<T>, list: seq<T>, start: nat, a: nat)
    requires list != [] && Distinct(list) && ByCounter(keys, list, start)
    requires start + a == WRAP && a <= |keys| <= a + WRAP
    ensures Shared(keys, list, Least(a, |list|) + Least(|keys| - a, |list|), Most(a, |list|) + Most(|keys| - a, |list|))
  {
    hide Turn, Wrap, Least, Most, Distinct;
    var front, back := keys[..a], keys[a..];
    assert keys == front + back;
    assert ByCounter(front, list, start);
    BeforeWrap(front, list, start);
    FairShare(front, list, start);
    forall j | 0 <= j < |back|
      ensures back[j] == list[Turn(0 + j, |list|)]
    {
      assert back[j] == keys[a + j];
      ShiftWrap(start, a, j);
    }
    assert InTurn(back, list, 0);
    FairShare(back, list, 0);
    hide Least, Most, Distinct, ByCounter, InTurn;
    forall key <- list
      ensures Least(a, |list|) + Least(|back|, |list|) <= CountOf(keys, key) <= Most(a, |list|) + Most(|back|, |list|)
    {
      CountAdds(front, back, key);
    }
  }

  // ---- keys of a package ----

  class KeyRotation {
    var rotate: map<string, nat> // one counter per package, below 2^64

    constructor ()
      ensures Valid() && rotate == map[]
    {
      rotate := map[];
    }

    ghost predicate Valid()
      reads this
    {
      forall pkg <- rotate :: rotate[pkg] < WRAP
    }

    /** The counter value the next selection uses. */
    function Position(pkg: string): (n: nat)
      reads this
      requires Valid()
      ensures n < WRAP
    {
      if pkg in rotate then rotate[pkg] else 0
    }

    /** Selects from the list as it is now; an empty one yields nothing and leaves the counter alone. */
    method Rotate<T(0)>(pkg: string, list: seq<T>) returns (key: T, ok: bool)
      requires Valid()
      modifies this
      ensures Valid() && ok == (list != [])
      ensures ok ==> key == list[Turn(old(Position(pkg)), |list|)] && Position(pkg) == Wrap(old(Position(pkg)) + 1)
      ensures !ok ==> rotate == old(rotate)
      ensures forall other | other != pkg :: Position(other) == old(Position(other))
    {
      if |list| == 0 {
        key := *;
        return key, false;
      }
      if pkg !in rotate {
        rotate := rotate[pkg := 0];
      }
      var next := (rotate[pkg] + 1) % WRAP;
      rotate := rotate[pkg := next];
      var idx := (next + WRAP - 1) % WRAP;
      Back(old(Position(pkg)));
      return list[idx % |list|], true;
    }

    /** The index that the next Rotate will select from a list of this size. */
    method PeekRotation(pkg: string, size: int) returns (idx: nat)
      requires Valid()
      ensures idx == if size <= 0 then 0 else Position(pkg) % size
      ensures size > 0 ==> idx < size
    {
      if size <= 0 {
        return 0;
      }
      if pkg !in rotate {
        return 0;
      }
      idx := rotate[pkg] % size;
    }

    method ResetRotation(pkg: string)
      requires Valid()
      modifies this
      ensures Valid() && Position(pkg) == 0
      ensures forall other | other != pkg :: Position(other) == old(Position(other))
    {
      rotate := rotate - {pkg};
    }

    /** Looking ahead and then selecting: the key looked at is the key selected. */
    method PeekThenRotate<T(0)>(pkg: string, list: seq<T>) returns (peeked: T, key: T)
      requires Valid() && list != []
      modifies this
      ensures Valid() && peeked == key
    {
      var idx := PeekRotation(pkg, |list|);
      peeked := list[idx];
      var ok;
      key, ok := Rotate(pkg, list);
    }
  }

  /**
   Selecting n times from an unchanged list: everybody gets a fair share unless the counter wraps
   and the length does not divide 2^64; then there are two fair stretches, before and after.
   */
  method RotateMany<T(0,==)>(r: KeyRotation, pkg: string, list: seq<T>, n: nat) returns (keys: seq<T>)
    requires r.Valid() && list != []
    modifies r
    ensures r.Valid() && |keys| == n && ByCounter(keys, list, old(r.Position(pkg)))
    ensures r.Position(pkg) == Wrap(old(r.Position(pkg)) + n)
    ensures forall other | other != pkg :: r.Position(other) == old(r.Position(other))
    ensures Distinct(list) && (old(r.Position(pkg)) + n <= WRAP || WRAP % |list| == 0) ==>
              Shared(keys, list, Least(n, |list|), Most(n, |list|))
    ensures var a := WRAP - old(r.Position(pkg));
            Distinct(list) && a <= n <= a + WRAP ==>
              Shared(keys, list, Least(a, |list|) + Least(n - a, |list|), Most(a, |list|) + Most(n - a, |list|))
  {
    hide Distinct, Shared, Least, Most, Turn, Wrap;
    ghost var start := r.Position(pkg);
    WrapSmall(start);
    keys := [];
    while |keys| < n
      invariant r.Valid() && |keys| <= n
      invariant r.Position(pkg) == Wrap(start + |keys|) && ByCounter(keys, list, start)
      invariant forall other | other != pkg :: r.Position(other) == old(r.Position(other))
    {
      hide ByCounter;
      var key, _ := r.Rotate(pkg, list);
      NextByCounter(keys, list, start, key);
      keys := keys + [key];
    }
    SharedByCounter(keys, list, start);
  }

  lemma NextByCounter<T>(keys: seq<T>, list: seq<T>, start: nat, key: T)
    requires list != [] && ByCounter(keys, list, start) && key == list[Turn(Wrap(start + |keys|), |list|)]
    ensures ByCounter(keys + [key], list, start)
    ensures Wrap(Wrap(start + |keys|) + 1) == Wrap(start + |keys| + 1)
  {
    NextWrap(start + |keys|);
    hide Turn, Wrap;
  }

  lemma NextWrap(n: nat)
    ensures Wrap(Wrap(n) + 1) == Wrap(n + 1)
  {
  }

  lemma SharedByCounter<T>(keys: seq<T>, list: seq<T>, start: nat)
    requires list != [] && ByCounter(keys, list, start) && start < WRAP
    ensures Distinct(list) && (start + |keys| <= WRAP || WRAP % |list| == 0) ==>
              Shared(keys, list, Least(|keys|, |list|), Most(|keys|, |list|))
    ensures var a := WRAP - start;
            Distinct(list) && a <= |keys| <= a + WRAP ==>
              Shared(keys, list, Least(a, |list|) + Least(|keys| - a, |list|), Most(a, |list|) + Most(|keys| - a, |list|))
  {
    hide ByCounter, Distinct, Shared, InTurn, Least, Most, Turn, Wrap;
    if Distinct(list) {
      if start + |keys| <= WRAP {
        BeforeWrap(keys, list, start);
        FairShare(keys, list, start);
      } else if WRAP % |list| == 0 {
        EvenWrap(keys, list, start);
        FairShare(keys, list, start);
      }
      if WRAP - start <= |keys| <= WRAP - start + WRAP {
        AcrossWrap(keys, list, start, WRAP - start);
      }
    }
  }

  /** Subtracting the one that was just added, in 64 bits. */
  lemma Back(n: nat)
    requires n < WRAP
    ensures ((n + 1) % WRAP + WRAP - 1) % WRAP == n
  {
  }
}
