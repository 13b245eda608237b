/** Exclusive or on natural numbers, bit by bit. */
module Xor {

  function Xor(x: nat, y: nat): nat {
    if x == 0 && y == 0 then 0 else 2 * Xor(x / 2, y / 2) + (x + y) % 2
  }

  lemma Halve(x: nat, y: nat)
    ensures Xor(x, y) / 2 == Xor(x / 2, y / 2)
    ensures Xor(x, y) % 2 == (x + y) % 2
  {
  }

  /** The lowest bits are combined on their own. */
  lemma Build(p: nat, i: nat, q: nat, j: nat)
    requires i < 2 && j < 2
    ensures Xor(2 * p + i, 2 * q + j) == 2 * Xor(p, q) + if i == j then 0 else 1
  {
    assert (2 * p + i) / 2 == p && (2 * q + j) / 2 == q;
    assert (2 * p + i + 2 * q + j) % 2 == (i + j) % 2;
  }

  lemma {:induction false} Commutes(x: nat, y: nat)
    ensures Xor(x, y) == Xor(y, x)
  {
    if x != 0 || y != 0 {
      Commutes(x / 2, y / 2);
    }
  }

  lemma {:induction false} Associates(x: nat, y: nat, z: nat)
    ensures Xor(Xor(x, y), z) == Xor(x, Xor(y, z))
    decreases x + y + z
  {
    if x != 0 || y != 0 || z != 0 {
      Associates(x / 2, y / 2, z / 2);
      var left, right := Xor(Xor(x, y), z), Xor(x, Xor(y, z));
      assert left / 2 == right / 2 by {
        Halve(x, y);
        Halve(y, z);
        Halve(Xor(x, y), z);
        Halve(x, Xor(y, z));
      }
      assert left % 2 == (x + y + z) % 2 by {
        Halve(Xor(x, y), z);
        Halve(x, y);
        Parity(x + y, Xor(x, y), z);
      }
      assert right % 2 == (x + y + z) % 2 by {
        Halve(x, Xor(y, z));
        Halve(y, z);
        Parity(y + z, Xor(y, z), x);
      }
    }
  }

  lemma Parity(a: nat, b: nat, c: nat)
    requires a % 2 == b % 2
    ensures (b + c) % 2 == (a + c) % 2
  {
  }

  lemma {:induction false} Zero(x: nat)
    ensures Xor(x, 0) == x
    ensures Xor(x, x) == 0
  {
    if x != 0 {
      Zero(x / 2);
    }
  }

  lemma Cancel(x: nat, y: nat, z: nat)
    requires Xor(x, z) == Xor(y, z)
    ensures x == y
  {
    Associates(x, z, z);
    Associates(y, z, z);
    Zero(z);
    Zero(x);
    Zero(y);
  }

  lemma CancelLeft(x: nat, y: nat, z: nat)
    requires Xor(z, x) == Xor(z, y)
    ensures x == y
  {
    Commutes(z, x);
    Commutes(z, y);
    Cancel(x, y, z);
  }

  function Pow2(n: nat): (p: nat)
    ensures p >= 1
  {
    if n == 0 then 1 else 2 * Pow2(n - 1)
  }

  /** Exclusive or never reaches past the wider operand. */
  lemma {:induction false} Bounded(x: nat, y: nat, n: nat)
    requires x < Pow2(n) && y < Pow2(n)
    ensures Xor(x, y) < Pow2(n)
  {
    if n > 0 {
      Bounded(x / 2, y / 2, n - 1);
    }
  }

  /** x shifted left by n bits. */
  function ShiftLeft(x: nat, n: nat): nat {
    if n == 0 then x else 2 * ShiftLeft(x, n - 1)
  }

  /** Numbers without a common bit add up. */
  lemma {:induction false} Disjoint(low: nat, high: nat, n: nat)
    requires low < Pow2(n)
    ensures Xor(low, ShiftLeft(high, n)) == low + ShiftLeft(high, n)
  {
    if n == 0 {
      Commutes(0, high);
      Zero(high);
    } else {
      hide Xor;
      Disjoint(low / 2, high, n - 1);
      Build(low / 2, low % 2, ShiftLeft(high, n - 1), 0);
    }
  }
}
