/**
 Polynomials over the field of two elements, written as numbers: bit k is the coefficient of
 x^k. Adding is exclusive or, and multiplying by x is doubling.
 */
module Polynomials {
  import opened Xor

  function Add(a: nat, b: nat): nat {
    Xor.Xor(a, b)
  }

  function Digit(p: nat, g: nat): nat {
    if p % 2 == 1 then g else 0
  }

  function Times(q: nat, g: nat): nat
    decreases q
  {
    if q == 0 then 0 else Add(Digit(q, g), 2 * Times(q / 2, g))
  }

  /** The polynomial with these different exponents. */
  function OfExponents(exponents: seq<nat>): nat {
    if exponents == [] then 0 else Pow2(exponents[0]) + OfExponents(exponents[1..])
  }

  /** a and b differ by a multiple of g. */
  ghost predicate Congruent(a: nat, b: nat, g: nat) {
    exists q: nat :: a == Add(b, Times(q, g))
  }

  // ---- adding ----

  lemma AddSwap(a: nat, b: nat, c: nat, d: nat)
    ensures Add(Add(a, b), Add(c, d)) == Add(Add(a, c), Add(b, d))
  {
    hide Xor.Xor;
    Associates(a, b, Add(c, d));
    Associates(b, c, d);
    Commutes(b, c);
    Associates(c, b, d);
    Associates(a, c, Add(b, d));
  }

  lemma Double(a: nat, b: nat)
    ensures 2 * Add(a, b) == Add(2 * a, 2 * b)
  {
    Build(a, 0, b, 0);
  }

  lemma AddBack(a: nat, b: nat)
    ensures Add(Add(a, b), b) == a
  {
    hide Xor.Xor;
    Associates(a, b, b);
    Zero(b);
    Zero(a);
  }

  /** Multiplying distributes over adding. */
  lemma {:induction false} TimesAdds(p: nat, q: nat, g: nat)
    ensures Times(Add(p, q), g) == Add(Times(p, g), Times(q, g))
    decreases p + q
  {
    if p == 0 && q == 0 {
      Zero(0);
    } else {
      TimesAdds(p / 2, q / 2, g);
      Halve(p, q);
      TimesUnfold(p, g);
      TimesUnfold(q, g);
      TimesUnfold(Add(p, q), g);
      hide Times, Xor.Xor;
      OneDigit(p, q, Times(p / 2, g), Times(q / 2, g), g);
    }
  }

  lemma OneDigit(p: nat, q: nat, a: nat, b: nat, g: nat)
    ensures Add(Digit(p + q, g), 2 * Add(a, b)) == Add(Add(Digit(p, g), 2 * a), Add(Digit(q, g), 2 * b))
  {
    hide Xor.Xor;
    AddSwap(Digit(p, g), 2 * a, Digit(q, g), 2 * b);
    Double(a, b);
    Zero(g);
    Zero(0);
    Commutes(0, g);
  }

  lemma TimesUnfold(q: nat, g: nat)
    ensures Times(q, g) == Add(Digit(q, g), 2 * Times(q / 2, g))
  {
    if q == 0 {
      Zero(0);
    }
  }

  // ---- congruence ----

  lemma CongruentSelf(a: nat, g: nat)
    ensures Congruent(a, a, g)
  {
    Zero(a);
    assert a == Add(a, Times(0, g));
  }

  lemma CongruentOnce(a: nat, g: nat)
    ensures Congruent(Add(a, g), a, g)
  {
    TimesUnfold(1, g);
    hide Times;
    assert Times(0, g) == 0 by { TimesUnfold(0, g); TimesNone(g); }
    Zero(g);
    assert Add(a, g) == Add(a, Times(1, g));
  }

  lemma TimesNone(g: nat)
    ensures Times(0, g) == 0
  {
  }

  lemma CongruentTrans(a: nat, b: nat, c: nat, g: nat)
    requires Congruent(a, b, g) && Congruent(b, c, g)
    ensures Congruent(a, c, g)
  {
    hide Times, Xor.Xor;
    var p: nat :| a == Add(b, Times(p, g));
    var q: nat :| b == Add(c, Times(q, g));
    TimesAdds(q, p, g);
    Associates(c, Times(q, g), Times(p, g));
    assert a == Add(c, Times(Add(q, p), g));
  }

  lemma CongruentBack(a: nat, b: nat, g: nat)
    requires Congruent(a, b, g)
    ensures Congruent(b, a, g)
  {
    hide Times, Xor.Xor;
    var q: nat :| a == Add(b, Times(q, g));
    AddBack(b, Times(q, g));
    assert b == Add(a, Times(q, g));
  }

  lemma CongruentAdd(a: nat, b: nat, c: nat, g: nat)
    requires Congruent(a, b, g)
    ensures Congruent(Add(a, c), Add(b, c), g)
  {
    hide Times, Xor.Xor;
    var q: nat :| a == Add(b, Times(q, g));
    Associates(b, Times(q, g), c);
    Commutes(Times(q, g), c);
    Associates(b, c, Times(q, g));
    assert Add(a, c) == Add(Add(b, c), Times(q, g));
  }

  lemma CongruentDouble(a: nat, b: nat, g: nat)
    requires Congruent(a, b, g)
    ensures Congruent(2 * a, 2 * b, g)
  {
    hide Xor.Xor;
    var q: nat :| a == Add(b, Times(q, g));
    Double(b, Times(q, g));
    TimesUnfold(2 * q, g);
    hide Times;
    Zero(2 * Times(q, g));
    Commutes(0, 2 * Times(q, g));
    assert 2 * a == Add(2 * b, Times(2 * q, g));
  }

  lemma {:induction false} CongruentShift(a: nat, b: nat, n: nat, g: nat)
    requires Congruent(a, b, g)
    ensures Congruent(ShiftLeft(a, n), ShiftLeft(b, n), g)
  {
    if n > 0 {
      CongruentShift(a, b, n - 1, g);
      CongruentDouble(ShiftLeft(a, n - 1), ShiftLeft(b, n - 1), g);
    }
  }

  lemma {:induction false} ShiftAdds(a: nat, b: nat, n: nat)
    ensures ShiftLeft(Add(a, b), n) == Add(ShiftLeft(a, n), ShiftLeft(b, n))
  {
    if n > 0 {
      ShiftAdds(a, b, n - 1);
      Double(ShiftLeft(a, n - 1), ShiftLeft(b, n - 1));
    }
  }

  lemma {:induction false} ShiftTwice(a: nat, m: nat, n: nat)
    ensures ShiftLeft(ShiftLeft(a, m), n) == ShiftLeft(a, m + n)
  {
    if n > 0 {
      ShiftTwice(a, m, n - 1);
    }
  }

  // ---- remainders ----

  /** r is what remains of a when divided by g, a polynomial of degree n. */
  ghost predicate IsRemainder(a: nat, g: nat, n: nat, r: nat) {
    r < Pow2(n) && Congruent(a, r, g)
  }

  /** Adding something smaller cannot bring a number below a power of two. */
  lemma StaysLarge(a: nat, b: nat, n: nat)
    requires a < Pow2(n) <= b
    ensures Add(a, b) >= Pow2(n)
  {
    if Add(a, b) < Pow2(n) {
      Bounded(a, Add(a, b), n);
      Commutes(a, Add(a, b));
      Commutes(a, b);
      AddBack(b, a);
    }
  }

  /** A multiple of g has no smaller degree than g. */
  lemma {:induction false} TimesIsLarge(q: nat, g: nat, n: nat)
    requires q > 0 && Pow2(n) <= g < Pow2(n + 1)
    ensures Times(q, g) >= Pow2(n)
    decreases q
  {
    TimesUnfold(q, g);
    hide Times, Xor.Xor;
    if q == 1 {
      TimesNone(g);
      Zero(g);
    } else {
      TimesIsLarge(q / 2, g, n);
      StaysLarge(Digit(q, g), 2 * Times(q / 2, g), n + 1);
    }
  }

  lemma RemainderUnique(a: nat, g: nat, n: nat, r: nat, r': nat)
    requires Pow2(n) <= g < Pow2(n + 1) && IsRemainder(a, g, n, r) && IsRemainder(a, g, n, r')
    ensures r == r'
  {
    CongruentBack(a, r, g);
    CongruentTrans(r, a, r', g);
    hide Times, Xor.Xor;
    var q: nat :| r == Add(r', Times(q, g));
    if q > 0 {
      TimesIsLarge(q, g, n);
      StaysLarge(r', Times(q, g), n);
    } else {
      TimesNone(g);
      Zero(r');
    }
  }

  // ---- reading the bits the other way round ----

  /** A bit at place n. */
  function At(bit: nat, n: nat): nat {
    if bit == 1 then Pow2(n) else 0
  }

  /** The lowest n bits of c in the opposite order. */
  function Reverse(c: nat, n: nat): nat {
    if n == 0 then 0 else At(c % 2, n - 1) + Reverse(c / 2, n - 1)
  }

  lemma {:induction false} ReverseBounded(c: nat, n: nat)
    ensures Reverse(c, n) < Pow2(n)
  {
    if n > 0 {
      ReverseBounded(c / 2, n - 1);
    }
  }

  /** One bit more: it becomes the lowest. */
  lemma {:induction false} ReverseMore(c: nat, n: nat)
    requires c < Pow2(n)
    ensures Reverse(c, n + 1) == 2 * Reverse(c, n)
  {
    if n > 0 {
      ReverseMore(c / 2, n - 1);
    }
  }

  lemma {:induction false} ReverseAdds(a: nat, b: nat, n: nat)
    ensures Reverse(Add(a, b), n) == Add(Reverse(a, n), Reverse(b, n))
  {
    if n == 0 {
      Zero(0);
    } else {
      ReverseAdds(a / 2, b / 2, n - 1);
      Halve(a, b);
      ReverseBounded(a / 2, n - 1);
      ReverseBounded(b / 2, n - 1);
      hide Xor.Xor;
      AddTops(Reverse(a / 2, n - 1), Reverse(b / 2, n - 1), a % 2, b % 2, n - 1);
      Parities(a, b);
    }
  }

  lemma Parities(a: nat, b: nat)
    ensures (a % 2 + b % 2) % 2 == (a + b) % 2
  {
  }

  lemma {:induction false} ShiftIsPower(bit: nat, n: nat)
    requires bit < 2
    ensures ShiftLeft(bit, n) == At(bit, n)
  {
    if n > 0 {
      ShiftIsPower(bit, n - 1);
    }
  }

  lemma AddTops(a: nat, b: nat, i: nat, j: nat, n: nat)
    requires a < Pow2(n) && b < Pow2(n) && i < 2 && j < 2
    ensures Add(At(i, n) + a, At(j, n) + b) == At((i + j) % 2, n) + Add(a, b)
  {
    hide Xor.Xor;
    var k := (i + j) % 2;
    Bounded(a, b, n);
    ShiftIsPower(i, n);
    ShiftIsPower(j, n);
    ShiftIsPower(k, n);
    Disjoint(a, i, n);
    Disjoint(b, j, n);
    Disjoint(Add(a, b), k, n);
    AddSwap(a, ShiftLeft(i, n), b, ShiftLeft(j, n));
    ShiftAdds(i, j, n);
    AddBits(i, j);
  }

  lemma AddBits(i: nat, j: nat)
    requires i < 2 && j < 2
    ensures Add(i, j) == (i + j) % 2
  {
    Build(0, i, 0, j);
    Zero(0);
  }

  lemma {:induction false} ReverseTwice(c: nat, n: nat)
    requires c < Pow2(n)
    ensures Reverse(Reverse(c, n), n) == c
  {
    if n > 0 {
      ReverseTwice(c / 2, n - 1);
      ReverseBounded(c / 2, n - 1);
      ReverseTop(Reverse(c / 2, n - 1), c % 2, n - 1);
    }
  }

  /** The highest bit becomes the lowest. */
  lemma {:induction false} ReverseTop(c: nat, bit: nat, n: nat)
    requires c < Pow2(n) && bit < 2
    ensures Reverse(At(bit, n) + c, n + 1) == 2 * Reverse(c, n) + bit
  {
    if n > 0 {
      ReverseTop(c / 2, bit, n - 1);
      assert At(bit, n) == 2 * At(bit, n - 1);
      assert (At(bit, n) + c) / 2 == At(bit, n - 1) + c / 2 && (At(bit, n) + c) % 2 == c % 2;
    }
  }
}
