/**
 What the checksum is: section 8 of RFC 1952 takes the remainder of the message, read as a
 polynomial over the field of two elements with the lowest bit of the first byte in front. The
 first 32 bits of the message and the remainder are complemented.
 */
module CrcRemainders {
  import opened Bytes
  import opened Crc32
  import opened Polynomials
  import Xor

  /** x^32 + x^26 + x^23 + x^22 + x^16 + x^12 + x^11 + x^10 + x^8 + x^7 + x^5 + x^4 + x^2 + x + 1 */
  const GENERATOR: nat := OfExponents([32, 26, 23, 22, 16, 12, 11, 10, 8, 7, 5, 4, 2, 1, 0])

  const ONES: nat := 0xffff_ffff

  /** The message as a polynomial: each byte with its lowest bit first. */
  function Message(s: seq<byte>): nat {
    if s == [] then 0
    else Add(Xor.ShiftLeft(Message(s[..|s| - 1]), 8), Reverse(s[|s| - 1], 8))
  }

  /** The message times x^32, with its first 32 bits complemented. */
  function Dividend(s: seq<byte>): nat {
    Add(Xor.ShiftLeft(Message(s), 32), Xor.ShiftLeft(ONES, 8 * |s|))
  }

  lemma Powers()
    ensures Xor.Pow2(4) == 0x10 && Xor.Pow2(8) == 0x100 && Xor.Pow2(12) == 0x1000 && Xor.Pow2(16) == 0x1_0000
    ensures Xor.Pow2(20) == 0x10_0000 && Xor.Pow2(24) == 0x100_0000 && Xor.Pow2(28) == 0x1000_0000
    ensures Xor.Pow2(32) == 0x1_0000_0000
  {
  }

  lemma GeneratorValue()
    ensures GENERATOR == 0x1_04c1_1db7
  {
    Powers();
    assert OfExponents([0]) == 0x1;
    assert OfExponents([4, 2, 1, 0]) == 0x17;
    assert OfExponents([8, 7, 5, 4, 2, 1, 0]) == 0x1b7;
    assert OfExponents([12, 11, 10, 8, 7, 5, 4, 2, 1, 0]) == 0x1db7;
    assert OfExponents([23, 22, 16, 12, 11, 10, 8, 7, 5, 4, 2, 1, 0]) == 0xc11db7;
  }

  lemma ReversedPolynomial()
    ensures Reverse(POLYNOMIAL, 32) == 0x04c1_1db7
  {
    Powers();
    assert Reverse(0xe, 4) == 0x7;
    assert Reverse(0xed, 8) == 0xb7;
    assert Reverse(0xedb, 12) == 0xdb7;
    assert Reverse(0xedb8, 16) == 0x1db7;
    assert Reverse(0xedb88, 20) == 0x11db7;
    assert Reverse(0xedb883, 24) == 0xc11db7;
    assert Reverse(0xedb8832, 28) == 0x4c11db7;
    assert Reverse(0xedb88320, 32) == 0x4c11db7;
  }

  // ---- the register holds the remainder ----

  /** 2^32 and what is below it, added. */
  lemma WithTop(y: nat)
    requires y < LIMIT
    ensures LIMIT + y == Add(y, LIMIT)
  {
    Limit();
    Xor.Disjoint(y, 1, 32);
    ShiftIsPower(1, 32);
  }

  lemma DoubledReverse(c: nat)
    requires c < LIMIT
    ensures Reverse(c / 2, 32) < LIMIT
    ensures 2 * Reverse(c, 32) == (if c % 2 == 1 then LIMIT else 0) + Reverse(c / 2, 32)
  {
    Limit();
    ReverseMore(c / 2, 31);
    ReverseBounded(c / 2, 32);
  }

  /** The bit that leaves at the top is replaced by the lower part of the generator. */
  lemma OddTurn(y: nat)
    requires y < LIMIT
    ensures Add(y, 0x04c1_1db7) == Add(LIMIT + y, 0x1_04c1_1db7)
  {
    hide Xor.Xor;
    WithTop(y);
    WithTop(0x04c1_1db7);
    AddSwap(y, LIMIT, 0x04c1_1db7, LIMIT);
    Xor.Zero(LIMIT);
    Xor.Zero(Add(y, 0x04c1_1db7));
  }

  lemma TurnReversed(c: nat)
    ensures Reverse(ShiftBit(c), 32)
         == Add(Reverse(c / 2, 32), if c % 2 == 1 then Reverse(POLYNOMIAL, 32) else Reverse(0, 32))
  {
    ReverseAdds(c / 2, if c % 2 == 1 then POLYNOMIAL else 0, 32);
    hide Xor.Xor, Reverse;
  }

  lemma {:induction false} ReverseNothing(n: nat)
    ensures Reverse(0, n) == 0
  {
    if n > 0 {
      ReverseNothing(n - 1);
    }
  }

  /** One turn of the register multiplies the polynomial it holds by x, modulo the generator. */
  lemma TurnMeaning(c: nat)
    requires c < LIMIT
    ensures Reverse(ShiftBit(c), 32) == Add(2 * Reverse(c, 32), if c % 2 == 1 then GENERATOR else 0)
  {
    hide Xor.Xor, Reverse, OfExponents, ShiftBit;
    TurnReversed(c);
    ReversedPolynomial();
    GeneratorValue();
    DoubledReverse(c);
    ReverseNothing(32);
    OddTurn(Reverse(c / 2, 32));
  }

  lemma TurnCongruent(c: nat)
    requires c < LIMIT
    ensures Congruent(2 * Reverse(c, 32), Reverse(ShiftBit(c), 32), GENERATOR)
  {
    hide Xor.Xor, Reverse, ShiftBit, OfExponents;
    TurnMeaning(c);
    var r := 2 * Reverse(c, 32);
    if c % 2 == 1 {
      CongruentOnce(r, GENERATOR);
      CongruentBack(Add(r, GENERATOR), r, GENERATOR);
    } else {
      Xor.Zero(r);
      CongruentSelf(r, GENERATOR);
    }
  }

  lemma {:induction false} TurnsCongruent(c: nat, n: nat)
    requires c < LIMIT
    ensures Congruent(Xor.ShiftLeft(Reverse(c, 32), n), Reverse(ShiftBits(c, n), 32), GENERATOR)
    decreases n
  {
    hide Reverse, ShiftBit, Congruent, OfExponents;
    if n == 0 {
      CongruentSelf(Reverse(c, 32), GENERATOR);
    } else {
      ShiftBitBounded(c);
      TurnsCongruent(ShiftBit(c), n - 1);
      TurnCongruent(c);
      var a, b := 2 * Reverse(c, 32), Reverse(ShiftBit(c), 32);
      CongruentShift(a, b, n - 1, GENERATOR);
      ShiftTwice(Reverse(c, 32), 1, n - 1);
      ShiftOnce(Reverse(c, 32));
      CongruentTrans(Xor.ShiftLeft(a, n - 1), Xor.ShiftLeft(b, n - 1), Reverse(ShiftBits(c, n), 32), GENERATOR);
    }
  }

  lemma ShiftOnce(a: nat)
    ensures Xor.ShiftLeft(a, 1) == 2 * a
  {
    assert Xor.ShiftLeft(a, 0) == a;
  }

  lemma {:induction false} ReverseWide(c: nat, n: nat, k: nat)
    requires c < Xor.Pow2(n)
    ensures Reverse(c, n + k) == Xor.ShiftLeft(Reverse(c, n), k)
    decreases k
  {
    if k > 0 {
      ReverseWide(c, n, k - 1);
      WiderPower(n, k - 1);
      ReverseMore(c, n + k - 1);
    }
  }

  lemma {:induction false} WiderPower(n: nat, k: nat)
    ensures Xor.Pow2(n) <= Xor.Pow2(n + k)
  {
    if k > 0 {
      WiderPower(n, k - 1);
    }
  }

  lemma ByteReversed(c: nat, b: byte)
    ensures Reverse(Xor.Xor(c, b), 32) == Add(Reverse(c, 32), Xor.ShiftLeft(Reverse(b, 8), 24))
  {
    hide Xor.Xor, Reverse, Xor.ShiftLeft;
    Powers();
    ReverseWide(b, 8, 24);
    ReverseAdds(c, b, 32);
  }

  /** One byte: the polynomial times x^8, and the byte's own bits times x^32. */
  lemma ByteCongruent(c: nat, b: byte)
    requires c < LIMIT
    ensures Congruent(Add(Xor.ShiftLeft(Reverse(c, 32), 8), Xor.ShiftLeft(Reverse(b, 8), 32)),
                      Reverse(Update(c, b), 32), GENERATOR)
  {
    UpdateBounded(c, b);
    hide Xor.Xor, Reverse, ShiftBits, Congruent, OfExponents, Xor.ShiftLeft;
    ByteReversed(c, b);
    TurnsCongruent(Xor.Xor(c, b), 8);
    ShiftAdds(Reverse(c, 32), Xor.ShiftLeft(Reverse(b, 8), 24), 8);
    ShiftTwice(Reverse(b, 8), 24, 8);
  }

  lemma {:induction false} ReverseOnes(n: nat)
    ensures Reverse(Xor.Pow2(n) - 1, n) == Xor.Pow2(n) - 1
  {
    if n > 0 {
      ReverseOnes(n - 1);
      assert (Xor.Pow2(n) - 1) / 2 == Xor.Pow2(n - 1) - 1 && (Xor.Pow2(n) - 1) % 2 == 1;
    }
  }

  lemma OnesBothWays()
    ensures Reverse(ONES, 32) == ONES && ONES == INITIAL
  {
    Powers();
    ReverseOnes(32);
  }

  lemma MessageGrows(s: seq<byte>, b: byte)
    ensures Message(s + [b]) == Add(Xor.ShiftLeft(Message(s), 8), Reverse(b, 8))
  {
    assert (s + [b])[..|s|] == s;
    hide Xor.Xor, Reverse, Xor.ShiftLeft;
  }

  /** Shifting first by 8 and then by 32, or the other way round, and adding in any order. */
  lemma Regroup(m: nat, low: nat, ones: nat)
    ensures Add(Xor.ShiftLeft(Add(Xor.ShiftLeft(m, 8), low), 32), Xor.ShiftLeft(ones, 8))
         == Add(Xor.ShiftLeft(Add(Xor.ShiftLeft(m, 32), ones), 8), Xor.ShiftLeft(low, 32))
  {
    hide Xor.Xor, Xor.ShiftLeft;
    ShiftAdds(Xor.ShiftLeft(m, 8), low, 32);
    ShiftTwice(m, 8, 32);
    ShiftTwice(m, 32, 8);
    ShiftAdds(Xor.ShiftLeft(m, 32), ones, 8);
    var top, tail, fill := Xor.ShiftLeft(m, 40), Xor.ShiftLeft(low, 32), Xor.ShiftLeft(ones, 8);
    Xor.Associates(top, tail, fill);
    Xor.Commutes(tail, fill);
    Xor.Associates(top, fill, tail);
  }

  /** One byte more: everything moves up by eight, and the byte comes in at x^32. */
  lemma DividendGrows(s: seq<byte>, b: byte)
    ensures Dividend(s + [b]) == Add(Xor.ShiftLeft(Dividend(s), 8), Xor.ShiftLeft(Reverse(b, 8), 32))
  {
    hide Xor.Xor, Reverse, Xor.ShiftLeft, Message;
    MessageGrows(s, b);
    ShiftTwice(ONES, 8 * |s|, 8);
    Regroup(Message(s), Reverse(b, 8), Xor.ShiftLeft(ONES, 8 * |s|));
  }

  lemma {:induction false} RegisterMeaning(s: seq<byte>)
    ensures Congruent(Dividend(s), Reverse(Register(INITIAL, s), 32), GENERATOR)
  {
    if s == [] {
      OnesBothWays();
      EmptyDividend();
      CongruentSelf(ONES, GENERATOR);
    } else {
      var front, b := s[..|s| - 1], s[|s| - 1];
      assert s == front + [b];
      RegisterMeaning(front);
      RegisterAppend(INITIAL, front, b);
      RegisterBounded(INITIAL, front);
      hide Congruent, Dividend, Reverse, Register, Update, OfExponents, Xor.ShiftLeft;
      var c := Register(INITIAL, front);
      ByteCongruent(c, b);
      DividendGrows(front, b);
      var low := Xor.ShiftLeft(Reverse(b, 8), 32);
      CongruentShift(Dividend(front), Reverse(c, 32), 8, GENERATOR);
      CongruentAdd(Xor.ShiftLeft(Dividend(front), 8), Xor.ShiftLeft(Reverse(c, 32), 8), low, GENERATOR);
      CongruentTrans(Dividend(s), Add(Xor.ShiftLeft(Reverse(c, 32), 8), low), Reverse(Update(c, b), 32), GENERATOR);
    }
  }

  lemma {:induction false} NothingShifted(n: nat)
    ensures Xor.ShiftLeft(0, n) == 0
  {
    if n > 0 {
      NothingShifted(n - 1);
    }
  }

  lemma EmptyDividend()
    ensures Dividend([]) == ONES
  {
    NothingShifted(32);
    Xor.Zero(ONES);
    Xor.Commutes(0, ONES);
  }

  /**
   A number is the checksum of a message exactly when, with its bits reversed and complemented,
   it is what remains of the message when it is divided by the generator.
   */
  lemma ChecksumIff(s: seq<byte>, c: nat)
    requires c < 0x1_0000_0000
    ensures c == Checksum(s) <==> IsRemainder(Dividend(s), GENERATOR, 32, Add(Reverse(c, 32), ONES))
  {
    var r := Register(INITIAL, s);
    RegisterBounded(INITIAL, s);
    RegisterMeaning(s);
    OnesBothWays();
    GeneratorValue();
    Powers();
    Limit();
    ReverseAdds(r, ONES, 32);
    ReverseBounded(r, 32);
    ReverseBounded(c, 32);
    hide Xor.Xor, Reverse, Congruent, Dividend, Register, Xor.Pow2, OfExponents;
    AddBack(Reverse(r, 32), ONES);
    assert Xor.Pow2(33) == 2 * Xor.Pow2(32) by { Doubled(); }
    if IsRemainder(Dividend(s), GENERATOR, 32, Add(Reverse(c, 32), ONES)) {
      RemainderUnique(Dividend(s), GENERATOR, 32, Add(Reverse(c, 32), ONES), Reverse(r, 32));
      AddBack(Reverse(c, 32), ONES);
      ChecksumBounded(s);
      ReverseTwice(c, 32);
      ReverseTwice(Checksum(s), 32);
    }
  }

  lemma Doubled()
    ensures Xor.Pow2(33) == 2 * Xor.Pow2(32)
  {
  }
}
