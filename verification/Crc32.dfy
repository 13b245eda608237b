/**
 The cyclic redundancy check of section 8 of RFC 1952, computed bit by bit over a
 segment list, and what it detects. A register is a number below 2^32: >>> 1 is
 halving, and & 1 is the remainder by two.
 */
module Crc32 {
  import opened Bytes
  import Xor

  const POLYNOMIAL: nat := 0xedb8_8320
  const LIMIT: nat := 0x1_0000_0000
  const INITIAL: nat := 0xffff_ffff

  /** One turn of the reflected shift register. */
  function ShiftBit(c: nat): nat {
    Xor.Xor(c / 2, if c % 2 == 1 then POLYNOMIAL else 0)
  }

  function ShiftBits(c: nat, n: nat): nat
    decreases n
  {
    if n == 0 then c else ShiftBits(ShiftBit(c), n - 1)
  }

  /** The register after one more byte. */
  function Update(c: nat, b: byte): nat {
    ShiftBits(Xor.Xor(c, b), 8)
  }

  /** The register after the bytes of s. */
  function Register(c: nat, s: seq<byte>): nat
    decreases |s|
  {
    if s == [] then c else Register(Update(c, s[0]), s[1..])
  }

  /** The checksum of s, as the unsigned number the decoder compares. */
  function Checksum(s: seq<byte>): nat {
    Xor.Xor(Register(INITIAL, s), INITIAL)
  }

  // ---- the register stays within 32 bits ----

  lemma Limit()
    ensures Xor.Pow2(31) == 0x8000_0000 && Xor.Pow2(32) == LIMIT
  {
    assert Xor.Pow2(8) == 0x100;
    assert Xor.Pow2(16) == 0x1_0000;
    assert Xor.Pow2(24) == 0x100_0000;
    assert Xor.Pow2(31) == 0x8000_0000;
  }

  lemma ShiftBitBounded(c: nat)
    requires c < LIMIT
    ensures ShiftBit(c) < LIMIT
  {
    Limit();
    Xor.Bounded(c / 2, if c % 2 == 1 then POLYNOMIAL else 0, 32);
  }

  lemma {:induction false} ShiftBitsBounded(c: nat, n: nat)
    requires c < LIMIT
    ensures ShiftBits(c, n) < LIMIT
    decreases n
  {
    if n > 0 {
      ShiftBitBounded(c);
      ShiftBitsBounded(ShiftBit(c), n - 1);
    }
  }

  lemma UpdateBounded(c: nat, b: byte)
    requires c < LIMIT
    ensures Xor.Xor(c, b) < LIMIT && Update(c, b) < LIMIT
  {
    Limit();
    Xor.Bounded(c, b, 32);
    ShiftBitsBounded(Xor.Xor(c, b), 8);
  }

  lemma {:induction false} RegisterBounded(c: nat, s: seq<byte>)
    requires c < LIMIT
    ensures Register(c, s) < LIMIT
    decreases |s|
  {
    if s != [] {
      UpdateBounded(c, s[0]);
      RegisterBounded(Update(c, s[0]), s[1..]);
    }
  }

  lemma ChecksumBounded(s: seq<byte>)
    ensures Checksum(s) < LIMIT
  {
    Limit();
    RegisterBounded(INITIAL, s);
    Xor.Bounded(Register(INITIAL, s), INITIAL, 32);
  }

  lemma RegisterEmpty(c: nat)
    ensures Register(c, []) == c
  {
  }

  lemma {:induction false} RegisterConcat(c: nat, s: seq<byte>, t: seq<byte>)
    ensures Register(c, s + t) == Register(Register(c, s), t)
    decreases |s|
  {
    hide Update;
    if s == [] {
      assert s + t == t;
    } else {
      assert (s + t)[0] == s[0];
      RegisterConcat(Update(c, s[0]), s[1..], t);
      assert (s + t)[1..] == s[1..] + t;
    }
  }

  lemma RegisterAppend(c: nat, s: seq<byte>, b: byte)
    ensures Register(c, s + [b]) == Update(Register(c, s), b)
  {
    RegisterConcat(c, s, [b]);
    assert [b][1..] == [];
  }

  // ---- what a change of bytes does to the register ----

  /** The polynomial has its top bit set, so the bit shifted out can be told from the result. */
  lemma ShiftBitInjective(x: nat, y: nat)
    requires x < LIMIT && y < LIMIT
    requires ShiftBit(x) == ShiftBit(y)
    ensures x == y
  {
    if x % 2 == y % 2 {
      Xor.Cancel(x / 2, y / 2, if x % 2 == 1 then POLYNOMIAL else 0);
    } else {
      var odd, even := if x % 2 == 1 then x else y, if x % 2 == 1 then y else x;
      Xor.Zero(even / 2);
      Xor.Zero(odd / 2);
      Xor.Associates(odd / 2, odd / 2, POLYNOMIAL);
      Xor.Commutes(0, POLYNOMIAL);
      Xor.Zero(POLYNOMIAL);
      assert Xor.Xor(odd / 2, even / 2) == POLYNOMIAL;
      Limit();
      Xor.Bounded(odd / 2, even / 2, 31);
      assert false;
    }
  }

  lemma {:induction false} ShiftBitsInjective(x: nat, y: nat, n: nat)
    requires x < LIMIT && y < LIMIT
    requires ShiftBits(x, n) == ShiftBits(y, n)
    ensures x == y
    decreases n
  {
    if n > 0 {
      ShiftBitBounded(x);
      ShiftBitBounded(y);
      ShiftBitsInjective(ShiftBit(x), ShiftBit(y), n - 1);
      ShiftBitInjective(x, y);
    }
  }

  /** Feeding the same bytes keeps different registers different. */
  lemma {:induction false} RegisterInjective(c: nat, d: nat, s: seq<byte>)
    requires c < LIMIT && d < LIMIT
    requires Register(c, s) == Register(d, s)
    ensures c == d
    decreases |s|
  {
    if s != [] {
      UpdateBounded(c, s[0]);
      UpdateBounded(d, s[0]);
      RegisterInjective(Update(c, s[0]), Update(d, s[0]), s[1..]);
      ShiftBitsInjective(Xor.Xor(c, s[0]), Xor.Xor(d, s[0]), 8);
      Xor.Cancel(c, d, s[0]);
    }
  }

  // ---- bursts of up to four bytes ----

  /** A pattern that avoids the lowest n bits passes n turns by plain halving. */
  lemma {:induction false} ShiftBitsPass(c: nat, y: nat, n: nat)
    ensures ShiftBits(Xor.Xor(c, Xor.ShiftLeft(y, n)), n) == Xor.Xor(ShiftBits(c, n), y)
    decreases n
  {
    if n > 0 {
      ShiftBitPasses(c, Xor.ShiftLeft(y, n - 1));
      ShiftBitsPass(ShiftBit(c), y, n - 1);
    }
  }

  lemma ShiftBitPasses(c: nat, y: nat)
    ensures ShiftBit(Xor.Xor(c, 2 * y)) == Xor.Xor(ShiftBit(c), y)
  {
    hide Xor.Xor;
    Xor.Build(c / 2, c % 2, y, 0);
    var feedback := if c % 2 == 1 then POLYNOMIAL else 0;
    Xor.Associates(c / 2, y, feedback);
    Xor.Commutes(y, feedback);
    Xor.Associates(c / 2, feedback, y);
  }

  /** The number s spells with its first byte least significant. */
  function LittleEndian(s: seq<byte>): nat {
    if s == [] then 0 else s[0] + 256 * LittleEndian(s[1..])
  }

  lemma {:induction false} LittleEndianInjective(s: seq<byte>, t: seq<byte>)
    requires |s| == |t| && LittleEndian(s) == LittleEndian(t)
    ensures s == t
  {
    if s != [] {
      assert s[0] == LittleEndian(s) % 256 && t[0] == LittleEndian(t) % 256;
      LittleEndianInjective(s[1..], t[1..]);
      assert s == [s[0]] + s[1..] && t == [t[0]] + t[1..];
    }
  }

  lemma ShiftLeftEight(y: nat)
    ensures Xor.Pow2(8) == 256 && Xor.ShiftLeft(y, 8) == 256 * y
  {
    assert Xor.ShiftLeft(y, 1) == 2 * y;
    assert Xor.ShiftLeft(y, 2) == 4 * y;
    assert Xor.ShiftLeft(y, 3) == 8 * y;
    assert Xor.ShiftLeft(y, 4) == 16 * y;
    assert Xor.ShiftLeft(y, 5) == 32 * y;
    assert Xor.ShiftLeft(y, 6) == 64 * y;
    assert Xor.ShiftLeft(y, 7) == 128 * y;
  }

  lemma AbsorbByte(c: nat, b: byte, rest: nat)
    ensures Xor.Xor(Update(c, b), rest) == ShiftBits(Xor.Xor(c, b + 256 * rest), 8)
  {
    hide ShiftBits, ShiftBit, Xor.Xor;
    ShiftLeftEight(rest);
    ShiftBitsPass(Xor.Xor(c, b), rest, 8);
    Xor.Disjoint(b, rest, 8);
    Xor.Associates(c, b, 256 * rest);
  }

  /** Feeding bytes one by one is feeding their little-endian word at once. */
  lemma {:induction false} RegisterOfWord(c: nat, s: seq<byte>)
    ensures Register(c, s) == ShiftBits(Xor.Xor(c, LittleEndian(s)), 8 * |s|)
    decreases |s|
  {
    hide Update, Xor.Xor, ShiftBits;
    if s == [] {
      Xor.Zero(c);
      NoShift(c);
    } else {
      RegisterOfWord(Update(c, s[0]), s[1..]);
      AbsorbByte(c, s[0], LittleEndian(s[1..]));
      ShiftBitsAdd(Xor.Xor(c, LittleEndian(s)), 8, 8 * |s[1..]|);
    }
  }

  lemma NoShift(c: nat)
    ensures ShiftBits(c, 0) == c
  {
  }

  lemma {:induction false} ShiftBitsAdd(c: nat, m: nat, n: nat)
    ensures ShiftBits(c, m + n) == ShiftBits(ShiftBits(c, m), n)
    decreases m
  {
    if m > 0 {
      ShiftBitsAdd(ShiftBit(c), m - 1, n);
    }
  }

  /** From one register, different bytes (at most four of them) lead to different registers. */
  lemma BurstSeparates(c: nat, s: seq<byte>, t: seq<byte>)
    requires c < LIMIT && |s| == |t| <= 4
    requires Register(c, s) == Register(c, t)
    ensures s == t
  {
    RegisterOfWord(c, s);
    RegisterOfWord(c, t);
    WordBounded(c, s);
    WordBounded(c, t);
    ShiftBitsInjective(Xor.Xor(c, LittleEndian(s)), Xor.Xor(c, LittleEndian(t)), 8 * |s|);
    Xor.CancelLeft(LittleEndian(s), LittleEndian(t), c);
    LittleEndianInjective(s, t);
  }

  lemma WordBounded(c: nat, s: seq<byte>)
    requires c < LIMIT && |s| <= 4
    ensures Xor.Xor(c, LittleEndian(s)) < LIMIT
  {
    LittleEndianBounded(s);
    Limit();
    assert Pow256(4) == 256 * Pow256(3) == LIMIT by { Pow256Values(); }
    Pow256Grows(|s|, 4);
    Xor.Bounded(c, LittleEndian(s), 32);
  }

  lemma {:induction false} LittleEndianBounded(s: seq<byte>)
    ensures LittleEndian(s) < Pow256(|s|)
  {
    if s != [] {
      LittleEndianBounded(s[1..]);
    }
  }

  lemma {:induction false} Pow256Grows(m: nat, n: nat)
    requires m <= n
    ensures Pow256(m) <= Pow256(n)
  {
    if m < n {
      Pow256Grows(m, n - 1);
    }
  }

  /**
   The main detection result: two byte strings of equal length that differ, but only
   within one window of at most four adjacent bytes, have different checksums.
   */
  lemma BurstDetected(before: seq<byte>, s: seq<byte>, t: seq<byte>, after: seq<byte>)
    requires |s| == |t| <= 4 && s != t
    ensures Checksum(before + s + after) != Checksum(before + t + after)
  {
    var c := Register(INITIAL, before);
    RegisterBounded(INITIAL, before);
    if Checksum(before + s + after) == Checksum(before + t + after) {
      Xor.Cancel(Register(INITIAL, before + s + after), Register(INITIAL, before + t + after), INITIAL);
      RegisterConcat(INITIAL, before + s, after);
      RegisterConcat(INITIAL, before + t, after);
      RegisterConcat(INITIAL, before, s);
      RegisterConcat(INITIAL, before, t);
      RegisterBounded(c, s);
      RegisterBounded(c, t);
      RegisterInjective(Register(c, s), Register(c, t), after);
      BurstSeparates(c, s, t);
    }
  }
}
