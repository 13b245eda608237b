/** Byte strings, segment lists and big-endian numbers. */
module Bytes {

  type byte = x: int | 0 <= x < 256

  /** The bytes of a segment list, in order. */
  function Flatten(parts: seq<seq<byte>>): seq<byte> {
    if parts == [] then [] else parts[0] + Flatten(parts[1..])
  }

  lemma {:induction false} FlattenConcat(a: seq<seq<byte>>, b: seq<seq<byte>>)
    ensures Flatten(a + b) == Flatten(a) + Flatten(b)
  {
    if a == [] {
      assert a + b == b;
    } else {
      FlattenConcat(a[1..], b);
      assert (a + b)[1..] == a[1..] + b;
      assert a[0] + (Flatten(a[1..]) + Flatten(b)) == a[0] + Flatten(a[1..]) + Flatten(b);
    }
  }

  lemma FlattenSingle(part: seq<byte>)
    ensures Flatten([part]) == part
  {
    assert Flatten([part][1..]) == [];
  }

  /** Splitting a segment list at index i splits its bytes. */
  lemma FlattenSplit(parts: seq<seq<byte>>, i: nat)
    requires i <= |parts|
    ensures Flatten(parts) == Flatten(parts[..i]) + Flatten(parts[i..])
  {
    FlattenConcat(parts[..i], parts[i..]);
    assert parts == parts[..i] + parts[i..];
  }

  /** Segment i sits between the segments before and after it. */
  lemma FlattenAt(parts: seq<seq<byte>>, i: nat)
    requires i < |parts|
    ensures Flatten(parts[..i + 1]) == Flatten(parts[..i]) + parts[i]
    ensures Flatten(parts) == Flatten(parts[..i]) + parts[i] + Flatten(parts[i + 1..])
  {
    FlattenConcat(parts[..i], [parts[i]]);
    FlattenSingle(parts[i]);
    assert parts[..i + 1] == parts[..i] + [parts[i]];
    FlattenSplit(parts, i + 1);
  }

  function Pow256(width: nat): (p: nat)
    ensures p >= 1
  {
    if width == 0 then 1 else 256 * Pow256(width - 1)
  }

  /** The unsigned number that s spells in big-endian order. */
  function BigEndian(s: seq<byte>): (n: nat)
    ensures n < Pow256(|s|)
  {
    if s == [] then 0 else 256 * BigEndian(s[..|s| - 1]) + s[|s| - 1]
  }

  function ToBigEndian(n: nat, width: nat): (s: seq<byte>)
    requires n < Pow256(width)
    ensures |s| == width
  {
    if width == 0 then [] else ToBigEndian(n / 256, width - 1) + [n % 256]
  }

  lemma {:induction false} BigEndianInverse(n: nat, width: nat)
    requires n < Pow256(width)
    ensures BigEndian(ToBigEndian(n, width)) == n
  {
    if width > 0 {
      assert n / 256 < Pow256(width - 1);
      BigEndianInverse(n / 256, width - 1);
      var s := ToBigEndian(n, width);
      assert s[..|s| - 1] == ToBigEndian(n / 256, width - 1);
    }
  }

  lemma {:induction false} ToBigEndianInverse(s: seq<byte>)
    ensures ToBigEndian(BigEndian(s), |s|) == s
  {
    if s != [] {
      ToBigEndianInverse(s[..|s| - 1]);
      var n := BigEndian(s);
      assert n / 256 == BigEndian(s[..|s| - 1]) && n % 256 == s[|s| - 1];
      assert s == s[..|s| - 1] + [s[|s| - 1]];
    }
  }

  /** Equal numbers of equal width are equal byte strings. */
  lemma BigEndianInjective(s: seq<byte>, t: seq<byte>)
    requires |s| == |t| && BigEndian(s) == BigEndian(t)
    ensures s == t
  {
    ToBigEndianInverse(s);
    ToBigEndianInverse(t);
  }

  /** Two's complement reading of an unsigned number of the given width. */
  function ToSigned(n: nat, width: nat): (v: int)
    requires n < Pow256(width)
    ensures SignedFits(v, width)
  {
    if 2 * n >= Pow256(width) then n - Pow256(width) else n
  }

  predicate SignedFits(v: int, width: nat) {
    var bound: int := Pow256(width);
    -bound <= 2 * v < bound
  }

  function ToUnsigned(v: int, width: nat): (n: nat)
    requires SignedFits(v, width)
    ensures n < Pow256(width)
  {
    if v < 0 then v + Pow256(width) else v
  }

  lemma SignedInverse(n: nat, width: nat)
    requires n < Pow256(width)
    ensures ToUnsigned(ToSigned(n, width), width) == n
  {
  }

  lemma UnsignedInverse(v: int, width: nat)
    requires SignedFits(v, width)
    ensures ToSigned(ToUnsigned(v, width), width) == v
  {
  }

  lemma Pow256Values()
    ensures Pow256(1) == 0x100
    ensures Pow256(2) == 0x1_0000
    ensures Pow256(4) == 0x1_0000_0000
    ensures Pow256(8) == 0x1_0000_0000_0000_0000
  {
    assert Pow256(3) == 0x100_0000;
    assert Pow256(5) == 0x100_0000_0000;
    assert Pow256(6) == 0x1_0000_0000_0000;
    assert Pow256(7) == 0x100_0000_0000_0000;
  }
}
