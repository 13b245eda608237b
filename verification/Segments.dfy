/** Reading a byte string that arrives cut into segments, without joining them. */
module Segments {
  import opened Bytes
  import opened Errors
  import Xor
  import Crc32

  function Min(a: nat, b: nat): nat {
    if a < b then a else b
  }

  /** Segment i holds the bytes that start where the segments before it end. */
  lemma Locate(parts: seq<seq<byte>>, i: nat)
    requires i < |parts|
    ensures |Flatten(parts[..i])| + |parts[i]| == |Flatten(parts[..i + 1])| <= |Flatten(parts)|
    ensures Flatten(parts)[|Flatten(parts[..i])|..|Flatten(parts[..i + 1])|] == parts[i]
  {
    FlattenAt(parts, i);
  }

  lemma LocateByte(parts: seq<seq<byte>>, i: nat, k: nat)
    requires i < |parts| && k < |parts[i]|
    ensures |Flatten(parts[..i])| + k < |Flatten(parts)|
    ensures Flatten(parts)[|Flatten(parts[..i])| + k] == parts[i][k]
  {
    FlattenAt(parts, i);
  }

  lemma FlattenAll(parts: seq<seq<byte>>)
    ensures parts[..|parts|] == parts && Flatten(parts[..0]) == []
  {
  }

  lemma SliceOfSlice(s: seq<byte>, a: nat, b: nat, i: nat, j: nat)
    requires a <= b <= |s| && i <= j <= b - a
    ensures s[a..b][i..j] == s[a + i..a + j]
  {
    var t := s[a..b];
    assert forall k | i <= k < j :: t[k] == s[a + k];
  }

  lemma Abut(s: seq<byte>, a: nat, b: nat, c: nat)
    requires a <= b <= c <= |s|
    ensures s[a..b] + s[b..c] == s[a..c]
  {
  }

  method Crc32Of(parts: seq<seq<byte>>, length: nat) returns (crc: nat)
    ensures crc == Crc32.Checksum(Flatten(parts)[..Min(length, |Flatten(parts)|)])
  {
    hide Crc32.Update, Crc32.Register, Flatten, Xor.Xor;
    ghost var flat := Flatten(parts);
    assert flat[..0] == [];
    Crc32.RegisterEmpty(Crc32.INITIAL);
    var register := Crc32.INITIAL;
    var remaining: nat := length;
    var p := 0;
    FlattenAll(parts);
    while p < |parts|
      invariant p <= |parts| && remaining <= length
      invariant length - remaining <= |flat|
      invariant register == Crc32.Register(Crc32.INITIAL, flat[..length - remaining])
      invariant remaining > 0 ==> length - remaining == |Flatten(parts[..p])|
    {
      var part := parts[p];
      Locate(parts, p);
      var i := 0;
      while i < |part| && remaining > 0
        invariant i <= |part| && remaining <= length
        invariant length - remaining <= |flat|
        invariant register == Crc32.Register(Crc32.INITIAL, flat[..length - remaining])
        invariant remaining > 0 ==> length - remaining == |Flatten(parts[..p])| + i
      {
        ghost var done := length - remaining;
        LocateByte(parts, p, i);
        assert flat[done] == part[i];
        assert flat[..done + 1] == flat[..done] + [part[i]];
        Crc32.RegisterAppend(Crc32.INITIAL, flat[..done], part[i]);
        register := FeedByte(register, part[i]);
        i := i + 1;
        remaining := remaining - 1;
      }
      if remaining == 0 {
        break;
      }
      p := p + 1;
    }
    FlattenAll(parts);
    assert length - remaining == Min(length, |flat|);
    crc := Xor.Xor(register, Crc32.INITIAL);
  }

  /** The inner loop over the eight bits of one byte. */
  method FeedByte(register: nat, b: byte) returns (crc: nat)
    ensures crc == Crc32.Update(register, b)
  {
    hide Crc32.ShiftBit;
    crc := Xor.Xor(register, b);
    for bit := 0 to 8
      invariant Crc32.ShiftBits(Xor.Xor(register, b), bit) == crc
    {
      Crc32.ShiftBitsAdd(Xor.Xor(register, b), bit, 1);
      assert Crc32.ShiftBits(crc, 1) == Crc32.ShiftBits(Crc32.ShiftBit(crc), 0);
      crc := Crc32.ShiftBit(crc);
    }
  }

  method ByteAt(parts: seq<seq<byte>>, offset: nat) returns (r: Result<byte>)
    ensures offset < |Flatten(parts)| ==> r == Ok(Flatten(parts)[offset])
    ensures offset >= |Flatten(parts)| ==> r == Err(TruncatedFrame)
  {
    var rest: nat := offset;
    FlattenAll(parts);
    for p := 0 to |parts|
      invariant rest + |Flatten(parts[..p])| == offset
    {
      Locate(parts, p);
      if rest < |parts[p]| {
        LocateByte(parts, p, rest);
        return Ok(parts[p][rest]);
      }
      rest := rest - |parts[p]|;
    }
    FlattenAll(parts);
    r := Err(TruncatedFrame);
  }

  /** Four bytes read one at a time and put together most significant first. */
  method ReadU32(parts: seq<seq<byte>>, offset: nat) returns (r: Result<nat>)
    ensures offset + 4 <= |Flatten(parts)| ==> r == Ok(BigEndian(Flatten(parts)[offset..offset + 4]))
    ensures offset + 4 > |Flatten(parts)| ==> r == Err(TruncatedFrame)
  {
    var b0: byte :- ByteAt(parts, offset);
    var b1: byte :- ByteAt(parts, offset + 1);
    var b2: byte :- ByteAt(parts, offset + 2);
    var b3: byte :- ByteAt(parts, offset + 3);
    BigEndianFour(Flatten(parts)[offset..offset + 4]);
    r := Ok(0x100_0000 * (b0 as int) + 0x1_0000 * (b1 as int) + 0x100 * (b2 as int) + (b3 as int));
  }

  lemma BigEndianFour(s: seq<byte>)
    requires |s| == 4
    ensures BigEndian(s) == 0x100_0000 * (s[0] as int) + 0x1_0000 * (s[1] as int) + 0x100 * (s[2] as int) + (s[3] as int)
  {
    assert s[..3][..2] == s[..2] && s[..2][..1] == s[..1];
    assert BigEndian(s[..1]) == s[0];
    assert BigEndian(s[..2]) == 256 * (s[0] as int) + (s[1] as int);
    assert BigEndian(s[..3]) == 256 * BigEndian(s[..2]) + (s[2] as int);
  }

  method CopyRange(parts: seq<seq<byte>>, offset: nat, length: nat) returns (r: Result<seq<byte>>)
    ensures offset + length <= |Flatten(parts)| ==> r == Ok(Flatten(parts)[offset..offset + length])
    ensures length == 0 ==> r == Ok([])
    ensures length > 0 && offset + length > |Flatten(parts)| ==> r == Err(TruncatedFrame)
  {
    hide Flatten;
    ghost var flat := Flatten(parts);
    var out: seq<byte> := [];
    var skip: nat := offset;
    var p := 0;
    FlattenAll(parts);
    while p < |parts|
      invariant p <= |parts| && |out| <= length
      invariant out == [] ==> skip + |Flatten(parts[..p])| == offset
      invariant out != [] ==> skip == 0 && |Flatten(parts[..p])| == offset + |out| <= |flat|
      invariant out != [] ==> out == flat[offset..offset + |out|]
      invariant out != [] ==> |out| < length
    {
      Locate(parts, p);
      var part := parts[p];
      if skip >= |part| {
        skip := skip - |part|;
        p := p + 1;
        continue;
      }
      var count := Min(|part| - skip, length - |out|);
      ghost var start := |Flatten(parts[..p])| + skip;
      assert start == offset + |out|;
      assert part == flat[|Flatten(parts[..p])|..|Flatten(parts[..p + 1])|];
      SliceOfSlice(flat, |Flatten(parts[..p])|, |Flatten(parts[..p + 1])|, skip, skip + count);
      assert part[skip..skip + count] == flat[start..start + count];
      Abut(flat, offset, start, start + count);
      out := out + part[skip..skip + count];
      skip := 0;
      if |out| == length {
        break;
      }
      p := p + 1;
    }
    FlattenAll(parts);
    if |out| != length {
      return Err(TruncatedFrame);
    }
    r := Ok(out);
  }
}
