/** Which error each kind of bad input ends in. */
module Refusals {
  import opened Bytes
  import opened Errors
  import Crc32
  import Decoder
  import Frames
  import Headers
  import Utf8

  // ---- frames ----

  /** A frame that has begun and not ended asks for more bytes. */
  lemma PrefixWaits(f: Frames.Frame, n: nat)
    requires Frames.ValidFrame(f) && n < |Frames.Encode(f)|
    ensures Frames.Next(Frames.Encode(f)[..n]) == Frames.NeedMore
  {
    Frames.EncodingMeaning(f);
    Frames.EncodingChecks(f);
    hide Frames.Encode, Crc32.Checksum, BigEndian, Headers.Decode, Headers.EncodeFrom, Headers.ValidHeaders;
    var s := Frames.Encode(f);
    var t := s[..n];
    if n >= 12 {
      assert t[0..4] == s[0..4] && t[4..8] == s[4..8] && t[8..12] == s[8..12] && t[..8] == s[..8];
    }
  }

  /** Input that ends within a frame: the frames before it come out, and then it is truncated, or the source's own error. */
  lemma TruncatedEnd(frames: seq<Frames.Frame>, f: Frames.Frame, n: nat, tail: Frames.Tail)
    requires (forall g <- frames :: Frames.ValidFrame(g)) && Frames.ValidFrame(f) && 0 < n < |Frames.Encode(f)|
    ensures Frames.Parse(Frames.EncodeAll(frames) + Frames.Encode(f)[..n], tail)
         == (frames, Frames.Failed(if tail.Breaks? then tail.error else TruncatedFrame))
  {
    PrefixWaits(f, n);
    hide Frames.Next, Frames.Encode, Frames.EncodeAll, Frames.ValidFrame;
    Frames.ParseEncoded(frames, Frames.Encode(f)[..n], tail);
    assert frames + [] == frames;
  }

  lemma SealedLengths(lengths: seq<byte>)
    requires |lengths| == 8
    ensures var prelude := Frames.Sealed(lengths);
            |prelude| == 12 && prelude[..8] == lengths && BigEndian(prelude[8..12]) == Crc32.Checksum(lengths)
  {
    Frames.SealedCheck(lengths);
    hide Frames.Sealed, BigEndian, Crc32.Checksum;
    var prelude := Frames.Sealed(lengths);
    assert prelude[8..12] == prelude[8..];
  }

  lemma FrontOf(prelude: seq<byte>, rest: seq<byte>)
    requires |prelude| == 12
    ensures var s := prelude + rest;
            && s[..8] == prelude[..8] && s[8..12] == prelude[8..12]
            && s[0..4] == prelude[..8][..4] && s[4..8] == prelude[..8][4..]
  {
  }

  lemma TwoWords(a: seq<byte>, b: seq<byte>)
    requires |a| == 4
    ensures (a + b)[..4] == a && (a + b)[4..] == b
  {
  }

  lemma PreludeOf(total: nat, headers: nat, rest: seq<byte>)
    requires total < Pow256(4) && headers < Pow256(4)
    ensures var s := Frames.Sealed(ToBigEndian(total, 4) + ToBigEndian(headers, 4)) + rest;
            |s| >= 12 && Frames.U32(s, 0) == total && Frames.U32(s, 4) == headers && Frames.PreludeChecks(s)
  {
    hide ToBigEndian, BigEndian, Crc32.Checksum, Frames.Sealed;
    var lengths := ToBigEndian(total, 4) + ToBigEndian(headers, 4);
    SealedLengths(lengths);
    FrontOf(Frames.Sealed(lengths), rest);
    TwoWords(ToBigEndian(total, 4), ToBigEndian(headers, 4));
    BigEndianInverse(total, 4);
    BigEndianInverse(headers, 4);
  }

  /** Lengths that cannot be, under a right checksum. */
  lemma BadLengths(total: nat, headers: nat, rest: seq<byte>)
    requires total < 0x1_0000_0000 && headers < 0x1_0000_0000 && (total < 16 || headers > total - 16)
    ensures total < Pow256(4) && headers < Pow256(4)
    ensures Frames.Next(Frames.Sealed(ToBigEndian(total, 4) + ToBigEndian(headers, 4)) + rest)
         == Frames.Bad(InvalidFrameLength)
  {
    Pow256Values();
    PreludeOf(total, headers, rest);
    hide Frames.Sealed, ToBigEndian, BigEndian, Crc32.Checksum, Headers.Decode, Frames.U32, Frames.PreludeChecks;
  }

  lemma WrongPrelude(s: seq<byte>)
    requires |s| >= 12
    ensures Frames.Next(s) == Frames.Bad(PreludeChecksum) <==> !Frames.PreludeChecks(s)
  {
    hide Frames.PreludeChecks, Frames.MessageChecks, Frames.U32, Headers.Decode;
    if Frames.PreludeChecks(s) {
      DecodeErrors(s);
    }
  }

  lemma {:induction false} NoChecksums(s: seq<byte>, seen: set<Utf8.Text>)
    ensures Headers.DecodeFrom(s, seen) != Err(PreludeChecksum)
    decreases |s|
  {
    if s != [] {
      HeaderErrors(s[0], s[1..]);
      assert [s[0]] + s[1..] == s;
      ValueNoChecksum(s);
      hide Headers.DecodeHeader;
      if Headers.DecodeHeader(s).Ok? {
        var h := Headers.DecodeHeader(s).value;
        Headers.DecodeHeaderFits(s);
        NoChecksums(s[h.size..], seen + {h.item.name});
      }
    }
  }

  lemma ValueNoChecksum(s: seq<byte>)
    requires s != []
    ensures Headers.DecodeHeader(s) != Err(PreludeChecksum)
  {
    var n := s[0];
    if 0 < n as int && 1 + n as int + 1 <= |s| {
      OnlyUtf8(s[1..1 + n as int]);
      NoChecksumValue(s[1 + n as int], s[2 + n as int..]);
    }
    hide Headers.DecodeValue, Utf8.Decode;
  }

  lemma NoChecksumValue(tag: byte, s: seq<byte>)
    ensures Headers.DecodeValue(tag, s) != Err(PreludeChecksum)
  {
    if tag == 7 && |s| >= 2 && 2 + BigEndian(s[..2]) <= |s| {
      OnlyUtf8(s[2..2 + BigEndian(s[..2])]);
    }
    hide Utf8.Decode, BigEndian;
  }

  lemma DecodeErrors(s: seq<byte>)
    requires |s| >= 12
    ensures forall n | 12 <= n <= |s| :: Headers.Decode(s[12..n]) != Err(PreludeChecksum)
  {
    forall n | 12 <= n <= |s|
      ensures Headers.Decode(s[12..n]) != Err(PreludeChecksum)
    {
      NoChecksums(s[12..n], {});
    }
    hide Headers.DecodeFrom;
  }

  lemma SamePrelude(s: seq<byte>, t: seq<byte>)
    requires |s| >= 12 && |t| >= 12 && t[..12] == s[..12]
    ensures Frames.PreludeChecks(t) == Frames.PreludeChecks(s)
  {
    assert t[..8] == t[..12][..8] == s[..12][..8] == s[..8] && t[8..12] == t[..12][8..] == s[..12][8..] == s[8..12];
    hide Crc32.Checksum, BigEndian;
  }

  lemma DamagedPrelude(s: seq<byte>, i: nat, b: byte, after: seq<byte>)
    requires |s| >= 12 && Frames.PreludeChecks(s) && i < 12 && b != s[i]
    ensures !Frames.PreludeChecks(s[i := b] + after)
  {
    hide Crc32.Checksum, BigEndian;
    var t := s[i := b] + after;
    if i >= 8 {
      assert t[..8] == s[..8];
      assert t[8..12][i - 8] == b && s[8..12][i - 8] == s[i];
      if BigEndian(t[8..12]) == BigEndian(s[8..12]) {
        BigEndianInjective(t[8..12], s[8..12]);
      }
    } else {
      assert s[i..i + 1] == [s[i]];
      Frames.ChecksumDamaged(s, i, [b], after, 8);
      assert Frames.Damaged(s, i, [b], after) == t;
      assert t[8..12] == s[8..12];
    }
  }

  /** A changed byte in the first twelve is told from one behind them. */
  lemma DamageKind(s: seq<byte>, i: nat, b: byte, after: seq<byte>)
    requires Frames.IsFrame(s) && i < |s| && b != s[i]
    ensures Frames.Next(s[i := b] + after) == Frames.Bad(if i < 12 then PreludeChecksum else MessageChecksum)
  {
    Frames.ByteRefused(s, i, b, after);
    Frames.YieldSize(s);
    WrongPrelude(s);
    var t := s[i := b] + after;
    WrongPrelude(t);
    hide Frames.Next, Frames.PreludeChecks;
    if i >= 12 {
      assert t[..12] == s[..12];
      SamePrelude(s, t);
    } else {
      DamagedPrelude(s, i, b, after);
    }
  }

  // ---- headers ----

  /** The width of a number, or of the shortest value, of each type. */
  function LeastSize(tag: byte): nat {
    match tag
    case 2 => 1
    case 3 => 2
    case 4 => 4
    case 5 => 8
    case 6 => 2
    case 7 => 2
    case 8 => 8
    case 9 => 16
    case _ => 0
  }

  /** What is wrong with a value, if anything. */
  lemma ValueErrors(tag: byte, s: seq<byte>)
    ensures tag >= 10 ==> Headers.DecodeValue(tag, s) == Err(UnknownValueType(tag as int))
    ensures tag < 10 && |s| < LeastSize(tag) ==> Headers.DecodeValue(tag, s) == Err(TruncatedValue)
    ensures (tag == 6 || tag == 7) && |s| >= 2 && (BigEndian(s[..2]) == 0 || BigEndian(s[..2]) > 32767
                                                  || 2 + BigEndian(s[..2]) > |s|) ==>
              Headers.DecodeValue(tag, s) == Err(InvalidValueLength)
    ensures tag == 7 && |s| >= 2 && 1 <= BigEndian(s[..2]) <= 32767 && 2 + BigEndian(s[..2]) <= |s|
            && !Utf8.WellFormed(s[2..2 + BigEndian(s[..2])]) ==>
              Headers.DecodeValue(tag, s) == Err(InvalidUtf8)
    ensures tag < 2 || (|s| >= LeastSize(tag) && tag != 6 && tag != 7 && tag < 10) ==> Headers.DecodeValue(tag, s).Ok?
  {
    if tag == 7 && |s| >= 2 && 2 + BigEndian(s[..2]) <= |s| {
      var text := s[2..2 + BigEndian(s[..2])];
      Utf8.DecodeAccepts(text);
      OnlyUtf8(text);
    }
    hide Utf8.Decode, Utf8.WellFormed, BigEndian;
  }

  lemma {:induction false} OnlyUtf8(s: seq<byte>)
    ensures Utf8.Decode(s).Err? ==> Utf8.Decode(s) == Err(InvalidUtf8)
    decreases |s|
  {
    if s != [] && Utf8.Announced(s[0]) != 0 && Utf8.Announced(s[0]) <= |s| {
      OnlyUtf8(s[Utf8.Announced(s[0])..]);
    }
  }

  /** What is wrong with a header: its name has no length or does not fit, is no UTF-8, or its value is wrong. */
  lemma HeaderErrors(n: byte, s: seq<byte>)
    ensures n == 0 || |s| < n as int + 1 ==> Headers.DecodeHeader([n] + s) == Err(InvalidNameLength)
    ensures 0 < n as int < |s| && !Utf8.WellFormed(s[..n]) ==> Headers.DecodeHeader([n] + s) == Err(InvalidUtf8)
    ensures 0 < n as int < |s| && Utf8.WellFormed(s[..n]) && Headers.DecodeValue(s[n], s[n as int + 1..]).Err? ==>
              Headers.DecodeHeader([n] + s) == Err(Headers.DecodeValue(s[n], s[n as int + 1..]).error)
  {
    var t := [n] + s;
    if 0 < n as int < |s| {
      assert t[1..1 + n as int] == s[..n] && t[1 + n as int] == s[n] && t[2 + n as int..] == s[n as int + 1..];
      Utf8.DecodeAccepts(s[..n]);
      OnlyUtf8(s[..n]);
    }
    hide Utf8.Decode, Utf8.WellFormed, Headers.DecodeValue;
  }

  /** A second header of a name is refused as such, wherever it stands. */
  lemma SecondOfAName(h: Headers.Header, seen: set<Utf8.Text>, rest: seq<byte>)
    requires Headers.ValidHeader(h) && h.name in seen
    ensures Headers.DecodeFrom(Headers.EncodeHeader(h) + rest, seen) == Err(DuplicateHeader)
  {
    Headers.HeaderRoundTrip(h, rest);
    Headers.HeaderNotEmpty(h);
    hide Headers.DecodeHeader, Headers.EncodeHeader, Headers.ValidHeader;
  }

  // ---- sources ----

  /** A chunk that is no buffer, or an error of the source, ends the input behind the chunks before it. */
  lemma {:induction false} SourceBreaks(chunks: seq<seq<byte>>, last: Decoder.Item, rest: seq<Decoder.Item>)
    requires !last.Chunk?
    ensures var items := Decoder.InChunks(chunks) + [last] + rest;
            && Decoder.Delivered(items) == Flatten(chunks)
            && Decoder.TailOf(items) == Frames.Breaks(if last.NotBytes? then ForeignChunk else last.error)
  {
    var items := Decoder.InChunks(chunks) + [last] + rest;
    if chunks != [] {
      SourceBreaks(chunks[1..], last, rest);
      assert Decoder.InChunks(chunks)[1..] == Decoder.InChunks(chunks[1..]);
      assert items[1..] == Decoder.InChunks(chunks[1..]) + [last] + rest;
    }
  }

  /** Frames under any chunking, and then a chunk that is no buffer: the frames come out, and then that error. */
  lemma FramesThenForeign(frames: seq<Frames.Frame>, chunks: seq<seq<byte>>, rest: seq<Decoder.Item>)
    requires (forall f <- frames :: Frames.ValidFrame(f)) && Flatten(chunks) == Frames.EncodeAll(frames)
    ensures var items := Decoder.InChunks(chunks) + [Decoder.NotBytes] + rest;
            Frames.Parse(Decoder.Delivered(items), Decoder.TailOf(items)) == (frames, Frames.Failed(ForeignChunk))
  {
    SourceBreaks(chunks, Decoder.NotBytes, rest);
    hide Frames.EncodeAll, Frames.ValidFrame, Flatten;
    Frames.ParseEncoded(frames, [], Frames.Breaks(ForeignChunk));
    assert Frames.EncodeAll(frames) + [] == Frames.EncodeAll(frames) && frames + [] == frames;
  }
}
