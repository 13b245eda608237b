/**
 Frames of application/vnd.amazon.eventstream on a flat byte string: a prelude of two
 lengths and its checksum, the headers, the payload and a checksum of everything before it.
 */
module Frames {
  import opened Bytes
  import opened Errors
  import Crc32
  import Headers

  datatype Frame = Frame(headers: seq<Headers.Header>, payload: seq<byte>)

  const PRELUDE := 12
  const OVERHEAD := 16

  /** What the bytes seen so far determine. */
  datatype Step =
    | NeedMore
    | Bad(error: Error)
    | Yield(frame: Frame, size: nat)

  function U32(s: seq<byte>, offset: nat): (n: nat)
    requires offset + 4 <= |s|
  {
    BigEndian(s[offset..offset + 4])
  }

  predicate PreludeChecks(s: seq<byte>)
    requires |s| >= PRELUDE
  {
    Crc32.Checksum(s[..8]) == U32(s, 8)
  }

  predicate MessageChecks(s: seq<byte>, total: nat)
    requires 4 <= total <= |s|
  {
    Crc32.Checksum(s[..total - 4]) == U32(s, total - 4)
  }

  /** The frame at the front of s. */
  function Next(s: seq<byte>): Step {
    if |s| < PRELUDE then NeedMore
    else
      var total, headersLength := U32(s, 0), U32(s, 4);
      if !PreludeChecks(s) then Bad(PreludeChecksum)
      else if total < OVERHEAD || headersLength > total - OVERHEAD then Bad(InvalidFrameLength)
      else if |s| < total then NeedMore
      else if !MessageChecks(s, total) then Bad(MessageChecksum)
      else
        match Headers.Decode(s[PRELUDE..PRELUDE + headersLength])
        case Err(error) => Bad(error)
        case Ok(headers) => Yield(Frame(headers, s[PRELUDE + headersLength..total - 4]), total)
  }

  datatype Outcome = Clean | Failed(error: Error)

  /** Whether the source of the bytes comes to its end or breaks with an error. */
  datatype Tail = Ends | Breaks(error: Error)

  /** A flat parser: all frames, and how the input ends. */
  function Parse(s: seq<byte>, tail: Tail): (seq<Frame>, Outcome)
    decreases |s|
  {
    match Next(s)
    case NeedMore => ([], AtEnd(s, tail))
    case Bad(error) => ([], Failed(error))
    case Yield(frame, size) =>
      YieldSize(s);
      var (frames, outcome) := Parse(s[size..], tail);
      ([frame] + frames, outcome)
  }

  function AtEnd(s: seq<byte>, tail: Tail): Outcome {
    match tail
    case Breaks(error) => Failed(error)
    case Ends => if s == [] then Clean else Failed(TruncatedFrame)
  }

  /** Every frame takes at least 16 bytes. */
  lemma YieldSize(s: seq<byte>)
    ensures Next(s).Yield? ==> OVERHEAD <= Next(s).size <= |s|
  {
  }

  lemma YieldLeaves(s: seq<byte>, tail: Tail)
    requires Next(s).Yield?
    ensures var step := Next(s);
            && step.size <= |s|
            && Parse(s, tail).0 == [step.frame] + Parse(s[step.size..], tail).0
            && Parse(s, tail).1 == Parse(s[step.size..], tail).1
  {
    YieldSize(s);
  }

  lemma BadEnds(s: seq<byte>, tail: Tail)
    requires Next(s).Bad?
    ensures Parse(s, tail) == ([], Failed(Next(s).error))
  {
  }

  /** What the front of s determines, later bytes do not change. */
  lemma NextStable(s: seq<byte>, more: seq<byte>)
    requires !Next(s).NeedMore?
    ensures Next(s + more) == Next(s)
  {
    hide Headers.Decode, Crc32.Checksum, BigEndian;
    var t := s + more;
    assert t[0..4] == s[0..4] && t[4..8] == s[4..8] && t[8..12] == s[8..12] && t[..8] == s[..8];
    var total, headersLength := U32(s, 0), U32(s, 4);
    if PreludeChecks(s) && total >= OVERHEAD && headersLength <= total - OVERHEAD {
      assert t[..total - 4] == s[..total - 4] && t[total - 4..total] == s[total - 4..total];
      assert t[PRELUDE..PRELUDE + headersLength] == s[PRELUDE..PRELUDE + headersLength];
      assert t[PRELUDE + headersLength..total - 4] == s[PRELUDE + headersLength..total - 4];
    }
  }

  /** Either the front of s already decides, or it needs more. */
  lemma NextStableOrMore(s: seq<byte>, more: seq<byte>)
    ensures Next(s).NeedMore? || Next(s + more) == Next(s)
  {
    if !Next(s).NeedMore? {
      NextStable(s, more);
    }
  }

  lemma ShortNeedsMore(s: seq<byte>)
    requires |s| < PRELUDE
    ensures Next(s).NeedMore?
  {
  }

  /** A yielded frame is determined by its own bytes alone. */
  lemma NextLocal(s: seq<byte>)
    requires Next(s).Yield?
    ensures Next(s[..Next(s).size]) == Next(s)
  {
    hide Headers.Decode, Crc32.Checksum, BigEndian;
    YieldSize(s);
    var total, headersLength := U32(s, 0), U32(s, 4);
    var t := s[..total];
    assert t[0..4] == s[0..4] && t[4..8] == s[4..8] && t[8..12] == s[8..12] && t[..8] == s[..8];
    assert t[..total - 4] == s[..total - 4] && t[total - 4..total] == s[total - 4..total];
    assert t[PRELUDE..PRELUDE + headersLength] == s[PRELUDE..PRELUDE + headersLength];
    assert t[PRELUDE + headersLength..total - 4] == s[PRELUDE + headersLength..total - 4];
  }

  // ---- the encoder the format implies ----

  ghost predicate ValidFrame(f: Frame) {
    && Headers.ValidHeaders(f.headers, {})
    && OVERHEAD + |Headers.EncodeFrom(f.headers, {})| + |f.payload| < Pow256(4)
  }

  /** s followed by its checksum. */
  function Sealed(s: seq<byte>): (t: seq<byte>)
    ensures |t| == |s| + 4 && t[..|s|] == s
  {
    Crc32.ChecksumBounded(s);
    Pow256Values();
    s + ToBigEndian(Crc32.Checksum(s), 4)
  }

  lemma SealedCheck(s: seq<byte>)
    ensures BigEndian(Sealed(s)[|s|..]) == Crc32.Checksum(s)
  {
    Crc32.ChecksumBounded(s);
    Pow256Values();
    BigEndianInverse(Crc32.Checksum(s), 4);
  }

  lemma SealedInverse(s: seq<byte>)
    requires |s| >= 4 && BigEndian(s[|s| - 4..]) == Crc32.Checksum(s[..|s| - 4])
    ensures Sealed(s[..|s| - 4]) == s
  {
    ToBigEndianInverse(s[|s| - 4..]);
    assert s == s[..|s| - 4] + s[|s| - 4..];
  }

  ghost function Lengths(f: Frame): (s: seq<byte>)
    requires ValidFrame(f)
    ensures |s| == 8
  {
    var headers := |Headers.EncodeFrom(f.headers, {})|;
    ToBigEndian(OVERHEAD + headers + |f.payload|, 4) + ToBigEndian(headers, 4)
  }

  ghost function Encode(f: Frame): seq<byte>
    requires ValidFrame(f)
  {
    Sealed(Sealed(Lengths(f)) + Headers.EncodeFrom(f.headers, {}) + f.payload)
  }

  /** Decoding the encoding of a valid frame, whatever follows it, gives the frame back. */
  lemma RoundTrip(f: Frame, after: seq<byte>)
    requires ValidFrame(f)
    ensures Next(Encode(f) + after) == Yield(f, |Encode(f)|)
  {
    NextOfEncoding(f);
    NextStable(Encode(f), after);
  }

  /** The fields of an encoded frame, as the parser reads them. */
  lemma EncodingMeaning(f: Frame)
    requires ValidFrame(f)
    ensures var s, headers := Encode(f), Headers.EncodeFrom(f.headers, {});
            var total := OVERHEAD + |headers| + |f.payload|;
            && |s| == total
            && U32(s, 0) == total && U32(s, 4) == |headers|
            && s[PRELUDE..PRELUDE + |headers|] == headers
            && s[PRELUDE + |headers|..total - 4] == f.payload
  {
    hide Headers.EncodeFrom, Headers.ValidHeaders, Crc32.Checksum, BigEndian, ToBigEndian;
    var headers := Headers.EncodeFrom(f.headers, {});
    var total := OVERHEAD + |headers| + |f.payload|;
    var s := Encode(f);
    assert s[..8] == Lengths(f);
    assert s[0..4] == ToBigEndian(total, 4);
    assert s[4..8] == ToBigEndian(|headers|, 4);
    BigEndianInverse(total, 4);
    BigEndianInverse(|headers|, 4);
  }

  lemma EncodingChecks(f: Frame)
    requires ValidFrame(f)
    ensures PreludeChecks(Encode(f)) && MessageChecks(Encode(f), |Encode(f)|)
  {
    hide Headers.EncodeFrom, Headers.ValidHeaders, Crc32.Checksum, BigEndian, ToBigEndian, Lengths, Sealed;
    var prelude := Sealed(Lengths(f));
    var body := prelude + Headers.EncodeFrom(f.headers, {}) + f.payload;
    var s := Encode(f);
    assert s[..8] == Lengths(f) && s[8..12] == prelude[8..];
    SealedCheck(Lengths(f));
    assert s[..|s| - 4] == body && s[|s| - 4..|s|] == s[|body|..];
    SealedCheck(body);
  }

  lemma NextOfEncoding(f: Frame)
    requires ValidFrame(f)
    ensures Next(Encode(f)) == Yield(f, |Encode(f)|)
  {
    hide Headers.Decode, Headers.EncodeFrom, Headers.ValidHeaders, BigEndian, Encode, Crc32.Checksum;
    EncodingMeaning(f);
    EncodingChecks(f);
    Headers.EncodeDecodeFrom(f.headers, {});
    DecodeIsDecodeFrom(Headers.EncodeFrom(f.headers, {}));
  }

  lemma DecodeIsDecodeFrom(s: seq<byte>)
    ensures Headers.Decode(s) == Headers.DecodeFrom(s, {})
  {
  }

  /** A range that ends in the checksum of what comes before it is sealed. */
  lemma SealedRange(s: seq<byte>, n: nat)
    requires n + 4 <= |s| && Crc32.Checksum(s[..n]) == U32(s, n)
    ensures Sealed(s[..n]) == s[..n + 4]
  {
    hide Crc32.Checksum, BigEndian, Sealed;
    var t := s[..n + 4];
    assert t[n..] == s[n..n + 4] && t[..n] == s[..n];
    SealedInverse(t);
  }

  lemma LengthsInverse(s: seq<byte>, f: Frame)
    requires |s| >= 8 && ValidFrame(f)
    requires U32(s, 4) == |Headers.EncodeFrom(f.headers, {})|
    requires U32(s, 0) == OVERHEAD + U32(s, 4) + |f.payload|
    ensures Lengths(f) == s[..8]
  {
    hide BigEndian, ToBigEndian, Headers.EncodeFrom, Headers.ValidHeaders;
    assert |s[0..4]| == 4 && |s[4..8]| == 4;
    ToBigEndianInverse(s[0..4]);
    ToBigEndianInverse(s[4..8]);
    assert s[..8] == s[0..4] + s[4..8];
  }

  /** What the parser has checked when it yields a frame. */
  lemma YieldMeaning(s: seq<byte>) returns (headers: seq<byte>)
    requires Next(s).Yield?
    ensures var total := Next(s).size;
            && OVERHEAD <= total <= |s|
            && PreludeChecks(s) && MessageChecks(s, total)
            && U32(s, 0) == total && U32(s, 4) == |headers|
            && |headers| + |Next(s).frame.payload| == total - OVERHEAD
            && s[..total - 4] == s[..12] + headers + Next(s).frame.payload
            && Headers.DecodeFrom(headers, {}) == Ok(Next(s).frame.headers)
  {
    hide Headers.DecodeFrom, Crc32.Checksum, BigEndian;
    headers := s[PRELUDE..PRELUDE + U32(s, 4)];
  }

  /** An accepted frame is valid, and encoding it gives back exactly the bytes consumed. */
  lemma Inverse(s: seq<byte>)
    requires Next(s).Yield?
    ensures ValidFrame(Next(s).frame) && Encode(Next(s).frame) == s[..Next(s).size]
  {
    hide Headers.DecodeFrom, Headers.EncodeFrom, Headers.ValidHeaders, Crc32.Checksum, BigEndian, Sealed, Lengths;
    var headers := YieldMeaning(s);
    hide Next;
    var f, total := Next(s).frame, Next(s).size;
    Headers.DecodeEncodeFrom(headers, {});
    U32Bound(s, 0);
    LengthsInverse(s, f);
    SealedRange(s, 8);
    SealedRange(s, total - 4);
  }

  /** The bytes of a frame: both lengths, their checksum, headers, payload, and the checksum of all that. */
  ghost predicate IsWireForm(f: Frame, s: seq<byte>)
    requires ValidFrame(f)
  {
    var headers := Headers.EncodeFrom(f.headers, {});
    && |s| == 16 + |headers| + |f.payload|
    && BigEndian(s[0..4]) == |s| && BigEndian(s[4..8]) == |headers|
    && BigEndian(s[8..12]) == Crc32.Checksum(s[..8])
    && s[12..12 + |headers|] == headers && s[12 + |headers|..|s| - 4] == f.payload
    && BigEndian(s[|s| - 4..]) == Crc32.Checksum(s[..|s| - 4])
  }

  lemma EncodingHasForm(f: Frame)
    requires ValidFrame(f)
    ensures IsWireForm(f, Encode(f))
  {
    EncodingMeaning(f);
    EncodingChecks(f);
    hide Headers.DecodeFrom, Headers.EncodeFrom, Headers.ValidHeaders, Crc32.Checksum, BigEndian, Encode, ValidFrame;
    var e := Encode(f);
    assert e[|e| - 4..] == e[|e| - 4..|e|];
  }

  lemma FormIsTaken(f: Frame, s: seq<byte>)
    requires ValidFrame(f) && IsWireForm(f, s)
    ensures Next(s) == Yield(f, |s|)
  {
    hide Headers.DecodeFrom, Headers.EncodeFrom, Headers.ValidHeaders, Crc32.Checksum, BigEndian;
    assert s[|s| - 4..] == s[|s| - 4..|s|];
    Headers.EncodeDecodeFrom(f.headers, {});
  }

  /** A frame of the right form is the only encoding of its contents, and what the decoder takes for them. */
  lemma WireForm(f: Frame, s: seq<byte>)
    requires ValidFrame(f)
    ensures IsWireForm(f, s) <==> s == Encode(f)
    ensures IsWireForm(f, s) ==> Next(s) == Yield(f, |s|)
  {
    hide ValidFrame, IsWireForm, Encode, Next;
    EncodingHasForm(f);
    if IsWireForm(f, s) {
      FormIsTaken(f, s);
      Inverse(s);
      assert s[..|s|] == s;
    }
  }

  lemma U32Bound(s: seq<byte>, offset: nat)
    requires offset + 4 <= |s|
    ensures U32(s, offset) < Pow256(4)
  {
    assert |s[offset..offset + 4]| == 4;
  }

  ghost function EncodeAll(frames: seq<Frame>): seq<byte>
    requires forall f <- frames :: ValidFrame(f)
  {
    if frames == [] then [] else Encode(frames[0]) + EncodeAll(frames[1..])
  }

  /** Parsing picks up any list of encoded frames and goes on behind it. */
  lemma {:induction false} ParseEncoded(frames: seq<Frame>, after: seq<byte>, tail: Tail)
    requires forall f <- frames :: ValidFrame(f)
    ensures Parse(EncodeAll(frames) + after, tail) == (frames + Parse(after, tail).0, Parse(after, tail).1)
  {
    hide Next, Encode, ValidFrame;
    if frames == [] {
      assert EncodeAll(frames) + after == after;
      assert [] + Parse(after, tail).0 == Parse(after, tail).0;
    } else {
      var f, rest := frames[0], EncodeAll(frames[1..]) + after;
      ParseEncoded(frames[1..], after, tail);
      RoundTrip(f, rest);
      assert EncodeAll(frames) + after == Encode(f) + rest;
      assert (Encode(f) + rest)[|Encode(f)|..] == rest;
      assert frames + Parse(after, tail).0 == [f] + (frames[1..] + Parse(after, tail).0);
    }
  }

  /** Any list of valid frames survives encoding and parsing. */
  lemma EncodeThenParse(frames: seq<Frame>)
    requires forall f <- frames :: ValidFrame(f)
    ensures Parse(EncodeAll(frames), Ends) == (frames, Clean)
  {
    ParseEncoded(frames, [], Ends);
    assert EncodeAll(frames) + [] == EncodeAll(frames);
    assert frames + [] == frames;
  }

  lemma EncodeAllCons(f: Frame, frames: seq<Frame>)
    requires ValidFrame(f) && forall g <- frames :: ValidFrame(g)
    ensures forall g <- [f] + frames :: ValidFrame(g)
    ensures EncodeAll([f] + frames) == Encode(f) + EncodeAll(frames)
  {
    hide Encode, ValidFrame;
    assert ([f] + frames)[1..] == frames;
  }

  /** Input that parses cleanly is the encoding of what was parsed. */
  lemma {:induction false} ParseThenEncode(s: seq<byte>)
    requires Parse(s, Ends).1.Clean?
    ensures forall f <- Parse(s, Ends).0 :: ValidFrame(f)
    ensures EncodeAll(Parse(s, Ends).0) == s
    decreases |s|
  {
    hide Encode, ValidFrame, EncodeAll, Parse, Next;
    if Next(s).Yield? {
      var f, n := Next(s).frame, Next(s).size;
      YieldSize(s);
      YieldLeaves(s, Ends);
      Inverse(s);
      ParseThenEncode(s[n..]);
      EncodeAllCons(f, Parse(s[n..], Ends).0);
      assert s == s[..n] + s[n..];
    } else {
      CleanEnd(s);
    }
  }

  lemma CleanEnd(s: seq<byte>)
    requires Parse(s, Ends).1.Clean? && !Next(s).Yield?
    ensures s == [] && Parse(s, Ends).0 == [] && EncodeAll([]) == []
  {
  }

  // ---- damaged frames ----

  ghost predicate IsFrame(s: seq<byte>) {
    Next(s).Yield? && Next(s).size == |s|
  }

  /** A window that does not run from checksummed bytes into their stored checksum or past it. */
  predicate OneSided(total: nat, from: nat, to: nat) {
    to <= 8 || (8 <= from && to <= total - 4) || total - 4 <= from
  }

  /** s with the bytes from index `from` on overwritten by the damage, and more bytes behind. */
  function Damaged(s: seq<byte>, from: nat, damage: seq<byte>, after: seq<byte>): seq<byte>
    requires from + |damage| <= |s|
  {
    s[..from] + damage + s[from + |damage|..] + after
  }

  lemma DamageOutside(s: seq<byte>, from: nat, damage: seq<byte>, after: seq<byte>, a: nat, b: nat)
    requires a <= b <= |s| && from + |damage| <= |s|
    requires b <= from || from + |damage| <= a
    ensures Damaged(s, from, damage, after)[a..b] == s[a..b]
  {
    var u := Damaged(s, from, damage, after);
    assert |u| >= |s|;
    forall k | a <= k < b
      ensures u[k] == s[k]
    {
      if b > from {
        assert u[k] == s[from + |damage|..][k - (from + |damage|)];
      }
    }
  }

  lemma DamageWithin(s: seq<byte>, from: nat, damage: seq<byte>, after: seq<byte>, a: nat, b: nat)
    requires a <= from && from + |damage| <= b <= |s|
    ensures var to := from + |damage|;
            && s[a..b] == s[a..from] + s[from..to] + s[to..b]
            && Damaged(s, from, damage, after)[a..b] == s[a..from] + damage + s[to..b]
  {
    var to, u := from + |damage|, Damaged(s, from, damage, after);
    assert u[a..from] == s[a..from] && u[from..to] == damage && u[to..b] == s[to..b];
    assert u[a..b] == u[a..from] + u[from..to] + u[to..b];
  }

  /** Damage within checksummed bytes changes their checksum. */
  lemma ChecksumDamaged(s: seq<byte>, from: nat, damage: seq<byte>, after: seq<byte>, n: nat)
    requires from + |damage| <= n <= |s| && |damage| <= 4 && damage != s[from..from + |damage|]
    ensures Crc32.Checksum(Damaged(s, from, damage, after)[..n]) != Crc32.Checksum(s[..n])
  {
    hide Crc32.Checksum;
    var to := from + |damage|;
    DamageWithin(s, from, damage, after, 0, n);
    Crc32.BurstDetected(s[0..from], s[from..to], damage, s[to..n]);
    assert Damaged(s, from, damage, after)[0..n] == Damaged(s, from, damage, after)[..n];
    assert s[0..n] == s[..n];
  }

  /** Damage within a stored checksum changes it. */
  lemma StoredDamaged(s: seq<byte>, from: nat, damage: seq<byte>, after: seq<byte>, n: nat)
    requires n <= from && from + |damage| <= n + 4 <= |s| && damage != s[from..from + |damage|]
    ensures U32(Damaged(s, from, damage, after), n) != U32(s, n)
  {
    hide BigEndian;
    var to := from + |damage|;
    DamageWithin(s, from, damage, after, n, n + 4);
    StoredSeparates(s[n..from], s[from..to], damage, s[to..n + 4]);
  }

  predicate Refused(step: Step) {
    step == Bad(PreludeChecksum) || step == Bad(MessageChecksum)
  }

  lemma PreludeRefused(s: seq<byte>, from: nat, damage: seq<byte>, after: seq<byte>)
    requires IsFrame(s) && |damage| <= 4 && from + |damage| <= 12 <= |s| && damage != s[from..from + |damage|]
    requires from + |damage| <= 8 || 8 <= from
    ensures Refused(Next(Damaged(s, from, damage, after)))
  {
    hide Headers.Decode, Crc32.Checksum, BigEndian;
    var u := Damaged(s, from, damage, after);
    assert s[..8] == s[0..8] && u[..8] == u[0..8];
    if from + |damage| <= 8 {
      ChecksumDamaged(s, from, damage, after, 8);
      DamageOutside(s, from, damage, after, 8, 12);
    } else {
      StoredDamaged(s, from, damage, after, 8);
      DamageOutside(s, from, damage, after, 0, 8);
    }
  }

  lemma MessageRefused(s: seq<byte>, from: nat, damage: seq<byte>, after: seq<byte>)
    requires 12 <= from && from + |damage| <= |s| && IsFrame(s)
    requires |damage| <= 4 && damage != s[from..from + |damage|]
    requires from + |damage| <= |s| - 4 || |s| - 4 <= from
    ensures Refused(Next(Damaged(s, from, damage, after)))
  {
    hide Headers.Decode, Crc32.Checksum, BigEndian;
    var u, n := Damaged(s, from, damage, after), |s| - 4;
    DamageOutside(s, from, damage, after, 0, 4);
    DamageOutside(s, from, damage, after, 4, 8);
    DamageOutside(s, from, damage, after, 0, 8);
    DamageOutside(s, from, damage, after, 8, 12);
    assert s[..8] == s[0..8] && u[..8] == u[0..8];
    assert s[..n] == s[0..n] && u[..n] == u[0..n];
    if from + |damage| <= n {
      ChecksumDamaged(s, from, damage, after, n);
      DamageOutside(s, from, damage, after, n, n + 4);
    } else {
      StoredDamaged(s, from, damage, after, n);
      DamageOutside(s, from, damage, after, 0, n);
    }
  }

  /**
   A frame changed only within such a window of at most four adjacent bytes is refused by
   a checksum, so it is never yielded, whatever follows it.
   */
  lemma BurstRefused(s: seq<byte>, from: nat, damage: seq<byte>, after: seq<byte>)
    requires IsFrame(s)
    requires |damage| <= 4 && from + |damage| <= |s| && damage != s[from..from + |damage|]
    requires OneSided(|s|, from, from + |damage|)
    ensures Refused(Next(Damaged(s, from, damage, after)))
  {
    YieldSize(s);
    hide Next;
    var to := from + |damage|;
    if to <= 12 {
      PreludeRefused(s, from, damage, after);
    } else if 12 <= from {
      MessageRefused(s, from, damage, after);
    } else {
      var k := 12 - from;
      assert s[from..to] == s[from..12] + s[12..to] && damage == damage[..k] + damage[k..];
      if damage[..k] != s[from..12] {
        StraddleRefused(s, from, damage, after);
      } else {
        assert Damaged(s, from, damage, after) == Damaged(s, 12, damage[k..], after);
        MessageRefused(s, 12, damage[k..], after);
      }
    }
  }

  /** A window that starts in the stored prelude checksum, changes it, and runs on behind it. */
  lemma StraddleRefused(s: seq<byte>, from: nat, damage: seq<byte>, after: seq<byte>)
    requires IsFrame(s) && 8 <= from < 12 < from + |damage| <= |s|
    requires damage[..12 - from] != s[from..12]
    ensures Refused(Next(Damaged(s, from, damage, after)))
  {
    hide Headers.Decode, Crc32.Checksum, BigEndian;
    var k := 12 - from;
    var u, v := Damaged(s, from, damage, after), Damaged(s, from, damage[..k], []);
    assert u[..12] == v[..12];
    assert u[8..12] == u[..12][8..] && v[8..12] == v[..12][8..] && u[..8] == u[..12][..8] && v[..8] == v[..12][..8];
    StoredDamaged(s, from, damage[..k], [], 8);
    DamageOutside(s, from, damage[..k], [], 0, 8);
    assert s[..8] == s[0..8] && v[..8] == v[0..8];
  }

  lemma StoredSeparates(a: seq<byte>, x: seq<byte>, y: seq<byte>, b: seq<byte>)
    requires |x| == |y| && x != y
    ensures BigEndian(a + x + b) != BigEndian(a + y + b)
  {
    assert x == (a + x + b)[|a|..|a| + |x|];
    assert y == (a + y + b)[|a|..|a| + |y|];
    if BigEndian(a + x + b) == BigEndian(a + y + b) {
      BigEndianInjective(a + x + b, a + y + b);
    }
  }

  /** In particular, changing any one byte of a frame, wherever it is, gets it refused. */
  lemma ByteRefused(s: seq<byte>, i: nat, b: byte, after: seq<byte>)
    requires IsFrame(s) && i < |s| && b != s[i]
    ensures Refused(Next(s[i := b] + after))
  {
    YieldSize(s);
    hide Next;
    assert s[i..i + 1] == [s[i]];
    BurstRefused(s, i, [b], after);
    assert s[i := b] + after == Damaged(s, i, [b], after);
  }

  /**
   Behind any number of good frames, a frame with one byte changed ends the parse: the good
   frames come out, and nothing after them.
   */
  lemma DamageStopsParse(before: seq<Frame>, s: seq<byte>, i: nat, b: byte, after: seq<byte>, tail: Tail)
    requires forall f <- before :: ValidFrame(f)
    requires IsFrame(s) && i < |s| && b != s[i]
    ensures var r := Parse(EncodeAll(before) + s[i := b] + after, tail);
            r == (before, Failed(PreludeChecksum)) || r == (before, Failed(MessageChecksum))
  {
    hide EncodeAll;
    ByteRefused(s, i, b, after);
    ParseEncoded(before, s[i := b] + after, tail);
    assert EncodeAll(before) + s[i := b] + after == EncodeAll(before) + (s[i := b] + after);
    assert before + [] == before;
  }
}
