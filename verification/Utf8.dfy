/**
 The strict UTF-8 decoder: which byte strings it accepts, and that the UTF-16 text
 it produces stands for exactly the bytes it read.
 */
module Utf8 {
  import opened Bytes
  import opened Errors

  /** A code unit of a JavaScript string. */
  type Unit = x: int | 0 <= x < 0x1_0000
  type Text = seq<Unit>
  /** A Unicode scalar value: any code point that is not a surrogate. */
  type Scalar = x: int | 0 <= x < 0xd800 || 0xe000 <= x < 0x11_0000

  // ---- the grammar of section 4 of RFC 3629 ----

  predicate IsTail(b: byte) {
    0x80 <= b <= 0xbf
  }

  predicate IsCharacter(c: seq<byte>) {
    match |c|
    case 1 => c[0] <= 0x7f
    case 2 => 0xc2 <= c[0] <= 0xdf && IsTail(c[1])
    case 3 =>
      && IsTail(c[2])
      && (|| (c[0] == 0xe0 && 0xa0 <= c[1] <= 0xbf)
          || (0xe1 <= c[0] <= 0xec && IsTail(c[1]))
          || (c[0] == 0xed && 0x80 <= c[1] <= 0x9f)
          || (0xee <= c[0] <= 0xef && IsTail(c[1])))
    case 4 =>
      && IsTail(c[2]) && IsTail(c[3])
      && (|| (c[0] == 0xf0 && 0x90 <= c[1] <= 0xbf)
          || (0xf1 <= c[0] <= 0xf3 && IsTail(c[1]))
          || (c[0] == 0xf4 && 0x80 <= c[1] <= 0x8f))
    case _ => false
  }

  /** A byte string is well formed when it is a sequence of characters. */
  ghost predicate WellFormed(s: seq<byte>) {
    exists chars: seq<seq<byte>> :: IsSpelling(chars, s)
  }

  ghost predicate IsSpelling(chars: seq<seq<byte>>, s: seq<byte>) {
    (forall c <- chars :: IsCharacter(c)) && Flatten(chars) == s
  }

  // ---- scalar values as bytes and as code units ----

  function Point(c: seq<byte>): (p: Scalar)
    requires IsCharacter(c)
  {
    if |c| == 1 then c[0] as int
    else if |c| == 2 then (c[0] - 0xc0) as int * 0x40 + (c[1] - 0x80) as int
    else if |c| == 3 then (c[0] - 0xe0) as int * 0x1000 + (c[1] - 0x80) as int * 0x40 + (c[2] - 0x80) as int
    else (c[0] - 0xf0) as int * 0x4_0000 + (c[1] - 0x80) as int * 0x1000
         + (c[2] - 0x80) as int * 0x40 + (c[3] - 0x80) as int
  }

  function PointBytes(p: Scalar): (c: seq<byte>)
    ensures IsCharacter(c)
  {
    if p < 0x80 then [p]
    else if p < 0x800 then [0xc0 + p / 0x40, 0x80 + p % 0x40]
    else if p < 0x1_0000 then [0xe0 + p / 0x1000, 0x80 + p / 0x40 % 0x40, 0x80 + p % 0x40]
    else [0xf0 + p / 0x4_0000, 0x80 + p / 0x1000 % 0x40, 0x80 + p / 0x40 % 0x40, 0x80 + p % 0x40]
  }

  lemma PointInverse(p: Scalar)
    ensures Point(PointBytes(p)) == p
  {
    Digits(p);
  }

  /** Six-bit digits of p, as the quotients that PointBytes takes. */
  lemma Digits(p: nat)
    ensures p == p / 0x40 * 0x40 + p % 0x40
    ensures p / 0x40 == p / 0x1000 * 0x40 + p / 0x40 % 0x40
    ensures p / 0x1000 == p / 0x4_0000 * 0x40 + p / 0x1000 % 0x40
  {
  }

  lemma DigitsUnique(a: nat, b: nat, c: nat, d: nat)
    requires b < 0x40 && c < 0x40 && d < 0x40
    ensures var p := a * 0x4_0000 + b * 0x1000 + c * 0x40 + d;
            p / 0x4_0000 == a && p / 0x1000 % 0x40 == b && p / 0x40 % 0x40 == c && p % 0x40 == d
  {
    var p := a * 0x4_0000 + b * 0x1000 + c * 0x40 + d;
    assert p / 0x40 == a * 0x1000 + b * 0x40 + c;
    assert p / 0x1000 == a * 0x40 + b;
  }

  lemma PointBytesInverse(c: seq<byte>)
    requires IsCharacter(c)
    ensures PointBytes(Point(c)) == c
  {
    if |c| == 3 {
      ThreeBytesInverse(c);
    } else if |c| == 4 {
      FourBytesInverse(c);
    } else if |c| == 2 {
      assert Point(c) / 0x40 == c[0] - 0xc0 && Point(c) % 0x40 == c[1] - 0x80;
    }
  }

  lemma ThreeBytesInverse(c: seq<byte>)
    requires IsCharacter(c) && |c| == 3
    ensures PointBytes(Point(c)) == c
  {
    var x, y, z := c[0] - 0xe0, c[1] - 0x80, c[2] - 0x80;
    DigitsUnique(0, x, y, z);
    assert Point(c) / 0x1000 == x;
    assert c == [0xe0 + x, 0x80 + y, 0x80 + z];
  }

  lemma FourBytesInverse(c: seq<byte>)
    requires IsCharacter(c) && |c| == 4
    ensures PointBytes(Point(c)) == c
  {
    var w, x, y, z := c[0] - 0xf0, c[1] - 0x80, c[2] - 0x80, c[3] - 0x80;
    DigitsUnique(w, x, y, z);
    assert Point(c) >= 0x1_0000;
    assert c == [0xf0 + w, 0x80 + x, 0x80 + y, 0x80 + z];
  }

  /** Section 2.1 of RFC 2781. */
  function PointUnits(p: Scalar): Text {
    if p < 0x1_0000 then [p]
    else [0xd800 + (p - 0x1_0000) / 0x400, 0xdc00 + (p - 0x1_0000) % 0x400]
  }

  /** The scalar value of a high and a low surrogate. */
  function Paired(high: Unit, low: Unit): Scalar
    requires 0xd800 <= high < 0xdc00 <= low < 0xe000
  {
    0x1_0000 + (high - 0xd800) as int * 0x400 + (low - 0xdc00) as int
  }

  /** The bytes a text stands for, or nothing when a surrogate is unpaired. */
  function Encode(text: Text): (s: Result<seq<byte>>) {
    if text == [] then Ok([])
    else if text[0] < 0xd800 || 0xe000 <= text[0] then
      var rest :- Encode(text[1..]);
      Ok(PointBytes(text[0]) + rest)
    else if text[0] < 0xdc00 && |text| >= 2 && 0xdc00 <= text[1] < 0xe000 then
      var rest :- Encode(text[2..]);
      Ok(PointBytes(Paired(text[0], text[1])) + rest)
    else Err(InvalidUtf8)
  }

  lemma EncodeCons(p: Scalar, text: Text)
    ensures Encode(PointUnits(p) + text).Ok? == Encode(text).Ok?
    ensures Encode(text).Ok? ==> Encode(PointUnits(p) + text).value == PointBytes(p) + Encode(text).value
  {
    var units := PointUnits(p);
    var t := units + text;
    if p < 0x1_0000 {
      assert t[1..] == text;
    } else {
      assert t[2..] == text;
      assert Paired(t[0], t[1]) == p;
    }
  }

  // ---- decoding ----

  /** The length of the character at the front of s that the first byte announces. */
  function Announced(first: byte): nat {
    if first < 0x80 then 1
    else if 0xc2 <= first <= 0xdf then 2
    else if 0xe0 <= first <= 0xef then 3
    else if 0xf0 <= first <= 0xf4 then 4
    else 0
  }

  function Decode(s: seq<byte>): Result<Text> {
    if s == [] then Ok([])
    else
      var k := Announced(s[0]);
      if k == 0 || k > |s| || !IsCharacter(s[..k]) then Err(InvalidUtf8)
      else
        var rest :- Decode(s[k..]);
        Ok(PointUnits(Point(s[..k])) + rest)
  }

  lemma DecodeCons(c: seq<byte>, s: seq<byte>)
    requires IsCharacter(c)
    ensures Decode(c + s).Ok? == Decode(s).Ok?
    ensures Decode(s).Ok? ==> Decode(c + s).value == PointUnits(Point(c)) + Decode(s).value
  {
    assert |c| == 1 || |c| == 2 || |c| == 3 || |c| == 4;
    assert Announced(c[0]) == |c|;
    assert (c + s)[..|c|] == c && (c + s)[|c|..] == s;
  }

  /** The decoder accepts exactly the strings of the grammar. */
  lemma {:induction false} DecodeAccepts(s: seq<byte>)
    ensures Decode(s).Ok? <==> WellFormed(s)
  {
    if Decode(s).Ok? {
      var chars := SpellingOf(s);
      assert IsSpelling(chars, s);
    }
    if WellFormed(s) {
      var chars :| IsSpelling(chars, s);
      SpelledDecodes(chars, s);
    }
  }

  lemma {:induction false} SpellingOf(s: seq<byte>) returns (chars: seq<seq<byte>>)
    requires Decode(s).Ok?
    ensures IsSpelling(chars, s)
    decreases |s|
  {
    if s == [] {
      chars := [];
    } else {
      var k := Announced(s[0]);
      var rest := SpellingOf(s[k..]);
      chars := [s[..k]] + rest;
      assert s == s[..k] + s[k..];
    }
  }

  lemma {:induction false} SpelledDecodes(chars: seq<seq<byte>>, s: seq<byte>)
    requires IsSpelling(chars, s)
    ensures Decode(s).Ok?
    decreases |chars|
  {
    if chars != [] {
      assert IsSpelling(chars[1..], Flatten(chars[1..]));
      SpelledDecodes(chars[1..], Flatten(chars[1..]));
      DecodeCons(chars[0], Flatten(chars[1..]));
    }
  }

  /** Decoded text stands for exactly the bytes that were read. */
  lemma {:induction false} DecodeInverse(s: seq<byte>)
    requires Decode(s).Ok?
    ensures Encode(Decode(s).value) == Ok(s)
    decreases |s|
  {
    hide PointBytes, PointUnits, Point;
    if s != [] {
      var k := Announced(s[0]);
      DecodeInverse(s[k..]);
      EncodeCons(Point(s[..k]), Decode(s[k..]).value);
      PointBytesInverse(s[..k]);
      assert s == s[..k] + s[k..];
    }
  }

  /** Text without unpaired surrogates survives encoding and decoding. */
  lemma {:induction false} EncodeInverse(text: Text)
    requires Encode(text).Ok?
    ensures Decode(Encode(text).value) == Ok(text)
    decreases |text|
  {
    if text != [] {
      var p, n := FrontPoint(text);
      EncodeInverse(text[n..]);
      DecodeCons(PointBytes(p), Encode(text[n..]).value);
      PointInverse(p);
      EncodeCons(p, text[n..]);
    }
  }

  lemma FrontPoint(text: Text) returns (p: Scalar, n: nat)
    requires text != [] && Encode(text).Ok?
    ensures 1 <= n <= |text| && text == PointUnits(p) + text[n..]
    ensures Encode(text[n..]).Ok?
  {
    if text[0] < 0xd800 || 0xe000 <= text[0] {
      p, n := text[0], 1;
    } else {
      p, n := Paired(text[0], text[1]), 2;
    }
  }

  /** Different well-formed byte strings decode to different texts. */
  lemma DecodeInjective(s: seq<byte>, t: seq<byte>)
    requires Decode(s).Ok? && Decode(s) == Decode(t)
    ensures s == t
  {
    DecodeInverse(s);
    DecodeInverse(t);
  }

  // ---- the loop ----

  method DecodeUtf8(bytes: seq<byte>) returns (r: Result<Text>)
    ensures r == Decode(bytes)
  {
    var text: Text := [];
    var i: nat := 0;
    assert bytes[0..] == bytes;
    PrependTwice(text, text, Decode(bytes));
    while i < |bytes|
      invariant i <= |bytes|
      invariant Decode(bytes) == Prepend(text, Decode(bytes[i..]))
    {
      var point, next := NextPoint(bytes, i);
      ghost var rest := bytes[i..];
      if next == 0 {
        assert forall k: nat | k <= |rest| :: rest[..k] == bytes[i..i + k];
        return Err(InvalidUtf8);
      }
      assert rest[..next - i] == bytes[i..next] && rest[next - i..] == bytes[next..];
      PrependTwice(text, PointUnits(point), Decode(bytes[next..]));
      if point <= 0xffff {
        text := text + [point];
      } else {
        point := point - 0x1_0000;
        text := text + [0xd800 + point / 0x400, 0xdc00 + point % 0x400];
      }
      i := next;
    }
    assert text + [] == text;
    r := Ok(text);
  }

  function Prepend(text: Text, r: Result<Text>): Result<Text> {
    if r.Ok? then Ok(text + r.value) else r
  }

  lemma PrependTwice(a: Text, b: Text, r: Result<Text>)
    ensures Prepend(a, Prepend(b, r)) == Prepend(a + b, r)
    ensures Prepend([], r) == r
  {
    if r.Ok? {
      assert a + (b + r.value) == a + b + r.value;
      assert [] + r.value == r.value;
    }
  }

  /** The payload bits of a first byte. */
  function Lead(first: byte): nat {
    if first < 0x80 then first as int
    else if first < 0xe0 then first as int % 0x20
    else if first < 0xf0 then first as int % 0x10
    else first as int % 8
  }

  /** Payload bits of the following bytes, shifted in one after another. */
  function Gather(lead: nat, tails: seq<byte>): nat {
    if tails == [] then lead
    else Gather(lead, tails[..|tails| - 1]) * 0x40 + tails[|tails| - 1] as int % 0x40
  }

  /** The tests the loop makes are those of the grammar. */
  predicate Passes(first: byte, tails: seq<byte>) {
    (forall b <- tails :: IsTail(b)) && (tails != [] ==> !BadSecond(first, tails[0]))
  }

  lemma PassesIsGrammar(c: seq<byte>)
    requires c != [] && |c| == Announced(c[0])
    ensures IsCharacter(c) <==> Passes(c[0], c[1..])
  {
    var tails := c[1..];
    assert forall k | 1 <= k < |c| :: c[k] == tails[k - 1];
    assert |c| == 1 || |c| == 2 || |c| == 3 || |c| == 4;
  }

  lemma GatherAppend(lead: nat, tails: seq<byte>, b: byte)
    requires IsTail(b)
    ensures Gather(lead, tails + [b]) == Gather(lead, tails) * 0x40 + (b as int - 0x80)
  {
    assert (tails + [b])[..|tails|] == tails;
  }

  lemma GatherTwo(lead: nat, a: byte, b: byte)
    requires IsTail(a) && IsTail(b)
    ensures Gather(lead, [a]) == lead * 0x40 + (a as int - 0x80)
    ensures Gather(lead, [a, b]) == lead * 0x1000 + (a as int - 0x80) * 0x40 + (b as int - 0x80)
  {
    hide Gather;
    GatherNone(lead);
    GatherAppend(lead, [], a);
    assert [] + [a] == [a] && [a] + [b] == [a, b];
    GatherAppend(lead, [a], b);
  }

  lemma GatherThree(lead: nat, a: byte, b: byte, c: byte)
    requires IsTail(a) && IsTail(b) && IsTail(c)
    ensures Gather(lead, [a, b, c])
         == lead * 0x4_0000 + (a as int - 0x80) * 0x1000 + (b as int - 0x80) * 0x40 + (c as int - 0x80)
  {
    hide Gather;
    GatherTwo(lead, a, b);
    assert [a, b] + [c] == [a, b, c];
    GatherAppend(lead, [a, b], c);
  }

  lemma GatherIsPoint(c: seq<byte>)
    requires IsCharacter(c)
    ensures Gather(Lead(c[0]), c[1..]) == Point(c)
  {
    hide Gather;
    var lead := Lead(c[0]);
    if |c| == 1 {
      GatherNone(lead);
      assert c[1..] == [];
    } else if |c| == 2 {
      GatherTwo(lead, c[1], c[1]);
      assert c[1..] == [c[1]];
    } else if |c| == 3 {
      GatherTwo(lead, c[1], c[2]);
      assert c[1..] == [c[1], c[2]];
    } else {
      GatherThree(lead, c[1], c[2], c[3]);
      assert c[1..] == [c[1], c[2], c[3]];
    }
  }

  lemma GatherNone(lead: nat)
    ensures Gather(lead, []) == lead
  {
  }

  /**
   One turn of the decoder's loop from index i: the code point and the index after it,
   or 0 where the loop throws.
   */
  method NextPoint(bytes: seq<byte>, i: nat) returns (point: int, next: nat)
    requires i < |bytes|
    ensures next == 0 <==>
      var k := Announced(bytes[i]);
      k == 0 || i + k > |bytes| || !IsCharacter(bytes[i..i + k])
    ensures next != 0 ==> next == i + Announced(bytes[i]) && point == Point(bytes[i..next])
  {
    hide IsCharacter, Announced, Lead, Point, Gather;
    var first := bytes[i];
    var count: int;
    point, count := FirstByte(first);
    next := i + 1;
    if count < 0 || next + count > |bytes| {
      return -1, 0;
    }
    ghost var c := bytes[i..i + 1 + count];
    PassesIsGrammar(c);
    GatherNone(point);
    for j := 0 to count
      invariant next == i + 1 + j
      invariant Passes(first, c[1..][..j])
      invariant point == Gather(Lead(first), c[1..][..j])
    {
      var tail := bytes[next];
      assert tail == c[1..][j];
      if tail / 0x40 != 2 || (j == 0 && BadSecond(first, tail)) {
        assert c[1..][j] in c[1..] && !Passes(first, c[1..]);
        return -1, 0;
      }
      assert c[1..][..j + 1] == c[1..][..j] + [tail];
      GatherAppend(Lead(first), c[1..][..j], tail);
      next := next + 1;
      point := point * 0x40 + tail % 0x40;
    }
    assert c[1..][..count] == c[1..] && bytes[i..next] == c;
    GatherIsPoint(c);
    CharacterRange(c);
    if (count == 1 && point < 0x80) || (count == 2 && point < 0x800) || (count == 3 && point < 0x1_0000)
       || point > 0x10_ffff {
      assert false;  // the checks on the second byte already exclude this
    }
  }

  /** How a first byte is read: its payload bits and the number of bytes to follow, or -1 where the loop throws. */
  method FirstByte(first: byte) returns (point: int, count: int)
    ensures count == Announced(first) - 1
    ensures count >= 0 ==> point == Lead(first)
  {
    if first < 0x80 {
      point, count := first, 0;
    } else if first >= 0xc2 && first <= 0xdf {
      point, count := first % 0x20, 1;
    } else if first >= 0xe0 && first <= 0xef {
      point, count := first % 0x10, 2;
    } else if first >= 0xf0 && first <= 0xf4 {
      point, count := first % 8, 3;
    } else {
      point, count := -1, -1;
    }
  }

  lemma CharacterRange(c: seq<byte>)
    requires IsCharacter(c)
    ensures |c| == 2 ==> Point(c) >= 0x80
    ensures |c| == 3 ==> Point(c) >= 0x800
    ensures |c| == 4 ==> Point(c) >= 0x1_0000
  {
  }

  /** The second bytes that would start an overlong form, a surrogate or a value past 0x10ffff. */
  predicate BadSecond(first: byte, second: byte) {
    || (first == 0xe0 && second < 0xa0)
    || (first == 0xed && second >= 0xa0)
    || (first == 0xf0 && second < 0x90)
    || (first == 0xf4 && second >= 0x90)
  }

  /** The examples of section 7 of RFC 3629 and of section 5 of RFC 2781. */
  lemma Examples()
    ensures PointBytes(0x41) == [0x41] && PointBytes(0x2262) == [0xe2, 0x89, 0xa2] && PointBytes(0x391) == [0xce, 0x91]
    ensures PointBytes(0x233b4) == [0xf0, 0xa3, 0x8e, 0xb4] && PointUnits(0x233b4) == [0xd84c, 0xdfb4]
    ensures PointUnits(0x12345) == [0xd808, 0xdf45] && PointUnits(0x2262) == [0x2262]
  {
  }

  /** The digits that a pair of surrogates stands for, the high one first. */
  lemma UnitsCount(p: Scalar)
    requires p >= 0x1_0000
    ensures |PointUnits(p)| == 2
    ensures var high: int, low: int := PointUnits(p)[0], PointUnits(p)[1];
            0xd800 <= high < 0xdc00 <= low < 0xe000 && p as int == 0x1_0000 + 0x400 * (high - 0xd800) + (low - 0xdc00)
  {
  }
}
