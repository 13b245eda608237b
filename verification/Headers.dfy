/** Frame headers: ten value types, each with its tag, and names that may not repeat. */
module Headers {
  import opened Bytes
  import opened Errors
  import Utf8

  datatype Value =
    | Bool(flag: bool)
    | Int8(n: int)
    | Int16(n: int)
    | Int32(n: int)
    | Int64(n: int)
    | Binary(data: seq<byte>)
    | String(text: Utf8.Text)
    | Timestamp(n: int)
    | Uuid(data: seq<byte>)

  datatype Header = Header(name: Utf8.Text, value: Value)

  const MAX_VALUE_LENGTH := 32767

  function Tag(v: Value): byte {
    match v
    case Bool(flag) => if flag then 1 else 0
    case Int8(_) => 2
    case Int16(_) => 3
    case Int32(_) => 4
    case Int64(_) => 5
    case Binary(_) => 6
    case String(_) => 7
    case Timestamp(_) => 8
    case Uuid(_) => 9
  }

  // ---- the decoder ----

  /** A value together with the number of bytes it took. */
  datatype Sized<T> = Sized(item: T, size: nat)

  /** The big-endian number in the next `width` bytes. */
  function TakeNumber(s: seq<byte>, width: nat): (r: Result<nat>)
    ensures r.Ok? ==> width <= |s| && r.value == BigEndian(s[..width])
  {
    if width > |s| then Err(TruncatedValue) else Ok(BigEndian(s[..width]))
  }

  function TakeSigned(s: seq<byte>, width: nat): (r: Result<int>)
    ensures r.Ok? ==> width <= |s| && SignedFits(r.value, width)
  {
    var n :- TakeNumber(s, width);
    BigEndianWidth(s, width);
    Ok(ToSigned(n, width))
  }

  lemma BigEndianWidth(s: seq<byte>, width: nat)
    requires width <= |s|
    ensures BigEndian(s[..width]) < Pow256(width)
  {
    assert |s[..width]| == width;
  }

  /** A two-byte length and as many bytes; an empty or oversized value is refused. */
  function TakeBlock(s: seq<byte>): Result<seq<byte>> {
    var length :- TakeNumber(s, 2);
    if length == 0 || length > MAX_VALUE_LENGTH || 2 + length > |s| then Err(InvalidValueLength)
    else Ok(s[2..2 + length])
  }

  function DecodeValue(tag: byte, s: seq<byte>): Result<Sized<Value>> {
    match tag
    case 0 => Ok(Sized(Bool(false), 0))
    case 1 => Ok(Sized(Bool(true), 0))
    case 2 => var n :- TakeSigned(s, 1); Ok(Sized(Int8(n), 1))
    case 3 => var n :- TakeSigned(s, 2); Ok(Sized(Int16(n), 2))
    case 4 => var n :- TakeSigned(s, 4); Ok(Sized(Int32(n), 4))
    case 5 => var n :- TakeSigned(s, 8); Ok(Sized(Int64(n), 8))
    case 6 => var data :- TakeBlock(s); Ok(Sized(Binary(data), 2 + |data|))
    case 7 => var data :- TakeBlock(s); var text :- Utf8.Decode(data); Ok(Sized(String(text), 2 + |data|))
    case 8 => var n :- TakeNumber(s, 8); Ok(Sized(Timestamp(n), 8))
    case 9 => if |s| < 16 then Err(TruncatedValue) else Ok(Sized(Uuid(s[..16]), 16))
    case _ => Err(UnknownValueType(tag))
  }

  function DecodeHeader(s: seq<byte>): Result<Sized<Header>>
    requires s != []
  {
    var nameLength := s[0] as int;
    if nameLength == 0 || 1 + nameLength + 1 > |s| then Err(InvalidNameLength)
    else
      var name :- Utf8.Decode(s[1..1 + nameLength]);
      var value :- DecodeValue(s[1 + nameLength], s[2 + nameLength..]);
      Ok(Sized(Header(name, value.item), 2 + nameLength + value.size))
  }

  lemma DecodeValueFits(tag: byte, s: seq<byte>)
    requires DecodeValue(tag, s).Ok?
    ensures DecodeValue(tag, s).value.size <= |s|
  {
  }

  lemma DecodeHeaderFits(s: seq<byte>)
    requires s != [] && DecodeHeader(s).Ok?
    ensures 2 <= DecodeHeader(s).value.size <= |s|
  {
    DecodeValueFits(s[1 + s[0]], s[2 + s[0]..]);
  }

  /** All headers in s, none of them named like one already seen. */
  function DecodeFrom(s: seq<byte>, seen: set<Utf8.Text>): Result<seq<Header>>
    decreases |s|
  {
    if s == [] then Ok([])
    else
      var h :- DecodeHeader(s);
      DecodeHeaderFits(s);
      if h.item.name in seen then Err(DuplicateHeader)
      else
        var rest :- DecodeFrom(s[h.size..], seen + {h.item.name});
        Ok([h.item] + rest)
  }

  function Decode(s: seq<byte>): Result<seq<Header>> {
    DecodeFrom(s, {})
  }

  // ---- the encoder the format implies ----

  ghost predicate ValidValue(v: Value) {
    match v
    case Bool(_) => true
    case Int8(n) => SignedFits(n, 1)
    case Int16(n) => SignedFits(n, 2)
    case Int32(n) => SignedFits(n, 4)
    case Int64(n) => SignedFits(n, 8)
    case Binary(data) => 0 < |data| <= MAX_VALUE_LENGTH
    case String(text) => Utf8.Encode(text).Ok? && 0 < |Utf8.Encode(text).value| <= MAX_VALUE_LENGTH
    case Timestamp(n) => 0 <= n < Pow256(8)
    case Uuid(data) => |data| == 16
  }

  ghost predicate ValidHeader(h: Header) {
    && Utf8.Encode(h.name).Ok?
    && 1 <= |Utf8.Encode(h.name).value| <= 255
    && ValidValue(h.value)
  }

  function EncodeBlock(data: seq<byte>): seq<byte>
    requires |data| <= MAX_VALUE_LENGTH
  {
    Pow256Values();
    ToBigEndian(|data|, 2) + data
  }

  ghost function EncodeValue(v: Value): seq<byte>
    requires ValidValue(v)
  {
    match v
    case Bool(_) => []
    case Int8(n) => ToBigEndian(ToUnsigned(n, 1), 1)
    case Int16(n) => ToBigEndian(ToUnsigned(n, 2), 2)
    case Int32(n) => ToBigEndian(ToUnsigned(n, 4), 4)
    case Int64(n) => ToBigEndian(ToUnsigned(n, 8), 8)
    case Binary(data) => EncodeBlock(data)
    case String(text) => EncodeBlock(Utf8.Encode(text).value)
    case Timestamp(n) => ToBigEndian(n, 8)
    case Uuid(data) => data
  }

  ghost function EncodeHeader(h: Header): seq<byte>
    requires ValidHeader(h)
  {
    var name := Utf8.Encode(h.name).value;
    [|name|] + name + [Tag(h.value)] + EncodeValue(h.value)
  }

  ghost predicate ValidHeaders(headers: seq<Header>, seen: set<Utf8.Text>) {
    headers != [] ==>
      && ValidHeader(headers[0])
      && headers[0].name !in seen
      && ValidHeaders(headers[1..], seen + {headers[0].name})
  }

  ghost function EncodeFrom(headers: seq<Header>, seen: set<Utf8.Text>): seq<byte>
    requires ValidHeaders(headers, seen)
  {
    if headers == [] then []
    else EncodeHeader(headers[0]) + EncodeFrom(headers[1..], seen + {headers[0].name})
  }

  /** Valid lists are those of valid headers with distinct names. */
  lemma {:induction false} ValidHeadersMeaning(headers: seq<Header>, seen: set<Utf8.Text>)
    ensures ValidHeaders(headers, seen) <==>
      && (forall h <- headers :: ValidHeader(h) && h.name !in seen)
      && (forall i, j | 0 <= i < j < |headers| :: headers[i].name != headers[j].name)
    decreases |headers|
  {
    if headers != [] {
      var rest := headers[1..];
      ValidHeadersMeaning(rest, seen + {headers[0].name});
      assert forall i | 1 <= i < |headers| :: headers[i] == rest[i - 1];
      assert headers == [headers[0]] + rest;
      if ValidHeaders(headers, seen) {
        forall i, j | 0 <= i < j < |headers|
          ensures headers[i].name != headers[j].name
        {
          assert headers[j] == rest[j - 1] && rest[j - 1] in rest;
        }
      }
    }
  }

  // ---- the format in numbers ----

  /** What a value of each type may be. */
  lemma ValidIff(v: Value)
    ensures ValidValue(v) <==>
      match v
      case Bool(_) => true
      case Int8(n) => -0x80 <= n < 0x80
      case Int16(n) => -0x8000 <= n < 0x8000
      case Int32(n) => -0x8000_0000 <= n < 0x8000_0000
      case Int64(n) => -0x8000_0000_0000_0000 <= n < 0x8000_0000_0000_0000
      case Binary(data) => 1 <= |data| <= 32767
      case String(text) => Utf8.Encode(text).Ok? && 1 <= |Utf8.Encode(text).value| <= 32767
      case Timestamp(n) => 0 <= n < 0x1_0000_0000_0000_0000
      case Uuid(data) => |data| == 16
  {
    Pow256Values();
    hide Utf8.Encode;
  }

  /** The number of its type, and a value. */
  ghost function Wire(v: Value): seq<byte>
    requires ValidValue(v)
  {
    Pow256Values();
    match v
    case Bool(flag) => [if flag then 1 else 0]
    case Int8(n) => [2] + ToBigEndian(if n < 0 then n + 0x100 else n, 1)
    case Int16(n) => [3] + ToBigEndian(if n < 0 then n + 0x1_0000 else n, 2)
    case Int32(n) => [4] + ToBigEndian(if n < 0 then n + 0x1_0000_0000 else n, 4)
    case Int64(n) => [5] + ToBigEndian(if n < 0 then n + 0x1_0000_0000_0000_0000 else n, 8)
    case Binary(data) => [6] + ToBigEndian(|data|, 2) + data
    case String(text) => [7] + ToBigEndian(|Utf8.Encode(text).value|, 2) + Utf8.Encode(text).value
    case Timestamp(n) => [8] + ToBigEndian(n, 8)
    case Uuid(data) => [9] + data
  }

  /** The bytes of a header: the length of its name, the name, the number of the type, and the value. */
  lemma WireForm(h: Header)
    requires ValidHeader(h)
    ensures EncodeHeader(h) == [|Utf8.Encode(h.name).value|] + Utf8.Encode(h.name).value + Wire(h.value)
  {
    Pow256Values();
    hide Utf8.Encode, ToBigEndian;
    var name := Utf8.Encode(h.name).value;
    var tag, value := [Tag(h.value)], EncodeValue(h.value);
    assert [|name|] + name + tag + value == [|name|] + name + (tag + value);
    match h.value {
      case Binary(data) =>
        assert [6] + (ToBigEndian(|data|, 2) + data) == [6] + ToBigEndian(|data|, 2) + data;
      case String(text) =>
        var data := Utf8.Encode(text).value;
        assert [7] + (ToBigEndian(|data|, 2) + data) == [7] + ToBigEndian(|data|, 2) + data;
      case Bool(flag) =>
        assert tag + value == [if flag then 1 else 0];
      case _ =>
    }
  }

  // ---- round trips ----

  lemma NumberRoundTrip(n: nat, width: nat, after: seq<byte>)
    requires n < Pow256(width)
    ensures TakeNumber(ToBigEndian(n, width) + after, width) == Ok(n)
  {
    BigEndianInverse(n, width);
    assert (ToBigEndian(n, width) + after)[..width] == ToBigEndian(n, width);
  }

  lemma SignedRoundTrip(n: int, width: nat, after: seq<byte>)
    requires SignedFits(n, width)
    ensures TakeSigned(ToBigEndian(ToUnsigned(n, width), width) + after, width) == Ok(n)
  {
    NumberRoundTrip(ToUnsigned(n, width), width, after);
    UnsignedInverse(n, width);
  }

  lemma BlockRoundTrip(data: seq<byte>, after: seq<byte>)
    requires 0 < |data| <= MAX_VALUE_LENGTH
    ensures TakeBlock(EncodeBlock(data) + after) == Ok(data)
  {
    Pow256Values();
    var prefix := ToBigEndian(|data|, 2);
    var s := EncodeBlock(data) + after;
    assert s == prefix + (data + after);
    NumberRoundTrip(|data|, 2, data + after);
    assert s[2..2 + |data|] == data;
  }

  lemma ValueRoundTrip(v: Value, after: seq<byte>)
    requires ValidValue(v)
    ensures DecodeValue(Tag(v), EncodeValue(v) + after) == Ok(Sized(v, |EncodeValue(v)|))
  {
    hide TakeNumber, TakeSigned, TakeBlock, ToBigEndian, EncodeBlock, Utf8.Encode, Utf8.Decode;
    match v
    case Bool(_) =>
    case Int8(n) => SignedRoundTrip(n, 1, after);
    case Int16(n) => SignedRoundTrip(n, 2, after);
    case Int32(n) => SignedRoundTrip(n, 4, after);
    case Int64(n) => SignedRoundTrip(n, 8, after);
    case Binary(data) =>
      BlockRoundTrip(data, after);
      BlockSize(data);
    case String(text) =>
      Utf8.EncodeInverse(text);
      BlockRoundTrip(Utf8.Encode(text).value, after);
      BlockSize(Utf8.Encode(text).value);
    case Timestamp(n) => NumberRoundTrip(n, 8, after);
    case Uuid(data) => assert (data + after)[..16] == data;
  }

  lemma BlockSize(data: seq<byte>)
    requires |data| <= MAX_VALUE_LENGTH
    ensures |EncodeBlock(data)| == 2 + |data|
  {
  }

  /** Decoding the encoding of a header, whatever follows it, gives the header back. */
  lemma HeaderRoundTrip(h: Header, after: seq<byte>)
    requires ValidHeader(h)
    ensures DecodeHeader(EncodeHeader(h) + after) == Ok(Sized(h, |EncodeHeader(h)|))
  {
    hide Utf8.Encode, Utf8.Decode, EncodeValue, DecodeValue, ValidValue;
    var name := Utf8.Encode(h.name).value;
    var s := EncodeHeader(h) + after;
    assert s[1..1 + |name|] == name;
    assert s[1 + |name|] == Tag(h.value);
    assert s[2 + |name|..] == EncodeValue(h.value) + after;
    Utf8.EncodeInverse(h.name);
    ValueRoundTrip(h.value, after);
  }

  lemma {:induction false} EncodeDecodeFrom(headers: seq<Header>, seen: set<Utf8.Text>)
    requires ValidHeaders(headers, seen)
    ensures DecodeFrom(EncodeFrom(headers, seen), seen) == Ok(headers)
    decreases |headers|
  {
    hide DecodeHeader, EncodeHeader, ValidHeader;
    if headers != [] {
      var h := headers[0];
      var rest := EncodeFrom(headers[1..], seen + {h.name});
      var s := EncodeFrom(headers, seen);
      HeaderRoundTrip(h, rest);
      HeaderNotEmpty(h);
      assert s[|EncodeHeader(h)|..] == rest;
      EncodeDecodeFrom(headers[1..], seen + {h.name});
      assert headers == [h] + headers[1..];
    }
  }

  lemma HeaderNotEmpty(h: Header)
    requires ValidHeader(h)
    ensures EncodeHeader(h) != []
  {
  }

  lemma TakeNumberInverse(s: seq<byte>, width: nat)
    requires width <= |s|
    ensures BigEndian(s[..width]) < Pow256(width)
    ensures ToBigEndian(BigEndian(s[..width]), width) == s[..width]
  {
    BigEndianWidth(s, width);
    ToBigEndianInverse(s[..width]);
  }

  lemma TakeSignedInverse(s: seq<byte>, width: nat)
    requires TakeSigned(s, width).Ok?
    ensures width <= |s|
    ensures ToBigEndian(ToUnsigned(TakeSigned(s, width).value, width), width) == s[..width]
  {
    TakeNumberInverse(s, width);
    SignedInverse(BigEndian(s[..width]), width);
  }

  lemma TakeBlockInverse(s: seq<byte>)
    requires TakeBlock(s).Ok?
    ensures 0 < |TakeBlock(s).value| <= MAX_VALUE_LENGTH && 2 + |TakeBlock(s).value| <= |s|
    ensures EncodeBlock(TakeBlock(s).value) == s[..2 + |TakeBlock(s).value|]
  {
    var data := TakeBlock(s).value;
    TakeNumberInverse(s, 2);
    assert s[..2] + data == s[..2 + |data|];
  }

  lemma ValueInverse(tag: byte, s: seq<byte>)
    requires DecodeValue(tag, s).Ok?
    ensures var v := DecodeValue(tag, s).value;
            v.size <= |s| && ValidValue(v.item) && Tag(v.item) == tag && EncodeValue(v.item) == s[..v.size]
  {
    hide TakeNumber, TakeSigned, TakeBlock, ToBigEndian, EncodeBlock, Utf8.Encode, Utf8.Decode, BigEndian;
    match tag
    case 2 => TakeSignedInverse(s, 1);
    case 3 => TakeSignedInverse(s, 2);
    case 4 => TakeSignedInverse(s, 4);
    case 5 => TakeSignedInverse(s, 8);
    case 6 => TakeBlockInverse(s);
    case 7 =>
      TakeBlockInverse(s);
      Utf8.DecodeInverse(TakeBlock(s).value);
    case 8 => TakeNumberInverse(s, 8);
    case _ =>
  }

  /** An accepted header is valid, and encoding it gives back exactly the bytes it was read from. */
  lemma HeaderInverse(s: seq<byte>)
    requires s != [] && DecodeHeader(s).Ok?
    ensures var h := DecodeHeader(s).value;
            h.size <= |s| && ValidHeader(h.item) && EncodeHeader(h.item) == s[..h.size]
  {
    hide Utf8.Encode, Utf8.Decode, EncodeValue, DecodeValue, ValidValue;
    var h := DecodeHeader(s).value;
    var n := s[0] as int;
    Utf8.DecodeInverse(s[1..1 + n]);
    ValueInverse(s[1 + n], s[2 + n..]);
    assert s[..h.size] == [s[0]] + s[1..1 + n] + [s[1 + n]] + s[2 + n..h.size];
    assert s[2 + n..][..h.size - 2 - n] == s[2 + n..h.size];
  }

  lemma {:induction false} DecodeEncodeFrom(s: seq<byte>, seen: set<Utf8.Text>)
    requires DecodeFrom(s, seen).Ok?
    ensures ValidHeaders(DecodeFrom(s, seen).value, seen)
    ensures EncodeFrom(DecodeFrom(s, seen).value, seen) == s
    decreases |s|
  {
    hide DecodeHeader, EncodeHeader, ValidHeader;
    if s != [] {
      DecodeHeaderFits(s);
      var h := DecodeHeader(s).value;
      HeaderInverse(s);
      DecodeEncodeFrom(s[h.size..], seen + {h.item.name});
      var headers := DecodeFrom(s, seen).value;
      assert headers[1..] == DecodeFrom(s[h.size..], seen + {h.item.name}).value;
      assert s == s[..h.size] + s[h.size..];
    }
  }

  // ---- the loops ----

  /** The header loop over a position; the headers it has stored so far are all different. */
  method DecodeHeaders(bytes: seq<byte>) returns (r: Result<seq<Header>>)
    ensures r == Decode(bytes)
  {
    hide DecodeHeader;
    var headers: seq<Header> := [];
    var names: set<Utf8.Text> := {};
    var pos: nat := 0;
    assert bytes[0..] == bytes;
    PrependTwice([], [], Decode(bytes));
    while pos < |bytes|
      invariant pos <= |bytes|
      invariant Decode(bytes) == Prepend(headers, DecodeFrom(bytes[pos..], names))
      decreases |bytes| - pos
    {
      ghost var rest := bytes[pos..];
      var h, next := ReadHeader(bytes, pos);
      if h.Err? {
        return Err(h.error);
      }
      if h.value.name in names {
        return Err(DuplicateHeader);
      }
      DecodeHeaderFits(rest);
      assert rest[next - pos..] == bytes[next..];
      PrependTwice(headers, [h.value], DecodeFrom(bytes[next..], names + {h.value.name}));
      headers := headers + [h.value];
      names := names + {h.value.name};
      pos := next;
    }
    PrependTwice(headers, [], Ok([]));
    r := Ok(headers);
  }

  function Prepend(headers: seq<Header>, r: Result<seq<Header>>): Result<seq<Header>> {
    if r.Ok? then Ok(headers + r.value) else r
  }

  lemma PrependTwice(a: seq<Header>, b: seq<Header>, r: Result<seq<Header>>)
    ensures Prepend(a, Prepend(b, r)) == Prepend(a + b, r)
    ensures Prepend([], r) == r
    ensures Prepend(a, Ok([])) == Ok(a)
  {
    if r.Ok? {
      assert a + (b + r.value) == a + b + r.value;
      assert [] + r.value == r.value;
    }
    assert a + [] == a;
  }

  /** One turn of the header loop from position start. */
  method ReadHeader(bytes: seq<byte>, start: nat) returns (r: Result<Header>, pos: nat)
    requires start < |bytes|
    ensures DecodeHeader(bytes[start..]).Err? ==> r == Err(DecodeHeader(bytes[start..]).error)
    ensures DecodeHeader(bytes[start..]).Ok? ==>
              var h := DecodeHeader(bytes[start..]).value;
              r == Ok(h.item) && pos == start + h.size
  {
    hide DecodeValue, Utf8.Decode;
    ghost var rest := bytes[start..];
    pos := start;
    var nameLength := bytes[pos];
    pos := pos + 1;
    if nameLength == 0 || pos + nameLength + 1 > |bytes| {
      return Err(InvalidNameLength), pos;
    }
    assert rest[1..1 + nameLength] == bytes[pos..pos + nameLength];
    var name := Utf8.DecodeUtf8(bytes[pos..pos + nameLength]);
    if name.Err? {
      return Err(name.error), pos;
    }
    pos := pos + nameLength;
    var tag := bytes[pos];
    pos := pos + 1;
    assert rest[2 + nameLength..] == bytes[pos..];
    var value, next := ReadValue(bytes, pos, tag);
    if value.Err? {
      return Err(value.error), pos;
    }
    r, pos := Ok(Header(name.value, value.value)), next;
  }

  /** The switch on the value type. */
  method ReadValue(bytes: seq<byte>, start: nat, tag: byte) returns (r: Result<Value>, pos: nat)
    requires start <= |bytes|
    ensures DecodeValue(tag, bytes[start..]).Err? ==> r == Err(DecodeValue(tag, bytes[start..]).error)
    ensures DecodeValue(tag, bytes[start..]).Ok? ==>
              var v := DecodeValue(tag, bytes[start..]).value;
              r == Ok(v.item) && pos == start + v.size
  {
    hide Utf8.Decode, BigEndian;
    ghost var rest := bytes[start..];
    pos := start;
    match tag {
      case 0 => r := Ok(Bool(false));
      case 1 => r := Ok(Bool(true));
      case 2 =>
        var n :- ReadSigned(bytes, pos, 1);
        r, pos := Ok(Int8(n)), pos + 1;
      case 3 =>
        var n :- ReadSigned(bytes, pos, 2);
        r, pos := Ok(Int16(n)), pos + 2;
      case 4 =>
        var n :- ReadSigned(bytes, pos, 4);
        r, pos := Ok(Int32(n)), pos + 4;
      case 5 =>
        var n :- ReadSigned(bytes, pos, 8);
        r, pos := Ok(Int64(n)), pos + 8;
      case 6 =>
        var data :- ReadBlock(bytes, pos);
        r, pos := Ok(Binary(data)), pos + 2 + |data|;
      case 7 =>
        var data :- ReadBlock(bytes, pos);
        var text :- Utf8.DecodeUtf8(data);
        r, pos := Ok(String(text)), pos + 2 + |data|;
      case 8 =>
        var n :- ReadUnsigned(bytes, pos, 8);
        r, pos := Ok(Timestamp(n)), pos + 8;
      case 9 =>
        if pos + 16 > |bytes| {
          return Err(TruncatedValue), pos;
        }
        assert rest[..16] == bytes[pos..pos + 16];
        r, pos := Ok(Uuid(bytes[pos..pos + 16])), pos + 16;
      case _ => r := Err(UnknownValueType(tag));
    }
  }

  method ReadUnsigned(bytes: seq<byte>, pos: nat, width: nat) returns (r: Result<nat>)
    requires pos <= |bytes|
    ensures r == TakeNumber(bytes[pos..], width)
  {
    if pos + width > |bytes| {
      return Err(TruncatedValue);
    }
    var n: nat := 0;
    assert bytes[pos..][..width] == bytes[pos..pos + width];
    for i := 0 to width
      invariant n == BigEndian(bytes[pos..pos + i])
    {
      assert bytes[pos..pos + i + 1][..i] == bytes[pos..pos + i];
      n := 256 * n + bytes[pos + i];
    }
    r := Ok(n);
  }

  method ReadSigned(bytes: seq<byte>, pos: nat, width: nat) returns (r: Result<int>)
    requires pos <= |bytes|
    ensures r == TakeSigned(bytes[pos..], width)
  {
    var n :- ReadUnsigned(bytes, pos, width);
    BigEndianWidth(bytes[pos..], width);
    r := Ok(ToSigned(n, width));
  }

  method ReadBlock(bytes: seq<byte>, pos: nat) returns (r: Result<seq<byte>>)
    requires pos <= |bytes|
    ensures r == TakeBlock(bytes[pos..])
  {
    var length :- ReadUnsigned(bytes, pos, 2);
    if length == 0 || length > MAX_VALUE_LENGTH || pos + 2 + length > |bytes| {
      return Err(InvalidValueLength);
    }
    assert bytes[pos..][2..2 + length] == bytes[pos + 2..pos + 2 + length];
    r := Ok(bytes[pos + 2..pos + 2 + length]);
  }
}
