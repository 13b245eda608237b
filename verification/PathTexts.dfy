/** How any written path is taken apart: names, brackets with a number or any other text, and a bracket left open. */
module PathTexts {
  import opened Text
  import opened Paths

  datatype Piece = Name(text: string) | Bracket(text: string)

  /** A part between dots: pieces, and perhaps a bracket that is never closed. */
  datatype Part = Part(pieces: seq<Piece>, open: Option<string>)

  predicate PieceOk(p: Piece) {
    '.' !in p.text && match p case Name(text) => text != "" && '[' !in text case Bracket(text) => ']' !in text
  }

  /** No two names meet, for they would be one. */
  predicate PartOk(part: Part) {
    && (forall p <- part.pieces :: PieceOk(p))
    && (forall k | 0 <= k < |part.pieces| - 1 :: part.pieces[k].Bracket? || part.pieces[k + 1].Bracket?)
    && (part.open.Some? ==> '.' !in part.open.value && ']' !in part.open.value)
  }

  function PieceText(p: Piece): string {
    match p
    case Name(text) => text
    case Bracket(text) => "[" + text + "]"
  }

  function PartText(part: Part): string
    decreases |part.pieces|
  {
    if part.pieces == [] then (if part.open.Some? then "[" + part.open.value else "")
    else PieceText(part.pieces[0]) + PartText(Part(part.pieces[1..], part.open))
  }

  /** A name is a key; a bracket is an index if it holds a number, positive or negative, and a key otherwise. */
  function PieceSeg(p: Piece): Seg {
    match p
    case Name(text) => Key(text)
    case Bracket(text) => match Atoi(text) case Some(n) => Idx(n) case None => Key(text)
  }

  /** A bracket left open is a key, bracket and all. */
  function PartSegs(part: Part): seq<Seg>
    decreases |part.pieces|
  {
    if part.pieces == [] then (if part.open.Some? then [Key("[" + part.open.value)] else [])
    else [PieceSeg(part.pieces[0])] + PartSegs(Part(part.pieces[1..], part.open))
  }

  lemma TakesBracket(text: string, rest: string)
    requires ']' !in text
    ensures ParsePart("[" + text + "]" + rest) == [PieceSeg(Bracket(text))] + ParsePart(rest)
  {
    var part := "[" + text + "]" + rest;
    assert part == ("[" + text) + [']'] + rest;
    FindAt("[" + text, ']', rest);
    assert part[1..|text| + 1] == text && part[|text| + 2..] == rest;
    ParsePartStep(part);
    hide ParsePart, Atoi, Find;
  }

  lemma TakesName(text: string, rest: string)
    requires text != "" && '[' !in text && (rest == "" || rest[0] == '[')
    ensures ParsePart(text + rest) == [Key(text)] + ParsePart(rest)
  {
    var part := text + rest;
    if rest == "" {
      assert part == text && part[..|text|] == text && part[|text|..] == "";
      assert Find(part, '[') == |part|;
    } else {
      assert part == text + ['['] + rest[1..];
      FindAt(text, '[', rest[1..]);
    }
    assert part[..|text|] == text && part[|text|..] == rest;
    ParsePartStep(part);
    hide ParsePart, Atoi;
  }

  lemma TakesOpen(text: string)
    requires ']' !in text
    ensures ParsePart("[" + text) == [Key("[" + text)]
  {
    assert Find("[" + text, ']') == |"[" + text|;
    ParsePartStep("[" + text);
    hide ParsePart;
  }

  lemma Behind(part: Part)
    requires part.pieces != [] && PartOk(part)
    ensures var rest := Part(part.pieces[1..], part.open);
            && PartOk(rest) && PieceOk(part.pieces[0])
            && (part.pieces[0].Name? ==> PartText(rest) == "" || PartText(rest)[0] == '[')
  {
    var rest := Part(part.pieces[1..], part.open);
    forall k | 0 <= k < |rest.pieces| - 1
      ensures rest.pieces[k].Bracket? || rest.pieces[k + 1].Bracket?
    {
      assert rest.pieces[k] == part.pieces[k + 1] && rest.pieces[k + 1] == part.pieces[k + 1 + 1];
    }
    if part.pieces[0].Name? && rest.pieces != [] {
      assert part.pieces[0].Bracket? || part.pieces[0 + 1].Bracket?;
    }
  }

  /** One part, with any mixture of names and brackets. */
  lemma {:induction false} PartParsed(part: Part)
    requires PartOk(part)
    ensures ParsePart(PartText(part)) == PartSegs(part)
    decreases |part.pieces|
  {
    if part.pieces == [] {
      if part.open.Some? {
        TakesOpen(part.open.value);
      } else {
        NothingToParse();
      }
    } else {
      var p, rest := part.pieces[0], Part(part.pieces[1..], part.open);
      Behind(part);
      PartParsed(rest);
      hide ParsePart, PartOk, Atoi;
      match p {
        case Name(text) => TakesName(text, PartText(rest));
        case Bracket(text) => TakesBracket(text, PartText(rest));
      }
    }
  }

  function Texts(parts: seq<Part>): seq<string> {
    seq(|parts|, k requires 0 <= k < |parts| => PartText(parts[k]))
  }

  function Segs(parts: seq<Part>): seq<Seg> {
    if parts == [] then [] else PartSegs(parts[0]) + Segs(parts[1..])
  }

  lemma {:induction false} NoDot(part: Part)
    requires PartOk(part)
    ensures '.' !in PartText(part)
    decreases |part.pieces|
  {
    if part.pieces != [] {
      Behind(part);
      NoDot(Part(part.pieces[1..], part.open));
    }
  }

  lemma {:induction false} PartsParsed(parts: seq<Part>)
    requires forall part <- parts :: PartOk(part)
    ensures ParseParts(Texts(parts)) == Segs(parts)
  {
    if parts != [] {
      assert Texts(parts)[1..] == Texts(parts[1..]) && Texts(parts)[0] == PartText(parts[0]);
      assert PartOk(parts[0]);
      hide ParsePart, PartText, PartSegs, PartOk;
      PartParsed(parts[0]);
      PartsParsed(parts[1..]);
    }
  }

  lemma {:induction false} SplitParts(texts: seq<string>)
    requires texts != [] && forall text <- texts :: '.' !in text
    ensures Split(Join(texts, '.'), '.') == texts
  {
    if |texts| == 1 {
      SplitWhole(texts[0], '.');
    } else {
      SplitAt(texts[0], '.', Join(texts[1..], '.'));
      SplitParts(texts[1..]);
    }
  }

  /** Every written path stands for the segments of its parts, in order; empty parts stand for nothing. */
  lemma TextParsed(parts: seq<Part>)
    requires parts != [] && forall part <- parts :: PartOk(part)
    ensures Paths.Parse(Join(Texts(parts), '.')) == Segs(parts)
  {
    forall text <- Texts(parts)
      ensures '.' !in text
    {
      var k :| 0 <= k < |parts| && Texts(parts)[k] == text;
      assert parts[k] in parts;
      NoDot(parts[k]);
    }
    SplitParts(Texts(parts));
    PartsParsed(parts);
    hide ParseParts, Join, Split, PartText;
  }

  lemma Prepended(p: Piece, rest: Part)
    requires PieceOk(p) && PartOk(rest) && (p.Bracket? || rest.pieces == [] || rest.pieces[0].Bracket?)
    ensures var part := Part([p] + rest.pieces, rest.open);
            PartOk(part) && PartText(part) == PieceText(p) + PartText(rest)
  {
    var part := Part([p] + rest.pieces, rest.open);
    assert part.pieces[1..] == rest.pieces;
    forall k | 0 <= k < |part.pieces| - 1
      ensures part.pieces[k].Bracket? || part.pieces[k + 1].Bracket?
    {
      if k > 0 {
        assert rest.pieces[k - 1].Bracket? || rest.pieces[k - 1 + 1].Bracket?;
      }
    }
  }

  lemma Lacks(a: string, b: string, c: char)
    ensures c !in a + b <==> c !in a && c !in b
  {
  }

  /** Every text without dots is such a part. */
  lemma {:induction false} PartOf(text: string) returns (part: Part)
    requires '.' !in text
    ensures PartOk(part) && PartText(part) == text
    ensures text == "" || text[0] == '[' ==> part.pieces == [] || part.pieces[0].Bracket?
    decreases |text|, 1
  {
    if text == "" {
      part := Part([], None);
    } else if text[0] != '[' {
      var bracket := Find(text, '[');
      part := NameAnd(text[..bracket], text[bracket..]);
      assert text[..bracket] + text[bracket..] == text;
    } else if ']' in text {
      var end := Find(text, ']');
      assert text[..end] == "[" + text[1..end] && text == text[..end] + "]" + text[end + 1..];
      part := BracketAnd(text[1..end], text[end + 1..], text);
    } else {
      part := Part([], Some(text[1..]));
      assert "[" + text[1..] == text;
    }
  }

  lemma {:induction false} NameAnd(name: string, rest: string) returns (part: Part)
    requires name != "" && '[' !in name && '.' !in name + rest && (rest == "" || rest[0] == '[')
    ensures PartOk(part) && PartText(part) == name + rest
    decreases |name + rest|, 0
  {
    Lacks(name, rest, '.');
    part := PartOf(rest);
    hide PartOk, PartText;
    Prepended(Name(name), part);
    part := Part([Name(name)] + part.pieces, part.open);
  }

  lemma {:induction false} BracketAnd(inner: string, rest: string, text: string) returns (part: Part)
    requires text == "[" + inner + "]" + rest && ']' !in "[" + inner && '.' !in text
    ensures PartOk(part) && PartText(part) == text && part.pieces != [] && part.pieces[0].Bracket?
    decreases |text|, 0
  {
    Lacks("[" + inner + "]", rest, '.');
    Lacks("[" + inner, "]", '.');
    Lacks("[", inner, '.');
    Lacks("[", inner, ']');
    part := PartOf(rest);
    hide PartOk, PartText;
    Prepended(Bracket(inner), part);
    part := Part([Bracket(inner)] + part.pieces, part.open);
  }

  // ---- numbers ----

  lemma Digits(s: string)
    requires s != "" && forall c <- s :: IsDigit(c)
    ensures s[0] != '-' && s[0] != '+'
  {
    assert IsDigit(s[0]);
  }

  /** What is read as a number: digits, perhaps behind a sign, within 64 bits; and nothing else. */
  lemma AtoiIff(s: string, sign: string)
    requires sign == "" || sign == "+" || sign == "-"
    requires sign == "" ==> s == "" || (s[0] != '+' && s[0] != '-')
    ensures Atoi(sign + s) ==
            if s != "" && (forall c <- s :: IsDigit(c)) then
              var n: int := NumberOf(s);
              if sign == "-" && n <= 9223372036854775808 then Some(-n)
              else if sign != "-" && n <= 9223372036854775807 then Some(n)
              else None
            else None
  {
    assert sign + s == if sign == "" then s else sign + s;
    if sign != "" {
      assert (sign + s)[1..] == s && (sign + s)[0] == sign[0];
    } else {
      assert sign + s == s;
    }
    hide NumberOf;
  }

  /** Zeros in front make no difference. */
  lemma {:induction false} LeadingZero(s: string)
    requires forall c <- s :: IsDigit(c)
    ensures NumberOf("0" + s) == NumberOf(s)
  {
    var more := "0" + s;
    assert more[|more| - 1] == if s == "" then '0' else s[|s| - 1];
    if s == "" {
      assert more[..0] == "";
    } else {
      assert more[..|more| - 1] == "0" + s[..|s| - 1];
      LeadingZero(s[..|s| - 1]);
    }
  }
}
