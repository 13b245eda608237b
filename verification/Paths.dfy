/**
 Reading and writing inside nested values along a path of keys and indices. Writing copies
 every container on the way and creates, extends or replaces what is missing.
 */
module Paths {
  import opened Text

  /** Null also stands for everything that is missing; Atom for strings, numbers and booleans. */
  datatype Value =
    | Null
    | Atom(text: string)
    | Array(items: seq<Value>)
    | Object(fields: map<string, Value>)

  datatype Seg = Key(key: string) | Idx(idx: int)

  // ---- reading ----

  function Child(v: Value, seg: Seg): Value {
    match seg
    case Key(key) => if v.Object? && key in v.fields then v.fields[key] else Null
    case Idx(idx) => if v.Array? && 0 <= idx < |v.items| then v.items[idx] else Null
  }

  function Get(v: Value, path: seq<Seg>): Value
    decreases |path|
  {
    if path == [] then v else Get(Child(v, path[0]), path[1..])
  }

  lemma {:induction false} GetNull(path: seq<Seg>)
    ensures Get(Null, path) == Null
  {
    if path != [] {
      GetNull(path[1..]);
    }
  }

  lemma {:induction false} GetSplit(v: Value, p: seq<Seg>, q: seq<Seg>)
    ensures Get(v, p + q) == Get(Get(v, p), q)
    decreases |p|
  {
    if p == [] {
      assert p + q == q;
    } else {
      GetSplit(Child(v, p[0]), p[1..], q);
      assert (p + q)[1..] == p[1..] + q;
    }
  }

  /** The loop over the segments, leaving early where the path does not fit the value. */
  method GetPath(m: map<string, Value>, path: seq<Seg>) returns (r: Value)
    ensures r == Get(Object(m), path)
  {
    var cur := Object(m);
    var i := 0;
    while i < |path|
      invariant i <= |path|
      invariant Get(cur, path[i..]) == Get(Object(m), path)
    {
      var seg := path[i];
      assert path[i..][1..] == path[i + 1..];
      GetNull(path[i + 1..]);
      match seg {
        case Idx(idx) =>
          if !cur.Array? || idx < 0 || idx >= |cur.items| {
            return Null;
          }
          cur := cur.items[idx];
        case Key(key) =>
          if !cur.Object? {
            return Null;
          }
          cur := if key in cur.fields then cur.fields[key] else Null;
      }
      i := i + 1;
    }
    r := cur;
  }

  // ---- writing ----

  function Nulls(n: nat): (s: seq<Value>)
    ensures |s| == n && forall v <- s :: v == Null
  {
    seq(n, _ => Null)
  }

  /** The items of an array, made long enough for an index. */
  function Extended(v: Value, idx: nat): (items: seq<Value>)
    ensures idx < |items|
  {
    var items := if v.Array? then v.items else [];
    if idx < |items| then items else items + Nulls(idx + 1 - |items|)
  }

  function FieldsOf(v: Value): map<string, Value> {
    if v.Object? then v.fields else map[]
  }

  /** The container with one child replaced. */
  function WithChild(v: Value, seg: Seg, child: Value): Value {
    match seg
    case Key(key) => Object(FieldsOf(v)[key := child])
    case Idx(idx) => if idx < 0 then v else Array(Extended(v, idx)[idx := child])
  }

  function SetIn(v: Value, path: seq<Seg>, w: Value): Value
    requires path != []
    decreases |path|
  {
    if path[0].Idx? && path[0].idx < 0 then v
    else if |path| == 1 then WithChild(v, path[0], w)
    else WithChild(v, path[0], SetIn(Child(v, path[0]), path[1..], w))
  }

  function SetPath(m: map<string, Value>, path: seq<Seg>, w: Value): map<string, Value> {
    if path == [] then m
    else
      var out := SetIn(Object(m), path, w);
      if out.Object? then out.fields else m
  }

  /** No index on the path is negative. */
  predicate Forward(path: seq<Seg>) {
    forall seg <- path :: seg.Idx? ==> seg.idx >= 0
  }

  lemma ChildOfWith(v: Value, seg: Seg, child: Value)
    requires seg.Idx? ==> seg.idx >= 0
    ensures Child(WithChild(v, seg, child), seg) == child
  {
  }

  lemma WithTwice(v: Value, seg: Seg, a: Value, b: Value)
    requires seg.Idx? ==> seg.idx >= 0
    ensures WithChild(WithChild(v, seg, a), seg, b) == WithChild(v, seg, b)
  {
  }

  /** Another child of the same kind is not touched, even when the container grows or is replaced. */
  lemma OtherChild(v: Value, seg: Seg, child: Value, other: Seg)
    requires seg.Key? == other.Key? && seg != other
    ensures Child(WithChild(v, seg, child), other) == Child(v, other)
  {
  }

  // ---- what is written is read ----

  /** Reading a path that was just written gives what was written, whatever was there before. */
  lemma {:induction false} GetSet(v: Value, path: seq<Seg>, w: Value)
    requires path != [] && Forward(path)
    ensures Get(SetIn(v, path, w), path) == w
    decreases |path|
  {
    if |path| == 1 {
      ChildOfWith(v, path[0], w);
      assert path[1..] == [];
    } else {
      var inner := SetIn(Child(v, path[0]), path[1..], w);
      GetSet(Child(v, path[0]), path[1..], w);
      ChildOfWith(v, path[0], inner);
    }
  }

  /** Of two writes to one path only the second counts. */
  lemma {:induction false} SetSet(v: Value, path: seq<Seg>, a: Value, b: Value)
    requires path != [] && Forward(path)
    ensures SetIn(SetIn(v, path, a), path, b) == SetIn(v, path, b)
    decreases |path|
  {
    if |path| == 1 {
      WithTwice(v, path[0], a, b);
    } else {
      var child := Child(v, path[0]);
      var inner := SetIn(child, path[1..], a);
      SetSet(child, path[1..], a, b);
      ChildOfWith(v, path[0], inner);
      WithTwice(v, path[0], inner, SetIn(child, path[1..], b));
    }
  }

  /** The value has something at this path; a Null that is really there counts. */
  predicate Exists(v: Value, path: seq<Seg>)
    decreases |path|
  {
    path == [] ||
    ((match path[0]
      case Key(key) => v.Object? && key in v.fields
      case Idx(idx) => v.Array? && 0 <= idx < |v.items|)
     && Exists(Child(v, path[0]), path[1..]))
  }

  lemma WithSameChild(v: Value, seg: Seg)
    requires seg.Idx? ==> seg.idx >= 0
    ensures WithChild(v, seg, Child(v, seg)) == v <==> Exists(v, [seg])
  {
    assert [seg][1..] == [];
    if seg.Key? && v.Object? && seg.key in v.fields {
      assert v.fields[seg.key := v.fields[seg.key]] == v.fields;
    } else if seg.Idx? && v.Array? && seg.idx < |v.items| {
      assert v.items[seg.idx := v.items[seg.idx]] == v.items;
    } else if seg.Key? && v.Object? {
      assert seg.key in FieldsOf(v)[seg.key := Null];
    }
  }

  lemma {:induction false} SetGrows(v: Value, path: seq<Seg>, w: Value)
    requires path != [] && Forward(path)
    ensures Exists(SetIn(v, path, w), path)
    decreases |path|
  {
    if |path| == 1 {
      assert path[1..] == [];
    } else {
      var inner := SetIn(Child(v, path[0]), path[1..], w);
      SetGrows(Child(v, path[0]), path[1..], w);
      ChildOfWith(v, path[0], inner);
    }
  }

  /** Writing back what was read changes nothing exactly when there was something at the path. */
  lemma {:induction false} SetBack(v: Value, path: seq<Seg>)
    requires path != [] && Forward(path)
    ensures SetIn(v, path, Get(v, path)) == v <==> Exists(v, path)
    decreases |path|
  {
    SetGrows(v, path, Get(v, path));
    if Exists(v, path) {
      assert path[0] == [path[0]][0];
      WithSameChild(v, path[0]);
      assert [path[0]][1..] == [];
      if |path| == 1 {
        assert path == [path[0]];
      } else {
        SetBack(Child(v, path[0]), path[1..]);
      }
    }
  }

  // ---- what is not written stays ----

  /** The first position at which two paths go different ways. */
  predicate Diverge(p: seq<Seg>, q: seq<Seg>, k: nat) {
    k < |p| && k < |q| && p[..k] == q[..k] && p[k] != q[k]
  }

  /** A path that parts from the written one at a segment of the same kind reads as before. */
  lemma {:induction false} SetElsewhere(v: Value, p: seq<Seg>, q: seq<Seg>, k: nat, w: Value)
    requires Forward(p) && Diverge(p, q, k) && p[k].Key? == q[k].Key?
    ensures Get(SetIn(v, p, w), q) == Get(v, q)
    decreases k
  {
    if k == 0 {
      OtherChild(v, p[0], if |p| == 1 then w else SetIn(Child(v, p[0]), p[1..], w), q[0]);
    } else {
      assert p[..k][0] == p[0] && q[..k][0] == q[0];
      assert p[1..][..k - 1] == p[..k][1..] && q[1..][..k - 1] == q[..k][1..];
      var inner := SetIn(Child(v, p[0]), p[1..], w);
      SetElsewhere(Child(v, p[0]), p[1..], q[1..], k - 1, w);
      ChildOfWith(v, p[0], inner);
    }
  }

  /**
   Parting at a key where the other has an index, or the other way round, the container becomes
   one of the written kind: the other path then reads as missing.
   */
  lemma {:induction false} SetReplaces(v: Value, p: seq<Seg>, q: seq<Seg>, k: nat, w: Value)
    requires Forward(p) && Diverge(p, q, k) && p[k].Key? != q[k].Key?
    ensures Get(SetIn(v, p, w), q) == Null
    ensures Get(SetIn(v, p, w), q) == Get(v, q) <==> Get(v, q) == Null
    decreases k
  {
    if k == 0 {
      GetNull(q[1..]);
    } else {
      assert p[..k][0] == p[0] && q[..k][0] == q[0];
      assert p[1..][..k - 1] == p[..k][1..] && q[1..][..k - 1] == q[..k][1..];
      var inner := SetIn(Child(v, p[0]), p[1..], w);
      SetReplaces(Child(v, p[0]), p[1..], q[1..], k - 1, w);
      ChildOfWith(v, p[0], inner);
    }
  }

  /** What stands above the written path is the old container, written along the rest. */
  lemma {:induction false} SetAbove(v: Value, p: seq<Seg>, q: seq<Seg>, w: Value)
    requires q != [] && Forward(p + q)
    ensures Get(SetIn(v, p + q, w), p) == SetIn(Get(v, p), q, w)
    decreases |p|
  {
    if p == [] {
      assert p + q == q;
    } else {
      assert (p + q)[1..] == p[1..] + q;
      var inner := SetIn(Child(v, p[0]), p[1..] + q, w);
      SetAbove(Child(v, p[0]), p[1..], q, w);
      ChildOfWith(v, p[0], inner);
    }
  }

  /** A negative index stops the write: what is above it is written back, missing containers included. */
  lemma {:induction false} SetNegative(v: Value, path: seq<Seg>, k: nat, w: Value)
    requires k < |path| && path[k].Idx? && path[k].idx < 0 && Forward(path[..k])
    ensures SetIn(v, path, w) == if k == 0 then v else SetIn(v, path[..k], Get(v, path[..k]))
    decreases k
  {
    if k > 0 {
      assert path[..k][0] == path[0] && path[..k][0] in path[..k];
      assert path[1..][..k - 1] == path[..k][1..];
      SetNegative(Child(v, path[0]), path[1..], k - 1, w);
    }
  }

  /** A write of a field changes this field and no other, in the old object or in a new one. */
  lemma SetField(v: Value, key: string, w: Value)
    ensures SetIn(v, [Key(key)], w) == Object(if v.Object? then v.fields[key := w] else map[key := w])
  {
  }

  /** A write of an item changes this item, with Nulls up to it if need be, in the old array or in a new one. */
  lemma SetItem(v: Value, idx: nat, w: Value)
    ensures SetIn(v, [Idx(idx)], w).Array?
    ensures var before, after := if v.Array? then v.items else [], SetIn(v, [Idx(idx)], w).items;
            && |after| == (if idx < |before| then |before| else idx + 1) && after[idx] == w
            && forall k | 0 <= k < |after| && k != idx :: after[k] == if k < |before| then before[k] else Null
  {
  }

  /** A deeper write changes, in each container on the way, only what the path goes through. */
  lemma SetDeep(v: Value, path: seq<Seg>, w: Value)
    requires |path| > 1 && Forward(path)
    ensures SetIn(v, path, w) == SetIn(v, path[..1], SetIn(Child(v, path[0]), path[1..], w))
  {
    assert path[..1][0] == path[0] && path[0] in path;
  }

  /** Keys of both maps and no others. */
  lemma MergeKeys(a: map<string, Value>, b: map<string, Value>, key: string)
    ensures key in MergeMaps(a, b) <==> key in a || key in b
  {
  }

  /** Writing a.0 as an index turns the object under a into an array, and a.k is gone. */
  lemma SetReplacesExample()
    ensures var m := map["a" := Object(map["k" := Atom("1")])];
            var m' := SetPath(m, [Key("a"), Idx(0)], Atom("2"));
            && Get(Object(m), [Key("a"), Key("k")]) == Atom("1")
            && m' == map["a" := Array([Atom("2")])]
            && Get(Object(m'), [Key("a"), Key("k")]) == Null
  {
    var m := map["a" := Object(map["k" := Atom("1")])];
    var p, q := [Key("a"), Idx(0)], [Key("a"), Key("k")];
    assert p[1..] == [Idx(0)] && q[1..] == [Key("k")] && q[1..][1..] == [];
    assert SetIn(m["a"], [Idx(0)], Atom("2")) == Array([Atom("2")]);
    assert Child(m["a"], Key("k")) == Atom("1");
    var m' := SetPath(m, p, Atom("2"));
    assert Get(Object(m'), q) == Get(Array([Atom("2")]), [Key("k")]);
  }

  /** Writing behind a negative index changes nothing but the container it lacks, which becomes Null. */
  lemma SetNegativeExample()
    ensures SetPath(map[], [Key("a"), Idx(-1)], Atom("1")) == map["a" := Null]
    ensures SetPath(map["a" := Atom("0")], [Key("a"), Idx(-1), Key("b")], Atom("1")) == map["a" := Atom("0")]
  {
    var p, q := [Key("a"), Idx(-1)], [Key("a"), Idx(-1), Key("b")];
    assert p[1..][0] == Idx(-1) && q[1..][0] == Idx(-1);
  }

  /** A write through a path that starts with a key always lands; one that starts with an index never does. */
  lemma SetPathLands(m: map<string, Value>, path: seq<Seg>, w: Value)
    requires path != []
    ensures if path[0].Key? then Object(SetPath(m, path, w)) == SetIn(Object(m), path, w) else SetPath(m, path, w) == m
  {
  }

  // ---- merging ----

  /** b over a, key by key and deep where both have objects; arrays are replaced as a whole. */
  function MergeMaps(a: map<string, Value>, b: map<string, Value>): map<string, Value>
    decreases Object(a)
  {
    map k | k in a.Keys + b.Keys ::
      if k !in b then a[k]
      else if k in a && a[k].Object? && b[k].Object? then Object(MergeMaps(a[k].fields, b[k].fields))
      else b[k]
  }

  predicate AllKeys(path: seq<Seg>) {
    forall seg <- path :: seg.Key?
  }

  /** b has objects along the path up to a key that is missing. */
  predicate Absent(b: map<string, Value>, path: seq<Seg>)
    requires path != [] && AllKeys(path)
    decreases |path|
  {
    assert path[0] in path;
    path[0].key !in b ||
    (|path| > 1 && b[path[0].key].Object? && Absent(b[path[0].key].fields, path[1..]))
  }

  lemma {:induction false} AbsentReadsNull(b: map<string, Value>, path: seq<Seg>)
    requires path != [] && AllKeys(path) && Absent(b, path)
    ensures Get(Object(b), path) == Null
    decreases |path|
  {
    assert path[0] in path;
    var key := path[0].key;
    if key !in b {
      GetNull(path[1..]);
    } else {
      AbsentReadsNull(b[key].fields, path[1..]);
    }
  }

  /**
   What is read along keys after a merge: where b says nothing, what a says; where both have
   objects, their merge; and everywhere else what b says.
   */
  lemma {:induction false} MergeReads(a: map<string, Value>, b: map<string, Value>, path: seq<Seg>)
    requires path != [] && AllKeys(path)
    ensures Get(Object(MergeMaps(a, b)), path) ==
            var av, bv := Get(Object(a), path), Get(Object(b), path);
            if Absent(b, path) then av
            else if av.Object? && bv.Object? then Object(MergeMaps(av.fields, bv.fields))
            else bv
    decreases |path|
  {
    assert path[0] in path;
    var key, rest := path[0].key, path[1..];
    if rest != [] {
      assert rest[0] in rest && rest[0] in path;
      GetNull(rest);
      GetNull(rest[1..]);
      if key in a && key in b && a[key].Object? && b[key].Object? {
        MergeReads(a[key].fields, b[key].fields, rest);
      } else if key in b && Absent(b, path) {
        AbsentReadsNull(b, path);
      }
    }
  }

  // ---- the written form of a path ----

  /** One part between dots: keys and bracketed segments; an unclosed bracket is a key to the end. */
  function ParsePart(part: string): seq<Seg>
    decreases |part|
  {
    if part == "" then []
    else if part[0] == '[' then
      var end := Find(part, ']');
      if end == |part| then [Key(part)]
      else
        var inner := part[1..end];
        [match Atoi(inner) case Some(n) => Idx(n) case None => Key(inner)] + ParsePart(part[end + 1..])
    else
      var bracket := Find(part, '[');
      [Key(part[..bracket])] + ParsePart(part[bracket..])
  }

  function ParseParts(parts: seq<string>): seq<Seg> {
    if parts == [] then [] else ParsePart(parts[0]) + ParseParts(parts[1..])
  }

  function Parse(path: string): seq<Seg> {
    ParseParts(Split(path, '.'))
  }

  lemma ParsePartStep(part: string)
    requires part != ""
    ensures part[0] == '[' ==>
              var end := Find(part, ']');
              if end == |part| then ParsePart(part) == [Key(part)]
              else
                var idx := Atoi(part[1..end]);
                ParsePart(part) == [if idx.Some? then Idx(idx.value) else Key(part[1..end])] + ParsePart(part[end + 1..])
    ensures part[0] != '[' ==>
              var bracket := Find(part, '[');
              0 < bracket && ParsePart(part) == [Key(part[..bracket])] + ParsePart(part[bracket..])
  {
    hide Find, Atoi;
  }

  lemma Assoc(a: seq<Seg>, b: seq<Seg>, c: seq<Seg>)
    ensures a + (b + c) == a + b + c
  {
  }

  /** The two nested loops; the inner one ends because what is left of a part gets shorter. */
  method SplitPath(path: string) returns (out: seq<Seg>)
    ensures out == Parse(path)
  {
    hide ParsePart, Atoi;
    out := [];
    var parts := Split(path, '.');
    var i := 0;
    while i < |parts|
      invariant i <= |parts|
      invariant out + ParseParts(parts[i..]) == Parse(path)
    {
      var part := parts[i];
      assert parts[i..][0] == part && parts[i..][1..] == parts[i + 1..];
      ghost var whole := out + ParsePart(part);
      Assoc(out, ParsePart(part), ParseParts(parts[i + 1..]));
      while part != ""
        invariant out + ParsePart(part) == whole
        decreases |part|
      {
        ParsePartStep(part);
        if part[0] == '[' {
          var end := Find(part, ']');
          if end == |part| {
            out := out + [Key(part)];
            part := "";
            NothingToParse();
            break;
          }
          var idx := Atoi(part[1..end]);
          var seg := if idx.Some? then Idx(idx.value) else Key(part[1..end]);
          Assoc(out, [seg], ParsePart(part[end + 1..]));
          out := out + [seg];
          part := part[end + 1..];
          continue;
        }
        var key := part;
        var bracket := Find(part, '[');
        Assoc(out, [Key(part[..bracket])], ParsePart(part[bracket..]));
        if bracket < |part| {
          key := part[..bracket];
          part := part[bracket..];
        } else {
          assert part[..bracket] == part && part[bracket..] == "";
          part := "";
        }
        if key != "" {
          out := out + [Key(key)];
        }
      }
      NothingToParse();
      i := i + 1;
    }
  }

  lemma NothingToParse()
    ensures ParsePart("") == []
  {
  }

  /** A segment that can be written out: a key without dots and brackets that open, or an index in range. */
  predicate Plain(seg: Seg) {
    match seg
    case Key(key) => key != "" && '.' !in key && '[' !in key
    case Idx(idx) => 0 <= idx <= MAX_INT
  }

  predicate AllPlain(segs: seq<Seg>) {
    forall seg <- segs :: Plain(seg)
  }

  /** The text of segments that follow others. */
  function Following(segs: seq<Seg>): string
    requires AllPlain(segs)
  {
    if segs == [] then ""
    else
      assert Plain(segs[0]);
      match segs[0]
      case Key(key) => "." + key + Following(segs[1..])
      case Idx(idx) => "[" + Decimal(idx) + "]" + Following(segs[1..])
  }

  /** The form a.b[0].c. */
  function Show(segs: seq<Seg>): string
    requires AllPlain(segs)
  {
    if segs != [] && segs[0].Key? then segs[0].key + Following(segs[1..]) else Following(segs)
  }

  /** Every bracket that opens a segment is closed. */
  predicate IsClosed(part: string)
    decreases |part|
  {
    part == "" ||
    (if part[0] == '[' then ']' in part && IsClosed(part[Find(part, ']') + 1..])
     else IsClosed(part[Find(part, '[')..]))
  }

  lemma BracketedIndex(n: nat)
    requires n <= MAX_INT
    ensures var more := "[" + Decimal(n) + "]";
            IsClosed(more) && ParsePart(more) == [Idx(n)]
  {
    var more := "[" + Decimal(n) + "]";
    FindAt("[" + Decimal(n), ']', "");
    assert "[" + Decimal(n) + [']'] + "" == more;
    assert more[1..|more| - 1] == Decimal(n);
    assert more[|more|..] == "";
    AtoiDecimal(n);
    hide Decimal, Atoi;
    assert IsClosed("") && ParsePart("") == [];
  }

  lemma ClosedStep(part: string)
    requires part != ""
    ensures part[0] == '[' ==> (IsClosed(part) <==> ']' in part && IsClosed(part[Find(part, ']') + 1..]))
    ensures part[0] != '[' ==> (IsClosed(part) <==> IsClosed(part[Find(part, '[')..]))
  {
    hide Find;
  }

  lemma BracketFirst(part: string, last: string)
    requires part != "" && part[0] == '[' && ']' in part
    ensures var end := Find(part, ']');
            && ParsePart(part + last) == [ParsePart(part)[0]] + ParsePart(part[end + 1..] + last)
            && ParsePart(part) == [ParsePart(part)[0]] + ParsePart(part[end + 1..])
            && (IsClosed(part + last) <==> IsClosed(part[end + 1..] + last))
  {
    var end := Find(part, ']');
    var more := part + last;
    FindEarly(part, ']', last);
    assert more[end + 1..] == part[end + 1..] + last;
    assert more[1..end] == part[1..end];
    ParsePartStep(part);
    ParsePartStep(more);
    ClosedStep(more);
    hide ParsePart, IsClosed, Atoi, Find;
  }

  lemma KeyFirst(part: string, last: string)
    requires part != "" && part[0] != '[' && last != "" && last[0] == '['
    ensures var bracket := Find(part, '[');
            && 0 < bracket
            && ParsePart(part + last) == [Key(part[..bracket])] + ParsePart(part[bracket..] + last)
            && (IsClosed(part + last) <==> IsClosed(part[bracket..] + last))
  {
    hide ParsePart, IsClosed, Atoi;
    var bracket := Find(part, '[');
    var more := part + last;
    FindAcross(part, '[', last);
    assert bracket > 0;
    hide Find;
    assert more[bracket..] == part[bracket..] + last;
    assert more[..bracket] == part[..bracket];
    ParsePartStep(more);
    ClosedStep(more);
  }

  lemma {:induction false} PartAppend(part: string, n: nat)
    requires IsClosed(part) && n <= MAX_INT
    ensures var more := part + ("[" + Decimal(n) + "]");
            IsClosed(more) && ParsePart(more) == ParsePart(part) + [Idx(n)]
    decreases |part|
  {
    hide ParsePart, IsClosed, Decimal, Atoi;
    var last := "[" + Decimal(n) + "]";
    if part == "" {
      BracketedIndex(n);
      NothingToParse();
      assert part + last == last;
    } else {
      ClosedStep(part);
      ParsePartStep(part);
      if part[0] == '[' {
        BracketFirst(part, last);
        PartAppend(part[Find(part, ']') + 1..], n);
      } else {
        KeyFirst(part, last);
        PartAppend(part[Find(part, '[')..], n);
      }
    }
  }

  /** A key that is a part of its own. */
  lemma PlainKey(key: string)
    requires Plain(Key(key))
    ensures IsClosed(key) && ParsePart(key) == [Key(key)] && '.' !in key
  {
    assert Find(key, '[') == |key|;
    assert key[..|key|] == key && key[|key|..] == "";
    ParsePartStep(key);
    NothingToParse();
    ClosedStep(key);
    hide ParsePart;
    assert IsClosed("");
  }

  lemma NoDotInDecimal(n: nat)
    ensures '.' !in Decimal(n)
  {
  }

  lemma ParseDot(a: string, b: string)
    requires '.' !in a
    ensures Parse(a + "." + b) == ParsePart(a) + Parse(b)
  {
    SplitAt(a, '.', b);
    assert a + "." + b == a + ['.'] + b;
    var parts := [a] + Split(b, '.');
    assert parts[1..] == Split(b, '.');
  }

  lemma Dotted(part: string, key: string, after: string)
    ensures part + ("." + key + after) == part + "." + (key + after)
  {
  }

  lemma HeadTail<T>(s: seq<T>)
    requires s != []
    ensures [s[0]] + s[1..] == s
  {
  }

  lemma FollowingKey(part: string, segs: seq<Seg>)
    requires '.' !in part && segs != [] && AllPlain(segs) && segs[0].Key?
    requires Parse(segs[0].key + Following(segs[1..])) == [segs[0]] + segs[1..]
    ensures Parse(part + Following(segs)) == ParsePart(part) + segs
  {
    hide ParsePart, Parse, Following, Plain, AllPlain;
    PlainTail(segs);
    ParseDot(part, segs[0].key + Following(segs[1..]));
    Dotted(part, segs[0].key, Following(segs[1..]));
    HeadTail(segs);
  }

  lemma FollowingIdx(part: string, segs: seq<Seg>, last: string)
    requires segs != [] && AllPlain(segs) && segs[0].Idx? && 0 <= segs[0].idx
    requires last == "[" + Decimal(segs[0].idx) + "]"
    requires Parse(part + last + Following(segs[1..])) == ParsePart(part) + [segs[0]] + segs[1..]
    ensures Parse(part + Following(segs)) == ParsePart(part) + segs
  {
    hide ParsePart, Parse, Following, Plain, AllPlain, Decimal;
    PlainTail(segs);
    Behind(part, last, Following(segs[1..]));
    Behind(ParsePart(part), [segs[0]], segs[1..]);
    HeadTail(segs);
  }

  lemma {:induction false} ParseFollowing(part: string, segs: seq<Seg>)
    requires '.' !in part && IsClosed(part) && AllPlain(segs)
    ensures Parse(part + Following(segs)) == ParsePart(part) + segs
    decreases |segs|
  {
    if segs == [] {
      ParseAlone(part);
      assert part + "" == part;
    } else {
      PlainTail(segs);
      hide ParsePart, IsClosed, Parse, Plain, AllPlain, Following, Decimal;
      if segs[0].Key? {
        PlainKey(segs[0].key);
        ParseFollowing(segs[0].key, segs[1..]);
        FollowingKey(part, segs);
      } else {
        var last := "[" + Decimal(segs[0].idx) + "]";
        PartAppend(part, segs[0].idx);
        ParseFollowing(part + last, segs[1..]);
        FollowingIdx(part, segs, last);
      }
    }
  }

  lemma PlainTail(segs: seq<Seg>)
    requires segs != [] && AllPlain(segs)
    ensures Plain(segs[0]) && AllPlain(segs[1..])
    ensures segs[0].Key? ==> Following(segs) == "." + segs[0].key + Following(segs[1..])
    ensures segs[0].Idx? ==>
              && 0 <= segs[0].idx <= MAX_INT
              && Following(segs) == ("[" + Decimal(segs[0].idx) + "]") + Following(segs[1..])
              && '.' !in "[" + Decimal(segs[0].idx) + "]"
  {
    assert Plain(segs[0]);
    if segs[0].Idx? {
      NoDotInDecimal(segs[0].idx);
    }
  }

  lemma Behind<T>(a: seq<T>, b: seq<T>, c: seq<T>)
    ensures a + (b + c) == a + b + c
  {
  }

  lemma ParseAlone(part: string)
    requires '.' !in part
    ensures Parse(part) == ParsePart(part)
  {
    SplitWhole(part, '.');
    assert ParseParts([part]) == ParsePart(part) + ParseParts([part][1..]);
  }

  /** Writing a path out and taking it apart again gives the same segments. */
  lemma ShowThenParse(segs: seq<Seg>)
    requires AllPlain(segs)
    ensures Parse(Show(segs)) == segs
  {
    if segs != [] && segs[0].Key? {
      var key := segs[0].key;
      assert Plain(segs[0]);
      PlainKey(key);
      ParseFollowing(key, segs[1..]);
    } else {
      ParseFollowing("", segs);
      assert "" + Following(segs) == Following(segs);
    }
  }
}
