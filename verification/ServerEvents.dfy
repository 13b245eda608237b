/**
 Server-sent events: the printer that answers clients and the scanner that reads upstreams.
 The scanner takes lines off a buffer of limited size and joins data lines; the printer writes
 one event and one data line per frame and does not split anything.
 */
module ServerEvents {
  import opened Text

  datatype Frame = Frame(event: string, data: string)

  /** A line and its end must fit the scanner's buffer. */
  const BUFFER_SIZE: nat := 1024 * 1024

  // ---- text ----

  /** The size of a code point in UTF-8. */
  function Width(c: char): nat {
    if c < 128 as char then 1 else if c < 0x800 as char then 2 else if c < 0x10000 as char then 3 else 4
  }

  function ByteLen(s: string): nat {
    if s == "" then 0 else Width(s[0]) + ByteLen(s[1..])
  }

  lemma {:induction false} FewBytes(s: string)
    ensures ByteLen(s) <= 4 * |s|
  {
    if s != "" {
      FewBytes(s[1..]);
    }
  }

  predicate IsSpace(c: char) {
    || ('\t' <= c <= '\r') || c == ' ' || c == 0x85 as char || c == 0xa0 as char || c == 0x1680 as char
    || (0x2000 as char <= c <= 0x200a as char) || c == 0x2028 as char || c == 0x2029 as char
    || c == 0x202f as char || c == 0x205f as char || c == 0x3000 as char
  }

  function TrimLeft(s: string): string {
    if s != "" && IsSpace(s[0]) then TrimLeft(s[1..]) else s
  }

  function TrimRight(s: string): string {
    if s != "" && IsSpace(s[|s| - 1]) then TrimRight(s[..|s| - 1]) else s
  }

  function TrimSpace(s: string): string {
    TrimRight(TrimLeft(s))
  }

  /** Nothing to trim. */
  predicate Trimmed(s: string) {
    s == "" || (!IsSpace(s[0]) && !IsSpace(s[|s| - 1]))
  }

  lemma {:induction false} TrimLeftPart(s: string)
    ensures var t := TrimLeft(s);
            && (t == "" || !IsSpace(t[0])) && (forall c <- t :: c in s)
  {
    if s != "" && IsSpace(s[0]) {
      TrimLeftPart(s[1..]);
    }
  }

  lemma {:induction false} TrimRightPart(s: string)
    ensures var t := TrimRight(s);
            && (t == "" || (!IsSpace(t[|t| - 1]) && s != "" && t[0] == s[0])) && (forall c <- t :: c in s)
  {
    if s != "" && IsSpace(s[|s| - 1]) {
      TrimRightPart(s[..|s| - 1]);
    }
  }

  lemma TrimSpacePart(s: string)
    ensures Trimmed(TrimSpace(s)) && forall c <- TrimSpace(s) :: c in s
  {
    TrimLeftPart(s);
    TrimRightPart(TrimLeft(s));
  }

  /** A leading blank in front of a trimmed text goes away and nothing else. */
  lemma TrimBlank(s: string)
    requires Trimmed(s)
    ensures TrimSpace(" " + s) == s
  {
    assert (" " + s)[1..] == s;
    assert TrimLeft(s) == s && TrimRight(s) == s;
    assert TrimLeft(" " + s) == TrimLeft(s);
  }

  /** The lines of a text; a last one without an end counts when it is not empty. */
  function Lines(s: string): seq<string> {
    var parts := Split(s, '\n');
    if parts[|parts| - 1] == "" then parts[..|parts| - 1] else parts
  }

  lemma LinesCons(line: string, rest: string)
    requires '\n' !in line
    ensures Lines(line + "\n" + rest) == [line] + Lines(rest)
  {
    SplitAt(line, '\n', rest);
    assert line + "\n" + rest == line + ['\n'] + rest;
    var parts := Split(rest, '\n');
    assert ([line] + parts)[|parts|] == parts[|parts| - 1];
    assert ([line] + parts)[..|parts|] == [line] + parts[..|parts| - 1];
  }

  /** One carriage return at the end of a line belongs to its end. */
  function DropCr(line: string): string {
    if line != "" && line[|line| - 1] == '\r' then line[..|line| - 1] else line
  }

  predicate HasPrefix(s: string, prefix: string) {
    |prefix| <= |s| && s[..|prefix|] == prefix
  }

  // ---- the scanner ----

  datatype State = State(event: string, data: seq<string>, out: seq<Frame>)

  const Start := State("", [], [])

  function Flush(st: State): State {
    if st.data != [] || st.event != "" then State("", [], st.out + [Frame(st.event, Join(st.data, '\n'))]) else st
  }

  function Value(line: string): string
    requires HasPrefix(line, "data:")
  {
    var v := line[5..];
    if HasPrefix(v, " ") then v[1..] else v
  }

  function Feed(st: State, raw: string): State {
    var line := DropCr(raw);
    if line == "" then Flush(st)
    else if HasPrefix(line, "event:") then st.(event := TrimSpace(line[6..]))
    else if HasPrefix(line, "data:") then st.(data := st.data + [Value(line)])
    else st
  }

  /** All lines up to one that does not fit the buffer. */
  function Scan(lines: seq<string>, st: State): (State, bool) {
    if lines == [] then (st, false)
    else if ByteLen(lines[0]) >= BUFFER_SIZE then (st, true)
    else Scan(lines[1..], Feed(st, lines[0]))
  }

  function Parse(text: string): (seq<Frame>, bool) {
    var (st, failed) := Scan(Lines(text), Start);
    (if failed then st.out else Flush(st).out, failed)
  }

  /** The scanning loop. A line that is too long ends it without handing out what is pending. */
  method ScanSse(text: string) returns (frames: seq<Frame>, failed: bool)
    ensures (frames, failed) == Parse(text)
  {
    hide TrimSpace, ByteLen;
    var event := "";
    var data: seq<string> := [];
    frames := [];
    var lines := Lines(text);
    var i := 0;
    while i < |lines|
      invariant i <= |lines|
      invariant Scan(lines[i..], State(event, data, frames)) == Scan(lines, Start)
    {
      assert lines[i..][0] == lines[i] && lines[i..][1..] == lines[i + 1..];
      if ByteLen(lines[i]) >= BUFFER_SIZE {
        return frames, true;
      }
      var line := DropCr(lines[i]);
      if line == "" {
        if |data| > 0 || event != "" {
          frames := frames + [Frame(event, Join(data, '\n'))];
          event, data := "", [];
        }
      } else if HasPrefix(line, "event:") {
        event := TrimSpace(line[6..]);
      } else if HasPrefix(line, "data:") {
        data := data + [Value(line)];
      }
      i := i + 1;
    }
    if |data| > 0 || event != "" {
      frames := frames + [Frame(event, Join(data, '\n'))];
    }
    failed := false;
  }

  // ---- the printer ----

  function Written(f: Frame): string {
    (if f.event == "" then "" else "event: " + f.event + "\n") + "data: " + f.data + "\n\n"
  }

  method WriteSse(w: string, f: Frame) returns (w': string)
    ensures w' == w + Written(f)
  {
    w' := w;
    if f.event != "" {
      w' := w' + ("event: " + f.event + "\n");
    }
    w' := w' + ("data: " + f.data + "\n\n");
  }

  function WrittenAll(frames: seq<Frame>): string {
    if frames == [] then "" else Written(frames[0]) + WrittenAll(frames[1..])
  }

  /** A frame that survives printing and scanning. */
  predicate Clean(f: Frame) {
    && '\n' !in f.event && Trimmed(f.event) && ByteLen("event: " + f.event) < BUFFER_SIZE
    && '\n' !in f.data && (f.data == "" || f.data[|f.data| - 1] != '\r')
    && ByteLen("data: " + f.data) < BUFFER_SIZE
  }

  // ---- scanning what was printed ----

  lemma FeedEvent(st: State, event: string)
    requires Trimmed(event) && event != ""
    ensures Feed(st, "event: " + event) == st.(event := event)
  {
    var line := "event: " + event;
    assert line[|line| - 1] == event[|event| - 1];
    assert line[..6] == "event:" && line[6..] == " " + event;
    TrimBlank(event);
    hide TrimSpace;
  }

  lemma FeedData(st: State, data: string)
    requires data == "" || data[|data| - 1] != '\r'
    ensures Feed(st, "data: " + data) == st.(data := st.data + [data])
  {
    var line := "data: " + data;
    if data != "" {
      assert line[|line| - 1] == data[|data| - 1];
    }
    assert line[..5] == "data:" && line[5..] == " " + data;
    assert (" " + data)[..1] == " " && (" " + data)[1..] == data;
    assert line[..6] == "data: ";
    hide TrimSpace;
  }

  lemma FeedEnd(st: State)
    ensures Feed(st, "") == Flush(st)
  {
  }

  lemma ScanCons(line: string, rest: string, st: State)
    requires '\n' !in line
    ensures Scan(Lines(line + "\n" + rest), st)
         == if ByteLen(line) >= BUFFER_SIZE then (st, true) else Scan(Lines(rest), Feed(st, line))
  {
    LinesCons(line, rest);
    hide Lines, ByteLen, Feed;
    assert ([line] + Lines(rest))[1..] == Lines(rest);
  }

  lemma Apart(event: string, data: string, rest: string)
    ensures event == "" ==> Written(Frame(event, data)) + rest == ("data: " + data) + "\n" + ("" + "\n" + rest)
    ensures event != "" ==>
              Written(Frame(event, data)) + rest
              == ("event: " + event) + "\n" + (("data: " + data) + "\n" + ("" + "\n" + rest))
  {
  }

  lemma ShortLine()
    ensures ByteLen("") < BUFFER_SIZE
  {
  }

  /** A printed frame is scanned as one frame. */
  lemma ScanWritten(f: Frame, rest: string, out: seq<Frame>)
    requires Clean(f)
    ensures Scan(Lines(Written(f) + rest), State("", [], out)) == Scan(Lines(rest), State("", [], out + [f]))
  {
    var data := "data: " + f.data;
    var st0 := State("", [], out);
    var st1 := st0.(event := f.event);
    var tail := "" + "\n" + rest;
    Apart(f.event, f.data, rest);
    ShortLine();
    assert '\n' !in data;
    assert Join([f.data], '\n') == f.data;
    assert [] + [f.data] == [f.data];
    hide Written, Scan, Lines, ByteLen, Feed, Trimmed, Join;
    if f.event != "" {
      assert '\n' !in "event: " + f.event;
      ScanCons("event: " + f.event, data + "\n" + tail, st0);
      FeedEvent(st0, f.event);
    }
    ScanCons(data, tail, st1);
    FeedData(st1, f.data);
    ScanCons("", rest, st1.(data := [f.data]));
    FeedEnd(st1.(data := [f.data]));
  }

  lemma {:induction false} ScanWrittenAll(frames: seq<Frame>, out: seq<Frame>)
    requires forall f <- frames :: Clean(f)
    ensures Scan(Lines(WrittenAll(frames)), State("", [], out)) == (State("", [], out + frames), false)
    decreases |frames|
  {
    if frames == [] {
      assert Lines("") == [];
      assert out + [] == out;
    } else {
      assert Clean(frames[0]);
      WrittenCons(frames);
      hide Scan, Lines, Written, WrittenAll, Clean;
      ScanWritten(frames[0], WrittenAll(frames[1..]), out);
      ScanWrittenAll(frames[1..], out + [frames[0]]);
      Regroup(out, frames);
    }
  }

  lemma WrittenCons(frames: seq<Frame>)
    requires frames != []
    ensures WrittenAll(frames) == Written(frames[0]) + WrittenAll(frames[1..])
  {
  }

  lemma Regroup(out: seq<Frame>, frames: seq<Frame>)
    requires frames != []
    ensures out + [frames[0]] + frames[1..] == out + frames
  {
  }

  /** Printing any list of clean frames and scanning the text gives the list back. */
  lemma WriteThenScan(frames: seq<Frame>)
    requires forall f <- frames :: Clean(f)
    ensures Parse(WrittenAll(frames)) == (frames, false)
  {
    ScanWrittenAll(frames, []);
    assert [] + frames == frames;
    hide Scan, Lines, WrittenAll;
  }

  // ---- exactly the clean frames survive ----

  /** Events that were scanned are trimmed and have no line ends. */
  ghost predicate EventsOk(st: State) {
    && Trimmed(st.event) && '\n' !in st.event
    && (forall f <- st.out :: Trimmed(f.event) && '\n' !in f.event)
  }

  lemma FeedEvents(st: State, line: string)
    requires EventsOk(st) && '\n' !in line
    ensures EventsOk(Feed(st, line))
  {
    var l := DropCr(line);
    assert forall c <- l :: c in line;
    if HasPrefix(l, "event:") {
      TrimSpacePart(l[6..]);
    }
    hide TrimSpace, Trimmed, Join;
  }

  lemma {:induction false} ScanEvents(lines: seq<string>, st: State)
    requires EventsOk(st) && forall line <- lines :: '\n' !in line
    ensures EventsOk(Scan(lines, st).0)
  {
    if lines != [] && ByteLen(lines[0]) < BUFFER_SIZE {
      assert '\n' !in lines[0];
      FeedEvents(st, lines[0]);
      hide EventsOk, Feed, ByteLen;
      ScanEvents(lines[1..], Feed(st, lines[0]));
    }
  }

  /** The size of all data in frames and of what is pending. */
  function OutSize(out: seq<Frame>): nat {
    if out == [] then 0 else OutSize(out[..|out| - 1]) + |out[|out| - 1].data|
  }

  function Size(st: State): nat {
    OutSize(st.out) + |Join(st.data, '\n')|
  }

  lemma {:induction false} JoinAppend(data: seq<string>, v: string)
    ensures |Join(data + [v], '\n')| == if data == [] then |v| else |Join(data, '\n')| + 1 + |v|
  {
    if |data| > 1 {
      JoinAppend(data[1..], v);
      assert (data + [v])[1..] == data[1..] + [v];
    } else if |data| == 1 {
      assert (data + [v])[1..] == [v];
    } else {
      assert data + [v] == [v];
    }
  }

  lemma FeedSize(st: State, line: string)
    ensures Size(Feed(st, line)) <= Size(st) || Size(Feed(st, line)) + 4 <= Size(st) + |line|
    ensures Size(Flush(st)) == Size(st)
  {
    var l := DropCr(line);
    if st.data != [] || st.event != "" {
      var f := Frame(st.event, Join(st.data, '\n'));
      assert (st.out + [f])[..|st.out|] == st.out;
    }
    if l != "" && HasPrefix(l, "data:") && !HasPrefix(l, "event:") {
      JoinAppend(st.data, Value(l));
    }
    hide TrimSpace;
  }

  function SumOf(lines: seq<string>): nat {
    if lines == [] then 0 else |lines[0]| + SumOf(lines[1..])
  }

  /** Scanning adds nothing, or less than the lines are long. */
  lemma {:induction false} ScanSize(lines: seq<string>, st: State)
    ensures var st' := Scan(lines, st).0;
            Size(st') <= Size(st) || Size(st') + 4 <= Size(st) + SumOf(lines)
  {
    if lines != [] && ByteLen(lines[0]) < BUFFER_SIZE {
      FeedSize(st, lines[0]);
      hide Size, Feed, ByteLen;
      ScanSize(lines[1..], Feed(st, lines[0]));
    }
  }

  lemma {:induction false} SplitSize(s: string)
    ensures SumOf(Split(s, '\n')) <= |s|
  {
    if s != "" {
      SplitSize(s[1..]);
      var rest := Split(s[1..], '\n');
      if s[0] == '\n' {
        assert ([""] + rest)[1..] == rest;
      } else {
        assert ([[s[0]] + rest[0]] + rest[1..])[1..] == rest[1..];
      }
    }
  }

  lemma {:induction false} SumFront(lines: seq<string>)
    requires lines != []
    ensures SumOf(lines[..|lines| - 1]) <= SumOf(lines)
  {
    if |lines| > 1 {
      SumFront(lines[1..]);
      assert lines[..|lines| - 1][1..] == lines[1..][..|lines| - 2];
    }
  }

  lemma LinesSize(s: string)
    ensures SumOf(Lines(s)) <= |s|
  {
    SplitSize(s);
    SumFront(Split(s, '\n'));
  }

  lemma LinesPlain(s: string)
    ensures forall line <- Lines(s) :: '\n' !in line
  {
  }

  /** The first data line of a frame adds at most its data, and less when a carriage return is lost. */
  lemma FirstData(event: string, data: string)
    ensures var st := Feed(State(event, [], []), "data: " + data);
            && st.out == [] && Size(st) <= |data|
            && (data != "" && data[|data| - 1] == '\r' ==> Size(st) < |data|)
  {
    var line := "data: " + data;
    var l := DropCr(line);
    if data != "" {
      assert line[|line| - 1] == data[|data| - 1];
    }
    assert l == "data: " + if data != "" && data[|data| - 1] == '\r' then data[..|data| - 1] else data;
    assert l[..6] == "data: " && l[..5] == "data:" && l[5] == ' ';
    assert HasPrefix(l[5..], " ") && Value(l) == l[6..];
    assert [] + [Value(l)] == [Value(l)];
    hide TrimSpace;
  }

  /** The data of the one frame that a text gives is as long as all data scanned. */
  lemma OneFrameSize(st: State, f: Frame)
    requires Flush(st).out == [f]
    ensures Size(st) == |f.data|
  {
    FeedSize(st, "");
    var out := [f];
    assert out[..0] == [];
    assert OutSize(out) == |f.data|;
    hide TrimSpace;
    NothingPending(st);
  }

  lemma NothingPending(st: State)
    ensures Size(Flush(st)) == OutSize(Flush(st).out)
  {
  }

  lemma FirstIsAll(first: string, rest: string, data: string)
    requires first + "\n" + rest == data + "\n\n" && '\n' !in first && |data| <= |first|
    ensures first == data
  {
    assert first + "\n" + rest == first + ['\n'] + rest;
    FindAt(first, '\n', rest);
    if '\n' in data {
      FindEarly(data, '\n', "\n\n");
    } else {
      assert data + "\n\n" == data + ['\n'] + "\n";
      FindAt(data, '\n', "\n");
    }
    assert first == (first + "\n" + rest)[..|first|];
    assert data == (data + "\n\n")[..|data|];
  }

  /** After a first data line, no text that follows can make up for a line end or carriage return in the data. */
  lemma DataSurvives(event: string, f: Frame, first: string, rest: string)
    requires first + "\n" + rest == f.data + "\n\n" && '\n' !in first
    requires var st := Feed(State(event, [], []), "data: " + first);
             Flush(Scan(Lines(rest), st).0).out == [f]
    ensures first == f.data && (f.data == "" || f.data[|f.data| - 1] != '\r')
  {
    var st := Feed(State(event, [], []), "data: " + first);
    FirstData(event, first);
    ScanSize(Lines(rest), st);
    LinesSize(rest);
    OneFrameSize(Scan(Lines(rest), st).0, f);
    hide Scan, Lines, Feed, Size, Flush;
    assert |first + "\n" + rest| == |f.data + "\n\n"|;
    FirstIsAll(first, rest, f.data);
  }

  /** The data up to its first line end, and what the printer writes behind that. */
  lemma FirstLine(data: string) returns (first: string, rest: string)
    ensures first + "\n" + rest == data + "\n\n" && '\n' !in first
  {
    var i := Find(data, '\n');
    first := data[..i];
    rest := (data + "\n\n")[i + 1..];
  }

  lemma PrintedData(event: string, data: string, first: string, rest: string)
    requires first + "\n" + rest == data + "\n\n"
    ensures Written(Frame(event, data)) == (if event == "" then "" else ("event: " + event) + "\n") + (("data: " + first) + "\n" + rest)
  {
    assert "data: " + data + "\n\n" == "data: " + (data + "\n\n");
    assert ("data: " + first) + "\n" + rest == "data: " + (first + "\n" + rest);
  }

  lemma EventSurvives(f: Frame)
    requires Parse(Written(f)) == ([f], false)
    ensures Trimmed(f.event) && '\n' !in f.event
  {
    var st := Scan(Lines(Written(f)), Start).0;
    LinesPlain(Written(f));
    ScanEvents(Lines(Written(f)), Start);
    FeedEvents(st, "");
    hide Scan, Lines, Trimmed;
    assert f in Flush(st).out;
  }

  /** After the event line, if there is one, the scanner is at the data line with that event. */
  lemma PastEvent(event: string, tail: string)
    requires Trimmed(event) && '\n' !in event
    ensures var text := (if event == "" then "" else ("event: " + event) + "\n") + tail;
            Scan(Lines(text), Start)
            == if event != "" && ByteLen("event: " + event) >= BUFFER_SIZE then (Start, true)
               else Scan(Lines(tail), State(event, [], []))
  {
    hide Scan, Lines, Feed, ByteLen, Trimmed;
    if event != "" {
      assert '\n' !in "event: " + event;
      ScanCons("event: " + event, tail, Start);
      FeedEvent(Start, event);
    } else {
      assert "" + tail == tail;
    }
  }

  lemma SurvivorIsClean(f: Frame)
    requires Parse(Written(f)) == ([f], false)
    ensures Clean(f)
  {
    EventSurvives(f);
    var first, rest := FirstLine(f.data);
    FewBytes("event: " + "");
    hide Scan, Lines, Feed, Written, ByteLen, Trimmed;
    PrintedData(f.event, f.data, first, rest);
    PastEvent(f.event, ("data: " + first) + "\n" + rest);
    assert '\n' !in "data: " + first;
    ScanCons("data: " + first, rest, State(f.event, [], []));
    DataSurvives(f.event, f, first, rest);
  }

  /**
   Printing a frame and scanning it gives it back exactly when it is clean: its event is
   trimmed and in one line, its data is in one line and does not end with a carriage return,
   and both lines fit the scanner's buffer.
   */
  lemma SurvivesIff(f: Frame)
    ensures Parse(Written(f)) == ([f], false) <==> Clean(f)
  {
    if Parse(Written(f)) == ([f], false) {
      SurvivorIsClean(f);
    }
    if Clean(f) {
      WriteThenScan([f]);
      assert [f][1..] == [];
      assert WrittenAll([f]) == Written(f) + "";
      assert Written(f) + "" == Written(f);
    }
  }

  /** Data in two lines comes back without the second. */
  lemma MultiLineExample()
    ensures Parse(Written(Frame("", "a\nb"))) == ([Frame("", "a")], false)
  {
    hide Scan, Lines, Feed, ByteLen;
    var st := State("", ["a"], []);
    assert Written(Frame("", "a\nb")) == ("data: " + "a") + "\n" + ("b" + "\n" + ("" + "\n" + ""));
    FewBytes("data: " + "a");
    FewBytes("b");
    FewBytes("");
    ScanCons("data: " + "a", "b" + "\n" + ("" + "\n" + ""), Start);
    FeedData(Start, "a");
    assert Start.data + ["a"] == ["a"];
    ScanCons("b", "" + "\n" + "", st);
    Ignored(st);
    ScanCons("", "", st);
    FeedEnd(st);
    NothingMore(Flush(st));
    assert Join(["a"], '\n') == "a" && st.out + [Frame("", "a")] == [Frame("", "a")];
    assert Flush(st) == State("", [], [Frame("", "a")]);
    assert Scan(Lines(Written(Frame("", "a\nb"))), Start) == (Flush(st), false);
  }

  lemma Ignored(st: State)
    ensures Feed(st, "b") == st
  {
  }

  lemma NothingMore(st: State)
    ensures Scan(Lines(""), st) == (st, false)
  {
  }
}
