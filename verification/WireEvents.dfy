/**
 Event streams as upstreams write them: several data lines in a frame, a blank behind the colon
 or none, carriage returns, comments and other fields, and a last frame without an empty line.
 */
module WireEvents {
  import opened Text
  import opened ServerEvents
  import Utf8

  /** A line of a frame; blank says whether one blank follows the colon, and cr whether a carriage return ends it. */
  datatype Line =
    | EventLine(text: string, blank: bool, cr: bool)
    | DataLine(text: string, blank: bool, cr: bool)
    | OtherLine(text: string, cr: bool)

  function Pad(blank: bool): string {
    if blank then " " else ""
  }

  function Tail(cr: bool): string {
    if cr then "\r" else ""
  }

  /** The line without its end. */
  function Printed(l: Line): string {
    match l
    case EventLine(text, blank, cr) => "event:" + Pad(blank) + text + Tail(cr)
    case DataLine(text, blank, cr) => "data:" + Pad(blank) + text + Tail(cr)
    case OtherLine(text, cr) => text + Tail(cr)
  }

  /** A text that is in one line and keeps its end when a carriage return is taken off. */
  predicate OneLine(text: string) {
    '\n' !in text && (text == "" || text[|text| - 1] != '\r')
  }

  predicate WellFormed(l: Line) {
    && OneLine(l.text) && ByteLen(Printed(l)) < 1048576
    && match l
       case EventLine(text, _, _) => Trimmed(text)
       case DataLine(text, blank, _) => !blank ==> text == "" || text[0] != ' '
       case OtherLine(text, _) => text != "" && !HasPrefix(text, "event:") && !HasPrefix(text, "data:")
  }

  /** The lines of a frame, each with its line end. */
  function PrintedLines(lines: seq<Line>): string {
    if lines == [] then "" else Printed(lines[0]) + "\n" + PrintedLines(lines[1..])
  }

  /** The event that a frame names last. */
  function EventOf(lines: seq<Line>, before: string): string {
    if lines == [] then before
    else EventOf(lines[1..], if lines[0].EventLine? then lines[0].text else before)
  }

  /** The texts of its data lines, in order. */
  function DataOf(lines: seq<Line>): seq<string> {
    if lines == [] then []
    else (if lines[0].DataLine? then [lines[0].text] else []) + DataOf(lines[1..])
  }

  /** What a frame stands for: nothing, if it has neither an event nor data. */
  function Stands(lines: seq<Line>): seq<Frame> {
    if DataOf(lines) == [] && EventOf(lines, "") == "" then []
    else [Frame(EventOf(lines, ""), Join(DataOf(lines), '\n'))]
  }

  // ---- one line ----

  lemma TakesOffCr(text: string, cr: bool)
    requires text == "" || text[|text| - 1] != '\r'
    ensures DropCr(text + Tail(cr)) == text
  {
    if cr {
      assert (text + "\r")[..|text|] == text;
    } else {
      assert text + "" == text;
    }
  }

  lemma EndOf(prefix: string, text: string)
    requires prefix != "" && prefix[|prefix| - 1] != '\r' && OneLine(text)
    ensures prefix + text != "" && (prefix + text)[|prefix + text| - 1] != '\r'
  {
  }

  lemma FeedsEvent(st: State, text: string, blank: bool, cr: bool)
    requires OneLine(text) && Trimmed(text)
    ensures Feed(st, Printed(EventLine(text, blank, cr))) == st.(event := text)
  {
    var prefix := "event:" + Pad(blank);
    EndOf(prefix, text);
    TakesOffCr(prefix + text, cr);
    assert Printed(EventLine(text, blank, cr)) == prefix + text + Tail(cr);
    assert (prefix + text)[..6] == "event:" && (prefix + text)[6..] == Pad(blank) + text;
    if blank {
      TrimBlank(text);
    } else {
      assert "" + text == text;
      TrimNothing(text);
    }
    hide TrimSpace, DropCr;
  }

  lemma TrimNothing(text: string)
    requires Trimmed(text)
    ensures TrimSpace(text) == text
  {
  }

  lemma ValueIs(text: string, blank: bool)
    requires !blank ==> text == "" || text[0] != ' '
    ensures HasPrefix("data:" + Pad(blank) + text, "data:") && Value("data:" + Pad(blank) + text) == text
  {
    var line := "data:" + Pad(blank) + text;
    assert line[..5] == "data:" && line[5..] == Pad(blank) + text;
    if blank {
      assert (" " + text)[..1] == " " && (" " + text)[1..] == text;
    } else {
      assert "" + text == text;
      assert text != "" ==> text[..1] == [text[0]];
    }
  }

  lemma FeedsData(st: State, text: string, blank: bool, cr: bool)
    requires OneLine(text) && (!blank ==> text == "" || text[0] != ' ')
    ensures Feed(st, Printed(DataLine(text, blank, cr))) == st.(data := st.data + [text])
  {
    hide TrimSpace, DropCr, Value, OneLine, Tail;
    var line := "data:" + Pad(blank) + text;
    DataEnd(text, blank);
    TakesOffCr(line, cr);
    ValueIs(text, blank);
    assert line[0] == 'd';
  }

  lemma DataEnd(text: string, blank: bool)
    requires OneLine(text)
    ensures var line := "data:" + Pad(blank) + text;
            line != "" && line[|line| - 1] != '\r'
  {
    EndOf("data:" + Pad(blank), text);
  }

  lemma FeedsOther(st: State, text: string, cr: bool)
    requires WellFormed(OtherLine(text, cr))
    ensures Feed(st, Printed(OtherLine(text, cr))) == st
  {
    TakesOffCr(text, cr);
    hide TrimSpace, DropCr, ByteLen;
  }

  /** What one line adds. */
  lemma FeedsLine(st: State, l: Line)
    requires WellFormed(l)
    ensures Feed(st, Printed(l)) ==
            match l
            case EventLine(text, _, _) => st.(event := text)
            case DataLine(text, _, _) => st.(data := st.data + [text])
            case OtherLine(_, _) => st
  {
    hide Feed, Printed;
    match l
    case EventLine(text, blank, cr) => FeedsEvent(st, text, blank, cr);
    case DataLine(text, blank, cr) => FeedsData(st, text, blank, cr);
    case OtherLine(text, cr) => FeedsOther(st, text, cr);
  }

  lemma InOneLine(l: Line)
    requires WellFormed(l)
    ensures '\n' !in Printed(l)
  {
    hide ByteLen;
  }

  // ---- the lines of a frame ----

  lemma PrintedCons(lines: seq<Line>, rest: string)
    requires lines != []
    ensures PrintedLines(lines) + rest == Printed(lines[0]) + "\n" + (PrintedLines(lines[1..]) + rest)
  {
    hide Printed;
  }

  lemma FeedsFirst(lines: seq<Line>, st: State)
    requires lines != [] && WellFormed(lines[0])
    ensures var next := Feed(st, Printed(lines[0]));
            && EventOf(lines[1..], next.event) == EventOf(lines, st.event)
            && next.data + DataOf(lines[1..]) == st.data + DataOf(lines) && next.out == st.out
  {
    hide Feed, Printed, WellFormed, EventOf, DataOf;
    FeedsLine(st, lines[0]);
    var more := lines[1..];
    DataCons(lines);
    EventCons(lines, st.event);
    if lines[0].DataLine? {
      assert st.data + [lines[0].text] + DataOf(more) == st.data + ([lines[0].text] + DataOf(more));
    } else {
      assert [] + DataOf(more) == DataOf(more);
    }
  }

  lemma DataCons(lines: seq<Line>)
    requires lines != []
    ensures DataOf(lines) == (if lines[0].DataLine? then [lines[0].text] else []) + DataOf(lines[1..])
  {
  }

  lemma EventCons(lines: seq<Line>, before: string)
    requires lines != []
    ensures EventOf(lines, before) == EventOf(lines[1..], if lines[0].EventLine? then lines[0].text else before)
  {
  }

  lemma {:induction false} ScansLines(lines: seq<Line>, rest: string, st: State)
    requires forall l <- lines :: WellFormed(l)
    ensures Scan(Lines(PrintedLines(lines) + rest), st)
         == Scan(Lines(rest), State(EventOf(lines, st.event), st.data + DataOf(lines), st.out))
    decreases |lines|
  {
    if lines == [] {
      hide Scan, Lines;
      assert "" + rest == rest && st.data + [] == st.data;
    } else {
      hide Scan, Lines, Feed, Printed, ByteLen, WellFormed, PrintedLines, EventOf, DataOf;
      assert WellFormed(lines[0]);
      PrintedCons(lines, rest);
      InOneLine(lines[0]);
      Fits(lines[0]);
      FeedsFirst(lines, st);
      ScanCons(Printed(lines[0]), PrintedLines(lines[1..]) + rest, st);
      ScansLines(lines[1..], rest, Feed(st, Printed(lines[0])));
    }
  }

  lemma Fits(l: Line)
    requires WellFormed(l)
    ensures ByteLen(Printed(l)) < BUFFER_SIZE
  {
    hide ByteLen, Printed;
  }

  lemma EmptyLine(rest: string, st: State)
    ensures Scan(Lines("\n" + rest), st) == Scan(Lines(rest), Flush(st))
  {
    assert "" + "\n" + rest == "\n" + rest;
    ShortLine();
    hide Scan, Lines, Feed;
    ScanCons("", rest, st);
    FeedEnd(st);
  }

  lemma FlushStands(lines: seq<Line>, out: seq<Frame>)
    ensures Flush(State(EventOf(lines, ""), DataOf(lines), out)) == State("", [], out + Stands(lines))
  {
    hide Join, EventOf, DataOf;
    assert out + [] == out;
  }

  /** Frames with their empty lines. */
  function PrintedFrames(frames: seq<seq<Line>>): string {
    if frames == [] then "" else PrintedLines(frames[0]) + "\n" + PrintedFrames(frames[1..])
  }

  function StandAll(frames: seq<seq<Line>>): seq<Frame> {
    if frames == [] then [] else Stands(frames[0]) + StandAll(frames[1..])
  }

  lemma FramesCons(frames: seq<seq<Line>>, rest: string)
    requires frames != []
    ensures PrintedFrames(frames) + rest == PrintedLines(frames[0]) + ("\n" + (PrintedFrames(frames[1..]) + rest))
  {
    hide PrintedLines;
  }

  lemma {:induction false} ScansFrames(frames: seq<seq<Line>>, rest: string, out: seq<Frame>)
    requires forall lines <- frames, l <- lines :: WellFormed(l)
    ensures Scan(Lines(PrintedFrames(frames) + rest), State("", [], out))
         == Scan(Lines(rest), State("", [], out + StandAll(frames)))
    decreases |frames|
  {
    hide Scan, Lines, PrintedLines, WellFormed, Stands, Flush;
    if frames == [] {
      assert "" + rest == rest && out + [] == out;
    } else {
      hide PrintedFrames;
      var lines, more := frames[0], frames[1..];
      assert forall l <- lines :: WellFormed(l);
      var tail := PrintedFrames(more) + rest;
      FramesCons(frames, rest);
      ScansLines(lines, "\n" + tail, State("", [], out));
      assert [] + DataOf(lines) == DataOf(lines);
      EmptyLine(tail, State(EventOf(lines, ""), DataOf(lines), out));
      FlushStands(lines, out);
      ScansFrames(more, rest, out + Stands(lines));
      assert out + Stands(lines) + StandAll(more) == out + StandAll(frames);
    }
  }

  lemma LastLine(line: string)
    requires '\n' !in line
    ensures Lines(line) == if line == "" then [] else [line]
  {
    SplitWhole(line, '\n');
  }

  /** A last line that has no end counts, unless nothing is in it. */
  lemma ScansLast(l: Line, st: State)
    requires WellFormed(l)
    ensures Scan(Lines(Printed(l)), st) == (Feed(st, Printed(l)), false)
  {
    InOneLine(l);
    Fits(l);
    LastLine(Printed(l));
    NotEmpty(l);
    hide Lines, Feed, ByteLen, Printed;
    assert [Printed(l)][1..] == [];
  }

  lemma NotEmpty(l: Line)
    requires WellFormed(l)
    ensures Printed(l) != ""
  {
    hide ByteLen;
  }

  function Cut(last: Option<Line>): string {
    if last.Some? then Printed(last.value) else ""
  }

  function AllOf(lines: seq<Line>, last: Option<Line>): seq<Line> {
    if last.Some? then lines + [last.value] else lines
  }

  lemma {:induction false} OneMore(lines: seq<Line>, l: Line, before: string)
    ensures EventOf(lines + [l], before) == if l.EventLine? then l.text else EventOf(lines, before)
    ensures DataOf(lines + [l]) == DataOf(lines) + if l.DataLine? then [l.text] else []
  {
    if lines == [] {
      assert [l][1..] == [];
    } else {
      assert (lines + [l])[1..] == lines[1..] + [l];
      OneMore(lines[1..], l, if lines[0].EventLine? then lines[0].text else before);
    }
  }

  lemma ScansTail(lines: seq<Line>, last: Option<Line>, out: seq<Frame>)
    requires (forall l <- lines :: WellFormed(l)) && (last.Some? ==> WellFormed(last.value))
    ensures Scan(Lines(PrintedLines(lines) + Cut(last)), State("", [], out))
         == (State(EventOf(AllOf(lines, last), ""), DataOf(AllOf(lines, last)), out), false)
  {
    hide Scan, Lines, PrintedLines, WellFormed, Feed, Printed;
    assert [] + DataOf(lines) == DataOf(lines);
    ScansLines(lines, Cut(last), State("", [], out));
    var st := State(EventOf(lines, ""), DataOf(lines), out);
    if last.Some? {
      ScansLast(last.value, st);
      FeedsLine(st, last.value);
      OneMore(lines, last.value, "");
      assert DataOf(lines) + [] == DataOf(lines);
    } else {
      NothingMore(st);
    }
  }

  /**
   Whatever frames an upstream writes, in whatever style, the scanner hands out what they stand
   for: the last event, and all data lines joined by line ends; also a last frame that the end of
   the text cuts off before its empty line, or even before the end of its last line.
   */
  lemma WireScanned(frames: seq<seq<Line>>, lines: seq<Line>, last: Option<Line>)
    requires forall ls <- frames, l <- ls :: WellFormed(l)
    requires (forall l <- lines :: WellFormed(l)) && (last.Some? ==> WellFormed(last.value))
    ensures Parse(PrintedFrames(frames) + (PrintedLines(lines) + Cut(last)))
         == (StandAll(frames) + Stands(AllOf(lines, last)), false)
  {
    assert [] + StandAll(frames) == StandAll(frames);
    hide Scan, Lines, PrintedLines, PrintedFrames, WellFormed, Stands, Flush, Cut, AllOf;
    ScansFrames(frames, PrintedLines(lines) + Cut(last), []);
    ScansTail(lines, last, StandAll(frames));
    FlushStands(AllOf(lines, last), StandAll(frames));
  }

  /** A line that does not fit the buffer ends the scan: whole frames before it come out, what is pending does not. */
  lemma LongLineEnds(frames: seq<seq<Line>>, pending: seq<Line>, long: string, rest: string)
    requires forall lines <- frames, l <- lines :: WellFormed(l)
    requires forall l <- pending :: WellFormed(l)
    requires '\n' !in long && ByteLen(long) >= 1048576
    ensures Parse(PrintedFrames(frames) + (PrintedLines(pending) + (long + "\n" + rest))) == (StandAll(frames), true)
  {
    assert [] + StandAll(frames) == StandAll(frames);
    hide Scan, Lines, PrintedLines, PrintedFrames, WellFormed, Stands, Flush, ByteLen;
    ScansFrames(frames, PrintedLines(pending) + (long + "\n" + rest), []);
    ScansLines(pending, long + "\n" + rest, State("", [], StandAll(frames)));
    ScanCons(long, rest, State(EventOf(pending, ""), [] + DataOf(pending), StandAll(frames)));
  }

  /** The buffer counts bytes of UTF-8. */
  lemma {:induction false} CountsBytes(s: string)
    ensures s != "" ==> ByteLen(s) == |Utf8.PointBytes(s[0] as int)| + ByteLen(s[1..])
    ensures s == "" ==> ByteLen(s) == 0
  {
  }
}
