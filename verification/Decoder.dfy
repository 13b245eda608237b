/**
 The streaming decoder: an iterator that pulls chunks from a source iterator, keeps the
 bytes it has not used as a list of segments, and hands out one frame per call.
 */
module Decoder {
  import opened Bytes
  import opened Errors
  import Crc32
  import Frames
  import Headers
  import Segments

  /** What one call of the source's next() gives. */
  datatype Item =
    | Chunk(data: seq<byte>)
    | NotBytes             // a value that is no buffer or view
    | Raises(error: Error) // next() itself throws

  /** What one call of the decoder's next(), return() or throw() gives. */
  datatype Reply =
    | Yielded(frame: Frames.Frame)
    | Done
    | Thrown(error: Error)

  /** The value in the answer of return(). */
  datatype Back = Nothing | Given | OfSource

  /** The bytes a source delivers before it ends or breaks. */
  function Delivered(items: seq<Item>): seq<byte> {
    if items == [] || !items[0].Chunk? then [] else items[0].data + Delivered(items[1..])
  }

  /** How a source stops delivering. */
  function TailOf(items: seq<Item>): Frames.Tail {
    if items == [] then Frames.Ends
    else
      match items[0]
      case Chunk(_) => TailOf(items[1..])
      case NotBytes => Frames.Breaks(ForeignChunk)
      case Raises(error) => Frames.Breaks(error)
  }

  /** A source that delivers some chunks and then ends. */
  function InChunks(chunks: seq<seq<byte>>): seq<Item> {
    seq(|chunks|, i requires 0 <= i < |chunks| => Chunk(chunks[i]))
  }

  lemma {:induction false} DeliveredChunks(chunks: seq<seq<byte>>)
    ensures Delivered(InChunks(chunks)) == Flatten(chunks) && TailOf(InChunks(chunks)) == Frames.Ends
  {
    if chunks != [] {
      DeliveredChunks(chunks[1..]);
      assert InChunks(chunks)[1..] == InChunks(chunks[1..]);
    }
  }

  class Decoder {
    const items: seq<Item>    // what the source will deliver
    const canReturn: bool     // whether the source has a return() method
    const returnRaises: bool  // whether that method throws
    var taken: nat            // how far the source has been read
    var returned: nat         // how often the source's return() was called
    var segments: seq<seq<byte>>
    var available: nat
    var started: bool
    var stopped: bool
    var finished: bool        // the generator has returned or thrown

    ghost var yielded: seq<Frames.Frame>
    ghost var ended: bool     // the generator came to its own end, clean or not
    ghost var outcome: Frames.Outcome

    constructor (items: seq<Item>, canReturn: bool, returnRaises: bool)
      ensures Valid() && Running() && !started && returned == 0 && yielded == []
      ensures this.items == items && this.canReturn == canReturn && this.returnRaises == returnRaises
    {
      this.items, this.canReturn, this.returnRaises := items, canReturn, returnRaises;
      taken, returned := 0, 0;
      segments, available := [], 0;
      started, stopped, finished := false, false, false;
      yielded, ended, outcome := [], false, Frames.Clean;
      new;
      assert items[0..] == items;
      assert [] + Delivered(items) == Delivered(items);
      assert [] + Frames.Parse(Delivered(items), TailOf(items)).0 == Frames.Parse(Delivered(items), TailOf(items)).0;
    }

    /** The bytes that are still to be parsed. */
    ghost function Pending(): seq<byte>
      reads this
      requires taken <= |items|
    {
      Flatten(segments) + Delivered(items[taken..])
    }

    ghost function Tail(): Frames.Tail
      reads this
      requires taken <= |items|
    {
      TailOf(items[taken..])
    }

    predicate Running()
      reads this
    {
      !stopped && !finished
    }

    /** What the flat parser makes of everything the source delivers. */
    ghost function Flat(): (seq<Frames.Frame>, Frames.Outcome) {
      Frames.Parse(Delivered(items), TailOf(items))
    }

    ghost predicate Valid()
      reads this
    {
      && taken <= |items|
      && available == |Flatten(segments)|
      && (Running() ==>
            var rest := Frames.Parse(Pending(), Tail());
            !ended && Flat() == (yielded + rest.0, rest.1))
      && yielded <= Flat().0
      && (ended ==> finished && Flat() == (yielded, outcome))
      && (stopped && started ==> finished) && (finished ==> started)
      // the source is told to stop at most once, and exactly when it was left before its end
      && returned == (if canReturn && stopped then 1 else 0)
      && (finished && canReturn ==> (stopped <==> !(ended && outcome.Clean?)))
      && (stopped && started ==> canReturn)
    }

    /**
     The wrapper's next(): the next frame of the flat parse, its outcome, or nothing once
     the iteration is over.
     */
    method Next() returns (r: Reply)
      requires Valid()
      modifies this
      ensures Valid()
      ensures !old(Running()) ==> r == Done && unchanged(`yielded) && unchanged(`returned)
      ensures old(Running()) ==>
                var rest := old(Frames.Parse(Pending(), Tail()));
                if rest.0 != [] then
                  && r == Yielded(rest.0[0]) && Running()
                  && yielded == old(yielded) + [rest.0[0]] && unchanged(`returned)
                else
                  && r == (if rest.1.Clean? then Done else Thrown(rest.1.error))
                  && ended && outcome == rest.1 && unchanged(`yielded)
      ensures old(Running()) && Running() ==>
                |Frames.Parse(Pending(), Tail()).0| < old(|Frames.Parse(Pending(), Tail()).0|)
    {
      if stopped {
        return Done;
      }
      started := true;
      if finished {
        return Done;
      }
      r := Resume();
    }

    /** Running the generator until it yields, returns or throws. */
    method Resume() returns (r: Reply)
      requires Valid() && Running() && started
      modifies this
      ensures Valid() && started
      ensures var rest := old(Frames.Parse(Pending(), Tail()));
              if rest.0 != [] then
                && r == Yielded(rest.0[0]) && Running()
                && yielded == old(yielded) + [rest.0[0]] && unchanged(`returned)
                && Frames.Parse(Pending(), Tail()) == (rest.0[1..], rest.1)
              else
                && r == (if rest.1.Clean? then Done else Thrown(rest.1.error))
                && ended && outcome == rest.1 && unchanged(`yielded)
    {
      hide Frames.Next, Frames.Parse, Flatten, Delivered, TailOf;
      ghost var pending, tail := Pending(), Tail();
      assert yielded + [] == yielded;
      while true
        invariant Valid() && Running() && started
        invariant unchanged(`yielded) && unchanged(`returned)
        invariant Pending() == pending && Tail() == tail
        decreases |items| - taken
      {
        // a completed turn of the inner loop yields, so that loop is resumed here, by the next call
        if available >= 12 {
          var step := TryFrame();
          Frames.NextStableOrMore(Flatten(segments), Delivered(items[taken..]));
          match step {
            case Yield(frame, size) =>
              Frames.YieldSize(Flatten(segments));
              Consume(size);
              Frames.YieldLeaves(pending, tail);
              assert Pending() == pending[size..];
              yielded := yielded + [frame];
              Extend(old(yielded), frame, Frames.Parse(Pending(), tail).0);
              return Yielded(frame);
            case Bad(error) =>
              Frames.BadEnds(pending, tail);
              Fail(error);
              return Thrown(error);
            case NeedMore =>
          }
        } else {
          Frames.ShortNeedsMore(Flatten(segments));
        }
        if taken == |items| {
          break;
        }
        Advance(items, taken);
        match items[taken] {
          case Raises(error) =>
            EndsHere(pending, Flatten(segments), tail);
            Fail(error);
            return Thrown(error);
          case NotBytes =>
            EndsHere(pending, Flatten(segments), tail);
            Fail(ForeignChunk);
            return Thrown(ForeignChunk);
          case Chunk(data) =>
            Append(data);
            assert Pending() == pending;
        }
      }
      NothingLeft(items);
      EndsHere(pending, Flatten(segments), tail);
      EmptyFront(Flatten(segments), 0);
      assert Flat() == (yielded, Frames.AtEnd(Flatten(segments), tail));
      if available != 0 {
        Fail(TruncatedFrame);
        return Thrown(TruncatedFrame);
      }
      finished := true;
      ended, outcome := true, Frames.Clean;
      r := Done;
    }

    /** Taking a chunk from the source: empty ones leave no segment. */
    method Append(data: seq<byte>)
      requires taken < |items| && available == |Flatten(segments)|
      modifies `taken, `segments, `available
      ensures taken == old(taken) + 1
      ensures Flatten(segments) == old(Flatten(segments)) + data && available == |Flatten(segments)|
    {
      taken := taken + 1;
      if |data| > 0 {
        FlattenConcat(segments, [data]);
        FlattenSingle(data);
        segments := segments + [data];
        available := available + |data|;
      }
    }

    /** The generator throws: its finally block stops the source, keeping the primary error. */
    method Fail(error: Error)
      requires Running() && taken <= |items|
      modifies `finished, `stopped, `returned, `ended, `outcome
      ensures finished && ended && outcome == Frames.Failed(error)
      ensures stopped == canReturn && returned == old(returned) + (if canReturn then 1 else 0)
    {
      finished := true;
      ended, outcome := true, Frames.Failed(error);
      if canReturn {
        stopped := true;
        returned := returned + 1;
      }
    }

    /** One frame's worth of parsing on the segment list. */
    method TryFrame() returns (step: Frames.Step)
      requires taken <= |items| && available == |Flatten(segments)| && available >= 12
      ensures step == Frames.Next(Flatten(segments))
    {
      hide Crc32.Checksum, BigEndian, Headers.Decode;
      ghost var flat := Flatten(segments);
      var total := Word(0);
      var headersLength := Word(4);
      var preludeCrc := Segments.Crc32Of(segments, 8);
      var storedCrc := Word(8);
      if preludeCrc != storedCrc {
        return Frames.Bad(PreludeChecksum);
      }
      if total < 16 || headersLength > total - 16 {
        return Frames.Bad(InvalidFrameLength);
      }
      if available < total {
        return Frames.NeedMore;
      }
      var messageCrc := Segments.Crc32Of(segments, total - 4);
      storedCrc := Word(total - 4);
      if messageCrc != storedCrc {
        return Frames.Bad(MessageChecksum);
      }
      var headerBytes := Copy(12, headersLength);
      var headers := Headers.DecodeHeaders(headerBytes);
      if headers.Err? {
        return Frames.Bad(headers.error);
      }
      var payload := Copy(12 + headersLength, total - 16 - headersLength);
      step := Frames.Yield(Frames.Frame(headers.value, payload), total);
    }

    /** A word that is known to be there. */
    method Word(offset: nat) returns (n: nat)
      requires offset + 4 <= |Flatten(segments)|
      ensures n == Frames.U32(Flatten(segments), offset)
    {
      var r := Segments.ReadU32(segments, offset);
      n := r.value;
    }

    /** A range that is known to be there. */
    method Copy(offset: nat, length: nat) returns (out: seq<byte>)
      requires offset + length <= |Flatten(segments)|
      ensures out == Flatten(segments)[offset..offset + length]
    {
      var r := Segments.CopyRange(segments, offset, length);
      out := r.value;
    }

    /** The segments behind the first `consumed` bytes. */
    static method Rest(parts: seq<seq<byte>>, consumed: nat) returns (rest: seq<seq<byte>>)
      requires consumed <= |Flatten(parts)|
      ensures Flatten(rest) == Flatten(parts)[consumed..]
    {
      hide Flatten;
      rest := [];
      var skip: nat := consumed;
      assert parts[0..] == parts;
      EmptyFront(Flatten(parts), consumed);
      for i := 0 to |parts|
        invariant skip <= |Flatten(parts[i..])|
        invariant Flatten(rest) + Flatten(parts[i..])[skip..] == Flatten(parts)[consumed..]
        invariant rest != [] ==> skip == 0
      {
        var part := parts[i];
        Front(parts, i);
        if skip >= |part| {
          assert Flatten(parts[i..])[skip..] == Flatten(parts[i + 1..])[skip - |part|..];
          skip := skip - |part|;
          continue;
        }
        FlattenConcat(rest, [part[skip..]]);
        FlattenSingle(part[skip..]);
        assert Flatten(parts[i..])[skip..] == part[skip..] + Flatten(parts[i + 1..]);
        rest := rest + [part[skip..]];
        skip := 0;
        assert Flatten(parts[i + 1..])[0..] == Flatten(parts[i + 1..]);
      }
      EmptyBack(Flatten(rest), parts, skip);
    }

    /** Dropping the consumed bytes from the front of the segment list. */
    method Consume(consumed: nat)
      requires available == |Flatten(segments)| && consumed <= available
      modifies `segments, `available
      ensures Flatten(segments) == old(Flatten(segments))[consumed..]
      ensures available == |Flatten(segments)|
    {
      if consumed == available {
        segments := [];
      } else {
        segments := Rest(segments, consumed);
      }
      available := available - consumed;
    }

    /**
     The wrapper's return(): an early end, which stops the source if it still runs. The answer
     carries the value that return() was given, except once the iterator is stopped, and before
     the first next(), when the source's own answer is passed on.
     */
    method Return() returns (r: Reply, back: Back)
      requires Valid()
      modifies this
      ensures Valid() && unchanged(`yielded)
      ensures !Running() || (started && finished)
      ensures r == Done || r == Thrown(SourceReturn)
      ensures r.Thrown? <==> old(Running()) && canReturn && returnRaises
      ensures r == Done ==> back == if old(stopped) then Nothing else if !old(started) && canReturn then OfSource else Given
      ensures returned == (if old(Running()) && canReturn then 1 else old(returned))
    {
      hide Frames.Parse, Flatten, Delivered, TailOf;
      back := Nothing;
      if stopped {
        return Done, Nothing;
      }
      if !started {
        stopped := true;
        if canReturn {
          returned := returned + 1;
          r, back := if returnRaises then Thrown(SourceReturn) else Done, OfSource;
          return;
        }
        return Done, Given;
      }
      if finished {
        return Done, Given;
      }
      finished := true;
      if canReturn {
        stopped := true;
        returned := returned + 1;
        r, back := if returnRaises then Thrown(SourceReturn) else Done, Given;
        return;
      }
      return Done, Given;
    }

    /** The wrapper's throw(): the given error always comes back out. */
    method Throw(error: Error) returns (r: Reply)
      requires Valid()
      modifies this
      ensures Valid() && unchanged(`yielded)
      ensures r == Thrown(error)
      ensures returned == (if old(Running()) && canReturn then 1 else old(returned))
      // without a return() method an iterator that was not started stays usable
      ensures Running() <==> old(Running()) && !old(started) && !canReturn
    {
      hide Frames.Parse, Flatten, Delivered, TailOf;
      if stopped {
        return Thrown(error);
      }
      if !started {
        if canReturn {
          stopped := true;
          returned := returned + 1;
        }
        return Thrown(error);
      }
      if !finished {
        finished := true;
        if canReturn {
          stopped := true;
          returned := returned + 1;
        }
      }
      r := Thrown(error);
    }
  }

  lemma Advance(items: seq<Item>, i: nat)
    requires i < |items|
    ensures items[i].Chunk? ==> Delivered(items[i..]) == items[i].data + Delivered(items[i + 1..])
    ensures items[i].Chunk? ==> TailOf(items[i..]) == TailOf(items[i + 1..])
    ensures items[i].NotBytes? ==> Delivered(items[i..]) == [] && TailOf(items[i..]) == Frames.Breaks(ForeignChunk)
    ensures items[i].Raises? ==> Delivered(items[i..]) == [] && TailOf(items[i..]) == Frames.Breaks(items[i].error)
  {
    assert items[i..][1..] == items[i + 1..];
  }

  lemma Front(parts: seq<seq<byte>>, i: nat)
    requires i < |parts|
    ensures Flatten(parts[i..]) == parts[i] + Flatten(parts[i + 1..])
  {
    assert parts[i..][1..] == parts[i + 1..];
  }

  lemma EmptyFront(s: seq<byte>, n: nat)
    requires n <= |s|
    ensures Flatten([]) == [] && [] + s[n..] == s[n..]
  {
  }

  lemma EmptyBack(s: seq<byte>, parts: seq<seq<byte>>, n: nat)
    requires n <= |Flatten(parts[|parts|..])|
    ensures s + Flatten(parts[|parts|..])[n..] == s
  {
  }

  lemma EndsHere(pending: seq<byte>, s: seq<byte>, tail: Frames.Tail)
    requires pending == s + [] && Frames.Next(s).NeedMore?
    ensures Frames.Parse(pending, tail) == ([], Frames.AtEnd(s, tail))
  {
    assert s + [] == s;
  }

  lemma NothingLeft(items: seq<Item>)
    ensures Delivered(items[|items|..]) == [] && TailOf(items[|items|..]) == Frames.Ends
  {
  }

  lemma Extend(before: seq<Frames.Frame>, f: Frames.Frame, after: seq<Frames.Frame>)
    ensures before + ([f] + after) == before + [f] + after
    ensures before + [f] <= before + [f] + after
    ensures ([f] + after)[1..] == after
  {
  }

  /** Draining the decoder over a source that may break anywhere. */
  method DecodeAll(items: seq<Item>) returns (frames: seq<Frames.Frame>, outcome: Frames.Outcome)
    ensures (frames, outcome) == Frames.Parse(Delivered(items), TailOf(items))
  {
    hide Frames.Parse, Flatten, Delivered, TailOf;
    var decoder := new Decoder(items, true, false);
    frames := [];
    var r := decoder.Next();
    while r.Yielded?
      invariant decoder.Valid() && fresh(decoder) && decoder.items == items
      invariant r.Yielded? ==> decoder.Running() && decoder.yielded == frames + [r.frame]
      invariant !r.Yielded? ==> decoder.ended && decoder.yielded == frames
      invariant !r.Yielded? ==> r == (if decoder.outcome.Clean? then Done else Thrown(decoder.outcome.error))
      decreases decoder.Running(), |Frames.Parse(decoder.Pending(), decoder.Tail()).0|
    {
      frames := frames + [r.frame];
      r := decoder.Next();
    }
    outcome := if r.Done? then Frames.Clean else Frames.Failed(r.error);
  }

  /** How the bytes are cut into chunks makes no difference, empty chunks included. */
  method DecodeChunks(chunks: seq<seq<byte>>) returns (frames: seq<Frames.Frame>, outcome: Frames.Outcome)
    ensures (frames, outcome) == Frames.Parse(Flatten(chunks), Frames.Ends)
  {
    DeliveredChunks(chunks);
    frames, outcome := DecodeAll(InChunks(chunks));
  }

  /** One damaged byte in a frame, under any chunking: the frames before it come out, and then an error. */
  lemma DamageInChunks(before: seq<Frames.Frame>, s: seq<byte>, i: nat, b: byte, after: seq<byte>, chunks: seq<seq<byte>>)
    requires forall f <- before :: Frames.ValidFrame(f)
    requires Frames.IsFrame(s) && i < |s| && b != s[i]
    requires Flatten(chunks) == Frames.EncodeAll(before) + s[i := b] + after
    ensures var r := Frames.Parse(Delivered(InChunks(chunks)), TailOf(InChunks(chunks)));
            r == (before, Frames.Failed(PreludeChecksum)) || r == (before, Frames.Failed(MessageChecksum))
  {
    hide Frames.Parse, Frames.EncodeAll, Frames.IsFrame, Flatten;
    DeliveredChunks(chunks);
    Frames.DamageStopsParse(before, s, i, b, after, Frames.Ends);
  }

  /** Any well-formed frames, encoded and cut into chunks in any way, come back in order. */
  lemma EncodedInChunks(frames: seq<Frames.Frame>, chunks: seq<seq<byte>>)
    requires forall f <- frames :: Frames.ValidFrame(f)
    requires Flatten(chunks) == Frames.EncodeAll(frames)
    ensures Frames.Parse(Delivered(InChunks(chunks)), TailOf(InChunks(chunks))) == (frames, Frames.Clean)
  {
    hide Frames.Parse, Frames.EncodeAll, Flatten;
    DeliveredChunks(chunks);
    Frames.EncodeThenParse(frames);
  }
}
