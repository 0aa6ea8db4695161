/** What the log demultiplexer promises: what it does with a well-formed log, with one
    that was cut short, and with a reader that delivers in arbitrary pieces.
 */
module DemuxTheorems {
  import opened Common
  import opened ByteStream
  import opened LogDemux

  /** A frame as the Docker Engine API defines it under "Attach to a container", section
      "Stream format": a header of eight bytes, the first naming the stream and the last
      four giving the length of the payload, big-endian; then the payload. */
  datatype Frame = Frame(header: Header, payload: seq<Byte>)

  /** The header announces the payload, and the code's `+2` stays below 2^32. */
  predicate Fits(f: Frame) {
    BigEndian(f.header[4..]) == |f.payload| <= WORD - 3
  }

  /** Every payload of that size has a header, for any stream tag and padding. */
  lemma HeaderExists(tag: Byte, padding: seq<Byte>, payload: seq<Byte>)
    requires |padding| == 3 && |payload| <= WORD - 3
    ensures Fits(Frame([tag] + padding + PutBigEndian(|payload|), payload))
  {
    var length := PutBigEndian(|payload|);
    assert ([tag] + padding + length)[4..] == length;
    BigEndianRoundTrip(|payload|);
  }

  function Encode(f: Frame): seq<Byte> {
    f.header + f.payload
  }

  function EncodeAll(frames: seq<Frame>): seq<Byte> {
    if frames == [] then [] else Encode(frames[0]) + EncodeAll(frames[1..])
  }

  /** What a writer should get for a frame: standard output marked "> ", anything else "E ". */
  function Render(f: Frame): seq<Byte> {
    [if f.header[0] == 1 then '>' as int else 'E' as int, ' ' as int] + f.payload
  }

  function RenderAll(frames: seq<Frame>): seq<seq<Byte>> {
    if frames == [] then [] else [Render(frames[0])] + RenderAll(frames[1..])
  }

  // ---------------------------------------------------------------- well-formed logs

  function SeenOf(f: Frame, n: nat): Seen
    requires n <= |f.payload|
  {
    Seen(f.header, f.payload[..n])
  }

  /** One iteration on a frame followed by more data, or on a frame that is not empty,
      reads all of it. */
  ghost predicate TakesFrames(turn: Turner) {
    forall f: Frame, rest: seq<Byte>, c: nat :: Fits(f) && (f.payload != [] || rest != []) ==>
      turn(Encode(f) + rest, c) == Go(SeenOf(f, |f.payload|), |Encode(f)|)
  }

  /** The reading of a header, when more follows or nothing does. */
  lemma HeaderRead(header: Header, rest: seq<Byte>, reader: Reader, c: nat)
    requires Greedy(reader)
    ensures var data := header + rest;
            reader(c, |data|, HEADER) == Read(HEADER, NoError) && data[..HEADER] == header && data[HEADER..] == rest
  {
  }

  /** The reading of a payload. */
  lemma DataRead(f: Frame, rest: seq<Byte>, reader: Reader, c: nat)
    requires Greedy(reader) && Fits(f) && (f.payload != [] || rest != [])
    ensures var data := f.payload + rest;
            && FrameEnd(f.header) == |f.payload| + 2
            && reader(c, |data|, |f.payload|) == Read(|f.payload|, NoError) && data[..|f.payload|] == f.payload
  {
  }

  lemma FrameTaken(f: Frame, rest: seq<Byte>, reader: Reader, c: nat)
    requires Greedy(reader) && Fits(f) && (f.payload != [] || rest != [])
    ensures TurnOf(Encode(f) + rest, reader, c) == Go(SeenOf(f, |f.payload|), |Encode(f)|)
  {
    assert Encode(f) + rest == f.header + (f.payload + rest);
    HeaderRead(f.header, f.payload + rest, reader, c);
    DataRead(f, rest, reader, c + 1);
  }

  lemma GreedyTakesFrames(reader: Reader)
    requires Greedy(reader)
    ensures TakesFrames(Turns(reader))
  {
    forall f: Frame, rest: seq<Byte>, c: nat | Fits(f) && (f.payload != [] || rest != [])
      ensures Turns(reader)(Encode(f) + rest, c) == Go(SeenOf(f, |f.payload|), |Encode(f)|)
    {
      FrameTaken(f, rest, reader, c);
    }
  }

  /** `r` is `more` with `chunks` written first. */
  ghost predicate WritesFirst(r: Demuxed, chunks: seq<seq<Byte>>, more: Demuxed) {
    r.ending == more.ending && r.lost == more.lost && Written(r.seen) == chunks + Written(more.seen)
  }

  lemma FrameFirst(turn: Turner, f: Frame, rest: seq<Byte>, calls: nat)
    requires turn(Encode(f) + rest, calls) == Go(SeenOf(f, |f.payload|), |Encode(f)|)
    ensures WritesFirst(Demux(turn, Encode(f) + rest, calls), [Render(f)], Demux(turn, rest, calls + 2))
  {
    var inner, seen := Demux(turn, rest, calls + 2), SeenOf(f, |f.payload|);
    assert (Encode(f) + rest)[|Encode(f)|..] == rest;
    assert f.payload[..|f.payload|] == f.payload;
    assert ([seen] + inner.seen)[1..] == inner.seen;
  }

  /** The last of the frames is not an empty one at the very end, or is taken all the same. */
  predicate TakesLast(turn: Turner, frames: seq<Frame>, tail: seq<Byte>, last: nat) {
    tail != [] || frames == [] || (
      var f := frames[|frames| - 1];
      f.payload != [] || (last >= 2 && turn(Encode(f), last - 2) == Go(SeenOf(f, 0), HEADER)))
  }

  /** Leading frames are taken off one by one; `last` counts the calls up to the tail. */
  lemma {:induction false} DemuxFrames(turn: Turner, frames: seq<Frame>, tail: seq<Byte>, calls: nat, last: nat)
    requires TakesFrames(turn) && forall f :: f in frames ==> Fits(f)
    requires TakesLast(turn, frames, tail, last) && last == calls + 2 * |frames|
    ensures WritesFirst(Demux(turn, EncodeAll(frames) + tail, calls), RenderAll(frames), Demux(turn, tail, last))
    decreases |frames|
  {
    if frames == [] {
      assert EncodeAll(frames) + tail == tail;
      NothingFirst(Demux(turn, tail, calls));
    } else {
      var f, rest, data := frames[0], EncodeAll(frames[1..]) + tail, EncodeAll(frames) + tail;
      assert data == Encode(f) + rest;
      FirstTaken(turn, frames, tail, calls, last);
      FrameFirst(turn, f, rest, calls);
      DemuxFrames(turn, frames[1..], tail, calls + 2, last);
      WritesFirstTwice(Demux(turn, data, calls), Render(f), Demux(turn, rest, calls + 2),
                       RenderAll(frames[1..]), Demux(turn, tail, last));
    }
  }

  lemma FirstTaken(turn: Turner, frames: seq<Frame>, tail: seq<Byte>, calls: nat, last: nat)
    requires TakesFrames(turn) && frames != [] && Fits(frames[0])
    requires TakesLast(turn, frames, tail, last) && last == calls + 2 * |frames|
    ensures var f := frames[0];
            turn(Encode(f) + (EncodeAll(frames[1..]) + tail), calls) == Go(SeenOf(f, |f.payload|), |Encode(f)|)
    ensures TakesLast(turn, frames[1..], tail, last)
  {
    var f, rest := frames[0], EncodeAll(frames[1..]) + tail;
    EncodedNonempty(frames[1..], tail);
    if f.payload == [] && rest == [] { assert |frames| == 1 && Encode(f) + rest == Encode(f); }
  }

  lemma NothingFirst(r: Demuxed)
    ensures WritesFirst(r, [], r)
  {
    assert [] + Written(r.seen) == Written(r.seen);
  }

  lemma EncodedNonempty(frames: seq<Frame>, tail: seq<Byte>)
    ensures frames != [] || tail != [] ==> EncodeAll(frames) + tail != []
  {
  }

  lemma WritesFirstTwice(r: Demuxed, chunk: seq<Byte>, mid: Demuxed, chunks: seq<seq<Byte>>, more: Demuxed)
    requires WritesFirst(r, [chunk], mid) && WritesFirst(mid, chunks, more)
    ensures WritesFirst(r, [chunk] + chunks, more)
  {
    assert [chunk] + (chunks + Written(more.seen)) == ([chunk] + chunks) + Written(more.seen);
  }

  lemma {:induction false} EncodeAllAppend(frames: seq<Frame>, f: Frame)
    ensures EncodeAll(frames + [f]) == EncodeAll(frames) + Encode(f)
  {
    if frames == [] {
      assert [f][1..] == [];
    } else {
      assert (frames + [f])[1..] == frames[1..] + [f];
      EncodeAllAppend(frames[1..], f);
    }
  }

  /** Round trip: every list of frames is rendered frame by frame, in order, and the end
      is reported as complete; except that a log whose last frame is empty ends in a
      spurious data error, with every frame but that one delivered, if the reader reports
      the end of the stream to a request for no bytes. */
  lemma DemuxRoundTrip(frames: seq<Frame>, reader: Reader, calls: nat)
    requires Greedy(reader) && forall f :: f in frames ==> Fits(f)
    ensures var r := Demux(Turns(reader), EncodeAll(frames), calls);
            if frames == [] || frames[|frames| - 1].payload != []
               || reader(calls + 2 * |frames| - 1, 0, 0).err == NoError
            then r.ending == Complete && r.lost == [] && Written(r.seen) == RenderAll(frames)
            else r.ending == DataError && Written(r.seen) == RenderAll(frames[..|frames| - 1])
  {
    var last := calls + 2 * |frames|;
    if frames != [] && frames[|frames| - 1].payload == [] && reader(last - 1, 0, 0).err != NoError {
      LastFrameEmpty(frames, reader, calls, last - 2);
    } else {
      LastFrameTaken(frames, reader, last);
      FramesAlone(frames, reader, calls, last);
    }
  }

  lemma LastFrameTaken(frames: seq<Frame>, reader: Reader, last: nat)
    requires Greedy(reader) && (forall f :: f in frames ==> Fits(f)) && last >= 2 * |frames|
    requires frames == [] || frames[|frames| - 1].payload != [] || reader(last - 1, 0, 0).err == NoError
    ensures TakesLast(Turns(reader), frames, [], last)
  {
    if frames != [] && frames[|frames| - 1].payload == [] { EmptyFrameTurn(frames[|frames| - 1], reader, last - 2); }
  }

  lemma FramesAlone(frames: seq<Frame>, reader: Reader, calls: nat, last: nat)
    requires Greedy(reader) && (forall f :: f in frames ==> Fits(f)) && last == calls + 2 * |frames|
    requires TakesLast(Turns(reader), frames, [], last)
    ensures var r := Demux(Turns(reader), EncodeAll(frames), calls);
            r.ending == Complete && r.lost == [] && Written(r.seen) == RenderAll(frames)
  {
    GreedyTakesFrames(reader);
    FramesToTheEnd(Turns(reader), frames, [], calls, last);
    assert EncodeAll(frames) + [] == EncodeAll(frames);
  }

  lemma LastFrameEmpty(frames: seq<Frame>, reader: Reader, calls: nat, last: nat)
    requires Greedy(reader) && (forall f :: f in frames ==> Fits(f)) && last + 2 == calls + 2 * |frames|
    requires frames != [] && frames[|frames| - 1].payload == [] && reader(last + 1, 0, 0).err != NoError
    ensures var r := Demux(Turns(reader), EncodeAll(frames), calls);
            r.ending == DataError && Written(r.seen) == RenderAll(frames[..|frames| - 1])
  {
    var init, f := frames[..|frames| - 1], frames[|frames| - 1];
    assert frames == init + [f];
    EncodeAllAppend(init, f);
    GreedyTakesFrames(reader);
    EmptyFrameTurn(f, reader, last);
    FramesToTheEnd(Turns(reader), init, Encode(f), calls, last);
  }

  /** Frames, and then something on which the loop stops. */
  lemma FramesToTheEnd(turn: Turner, frames: seq<Frame>, tail: seq<Byte>, calls: nat, last: nat)
    requires TakesFrames(turn) && forall f :: f in frames ==> Fits(f)
    requires TakesLast(turn, frames, tail, last)
    requires last == calls + 2 * |frames| && turn(tail, last).Stop?
    ensures var r, stop := Demux(turn, EncodeAll(frames) + tail, calls), turn(tail, last);
            r.ending == stop.ending && r.lost == stop.lost && Written(r.seen) == RenderAll(frames)
  {
    DemuxFrames(turn, frames, tail, calls, last);
    assert RenderAll(frames) + [] == RenderAll(frames);
  }

  /** An empty frame at the end of a log. */
  lemma EmptyFrameTurn(f: Frame, reader: Reader, calls: nat)
    requires Fits(f) && f.payload == [] && Greedy(reader)
    ensures TurnOf(Encode(f), reader, calls) ==
              if reader(calls + 1, 0, 0).err == NoError then Go(SeenOf(f, 0), HEADER) else Stop(DataError, [])
  {
    HeaderRead(f.header, [], reader, calls);
  }

  // ---------------------------------------------------------------- any reader on a well-formed log

  /** The first header and the first payload are each delivered whole by one read. */
  predicate FirstInFull(reader: Reader, f: Frame, rest: nat, calls: nat) {
    && reader(calls, |Encode(f)| + rest, HEADER) == Read(HEADER, NoError)
    && reader(calls + 1, |f.payload| + rest, |f.payload|) == Read(|f.payload|, NoError)
  }

  /** Every header and every payload of the log is, and the next read reports the end. */
  predicate ReadsInFull(reader: Reader, frames: seq<Frame>, calls: nat)
    decreases |frames|
  {
    if frames == [] then reader(calls, 0, HEADER).err == EndOfFile
    else
      && FirstInFull(reader, frames[0], |EncodeAll(frames[1..])|, calls)
      && ReadsInFull(reader, frames[1..], calls + 2)
  }

  /** The first iteration on a frame: it takes the frame, or a part of the payload, or it stops. */
  lemma AnyTurn(f: Frame, rest: seq<Byte>, reader: Reader, calls: nat)
    requires Fits(f)
    ensures var t, k := TurnOf(Encode(f) + rest, reader, calls), reader(calls + 1, |f.payload| + |rest|, |f.payload|).n;
            && (FirstInFull(reader, f, |rest|, calls) ==> t == Go(SeenOf(f, |f.payload|), |Encode(f)|))
            && (t.Go? ==> t == Go(SeenOf(f, k), HEADER + k)
                          && (k == |f.payload| ==> FirstInFull(reader, f, |rest|, calls)))
  {
    var data := Encode(f) + rest;
    assert data == f.header + (f.payload + rest) && |data| == |Encode(f)| + |rest|;
    assert data[..HEADER] == f.header && data[HEADER..] == f.payload + rest;
    var k := reader(calls + 1, |f.payload| + |rest|, |f.payload|).n;
    assert (f.payload + rest)[..k] == f.payload[..k];
  }

  lemma ShortTurn(f: Frame, rest: seq<Byte>, reader: Reader, calls: nat, k: nat)
    requires Fits(f) && k < |f.payload|
    requires reader(calls, |Encode(f)| + |rest|, HEADER) == Read(HEADER, NoError)
    requires reader(calls + 1, |f.payload| + |rest|, |f.payload|) == Read(k, NoError)
    ensures TurnOf(Encode(f) + rest, reader, calls) == Go(SeenOf(f, k), HEADER + k)
  {
    var data := Encode(f) + rest;
    assert data == f.header + (f.payload + rest) && |data| == |Encode(f)| + |rest|;
    assert data[..HEADER] == f.header && data[HEADER..] == f.payload + rest;
    assert (f.payload + rest)[..k] == f.payload[..k];
  }

  /** A payload read that falls short: what is left of the payload is taken for the next header. */
  lemma ShortPayloadRead(f: Frame, rest: seq<Byte>, reader: Reader, calls: nat, k: nat)
    requires Fits(f) && k < |f.payload|
    requires reader(calls, |Encode(f)| + |rest|, HEADER) == Read(HEADER, NoError)
    requires reader(calls + 1, |f.payload| + |rest|, |f.payload|) == Read(k, NoError)
    ensures var more := Demux(Turns(reader), f.payload[k..] + rest, calls + 2);
            Demux(Turns(reader), Encode(f) + rest, calls) == more.(seen := [SeenOf(f, k)] + more.seen)
  {
    ShortTurn(f, rest, reader, calls, k);
    GoesOn(Turns(reader), Encode(f) + rest, calls, SeenOf(f, k), HEADER + k);
    assert (Encode(f) + rest)[HEADER + k..] == f.payload[k..] + rest;
  }

  lemma GoesOn(turn: Turner, data: seq<Byte>, calls: nat, seen: Seen, used: nat)
    requires turn(data, calls) == Go(seen, used)
    ensures used <= |data|
    ensures var more := Demux(turn, data[used..], calls + 2);
            Demux(turn, data, calls) == more.(seen := [seen] + more.seen)
  {
  }

  ghost predicate RoundTrips(r: Demuxed, frames: seq<Frame>) {
    r.ending == Complete && Written(r.seen) == RenderAll(frames)
  }

  /** One frame more, in front. */
  lemma FirstRoundTrips(one: Seen, more: Demuxed, f: Frame, frames: seq<Frame>)
    requires frames != [] && frames[0] == f
    ensures RoundTrips(more.(seen := [one] + more.seen), frames) <==>
              RoundTrips(more, frames[1..]) && Prefix(one.header) + one.payload == Render(f)
  {
    var w, first := Written(more.seen), Prefix(one.header) + one.payload;
    assert ([one] + more.seen)[1..] == more.seen;
    assert RenderAll(frames) == [Render(f)] + RenderAll(frames[1..]);
    SameHead(first, w, Render(f), RenderAll(frames[1..]));
  }

  /** The exact condition, for every reader: a log of frames that fit is rendered in full and
      reported as complete if and only if each header and each payload is delivered whole by
      its own read, and the read after the last frame reports the end. */
  lemma {:induction false} RoundTripWhen(frames: seq<Frame>, reader: Reader, calls: nat)
    requires forall f :: f in frames ==> Fits(f)
    ensures RoundTrips(Demux(Turns(reader), EncodeAll(frames), calls), frames) <==> ReadsInFull(reader, frames, calls)
    decreases |frames|
  {
    if frames != [] {
      var f, rest, turn := frames[0], EncodeAll(frames[1..]), Turns(reader);
      AnyTurn(f, rest, reader, calls);
      var t := turn(Encode(f) + rest, calls);
      if t.Go? {
        RenderedWhen(f, |t.seen.payload|);
        FirstRoundTrips(t.seen, Demux(turn, (Encode(f) + rest)[t.used..], calls + 2), f, frames);
        if |t.seen.payload| == |f.payload| {
          assert (Encode(f) + rest)[t.used..] == rest;
          RoundTripWhen(frames[1..], reader, calls + 2);
        }
      }
    }
  }

  lemma RenderedWhen(f: Frame, k: nat)
    requires k <= |f.payload|
    ensures Prefix(f.header) + f.payload[..k] == Render(f) <==> k == |f.payload|
  {
    assert |Prefix(f.header) + f.payload[..k]| == 2 + k;
  }

  // ---------------------------------------------------------------- logs cut short

  /** The last `m` bytes of a log are the beginning of a frame. */
  lemma CutFrame(f: Frame, m: nat, reader: Reader, calls: nat)
    requires Fits(f) && Greedy(reader) && 0 < m < |Encode(f)|
    ensures var r := Demux(Turns(reader), Encode(f)[..m], calls);
            if m < HEADER then r == Demuxed([], ShortHeader, [])
            else if m == HEADER then r == Demuxed([], DataError, [])
            else r == Demuxed([SeenOf(f, m - HEADER)], Complete, [])
  {
    var data := Encode(f)[..m];
    if m >= HEADER {
      assert data[..HEADER] == f.header;
      assert data[HEADER..] == f.payload[..m - HEADER];
      if m > HEADER {
        assert TurnOf(data, reader, calls) == Go(SeenOf(f, m - HEADER), m);
        assert data[m..] == [];
      }
    }
  }

  /** A log cut inside a frame is noticed only if the cut is in the header or right
      after it: cut inside a payload, the log is reported as complete. */
  lemma CutLog(frames: seq<Frame>, f: Frame, m: nat, reader: Reader, calls: nat)
    requires Greedy(reader) && Fits(f) && forall g :: g in frames ==> Fits(g)
    requires 0 < m < |Encode(f)|
    ensures var r := Demux(Turns(reader), EncodeAll(frames) + Encode(f)[..m], calls);
            && (r.ending == Complete <==> m > HEADER)
            && (m > HEADER ==> Written(r.seen) == RenderAll(frames) + [Render(f.(payload := f.payload[..m - HEADER]))])
            && (m <= HEADER ==> Written(r.seen) == RenderAll(frames))
  {
    var cut, last := Encode(f)[..m], calls + 2 * |frames|;
    GreedyTakesFrames(reader);
    DemuxFrames(Turns(reader), frames, cut, calls, last);
    CutFrame(f, m, reader, last);
    if m > HEADER {
      WrittenOne(SeenOf(f, m - HEADER));
    } else {
      assert RenderAll(frames) + [] == RenderAll(frames);
    }
  }

  lemma WrittenOne(one: Seen)
    ensures Written([one]) == [Prefix(one.header) + one.payload]
  {
    assert [one][1..] == [];
  }

  // ---------------------------------------------------------------- arbitrary readers

  /** The bytes consumed by the iterations that wrote. */
  function Consumed(seen: seq<Seen>): seq<Byte> {
    if seen == [] then [] else seen[0].header + seen[0].payload + Consumed(seen[1..])
  }

  function TotalLength(chunks: seq<seq<Byte>>): nat {
    if chunks == [] then 0 else |chunks[0]| + TotalLength(chunks[1..])
  }

  lemma ConsumedFirst(one: Seen, seen: seq<Seen>)
    ensures Consumed([one] + seen) == one.header + one.payload + Consumed(seen)
  {
    assert ([one] + seen)[1..] == seen;
  }

  /** Conservation: whatever the reader does, the iterations account for a prefix of the
      stream, byte for byte and in order. */
  lemma {:induction false} DemuxConserves(turn: Turner, data: seq<Byte>, calls: nat)
    ensures Consumed(Demux(turn, data, calls).seen) <= data
    decreases |data|
  {
    var t := turn(data, calls);
    if t.Go? {
      DemuxConserves(turn, data[t.used..], calls + 2);
      ConsumedFirst(t.seen, Demux(turn, data[t.used..], calls + 2).seen);
      assert data == data[..t.used] + data[t.used..];
    }
  }

  /** Where the run stopped, and the iteration that stopped it. */
  lemma {:induction false} StoppingTurn(turn: Turner, data: seq<Byte>, calls: nat)
    ensures Consumed(Demux(turn, data, calls).seen) <= data
    ensures var r := Demux(turn, data, calls);
            turn(Left(data, r), calls + 2 * |r.seen|) == Stop(r.ending, r.lost)
    decreases |data|
  {
    DemuxConserves(turn, data, calls);
    var t, r := turn(data, calls), Demux(turn, data, calls);
    if t.Go? {
      var more := Demux(turn, data[t.used..], calls + 2);
      StoppingTurn(turn, data[t.used..], calls + 2);
      ConsumedFirst(t.seen, more.seen);
      assert Left(data, r) == Left(data[t.used..], more);
      assert calls + 2 + 2 * |more.seen| == calls + 2 * |r.seen|;
    } else {
      assert Left(data, r) == data;
    }
  }

  /** What was left of the stream when the run stopped. */
  function Left(data: seq<Byte>, r: Demuxed): seq<Byte>
    requires Consumed(r.seen) <= data
  {
    data[|Consumed(r.seen)|..]
  }

  /** An iteration that reports the end as complete ignores exactly what is left of the
      stream; `punctual`: nothing is left then. */
  ghost predicate EndsHonestly(turn: Turner, punctual: bool) {
    forall left: seq<Byte>, c: nat :: turn(left, c).Stop? && turn(left, c).ending == Complete ==>
      turn(left, c).lost == left && (punctual ==> left == [])
  }

  /** The end of the stream is never reported together with bytes of a header. */
  ghost predicate Punctual(b: Reader) {
    forall call: nat, available: nat :: b(call, available, HEADER).err == EndOfFile ==> available == 0
  }

  lemma TurnsEndHonestly(reader: Reader)
    ensures EndsHonestly(Turns(reader), false) && (Punctual(reader) ==> EndsHonestly(Turns(reader), true))
  {
    forall left: seq<Byte>, c: nat | TurnOf(left, reader, c).Stop? && TurnOf(left, reader, c).ending == Complete
      ensures TurnOf(left, reader, c).lost == left && (Punctual(reader) ==> left == [])
    {
    }
  }

  /** If the end is reported as complete, only bytes that came together with the end are
      missing; so none, if the reader reports the end by itself. */
  lemma CompleteMeansAll(turn: Turner, data: seq<Byte>, calls: nat, punctual: bool)
    requires EndsHonestly(turn, punctual) && Demux(turn, data, calls).ending == Complete
    ensures var r := Demux(turn, data, calls);
            data == Consumed(r.seen) + r.lost && (punctual ==> r.lost == [])
  {
    StoppingTurn(turn, data, calls);
  }

  /** Each write is the prefix and the payload of one iteration, so the lengths add up:
      eight bytes of header per write, and the two of its prefix do not count. */
  lemma {:induction false} WrittenLengths(seen: seq<Seen>)
    ensures |Written(seen)| == |seen|
    ensures |Consumed(seen)| + 2 * |seen| == HEADER * |seen| + TotalLength(Written(seen))
  {
    if seen != [] {
      WrittenLengths(seen[1..]);
      assert Written(seen)[1..] == Written(seen[1..]);
    }
  }

  /** So what was consumed can be told from what was written. */
  lemma DemuxConservation(data: seq<Byte>, reader: Reader, calls: nat)
    requires Punctual(reader) && Demux(Turns(reader), data, calls).ending == Complete
    ensures var r := Demux(Turns(reader), data, calls);
            |data| == (HEADER - 2) * |Written(r.seen)| + TotalLength(Written(r.seen))
  {
    TurnsEndHonestly(reader);
    CompleteMeansAll(Turns(reader), data, calls, true);
    WrittenLengths(Demux(Turns(reader), data, calls).seen);
  }

  /** With a reader that is not punctual it is false: the last bytes vanish without an error. */
  lemma EagerEndLosesBytes(data: seq<Byte>, reader: Reader, calls: nat)
    requires data != [] && reader(calls, |data|, HEADER).err == EndOfFile
    ensures Demux(Turns(reader), data, calls) == Demuxed([], Complete, data)
  {
    assert data[..|data|] == data;
    assert TurnOf(data, reader, calls) == Stop(Complete, data);
  }

  ghost predicate MayLoseBytes(reader: Reader) {
    exists data: seq<Byte>, calls: nat :: LosesBytes(reader, data, calls)
  }

  predicate LosesBytes(reader: Reader, data: seq<Byte>, calls: nat) {
    var r := Demux(Turns(reader), data, calls);
    r.ending == Complete && r.lost != []
  }

  /** A reader can make bytes vanish behind a nil return if and only if it is not punctual,
      and only its answers to requests for a header matter. */
  lemma BytesLostWhen(reader: Reader)
    ensures MayLoseBytes(reader) <==> !Punctual(reader)
  {
    if !Punctual(reader) {
      var c: nat, available: nat :| reader(c, available, HEADER).err == EndOfFile && available != 0;
      var data: seq<Byte> := seq(available, _ => 0);
      EagerEndLosesBytes(data, reader, c);
      assert LosesBytes(reader, data, c);
    }
    if MayLoseBytes(reader) {
      var data: seq<Byte>, calls: nat :| LosesBytes(reader, data, calls);
      TurnsEndHonestly(reader);
      if Punctual(reader) { CompleteMeansAll(Turns(reader), data, calls, true); }
    }
  }

  /** No write carries more than its header announced, and no announced length reached
      the point where the 32-bit sum wraps. */
  lemma {:induction false} WrittenWithinHeader(data: seq<Byte>, reader: Reader, calls: nat)
    ensures forall s :: s in Demux(Turns(reader), data, calls).seen ==>
              |s.payload| <= BigEndian(s.header[4..]) < WORD - 2
    decreases |data|
  {
    var t := TurnOf(data, reader, calls);
    if t.Go? {
      WrittenWithinHeader(data[t.used..], reader, calls + 2);
    }
  }

  /** How an iteration ends, from what the reader answers and what the header announces. */
  lemma TurnsMean(left: seq<Byte>, reader: Reader, c: nat)
    ensures var t, h := TurnOf(left, reader, c), reader(c, |left|, 8);
            && (t.Stop? && t.ending == Complete <==> h.err == EndOfFile)
            && (t.Stop? && t.ending == HeaderError <==> h.err == Broken)
            && (t.Stop? && t.ending == ShortHeader <==> h.err == NoError && h.n != 8)
            && (h == Read(8, NoError) && BigEndian(left[4..8]) < 0xFFFF_FFFE ==>
                  var d := reader(c + 1, |left| - 8, BigEndian(left[4..8]));
                  if d.err != NoError then t == Stop(DataError, [])
                  else t == Go(Seen(left[..8], left[8..8 + d.n]), 8 + d.n))
  {
    if |left| >= 8 { assert left[4..8] == left[..8][4..]; }
  }

  /** The data slice is out of bounds exactly when the reader delivers a whole header
      whose length wraps around, 2^32-2 or 2^32-1. */
  lemma OutOfBoundsTurn(left: seq<Byte>, reader: Reader, c: nat)
    ensures TurnOf(left, reader, c) == Stop(OutOfBounds, []) <==>
              reader(c, |left|, HEADER) == Read(HEADER, NoError) && BigEndian(left[4..HEADER]) >= WORD - 2
  {
    if |left| >= HEADER { assert left[4..HEADER] == left[..HEADER][4..]; }
  }
}
