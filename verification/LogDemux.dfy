/** `dockerLogReader`: takes apart the multiplexed log of a container, a sequence of
    frames with an eight-byte header, and gives every writer each payload behind a
    two-character prefix naming its stream.
 */
module LogDemux {
  import opened Common
  import opened ByteStream

  const HEADER := 8
  const WORD := 0x1_0000_0000
  const INITIAL_BUFFER := 32 * 1024 + 2

  function BigEndian(b: seq<Byte>): (n: nat)
    requires |b| == 4
    ensures n < WORD
  {
    var b0: int, b1: int, b2: int, b3: int := b[0], b[1], b[2], b[3];
    ((b0 * 0x100 + b1) * 0x100 + b2) * 0x100 + b3
  }

  function PutBigEndian(n: nat): (b: seq<Byte>)
    requires n < WORD
    ensures |b| == 4
  {
    [n / 0x100_0000, n / 0x1_0000 % 0x100, n / 0x100 % 0x100, n % 0x100]
  }

  lemma BigEndianRoundTrip(n: nat)
    requires n < WORD
    ensures BigEndian(PutBigEndian(n)) == n
  {
    assert n == n / 0x100 * 0x100 + n % 0x100;
    var m := n / 0x100;
    assert m == m / 0x100 * 0x100 + m % 0x100;
    assert m / 0x100 == n / 0x1_0000;
    var k := m / 0x100;
    assert k == k / 0x100 * 0x100 + k % 0x100;
    assert k / 0x100 == n / 0x100_0000;
  }

  type Header = h: seq<Byte> | |h| == HEADER witness [0, 0, 0, 0, 0, 0, 0, 0]

  /** The payload length and the prefix, in the 32-bit arithmetic of the code. */
  function FrameEnd(header: Header): (end: nat)
    ensures end < WORD
  {
    (BigEndian(header[4..]) + 2) % WORD
  }

  function Prefix(header: Header): seq<Byte> {
    [if header[0] == 1 then '>' as int else 'E' as int, ' ' as int]
  }

  /** What one iteration reads. */
  datatype Seen = Seen(header: Header, payload: seq<Byte>)

  datatype Ending = Complete | NoWriters | HeaderError | ShortHeader | DataError | OutOfBounds

  /** `seen`: the iterations that wrote; `lost`: bytes delivered together with the end
      of the stream, which the code ignores. */
  datatype Demuxed = Demuxed(seen: seq<Seen>, ending: Ending, lost: seq<Byte>)

  /** One iteration: it stops, or it writes what it has seen and goes on after `used` bytes. */
  datatype Turn = Stop(ending: Ending, lost: seq<Byte>) | Go(seen: Seen, used: nat)

  function TurnOf(data: seq<Byte>, reader: Reader, calls: nat): (t: Turn)
    ensures t.Go? ==> 0 < t.used <= |data|
    ensures t.Go? ==> data[..t.used] == t.seen.header + t.seen.payload
  {
    var h := reader(calls, |data|, HEADER);
    if h.err == EndOfFile then Stop(Complete, data[..h.n])
    else if h.err == Broken then Stop(HeaderError, [])
    else if h.n != HEADER then Stop(ShortHeader, [])
    else
      var header, rest := data[..HEADER], data[HEADER..];
      if FrameEnd(header) < 2 then Stop(OutOfBounds, [])
      else
        var d := reader(calls + 1, |rest|, FrameEnd(header) - 2);
        if d.err != NoError then Stop(DataError, [])
        else Go(Seen(header, rest[..d.n]), HEADER + d.n)
  }

  /** A way to take the next iteration's bytes off a stream: what it goes on after is
      what it has seen. */
  ghost predicate Faithful(turn: (seq<Byte>, nat) -> Turn) {
    forall data: seq<Byte>, c: nat :: turn(data, c).Go? ==>
      var t := turn(data, c);
      0 < t.used <= |data| && data[..t.used] == t.seen.header + t.seen.payload
  }

  type Turner = turn: (seq<Byte>, nat) -> Turn | Faithful(turn) witness (data: seq<Byte>, c: nat) => Stop(Complete, [])

  /** The iterations of the code over a reader. */
  function Turns(reader: Reader): Turner {
    (data: seq<Byte>, c: nat) => TurnOf(data, reader, c)
  }

  function Demux(turn: Turner, data: seq<Byte>, calls: nat): Demuxed
    decreases |data|
  {
    match turn(data, calls)
    case Stop(ending, lost) => Demuxed([], ending, lost)
    case Go(seen, used) =>
      var more := Demux(turn, data[used..], calls + 2);
      more.(seen := [seen] + more.seen)
  }

  /** What the writers get. */
  function Written(seen: seq<Seen>): seq<seq<Byte>> {
    if seen == [] then [] else [Prefix(seen[0].header) + seen[0].payload] + Written(seen[1..])
  }

  /** Grows the buffer if the frame needs it, and puts the prefix in front. */
  method PrepareBuffer(header: Header, frameEnd: nat, buf0: array<Byte>) returns (buf: array<Byte>)
    requires buf0.Length >= 2
    modifies buf0
    ensures buf == buf0 || fresh(buf)
    ensures buf.Length >= 2 && buf.Length >= frameEnd
    ensures buf[..2] == Prefix(header)
  {
    buf := buf0;
    if buf.Length < frameEnd {
      buf := new Byte[if frameEnd < 2 then 2 else frameEnd];
    }
    if header[0] == 1 {
      buf[0] := '>' as int;
    } else {
      buf[0] := 'E' as int;
    }
    buf[1] := ' ' as int;
  }

  /** One iteration of the loop, up to the writing; `buf` is handed on, reallocated or not. */
  method NextChunk(stream: ByteStream, hdr: array<Byte>, buf0: array<Byte>)
    returns (ending: Option<Ending>, chunk: seq<Byte>, buf: array<Byte>)
    requires hdr != buf0 && hdr.Length == HEADER && buf0.Length >= 2
    modifies stream, hdr, buf0
    ensures buf == buf0 || fresh(buf)
    ensures buf != hdr && buf.Length >= 2
    ensures var t := TurnOf(old(stream.rest), stream.reader, old(stream.calls));
            match t
            case Stop(e, _) => ending == Some(e)
            case Go(seen, used) =>
              && ending == None
              && chunk == Prefix(seen.header) + seen.payload
              && stream.rest == old(stream.rest)[used..] && stream.calls == old(stream.calls) + 2
  {
    buf, chunk := buf0, [];
    ghost var data := stream.rest;
    var rc, err := stream.Next(hdr, 0, HEADER);
    if err == EndOfFile {
      return Some(Complete), chunk, buf;
    } else if err != NoError {
      return Some(HeaderError), chunk, buf;
    } else if rc != HEADER {
      return Some(ShortHeader), chunk, buf;
    }
    var header := hdr[..];
    assert header == hdr[0..HEADER] == data[..HEADER];
    ghost var rest := stream.rest;

    var frameEnd := FrameEnd(header);
    buf := PrepareBuffer(header, frameEnd, buf);
    if frameEnd < 2 {
      return Some(OutOfBounds), chunk, buf;
    }
    rc, err := stream.Next(buf, 2, frameEnd);
    if err != NoError {
      return Some(DataError), chunk, buf;
    }
    chunk := buf[..2 + rc];
    assert chunk[..2] == Prefix(header) && chunk[2..] == rest[..rc];
    ending := None;
  }

  /** `logs` became `logs'` by appending `chunks` to every one of them. */
  ghost predicate Appended(logs: seq<seq<seq<Byte>>>, logs': seq<seq<seq<Byte>>>, chunks: seq<seq<Byte>>) {
    |logs| == |logs'| && forall k :: 0 <= k < |logs| ==> logs'[k] == logs[k] + chunks
  }

  lemma AppendedOne(a: seq<seq<seq<Byte>>>, b: seq<seq<seq<Byte>>>, c: seq<seq<seq<Byte>>>,
                    chunks: seq<seq<Byte>>, chunk: seq<Byte>)
    requires Appended(a, b, chunks) && Appended(b, c, [chunk])
    ensures Appended(a, c, chunks + [chunk])
  {
    forall k | 0 <= k < |a|
      ensures c[k] == a[k] + (chunks + [chunk])
    {
      assert c[k] == b[k] + [chunk] == (a[k] + chunks) + [chunk];
    }
  }

  /** The writers, each as the log of the chunks written to it. */
  class Writers {
    var logs: seq<seq<seq<Byte>>>

    constructor (count: nat)
      ensures |logs| == count && forall k :: 0 <= k < count ==> logs[k] == []
    {
      logs := seq(count, _ => []);
    }

    /** The loop over the writers. */
    method WriteAll(chunk: seq<Byte>)
      modifies this
      ensures Appended(old(logs), logs, [chunk])
    {
      for i := 0 to |logs|
        invariant |logs| == |old(logs)|
        invariant forall k :: 0 <= k < i ==> logs[k] == old(logs)[k] + [chunk]
        invariant forall k :: i <= k < |logs| ==> logs[k] == old(logs)[k]
      {
        logs := logs[i := logs[i] + [chunk]];
      }
    }
  }

  /** One whole iteration of the loop. */
  method Frame(stream: ByteStream, hdr: array<Byte>, buf0: array<Byte>, writers: Writers)
    returns (ending: Option<Ending>, buf: array<Byte>)
    requires hdr != buf0 && hdr.Length == HEADER && buf0.Length >= 2
    modifies stream, hdr, buf0, writers
    ensures buf == buf0 || fresh(buf)
    ensures buf != hdr && buf.Length >= 2
    ensures var t := Turns(stream.reader)(old(stream.rest), old(stream.calls));
            match t
            case Stop(e, _) => ending == Some(e) && writers.logs == old(writers.logs)
            case Go(seen, used) =>
              && ending == None
              && Appended(old(writers.logs), writers.logs, [Prefix(seen.header) + seen.payload])
              && stream.rest == old(stream.rest)[used..] && stream.calls == old(stream.calls) + 2
  {
    var chunk;
    ending, chunk, buf := NextChunk(stream, hdr, buf0);
    if ending == None {
      writers.WriteAll(chunk);
    }
  }

  /** The iterations already done, with what they wrote, and those still to come make up the whole. */
  ghost predicate Underway(whole: Demuxed, done: seq<Seen>, logs0: seq<seq<seq<Byte>>>, logs: seq<seq<seq<Byte>>>,
                           todo: Demuxed) {
    && whole == todo.(seen := done + todo.seen)
    && Appended(logs0, logs, Written(done))
  }

  lemma StillUnderway(whole: Demuxed, done: seq<Seen>, logs0: seq<seq<seq<Byte>>>,
                      logs: seq<seq<seq<Byte>>>, logs': seq<seq<seq<Byte>>>,
                      turn: Turner, data: seq<Byte>, calls: nat)
    requires Underway(whole, done, logs0, logs, Demux(turn, data, calls))
    requires var t := turn(data, calls);
             t.Go? ==> Appended(logs, logs', [Prefix(t.seen.header) + t.seen.payload])
    ensures match turn(data, calls)
            case Stop(ending, _) => whole.seen == done && whole.ending == ending
            case Go(seen, used) => Underway(whole, done + [seen], logs0, logs', Demux(turn, data[used..], calls + 2))
  {
    var t := turn(data, calls);
    if t.Go? {
      var more := Demux(turn, data[t.used..], calls + 2);
      assert done + ([t.seen] + more.seen) == (done + [t.seen]) + more.seen;
      AppendedOne(logs0, logs, logs', Written(done), Prefix(t.seen.header) + t.seen.payload);
      WrittenAppend(done, t.seen);
    }
  }

  /** One iteration, as a step of the whole; `now` is what has been seen after it. */
  method Iteration(stream: ByteStream, hdr: array<Byte>, buf0: array<Byte>, writers: Writers,
                   ghost whole: Demuxed, ghost done: seq<Seen>, ghost logs0: seq<seq<seq<Byte>>>)
    returns (ending: Option<Ending>, buf: array<Byte>, ghost now: seq<Seen>)
    requires hdr != buf0 && hdr.Length == HEADER && buf0.Length >= 2
    requires Underway(whole, done, logs0, writers.logs, Demux(Turns(stream.reader), stream.rest, stream.calls))
    modifies stream, hdr, buf0, writers
    ensures buf == buf0 || fresh(buf)
    ensures buf != hdr && buf.Length >= 2
    ensures ending.Some? ==> whole.ending == ending.value && Appended(logs0, writers.logs, Written(whole.seen))
    ensures ending.None? ==>
              && |stream.rest| < |old(stream.rest)|
              && Underway(whole, now, logs0, writers.logs, Demux(Turns(stream.reader), stream.rest, stream.calls))
  {
    ghost var turn, data, calls, before := Turns(stream.reader), stream.rest, stream.calls, writers.logs;
    ghost var t := turn(data, calls);
    ending, buf := Frame(stream, hdr, buf0, writers);
    StillUnderway(whole, done, logs0, before, writers.logs, turn, data, calls);
    now := if t.Go? then done + [t.seen] else done;
  }

  /** The reader itself, with the header and data buffers it reuses. */
  method DockerLogReader(stream: ByteStream, writers: Writers) returns (ending: Ending)
    modifies stream, writers
    ensures old(writers.logs) == [] ==> ending == NoWriters && stream.rest == old(stream.rest)
    ensures old(writers.logs) != [] ==>
              var r := Demux(Turns(stream.reader), old(stream.rest), old(stream.calls));
              ending == r.ending && Appended(old(writers.logs), writers.logs, Written(r.seen))
  {
    if |writers.logs| <= 0 {
      return NoWriters;
    }
    var hdr, buf := new Byte[HEADER], new Byte[INITIAL_BUFFER];
    ghost var whole := Demux(Turns(stream.reader), stream.rest, stream.calls);
    ghost var done: seq<Seen> := [];
    while true
      invariant fresh(hdr) && fresh(buf) && hdr != buf && hdr.Length == HEADER && buf.Length >= 2
      invariant Underway(whole, done, old(writers.logs), writers.logs,
                         Demux(Turns(stream.reader), stream.rest, stream.calls))
      decreases |stream.rest|
    {
      var stop;
      stop, buf, done := Iteration(stream, hdr, buf, writers, whole, done, old(writers.logs));
      if stop.Some? {
        return stop.value;
      }
    }
  }

  lemma {:induction false} WrittenAppend(seen: seq<Seen>, one: Seen)
    ensures Written(seen + [one]) == Written(seen) + [Prefix(one.header) + one.payload]
  {
    if seen == [] {
      assert Written([one]) == [Prefix(one.header) + one.payload] + Written([]);
    } else {
      assert (seen + [one])[1..] == seen[1..] + [one];
      WrittenAppend(seen[1..], one);
    }
  }
}
