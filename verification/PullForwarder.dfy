/** `PullImageCb`: looks at the head of an image pull's progress stream to tell a
    download from an up-to-date image, then forwards the whole stream.
 */
module PullForwarder {
  import opened ByteStream

  const HEAD := 512

  /** `"Pulling fs layer"`, quotes included. */
  const MARKER: seq<Byte> :=
    [0x22, 0x50, 0x75, 0x6C, 0x6C, 0x69, 0x6E, 0x67, 0x20, 0x66, 0x73, 0x20, 0x6C, 0x61, 0x79, 0x65, 0x72, 0x22]

  /** `bytes.Contains`. */
  predicate Contains(s: seq<Byte>, pat: seq<Byte>) {
    pat <= s || (s != [] && Contains(s[1..], pat))
  }

  /** ... that is, somewhere in `s`. */
  lemma {:induction false} ContainsMeaning(s: seq<Byte>, pat: seq<Byte>)
    ensures Contains(s, pat) <==> exists i :: 0 <= i <= |s| && pat <= s[i..]
  {
    if pat <= s {
      assert s[0..] == s;
    } else if s != [] {
      ContainsMeaning(s[1..], pat);
      forall i | 1 <= i <= |s|
        ensures s[i..] == s[1..][i - 1..]
      {
      }
      if Contains(s[1..], pat) {
        var k :| 0 <= k <= |s[1..]| && pat <= s[1..][k..];
        assert pat <= s[k + 1..];
      }
    } else {
      assert forall i :: 0 <= i <= |s| ==> s[i..] == s;
    }
  }

  datatype Callback = Absent | Succeeds | Fails

  datatype Event = Called | Forwarded(bytes: seq<Byte>)

  datatype Outcome = Pulled | EmptyStream | ReadFailed | CallbackFailed

  /** What reached the output. */
  function Output(log: seq<Event>): seq<Byte> {
    if log == [] then []
    else Output(log[..|log| - 1]) + if log[|log| - 1].Forwarded? then log[|log| - 1].bytes else []
  }

  lemma OutputAppend(log: seq<Event>, e: Event)
    ensures Output(log + [e]) == Output(log) + if e.Forwarded? then e.bytes else []
  {
    assert (log + [e])[..|log|] == log;
  }

  lemma {:induction false} OutputGrows(log0: seq<Event>, log: seq<Event>)
    requires log0 <= log
    ensures |Output(log0)| <= |Output(log)|
    decreases |log|
  {
    if log0 != log { OutputGrows(log0, log[..|log| - 1]); }
  }

  /** The stream announces a download, as far as its head shows. */
  predicate Announces(data: seq<Byte>) {
    |data| >= HEAD && Contains(data[..HEAD], MARKER)
  }

  /** `text`, in ASCII, stands in `data` at `i`. */
  predicate TextAt(data: seq<Byte>, text: string, i: nat) {
    i + |text| <= |data| && forall k :: 0 <= k < |text| ==> data[i + k] == text[k] as int
  }

  lemma MarkerIs()
    ensures |MARKER| == |"\"Pulling fs layer\""|
    ensures forall k :: 0 <= k < |MARKER| ==> MARKER[k] == "\"Pulling fs layer\""[k] as int
  {
  }

  /** The head of a stream announces a download if it is there in full, and the words for the
      pull of a layer, in their quotes, are in it. */
  lemma AnnouncesMeaning(data: seq<Byte>)
    ensures Announces(data) <==>
              |data| >= 512 && exists i :: 0 <= i <= 512 && TextAt(data[..512], "\"Pulling fs layer\"", i)
  {
    if |data| >= 512 {
      var head := data[..512];
      ContainsMeaning(head, MARKER);
      forall i | 0 <= i <= 512
        ensures MARKER <= head[i..] <==> TextAt(head, "\"Pulling fs layer\"", i)
      {
        MarkerIs();
        MarkerAt(head, i);
      }
    }
  }

  lemma MarkerAt(head: seq<Byte>, i: nat)
    requires i <= |head|
    ensures MARKER <= head[i..] <==>
              i + |MARKER| <= |head| && forall k :: 0 <= k < |MARKER| ==> head[i + k] == MARKER[k]
  {
    if i + |MARKER| <= |head| {
      assert forall k :: 0 <= k < |MARKER| ==> head[i..][k] == head[i + k];
    }
  }

  /** A reader that never answers a request with neither bytes nor an error. */
  ghost predicate Progresses(b: Reader) {
    forall call: nat, available: nat, wanted: nat ::
      wanted > 0 && b(call, available, wanted).err == NoError ==> b(call, available, wanted).n > 0
  }

  ghost predicate NeverBreaks(b: Reader) {
    forall call: nat, available: nat, wanted: nat :: b(call, available, wanted).err != Broken
  }

  datatype FullRead = Filled | Short | Empty | Failed

  /** `io.ReadFull` */
  method ReadFull(stream: ByteStream, buf: array<Byte>) returns (n: nat, r: FullRead)
    requires Progresses(stream.reader) && buf.Length > 0
    modifies stream, buf
    ensures n <= buf.Length && n <= |old(stream.rest)|
    ensures stream.rest == old(stream.rest)[n..] && buf[..n] == old(stream.rest)[..n]
    ensures r.Filled? ==> n == buf.Length
    ensures r.Short? ==> 0 < n < buf.Length && stream.rest == []
    ensures r.Empty? ==> n == 0 && stream.rest == []
    ensures NeverBreaks(stream.reader) ==> !r.Failed?
  {
    n := 0;
    var err := NoError;
    while n < buf.Length && err == NoError
      invariant n <= buf.Length && n <= |old(stream.rest)|
      invariant stream.rest == old(stream.rest)[n..] && buf[..n] == old(stream.rest)[..n]
      invariant err == EndOfFile ==> stream.rest == []
      invariant NeverBreaks(stream.reader) ==> err != Broken
      decreases buf.Length - n, err == NoError
    {
      ghost var done, call, rest := buf[..n], stream.calls, stream.rest;
      var nn;
      nn, err := stream.Next(buf, n, buf.Length);
      assert Read(nn, err) == stream.reader(call, |rest|, buf.Length - n);
      assert buf[..n + nn] == done + rest[..nn];
      n := n + nn;
    }
    if n == buf.Length {
      r := Filled;
    } else if err == EndOfFile {
      r := if n > 0 then Short else Empty;
    } else {
      r := Failed;
    }
  }

  /** `io.CopyBuffer`, into the log. */
  method CopyBuffer(stream: ByteStream, buf: array<Byte>, log0: seq<Event>) returns (log: seq<Event>, ok: bool)
    requires Progresses(stream.reader) && buf.Length > 0
    modifies stream, buf
    ensures log0 <= log && Called !in log[|log0|..]
    ensures Output(log) <= Output(log0) + old(stream.rest)
    ensures ok ==> Output(log) == Output(log0) + old(stream.rest)
    ensures NeverBreaks(stream.reader) ==> ok
  {
    log := log0;
    var err := NoError;
    while err == NoError
      invariant log0 <= log && Called !in log[|log0|..]
      invariant Output(log) + stream.rest == Output(log0) + old(stream.rest)
      invariant err == EndOfFile ==> stream.rest == []
      invariant NeverBreaks(stream.reader) ==> err != Broken
      decreases |stream.rest|, err == NoError
    {
      ghost var call, rest := stream.calls, stream.rest;
      var nr;
      nr, err := stream.Next(buf, 0, buf.Length);
      assert Read(nr, err) == stream.reader(call, |rest|, buf.Length);
      if nr > 0 {
        assert buf[..nr] == buf[0..nr] == rest[..nr];
        OutputAppend(log, Forwarded(buf[..nr]));
        log := log + [Forwarded(buf[..nr])];
      }
      assert rest == rest[..nr] + rest[nr..];
    }
    ok := err == EndOfFile;
  }

  /** What a pull owes for the stream `data`, whatever the reader's chunking: a successful
      one has forwarded the whole stream, any other a prefix of it, and nothing of a head that
      it could not read; and the callback runs at most once, before anything is forwarded, and
      (when the pull succeeds) exactly if there is one and the head of the stream announces
      a download. */
  ghost predicate Honours(data: seq<Byte>, cb: Callback, r: Outcome, log: seq<Event>) {
    && Output(log) <= data
    && (r.Pulled? ==> Output(log) == data)
    && (r.CallbackFailed? || r.EmptyStream? ==> Output(log) == [])
    && (r.ReadFailed? ==> Output(log) == [] || |Output(log)| >= 512)
    && (Called in log ==> log[0] == Called && Called !in log[1..] && cb != Absent && Announces(data))
    && (r.Pulled? ==> (Called in log <==> cb != Absent && Announces(data)))
  }

  /** The outcome, when no read breaks. */
  function Undisturbed(data: seq<Byte>, cb: Callback): Outcome {
    if data == [] then EmptyStream
    else if cb == Fails && Announces(data) then CallbackFailed
    else Pulled
  }

  lemma HeadLog(called: bool, head: seq<Byte>)
    ensures var log := (if called then [Called] else []) + [Forwarded(head)];
            && Output(log) == head && |log| == (if called then 2 else 1)
            && (log[0] == Called <==> called) && Called !in log[1..]
  {
    var first := if called then [Called] else [];
    OutputAppend(first, Forwarded(head));
    assert first == [] || (first == [Called] && first[..0] == []);
  }

  lemma ShortHonours(data: seq<Byte>, cb: Callback, full: FullRead, r: Outcome, log: seq<Event>)
    requires full == Short ==> 0 < |data| < HEAD && r == Pulled && log == [Forwarded(data)]
    requires full == Empty ==> data == [] && r == EmptyStream && log == []
    requires full == Failed ==> r == ReadFailed && log == []
    requires full != Filled
    ensures Honours(data, cb, r, log) && (full != Failed ==> r == Undisturbed(data, cb))
  {
    HeadLog(false, data);
    assert [] + [Forwarded(data)] == [Forwarded(data)];
  }

  lemma RefusedHonours(data: seq<Byte>)
    requires Announces(data)
    ensures Honours(data, Fails, CallbackFailed, [Called]) && Undisturbed(data, Fails) == CallbackFailed
  {
    assert [Called][..0] == [];
  }

  /** Reads and judges the head; `more` means that the stream goes on after it. */
  method InspectHead(stream: ByteStream, buf: array<Byte>, cb: Callback)
    returns (more: bool, r: Outcome, log: seq<Event>)
    requires Progresses(stream.reader) && buf.Length == HEAD
    modifies stream, buf
    ensures var data := old(stream.rest);
            if more then
              && |data| >= HEAD && stream.rest == data[HEAD..]
              && log == (if cb != Absent && Announces(data) then [Called] else []) + [Forwarded(data[..HEAD])]
              && !(cb == Fails && Announces(data))
            else
              && Honours(data, cb, r, log)
              && (NeverBreaks(stream.reader) ==> r == Undisturbed(data, cb))
  {
    ghost var data := stream.rest;
    log := [];
    var n, full := ReadFull(stream, buf);
    if full != Filled {
      r := match full case Short => Pulled case Empty => EmptyStream case _ => ReadFailed;
      log := if full == Short then [Forwarded(buf[..n])] else [];
      if full != Failed { assert data == data[..n] + data[n..] == buf[..n]; }
      ShortHonours(data, cb, full, r, log);
      return false, r, log;
    }
    assert buf[..] == buf[..n] == data[..HEAD];
    if cb != Absent && Contains(buf[..], MARKER) {
      log := [Called];
      if cb == Fails {
        RefusedHonours(data);
        return false, CallbackFailed, log;
      }
    }
    log := log + [Forwarded(buf[..])];
    return true, Pulled, log;
  }

  /** The callback is over before the first byte is forwarded, so what follows cannot break the promise. */
  lemma HonoursAll(data: seq<Byte>, cb: Callback, r: Outcome, head: seq<Event>, log: seq<Event>)
    requires |data| >= HEAD && head <= log && Called !in log[|head|..]
    requires head == (if cb != Absent && Announces(data) then [Called] else []) + [Forwarded(data[..HEAD])]
    requires Output(log) <= data && r in {Pulled, ReadFailed} && (r.Pulled? ==> Output(log) == data)
    ensures Honours(data, cb, r, log)
  {
    HeadLog(cb != Absent && Announces(data), data[..HEAD]);
    OutputGrows(head, log);
    assert log == head + log[|head|..];
    assert log[1..] == head[1..] + log[|head|..];
  }

  /** Forwards what follows the head. */
  method ForwardRest(stream: ByteStream, buf: array<Byte>, cb: Callback, head: seq<Event>, ghost data: seq<Byte>)
    returns (r: Outcome, log: seq<Event>)
    requires Progresses(stream.reader) && buf.Length == HEAD
    requires |data| >= HEAD && stream.rest == data[HEAD..]
    requires head == (if cb != Absent && Announces(data) then [Called] else []) + [Forwarded(data[..HEAD])]
    modifies stream, buf
    ensures Honours(data, cb, r, log)
    ensures NeverBreaks(stream.reader) ==> r == Pulled
  {
    HeadLog(cb != Absent && Announces(data), data[..HEAD]);
    var ok;
    log, ok := CopyBuffer(stream, buf, head);
    assert data == data[..HEAD] + data[HEAD..];
    r := if ok then Pulled else ReadFailed;
    HonoursAll(data, cb, r, head, log);
  }

  method PullImageCb(stream: ByteStream, cb: Callback) returns (r: Outcome, log: seq<Event>)
    requires Progresses(stream.reader)
    modifies stream
    ensures Honours(old(stream.rest), cb, r, log)
    ensures NeverBreaks(stream.reader) ==> r == Undisturbed(old(stream.rest), cb)
  {
    var buf := new Byte[HEAD];
    ghost var data := stream.rest;
    var more;
    more, r, log := InspectHead(stream, buf, cb);
    if more {
      r, log := ForwardRest(stream, buf, cb, log, data);
    }
  }
}
