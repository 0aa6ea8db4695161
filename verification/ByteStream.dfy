/** An `io.Reader` over a finite stream.  How much each call delivers, whether the
    end is reported together with the last bytes or by a call of its own, and which
    call breaks, is up to the reader.
 */
module ByteStream {

  type Byte = x: int | 0 <= x < 0x100

  datatype Error = NoError | EndOfFile | Broken

  datatype Read = Read(n: nat, err: Error)

  /** What a reader does: given the number of the call, the bytes still available and the
      bytes wanted, how many it delivers and with which error. */
  type Behaviour = (nat, nat, nat) -> Read

  /** It delivers no more than it has or was asked for, and reports the end only when
      nothing is left, and something other than success when bytes were asked for and
      nothing was left to begin with.  A request for no bytes it may answer either way. */
  ghost predicate Sound(b: Behaviour) {
    forall call: nat, available: nat, wanted: nat ::
      var r := b(call, available, wanted);
      && r.n <= available && r.n <= wanted
      && (r.err == EndOfFile ==> r.n == available)
      && (available == 0 && wanted > 0 ==> r.err != NoError)
  }

  type Reader = b: Behaviour | Sound(b)
    witness (call, available, wanted) => if available == 0 then Read(0, EndOfFile) else Read(0, Broken)

  /** The reader fills every request as far as the stream goes, and reports the end by itself. */
  ghost predicate Greedy(b: Reader) {
    forall call: nat, available: nat, wanted: nat ::
      var r := b(call, available, wanted);
      if available > 0 then r == Read(if wanted < available then wanted else available, NoError)
      else if wanted > 0 then r.err == EndOfFile
      else r.err != Broken
  }

  class ByteStream {
    var rest: seq<Byte>
    var calls: nat
    const reader: Reader

    constructor (data: seq<Byte>, reader: Reader)
      ensures rest == data && calls == 0 && this.reader == reader
    {
      rest := data;
      calls := 0;
      this.reader := reader;
    }

    /** Fills `buf[lo..hi]` as far as the reader delivers. */
    method Next(buf: array<Byte>, lo: nat, hi: nat) returns (n: nat, err: Error)
      requires lo <= hi <= buf.Length
      modifies this, buf
      ensures Read(n, err) == reader(old(calls), |old(rest)|, hi - lo)
      ensures n <= |old(rest)| && n <= hi - lo
      ensures rest == old(rest)[n..] && calls == old(calls) + 1
      ensures buf[lo..lo + n] == old(rest)[..n]
      ensures forall i :: 0 <= i < buf.Length && !(lo <= i < lo + n) ==> buf[i] == old(buf[i])
    {
      var r := reader(calls, |rest|, hi - lo);
      n, err := r.n, r.err;
      forall i | 0 <= i < n {
        buf[lo + i] := rest[i];
      }
      rest := rest[n..];
      calls := calls + 1;
    }
  }
}
