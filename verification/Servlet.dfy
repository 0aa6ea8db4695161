/** The monitor's health answer: the install state behind its lock, and the GET/HEAD
    handler that reads it twice while other threads may set it.
 */
module Servlet {

  datatype InstallState = Unknown | Installing | Finished

  /** The two setters; there is none for `Unknown`. */
  datatype Setter = SetInstalling | SetFinished

  function Set(op: Setter): InstallState {
    match op
    case SetInstalling => Installing
    case SetFinished => Finished
  }

  function SetAll(state: InstallState, ops: seq<Setter>): InstallState {
    if ops == [] then state else Set(ops[|ops| - 1])
  }

  datatype Answer = StatusUnknown | StatusInstalling | Proxied

  /** The handler's answer from its two reads. */
  function AnswerOf(first: InstallState, second: InstallState): Answer {
    if first == Unknown then StatusUnknown
    else if second != Finished then StatusInstalling
    else Proxied
  }

  class OciRESTServlet {
    var state: InstallState

    constructor ()
      ensures state == Unknown
    {
      state := Unknown;
    }

    method SetStateInstalling()
      modifies this
      ensures state == Set(SetInstalling)
    {
      state := Installing;
    }

    method SetStateInstallFinished()
      modifies this
      ensures state == Set(SetFinished)
    {
      state := Finished;
    }

    method GetState() returns (s: InstallState)
      ensures s == state
    {
      s := state;
    }

    /** Setter calls of other threads. */
    method Interfere(others: seq<Setter>)
      modifies this
      ensures state == SetAll(old(state), others)
    {
      for i := 0 to |others|
        invariant state == SetAll(old(state), others[..i])
      {
        if others[i] == SetInstalling {
          SetStateInstalling();
        } else {
          SetStateInstallFinished();
        }
      }
      assert others[..|others|] == others;
    }

    /** The state part of `handleGetHead`; `others` is what other threads set between its two reads. */
    method HandleGetHead(others: seq<Setter>) returns (answer: Answer)
      modifies this
      ensures state == if old(state) == Unknown then Unknown else SetAll(old(state), others)
      ensures answer == AnswerOf(old(state), state)
    {
      var st := GetState();
      if st == Unknown {
        return StatusUnknown;
      }
      Interfere(others);
      st := GetState();
      if st != Finished {
        return StatusInstalling;
      }
      return Proxied;
    }
  }

  // ---------------------------------------------------------------- interleavings

  /** A step of some thread: a setter, or one of the two reads of some request. */
  datatype AtomicStep = Setting(op: Setter) | Reading(request: nat)

  function Setters(steps: seq<AtomicStep>): seq<Setter> {
    if steps == [] then []
    else (if steps[0].Setting? then [steps[0].op] else []) + Setters(steps[1..])
  }

  /** The state after the first `n` steps of an interleaving. */
  function StateAt(steps: seq<AtomicStep>, n: nat): InstallState
    requires n <= |steps|
  {
    SetAll(Unknown, Setters(steps[..n]))
  }

  /** The answer to a request whose reads are steps `i` and `j`. */
  function Answered(steps: seq<AtomicStep>, i: nat, j: nat): Answer
    requires i < j < |steps|
  {
    AnswerOf(StateAt(steps, i), StateAt(steps, j))
  }

  lemma {:induction false} SettersConcat(a: seq<AtomicStep>, b: seq<AtomicStep>)
    ensures Setters(a + b) == Setters(a) + Setters(b)
  {
    if a == [] {
      assert a + b == b;
    } else {
      var head := if a[0].Setting? then [a[0].op] else [];
      assert (a + b)[0] == a[0] && (a + b)[1..] == a[1..] + b;
      SettersConcat(a[1..], b);
      assert head + (Setters(a[1..]) + Setters(b)) == (head + Setters(a[1..])) + Setters(b);
    }
  }

  lemma StateLater(steps: seq<AtomicStep>, i: nat, j: nat)
    requires i <= j <= |steps|
    ensures StateAt(steps, j) == SetAll(StateAt(steps, i), Setters(steps[i..j]))
  {
    assert steps[..j] == steps[..i] + steps[i..j];
    SettersConcat(steps[..i], steps[i..j]);
    var before, later := Setters(steps[..i]), Setters(steps[i..j]);
    if later == [] { assert before + later == before; }
  }

  /** The state never becomes unknown again. */
  lemma NeverUnknownAgain(steps: seq<AtomicStep>, i: nat, j: nat)
    requires i <= j <= |steps| && StateAt(steps, i) != Unknown
    ensures StateAt(steps, j) != Unknown
  {
    StateLater(steps, i, j);
  }

  /** Two reads, one truth: in every interleaving the answer is the one a single read would
      have given, at the first read for "unknown" and at the second for the others. So
      "installing" means that the second read saw just that, and a request is proxied
      only if the second read saw the install finished. */
  lemma AnswerIsAtomic(steps: seq<AtomicStep>, i: nat, j: nat)
    requires i < j < |steps|
    ensures match Answered(steps, i, j)
            case StatusUnknown => StateAt(steps, i) == Unknown
            case StatusInstalling => StateAt(steps, j) == Installing
            case Proxied => StateAt(steps, j) == Finished
  {
    if StateAt(steps, i) != Unknown { NeverUnknownAgain(steps, i, j); }
  }

  /** From a `SetInstalling` on, until the next `SetFinished` of any thread, every request
      that starts is told "installing". */
  lemma GatedWhileInstalling(steps: seq<AtomicStep>, c: nat, i: nat, j: nat)
    requires c < i < j < |steps| && steps[c] == Setting(SetInstalling)
    requires SetFinished !in Setters(steps[c + 1..j])
    ensures Answered(steps, i, j) == StatusInstalling
  {
    assert steps[c..c + 1] == [steps[c]];
    assert [steps[c]][1..] == [];
    StateLater(steps, c, c + 1);
    assert steps[c + 1..j] == steps[c + 1..i] + steps[i..j];
    SettersConcat(steps[c + 1..i], steps[i..j]);
    StateLater(steps, c + 1, i);
    StateLater(steps, c + 1, j);
    InstallingStays(Setters(steps[c + 1..i]));
    InstallingStays(Setters(steps[c + 1..j]));
  }

  lemma InstallingStays(ops: seq<Setter>)
    requires SetFinished !in ops
    ensures SetAll(Installing, ops) == Installing
  {
    if ops != [] { assert ops[|ops| - 1] in ops; }
  }
}
