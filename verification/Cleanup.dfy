/** The asynchronous cleanup that a switch leaves running: a second process that
    deletes the staging and scratch trees piece by piece, in any interleaving with
    whatever else happens to the host's tree.
 */
module Cleanup {
  import opened Common
  import opened HostTree
  import opened OciSwitch

  /** One step of a schedule: the cleanup deletes something it owns, or some other
      process writes or deletes. */
  datatype Op = Sweep(path: Path) | Write(path: Path, node: Node) | Delete(path: Path)

  /** The cleanup deletes only at or below its two trees; other writers stay clear of
      them, while other deletions may hit anything. */
  predicate Legal(op: Op) {
    match op
    case Sweep(p) => IsSweep(p)
    case Write(p, _) => Disjoint(p, STAGE) && Disjoint(p, SCRATCH)
    case Delete(p) => p != []
  }

  function Apply(t: Node, op: Op): Node
    requires Legal(op)
  {
    match op
    case Sweep(p) => Remove(t, p)
    case Write(p, n) => Put(t, p, n)
    case Delete(p) => Remove(t, p)
  }

  function Exec(t: Node, ops: seq<Op>): Node
    requires forall op :: op in ops ==> Legal(op)
    decreases |ops|
  {
    if ops == [] then t else Exec(Apply(t, ops[0]), ops[1..])
  }

  /** The same schedule had there been no cleanup. */
  function WithoutSweeps(ops: seq<Op>): (rest: seq<Op>)
    ensures forall op :: op in rest <==> op in ops && !op.Sweep?
  {
    if ops == [] then []
    else if ops[0].Sweep? then WithoutSweeps(ops[1..])
    else [ops[0]] + WithoutSweeps(ops[1..])
  }

  /** What a tree looks like to someone who ignores the two doomed trees. */
  function Erase(t: Node): Node {
    Remove(Remove(t, STAGE), SCRATCH)
  }

  lemma EraseSweep(t: Node, p: Path)
    requires IsSweep(p)
    ensures Erase(Remove(t, p)) == Erase(t)
  {
    if STAGE <= p {
      RemoveAbsorbs(t, STAGE, p);
    } else {
      RemoveCommutes(t, p, STAGE);
      RemoveAbsorbs(Remove(t, STAGE), SCRATCH, p);
    }
  }

  lemma EraseOther(t: Node, op: Op)
    requires Legal(op) && !op.Sweep?
    ensures Erase(Apply(t, op)) == Apply(Erase(t), op)
  {
    match op
    case Write(p, n) =>
      PutRemoveCommute(t, p, n, STAGE);
      PutRemoveCommute(Remove(t, STAGE), p, n, SCRATCH);
    case Delete(p) =>
      RemoveCommutes(t, p, STAGE);
      RemoveCommutes(Remove(t, STAGE), p, SCRATCH);
  }

  /** Every schedule, seen without the doomed trees, is the schedule without its sweeps. */
  lemma {:induction false} ExecErased(t: Node, ops: seq<Op>)
    requires forall op :: op in ops ==> Legal(op)
    ensures Erase(Exec(t, ops)) == Exec(Erase(t), WithoutSweeps(ops))
    decreases |ops|
  {
    if ops != [] {
      ExecErased(Apply(t, ops[0]), ops[1..]);
      if ops[0].Sweep? {
        EraseSweep(t, ops[0].path);
      } else {
        EraseOther(t, ops[0]);
        assert WithoutSweeps(ops)[1..] == WithoutSweeps(ops[1..]);
      }
    }
  }

  lemma {:induction false} WithoutSweepsTwice(ops: seq<Op>)
    ensures WithoutSweeps(WithoutSweeps(ops)) == WithoutSweeps(ops)
  {
    if ops != [] {
      WithoutSweepsTwice(ops[1..]);
      if !ops[0].Sweep? { assert WithoutSweeps(ops)[1..] == WithoutSweeps(ops[1..]); }
    }
  }

  lemma EraseKeeps(t: Node, q: Path)
    requires Disjoint(STAGE, q) && Disjoint(SCRATCH, q)
    ensures Get(Erase(t), q) == Get(t, q)
  {
    GetRemoveElsewhere(t, STAGE, q);
    GetRemoveElsewhere(Remove(t, STAGE), SCRATCH, q);
  }

  /** Cleanup non-interference: in every interleaving, whatever lies outside the two
      deleted trees ends up as in the run without cleanup. */
  lemma CleanupNonInterference(t: Node, ops: seq<Op>, q: Path)
    requires forall op :: op in ops ==> Legal(op)
    requires Disjoint(STAGE, q) && Disjoint(SCRATCH, q)
    ensures Get(Exec(t, ops), q) == Get(Exec(t, WithoutSweeps(ops)), q)
  {
    ExecErased(t, ops);
    ExecErased(t, WithoutSweeps(ops));
    WithoutSweepsTwice(ops);
    EraseKeeps(Exec(t, ops), q);
    EraseKeeps(Exec(t, WithoutSweeps(ops)), q);
  }

  /** In particular the live parts: both deleted trees lie below /opt/pwx/oci, and
      neither is inside a live part nor the other way round. */
  lemma LivePartsSurviveCleanup(t: Node, ops: seq<Op>, p: Part)
    requires forall op :: op in ops ==> Legal(op)
    ensures At(Exec(t, ops), Live, p) == At(Exec(t, WithoutSweeps(ops)), Live, p)
  {
    LocApart(Live, p);
    CleanupNonInterference(t, ops, Loc(Live, p));
  }

  lemma {:induction false} ExecAppend(t: Node, ops: seq<Op>, more: seq<Op>)
    requires forall op :: op in ops + more ==> Legal(op)
    ensures forall op :: op in ops ==> Legal(op)
    ensures forall op :: op in more ==> Legal(op)
    ensures Exec(t, ops + more) == Exec(Exec(t, ops), more)
    decreases |ops|
  {
    assert forall op :: op in ops || op in more ==> op in ops + more;
    if ops == [] {
      assert ops + more == more;
    } else {
      assert (ops + more)[1..] == ops[1..] + more;
      ExecAppend(Apply(t, ops[0]), ops[1..], more);
    }
  }

  /** However the cleanup was scheduled, once it has deleted both roots there is only
      one possible result, and it does not depend on the schedule. */
  lemma CleanupConverges(t: Node, ops: seq<Op>)
    requires forall op :: op in ops ==> Legal(op)
    ensures var all := ops + [Sweep(STAGE), Sweep(SCRATCH)];
            && (forall op :: op in all ==> Legal(op))
            && Exec(t, all) == Erase(Exec(t, WithoutSweeps(ops)))
  {
    var more := [Sweep(STAGE), Sweep(SCRATCH)];
    assert forall op :: op in ops + more ==> op in ops || op in more;
    ExecAppend(t, ops, more);
    var u := Exec(t, ops);
    assert more[1..] == [Sweep(SCRATCH)] && more[1..][1..] == [];
    assert Exec(u, more) == Exec(Remove(u, STAGE), [Sweep(SCRATCH)]) == Erase(u);
    ExecErased(t, ops);
    ExecErased(t, WithoutSweeps(ops));
    WithoutSweepsTwice(ops);
  }
}
