/** The transactional swap of the installed Portworx OCI parts with the staged
    ones (`switchOciInstall`): forward moves through a scratch directory, and a
    rollback that decides what to undo only from what it finds in scratch.

    Everything outside the tree that can go wrong is in `Faults`; the theorems
    hold for every tree and every fault plan that meets their premises.
 */
module OciSwitch {
  import opened Common
  import opened HostTree

  datatype Part = Bin | Rootfs | Config

  const PARTS: seq<Part> := [Bin, Rootfs, Config]

  const LIVE: Path := ["opt", "pwx"]
  const STAGE: Path := ["opt", "pwx", "oci", "inst-k8s"]
  const SCRATCH: Path := ["opt", "pwx", "oci", "inst-scratchDir"]
  const SCRATCH_OCI: Path := ["opt", "pwx", "oci", "inst-scratchDir", "oci"]

  /** The cleanup of a switch deletes at or below its two directories. */
  predicate IsSweep(path: Path) {
    STAGE <= path || SCRATCH <= path
  }

  function Suffix(p: Part): Path {
    match p
    case Bin => ["bin"]
    case Rootfs => ["oci", "rootfs"]
    case Config => ["oci", "config.json"]
  }

  /** The position of a part in the order in which the swap visits them. */
  function Rank(p: Part): (i: nat)
    ensures i < |PARTS| && PARTS[i] == p
    ensures forall j: nat :: j < |PARTS| && PARTS[j] == p ==> j == i
  {
    match p
    case Bin => 0
    case Rootfs => 1
    case Config => 2
  }

  /** Where a copy of a part can be: its live path, its staged path, its scratch
      path, or inside a live directory of the same name, where `mv` puts it when
      that directory could not be removed first. */
  datatype Place = Live | Staged | Scratch | Nested

  function Loc(l: Place, p: Part): (path: Path)
    ensures path != []
  {
    match l
    case Live => LIVE + Suffix(p)
    case Staged => STAGE + Suffix(p)
    case Scratch => SCRATCH + Suffix(p)
    case Nested => LIVE + Suffix(p) + [Suffix(p)[|Suffix(p)| - 1]]
  }

  /** The paths, spelled out. */
  lemma PathsAre()
    ensures Loc(Live, Bin) == ["opt", "pwx", "bin"]
    ensures Loc(Live, Rootfs) == ["opt", "pwx", "oci", "rootfs"]
    ensures Loc(Live, Config) == ["opt", "pwx", "oci", "config.json"]
    ensures forall p :: Loc(Staged, p) == ["opt", "pwx", "oci", "inst-k8s"] + Loc(Live, p)[2..]
    ensures forall p :: Loc(Scratch, p) == ["opt", "pwx", "oci", "inst-scratchDir"] + Loc(Live, p)[2..]
    ensures forall p :: Loc(Nested, p) == Loc(Live, p) + [Loc(Live, p)[|Loc(Live, p)| - 1]]
  {
    forall p: Part
      ensures Loc(Live, p)[2..] == Suffix(p)
    {
    }
  }

  function At(t: Node, l: Place, p: Part): Option<Node> {
    Get(t, Loc(l, p))
  }

  /** The external steps that can fail. */
  datatype Action =
    | Purge | Mkdir | MoveOut(part: Part) | MoveIn(part: Part) | Reinstall
    | RollbackRemove(part: Part) | RollbackMove(part: Part)

  /** `fails`: which steps fail for reasons outside the tree; `residue`: what a
      failed deletion leaves; `rewrite`: what the final `px-runc install`
      stores in the live config.json, if it stores anything. */
  datatype Faults = Faults(fails: Action -> bool, residue: Action -> Option<Node>, rewrite: Option<Content>)

  /** The scratch skeleton is in place, and with it every directory the moves need. */
  predicate Ready(t: Node) {
    IsDir(t, SCRATCH_OCI)
  }

  predicate ScratchClean(t: Node) {
    forall p :: At(t, Scratch, p).None?
  }

  // ---------------------------------------------------------------- the procedure

  datatype Run = Run(tree: Node, ok: bool, placed: nat, trace: seq<Node>)

  /** The live part moves to scratch, when there is one. */
  function OutStep(t: Node, p: Part, w: Faults): Step {
    if At(t, Live, p).Some? then Mv(t, Loc(Live, p), Loc(Scratch, p), w.fails(MoveOut(p))) else Step(t, true)
  }

  /** The staged part moves to the live path. */
  function InStep(t: Node, p: Part, w: Faults): Step {
    Mv(t, Loc(Staged, p), Loc(Live, p), w.fails(MoveIn(p)))
  }

  /** The forward loop from part `i` on: old part to scratch, staged part to live. */
  function Forward(t: Node, i: nat, w: Faults): Run
    requires i <= |PARTS|
    decreases |PARTS| - i
  {
    if i == |PARTS| then Run(t, true, i, [])
    else
      var p := PARTS[i];
      var out := OutStep(t, p, w);
      if !out.ok then Run(out.tree, false, i, [])
      else
        var into := InStep(out.tree, p, w);
        if !into.ok then Run(into.tree, false, i, [out.tree])
        else
          var rest := Forward(into.tree, i + 1, w);
          Run(rest.tree, rest.ok, rest.placed, [out.tree, into.tree] + rest.trace)
  }

  function RollbackCut(t: Node, p: Part, w: Faults): Node {
    RemoveAll(t, Loc(Live, p), w.fails(RollbackRemove(p)), w.residue(RollbackRemove(p)))
  }

  function RollbackBack(cut: Node, p: Part, w: Faults): Step {
    Mv(cut, Loc(Scratch, p), Loc(Live, p), w.fails(RollbackMove(p)))
  }

  /** The rollback loop from part `i` on: whatever is in scratch goes back. */
  function Rollback(t: Node, i: nat, w: Faults): Run
    requires i <= |PARTS|
    decreases |PARTS| - i
  {
    if i == |PARTS| then Run(t, true, i, [])
    else
      var p := PARTS[i];
      if At(t, Scratch, p).None? then Rollback(t, i + 1, w)
      else
        var cut := RollbackCut(t, p, w);
        var back := RollbackBack(cut, p, w);
        var rest := Rollback(back.tree, i + 1, w);
        Run(rest.tree, rest.ok, rest.placed, [cut, back.tree] + rest.trace)
  }

  /** `px-runc install` without arguments: it may rewrite its own live spec, and nothing else. */
  function Rerun(t: Node, w: Faults): Node {
    if w.rewrite.Some? && CanPut(t, Loc(Live, Config)) && !IsDir(t, Loc(Live, Config))
    then Put(t, Loc(Live, Config), File(w.rewrite.value))
    else t
  }

  function Purged(t: Node, w: Faults): Node {
    if Get(t, SCRATCH).Some? then RemoveAll(t, SCRATCH, w.fails(Purge), w.residue(Purge)) else t
  }

  function Prepared(t: Node, w: Faults): Option<Node> {
    if w.fails(Mkdir) then None else MkdirAll(Purged(t, w), SCRATCH_OCI)
  }

  /** `entered`: the scratch directory was made, so rollback and cleanup are armed;
      `placed`: how many staged parts reached their live path; `forward` and
      `back`: every state passed through, from the made scratch directory to the
      start of the cleanup. */
  datatype SwitchRun =
    SwitchRun(tree: Node, ok: bool, entered: bool, placed: nat, forward: seq<Node>, back: seq<Node>)

  /** The forward half of a run. */
  function Fwd(t: Node, w: Faults): Run
    requires Prepared(t, w).Some?
  {
    Forward(Prepared(t, w).value, 0, w)
  }

  /** The tree when the forward half is over, reinstall included. */
  function Turn(t: Node, w: Faults): Node
    requires Prepared(t, w).Some?
  {
    if Fwd(t, w).ok then Rerun(Fwd(t, w).tree, w) else Fwd(t, w).tree
  }

  function Switch(t: Node, w: Faults): SwitchRun {
    if Prepared(t, w).None? then SwitchRun(Purged(t, w), false, false, 0, [], [])
    else
      var fwd, turn := Fwd(t, w), Turn(t, w);
      var trace := [Prepared(t, w).value] + fwd.trace + [turn];
      if fwd.ok && !w.fails(Reinstall) then SwitchRun(turn, true, true, fwd.placed, trace, [])
      else
        var back := Rollback(turn, 0, w);
        SwitchRun(back.tree, false, true, fwd.placed, trace, back.trace)
  }

  // ---------------------------------------------------------------- where the paths lie

  /** Two different places never overlap, except a live path and the one nested in it. */
  lemma LocDisjoint(l: Place, p: Part, m: Place, q: Part)
    requires p != q || (l != m && {l, m} != {Live, Nested})
    ensures Disjoint(Loc(l, p), Loc(m, q))
  {
    var a, b := Loc(l, p), Loc(m, q);
    if l in {Live, Nested} && m in {Live, Nested} {
      if p == Bin || q == Bin { DisjointWhere(a, b, 2); } else { DisjointWhere(a, b, 3); }
    } else if (l in {Live, Nested} && p == Bin) || (m in {Live, Nested} && q == Bin) {
      DisjointWhere(a, b, 2);
    } else if l != m {
      DisjointWhere(a, b, 3);
    } else if p == Bin || q == Bin {
      DisjointWhere(a, b, 4);
    } else {
      DisjointWhere(a, b, 5);
    }
  }

  lemma LocApart(l: Place, p: Part)
    ensures !(Loc(l, p) <= SCRATCH_OCI)
    ensures l != Scratch ==> Disjoint(Loc(l, p), SCRATCH)
    ensures l != Scratch ==> Disjoint(Loc(l, p), SCRATCH_OCI)
    ensures l != Staged ==> Disjoint(Loc(l, p), STAGE)
    ensures SCRATCH <= Loc(Scratch, p) && STAGE <= Loc(Staged, p)
  {
    if l in {Live, Nested} {
      if p == Bin {
        DisjointWhere(Loc(l, p), SCRATCH, 2);
        DisjointWhere(Loc(l, p), SCRATCH_OCI, 2);
        DisjointWhere(Loc(l, p), STAGE, 2);
      } else {
        DisjointWhere(Loc(l, p), SCRATCH, 3);
        DisjointWhere(Loc(l, p), SCRATCH_OCI, 3);
        DisjointWhere(Loc(l, p), STAGE, 3);
      }
    } else if l == Staged {
      DisjointWhere(Loc(l, p), SCRATCH, 3);
      DisjointWhere(Loc(l, p), SCRATCH_OCI, 3);
    } else {
      DisjointWhere(Loc(l, p), STAGE, 3);
      if p == Bin { DisjointWhere(Loc(l, p), SCRATCH_OCI, 4); } else { assert |Loc(l, p)| > |SCRATCH_OCI|; }
    }
  }

  lemma ReadyParents(t: Node, l: Place, p: Part)
    requires Ready(t) && l in {Live, Scratch}
    ensures CanPut(t, Loc(l, p))
  {
    var path := Loc(l, p);
    var parent := path[..|path| - 1];
    assert parent <= SCRATCH_OCI by {
      assert parent == SCRATCH_OCI[..|parent|];
    }
    IsDirAbove(t, SCRATCH_OCI, parent);
  }

  // ---------------------------------------------------------------- one step

  predicate AwayFrom(q: Path, from: Place, to: Place, p: Part) {
    Disjoint(q, Loc(from, p)) && Disjoint(q, Loc(to, p)) && (to == Live ==> Disjoint(q, Loc(Nested, p)))
  }

  /** A move for part `p`, done or failed, leaves alone every path clear of its two
      places and of the nested one. */
  lemma MvAway(t: Node, from: Place, to: Place, p: Part, fault: bool, q: Path)
    requires (from, to) in {(Live, Scratch), (Staged, Live), (Scratch, Live)}
    requires to == Scratch ==> At(t, Scratch, p).None?
    ensures var moved := Mv(t, Loc(from, p), Loc(to, p), fault).tree;
            && (Ready(t) ==> Ready(moved))
            && (AwayFrom(q, from, to, p) ==> Get(moved, q) == Get(t, q))
  {
    var src, dest := Loc(from, p), Loc(to, p);
    if !fault && MvAllowed(t, src, dest) {
      LocDisjoint(from, p, to, p);
      if to == Live { LocDisjoint(from, p, Nested, p); }
      LocApart(from, p);
      LocApart(to, p);
      LocApart(Nested, p);
      var target := MvTarget(t, src, dest);
      assert target == dest || (to == Live && target == Loc(Nested, p));
      MvMoves(t, src, dest, SCRATCH_OCI);
      MvMoves(t, src, dest, q);
    }
  }

  lemma MvElsewhere(t: Node, from: Place, to: Place, p: Part, fault: bool, l: Place, q: Part)
    requires (from, to) in {(Live, Scratch), (Staged, Live), (Scratch, Live)}
    requires to == Scratch ==> At(t, Scratch, p).None?
    requires q != p || l !in {from, to, Nested}
    ensures At(Mv(t, Loc(from, p), Loc(to, p), fault).tree, l, q) == At(t, l, q)
  {
    LocDisjoint(l, q, from, p);
    LocDisjoint(l, q, to, p);
    if to == Live { LocDisjoint(l, q, Nested, p); }
    MvAway(t, from, to, p, fault, Loc(l, q));
  }

  /** A move between two places changes the tree exactly as it changes the table of places. */
  lemma MoveBetween(t: Node, from: Place, to: Place, p: Part)
    requires Ready(t) && (from, to) in {(Live, Scratch), (Staged, Live), (Scratch, Live)}
    requires At(t, from, p).Some? && At(t, to, p).None?
    ensures var moved := Mv(t, Loc(from, p), Loc(to, p), false);
            && moved.ok && Ready(moved.tree)
            && At(moved.tree, from, p) == None && At(moved.tree, to, p) == At(t, from, p)
            && (forall l: Place :: l !in {from, to, Nested} ==> At(moved.tree, l, p) == At(t, l, p))
            && (forall l: Place, q: Part :: q != p ==> At(moved.tree, l, q) == At(t, l, q))
  {
    ReadyParents(t, to, p);
    LocDisjoint(from, p, to, p);
    MvMoves(t, Loc(from, p), Loc(to, p), Loc(to, p));
    MvAway(t, from, to, p, false, Loc(to, p));
    forall l: Place, q: Part | q != p || l !in {from, to, Nested} {
      MvElsewhere(t, from, to, p, false, l, q);
    }
  }

  // ---------------------------------------------------------------- the forward loop

  ghost predicate Untouched(t0: Node, t: Node, p: Part) {
    && At(t, Live, p) == At(t0, Live, p)
    && At(t, Staged, p) == At(t0, Staged, p)
    && At(t, Scratch, p) == None
  }

  ghost predicate MovedOut(t0: Node, t: Node, p: Part) {
    && At(t, Live, p) == None
    && At(t, Staged, p) == At(t0, Staged, p)
    && At(t, Scratch, p) == At(t0, Live, p)
  }

  ghost predicate Placed(t0: Node, t: Node, p: Part) {
    && At(t0, Staged, p).Some?
    && At(t, Live, p) == At(t0, Staged, p)
    && At(t, Staged, p) == None
    && At(t, Scratch, p) == At(t0, Live, p)
  }

  /** The state between two steps of the forward loop: `k` parts are done, the
      next one is either untouched or moved out, the others are untouched. */
  ghost predicate Midway(t0: Node, t: Node, k: nat) {
    && Ready(t)
    && k <= |PARTS|
    && forall p :: if Rank(p) < k then Placed(t0, t, p)
                   else if Rank(p) == k then Untouched(t0, t, p) || MovedOut(t0, t, p)
                   else Untouched(t0, t, p)
  }

  /** The state at the head of the loop. */
  ghost predicate Boundary(t0: Node, t: Node, k: nat) {
    && Ready(t)
    && k <= |PARTS|
    && forall p :: if Rank(p) < k then Placed(t0, t, p) else Untouched(t0, t, p)
  }

  lemma RankInjective(p: Part, q: Part)
    requires Rank(p) == Rank(q)
    ensures p == q
  {
    assert PARTS[Rank(q)] == q && PARTS[Rank(p)] == p;
  }

  lemma OutStepMidway(t0: Node, t: Node, p: Part, w: Faults)
    requires Boundary(t0, t, Rank(p))
    ensures var out := OutStep(t, p, w);
            Midway(t0, out.tree, Rank(p)) && (out.ok ==> MovedOut(t0, out.tree, p))
  {
    var out := OutStep(t, p, w);
    if out.ok && At(t, Live, p).Some? {
      MoveBetween(t, Live, Scratch, p);
    }
    forall q: Part | q != p
      ensures forall l: Place :: At(out.tree, l, q) == At(t, l, q)
      ensures Rank(q) != Rank(p)
    {
      if Rank(q) == Rank(p) { RankInjective(p, q); }
    }
  }

  lemma InStepMidway(t0: Node, t: Node, p: Part, w: Faults)
    requires Midway(t0, t, Rank(p)) && MovedOut(t0, t, p)
    ensures var into := InStep(t, p, w);
            if into.ok then Boundary(t0, into.tree, Rank(p) + 1) else Midway(t0, into.tree, Rank(p))
  {
    var into := InStep(t, p, w);
    if into.ok {
      MoveBetween(t, Staged, Live, p);
      assert Placed(t0, into.tree, p);
      forall q: Part | q != p
        ensures forall l: Place :: At(into.tree, l, q) == At(t, l, q)
        ensures Rank(q) != Rank(p)
      {
        if Rank(q) == Rank(p) { RankInjective(p, q); }
      }
    }
  }

  ghost predicate SomewhereMidway(t0: Node, t: Node) {
    exists k :: Midway(t0, t, k)
  }

  /** The loop invariant over parts, at its head, at its end and in every state between. */
  lemma {:induction false} ForwardInvariant(t0: Node, t: Node, i: nat, w: Faults)
    requires Boundary(t0, t, i)
    ensures var r := Forward(t, i, w);
            && Midway(t0, r.tree, r.placed)
            && (r.ok <==> r.placed == |PARTS|)
            && forall s :: s in r.trace ==> SomewhereMidway(t0, s)
    decreases |PARTS| - i
  {
    if i < |PARTS| {
      var p := PARTS[i];
      OutStepMidway(t0, t, p, w);
      var out := OutStep(t, p, w);
      if out.ok {
        assert SomewhereMidway(t0, out.tree);
        InStepMidway(t0, out.tree, p, w);
        var into := InStep(out.tree, p, w);
        if into.ok {
          assert Midway(t0, into.tree, i + 1);
          assert SomewhereMidway(t0, into.tree);
          ForwardInvariant(t0, into.tree, i + 1, w);
        }
      }
    }
  }

  // ---------------------------------------------------------------- the rollback loop

  /** `n` is held for part `p`: in scratch, or else at the live path, or else
      (only where `nested` allows it) inside a live directory that could not be removed. */
  ghost predicate Held(t: Node, p: Part, n: Node, nested: bool) {
    if At(t, Scratch, p).Some? then At(t, Scratch, p) == Some(n)
    else At(t, Live, p) == Some(n) || (nested && At(t, Nested, p) == Some(n))
  }

  lemma RollbackCutStep(t: Node, p: Part, w: Faults)
    requires Ready(t)
    ensures var cut := RollbackCut(t, p, w);
            && Ready(cut)
            && At(cut, Scratch, p) == At(t, Scratch, p)
            && At(cut, Staged, p) == At(t, Staged, p)
            && (!w.fails(RollbackRemove(p)) ==> At(cut, Live, p) == None)
            && forall l: Place, q: Part :: q != p ==> At(cut, l, q) == At(t, l, q)
  {
    var cut, path := RollbackCut(t, p, w), Loc(Live, p);
    LocApart(Live, p);
    ReadyParents(t, Live, p);
    IsDirRemove(t, path, SCRATCH_OCI);
    GetRemove(t, path);
    var residue := w.residue(RollbackRemove(p));
    if residue.Some? {
      IsDirPut(t, path, residue.value, SCRATCH_OCI);
    }
    forall l: Place, q: Part | q != p || l in {Scratch, Staged}
      ensures At(cut, l, q) == At(t, l, q)
    {
      LocDisjoint(Live, p, l, q);
      GetRemoveElsewhere(t, path, Loc(l, q));
      if residue.Some? {
        GetPutElsewhere(t, path, residue.value, Loc(l, q));
      }
    }
  }

  lemma RollbackBackSelf(t: Node, p: Part, w: Faults)
    requires Ready(t) && At(t, Scratch, p).Some?
    ensures var back := RollbackBack(t, p, w);
            && (!back.ok ==> back.tree == t)
            && (At(t, Live, p).None? ==> back.ok == !w.fails(RollbackMove(p)))
            && (back.ok ==> At(back.tree, Scratch, p) == None)
            && (back.ok && At(t, Live, p).None? ==> At(back.tree, Live, p) == At(t, Scratch, p))
            && (back.ok && At(t, Live, p).Some? ==>
                  At(t, Scratch, p) in {At(back.tree, Live, p), At(back.tree, Nested, p)})
  {
    var back, src, dest := RollbackBack(t, p, w), Loc(Scratch, p), Loc(Live, p);
    LocDisjoint(Scratch, p, Live, p);
    LocDisjoint(Scratch, p, Nested, p);
    ReadyParents(t, Live, p);
    var target := MvTarget(t, src, dest);
    assert target == Loc(Live, p) || target == Loc(Nested, p);
    if back.ok {
      MvMoves(t, src, dest, SCRATCH_OCI);
    }
  }

  lemma RollbackBackElsewhere(t: Node, p: Part, w: Faults)
    requires Ready(t)
    ensures var back := RollbackBack(t, p, w).tree;
            && Ready(back)
            && At(back, Staged, p) == At(t, Staged, p)
            && forall l: Place, q: Part :: q != p ==> At(back, l, q) == At(t, l, q)
  {
    MvAway(t, Scratch, Live, p, w.fails(RollbackMove(p)), []);
    forall l: Place, q: Part | q != p || l == Staged {
      MvElsewhere(t, Scratch, Live, p, w.fails(RollbackMove(p)), l, q);
    }
  }

  ghost predicate SamePart(t: Node, s: Node, p: Part) {
    forall l: Place :: At(s, l, p) == At(t, l, p)
  }

  /** One turn of the rollback loop, as seen by another part. */
  lemma RollbackStepElsewhere(t: Node, q: Part, w: Faults, p: Part)
    requires Ready(t) && At(t, Scratch, q).Some? && p != q
    ensures var cut := RollbackCut(t, q, w);
            var back := RollbackBack(cut, q, w).tree;
            Ready(back) && SamePart(t, cut, p) && SamePart(t, back, p)
  {
    RollbackCutStep(t, q, w);
    RollbackBackElsewhere(RollbackCut(t, q, w), q, w);
  }

  /** `s` is the final state of the rollback from `i` on, or one it passes through. */
  ghost predicate InRollback(t: Node, i: nat, w: Faults, s: Node)
    requires i <= |PARTS|
  {
    s == Rollback(t, i, w).tree || s in Rollback(t, i, w).trace
  }

  lemma RollbackTurns(t: Node, i: nat, w: Faults, s: Node)
    requires i < |PARTS| && InRollback(t, i, w, s)
    ensures var p := PARTS[i];
            if At(t, Scratch, p).None? then InRollback(t, i + 1, w, s)
            else
              var cut := RollbackCut(t, p, w);
              var back := RollbackBack(cut, p, w).tree;
              s == cut || s == back || InRollback(back, i + 1, w, s)
  {
  }

  /** A part without a scratch copy is left alone, in the end and in every state between. */
  lemma {:induction false} RollbackLeaves(t: Node, i: nat, w: Faults, p: Part, s: Node)
    requires Ready(t) && i <= |PARTS| && InRollback(t, i, w, s)
    requires Rank(p) < i || At(t, Scratch, p).None?
    ensures SamePart(t, s, p)
    decreases |PARTS| - i
  {
    if i < |PARTS| {
      var q := PARTS[i];
      assert Rank(q) == i;
      RollbackTurns(t, i, w, s);
      if At(t, Scratch, q).None? {
        RollbackLeaves(t, i + 1, w, p, s);
      } else {
        RollbackStepElsewhere(t, q, w, p);
        var cut := RollbackCut(t, q, w);
        var back := RollbackBack(cut, q, w).tree;
        if s != cut && s != back { RollbackLeaves(back, i + 1, w, p, s); }
      }
    }
  }

  /** A part with a scratch copy never loses it, and is back at its live path when
      its own two rollback steps succeed. */
  ghost predicate Recovered(t: Node, p: Part, n: Node, w: Faults) {
    && Held(t, p, n, w.fails(RollbackRemove(p)))
    && (!w.fails(RollbackRemove(p)) && !w.fails(RollbackMove(p)) ==>
          At(t, Live, p) == Some(n) && At(t, Scratch, p) == None)
  }

  lemma RollbackOwnTurn(t: Node, p: Part, w: Faults)
    requires Ready(t) && At(t, Scratch, p).Some?
    ensures var n, cut := At(t, Scratch, p).value, RollbackCut(t, p, w);
            var back := RollbackBack(cut, p, w).tree;
            && Held(cut, p, n, w.fails(RollbackRemove(p)))
            && Recovered(back, p, n, w)
            && Ready(back) && At(back, Staged, p) == At(t, Staged, p)
  {
    RollbackCutStep(t, p, w);
    RollbackBackSelf(RollbackCut(t, p, w), p, w);
    RollbackBackElsewhere(RollbackCut(t, p, w), p, w);
  }

  lemma RecoveredOnOwnTurn(t: Node, i: nat, w: Faults, p: Part, s: Node)
    requires Ready(t) && i == Rank(p) && InRollback(t, i, w, s) && At(t, Scratch, p).Some?
    ensures var n := At(t, Scratch, p).value;
            && Held(s, p, n, w.fails(RollbackRemove(p)))
            && (s == Rollback(t, i, w).tree ==> Recovered(s, p, n, w))
            && (s == Rollback(t, i, w).tree ==> At(s, Staged, p) == At(t, Staged, p))
  {
    var back := RollbackBack(RollbackCut(t, p, w), p, w).tree;
    RollbackTurns(t, i, w, s);
    RollbackOwnTurn(t, p, w);
    if InRollback(back, i + 1, w, s) { RollbackLeaves(back, i + 1, w, p, s); }
  }

  lemma {:induction false} RollbackRecovers(t: Node, i: nat, w: Faults, p: Part, s: Node)
    requires Ready(t) && i <= |PARTS| && InRollback(t, i, w, s)
    requires Rank(p) >= i && At(t, Scratch, p).Some?
    ensures var n := At(t, Scratch, p).value;
            && Held(s, p, n, w.fails(RollbackRemove(p)))
            && (s == Rollback(t, i, w).tree ==> Recovered(s, p, n, w))
            && (s == Rollback(t, i, w).tree ==> At(s, Staged, p) == At(t, Staged, p))
    decreases |PARTS| - i
  {
    if i < |PARTS| {
      var q := PARTS[i];
      assert Rank(q) == i;
      RollbackTurns(t, i, w, s);
      if p != q && Rank(p) == i { RankInjective(p, q); }
      if At(t, Scratch, q).None? {
        RollbackRecovers(t, i + 1, w, p, s);
      } else {
        var cut := RollbackCut(t, q, w);
        var back := RollbackBack(cut, q, w).tree;
        if p == q {
          RecoveredOnOwnTurn(t, i, w, p, s);
        } else {
          RollbackStepElsewhere(t, q, w, p);
          if InRollback(back, i + 1, w, s) { RollbackRecovers(back, i + 1, w, p, s); }
        }
      }
    }
  }
}
