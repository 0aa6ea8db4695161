/** What the swap of the OCI install promises: what a success installs, what a
    rollback restores, and what holds at every point where the process could die. */
module SwitchTheorems {
  import opened Common
  import opened HostTree
  import opened OciSwitch

  // ---------------------------------------------------------------- entry

  /** A purge that is not cut short leaves no part in scratch. */
  lemma PurgeCleans(t: Node, w: Faults)
    requires !w.fails(Purge)
    ensures ScratchClean(Purged(t, w))
  {
    GetRemove(t, SCRATCH);
    forall p: Part
      ensures At(Purged(t, w), Scratch, p).None?
    {
      GetThenGet(Purged(t, w), SCRATCH, Suffix(p));
    }
  }

  /** Neither the purge nor the mkdir touches a live or staged part, whatever fails. */
  lemma PurgeKeeps(t: Node, w: Faults, l: Place, p: Part)
    requires l != Scratch
    ensures At(Purged(t, w), l, p) == At(t, l, p)
    ensures Prepared(t, w).Some? ==> At(Prepared(t, w).value, l, p) == At(t, l, p)
  {
    LocApart(l, p);
    GetRemoveElsewhere(t, SCRATCH, Loc(l, p));
    if w.residue(Purge).Some? {
      GetPutElsewhere(t, SCRATCH, w.residue(Purge).value, Loc(l, p));
    }
    if Prepared(t, w).Some? {
      MkdirAllElsewhere(Purged(t, w), SCRATCH_OCI, Loc(l, p));
    }
  }

  lemma MkdirKeepsScratch(t: Node, w: Faults, p: Part)
    requires Prepared(t, w).Some?
    ensures At(Prepared(t, w).value, Scratch, p) == At(Purged(t, w), Scratch, p)
  {
    LocApart(Scratch, p);
    if p == Bin {
      DisjointWhere(SCRATCH_OCI, Loc(Scratch, p), 4);
      MkdirAllElsewhere(Purged(t, w), SCRATCH_OCI, Loc(Scratch, p));
    } else {
      MkdirAllBelow(Purged(t, w), SCRATCH_OCI, Loc(Scratch, p));
    }
  }

  /** The switch is under way, with rollback and cleanup armed, exactly if making the scratch
      directory does not fail and nothing that is left after the purge stands in its way. */
  lemma EnteredWhen(t: Node, w: Faults)
    ensures Switch(t, w).entered <==>
              && !w.fails(Mkdir)
              && forall k :: 0 <= k <= |SCRATCH_OCI| ==>
                   Get(Purged(t, w), SCRATCH_OCI[..k]).None? || IsDir(Purged(t, w), SCRATCH_OCI[..k])
  {
    MkdirAllWhen(Purged(t, w), SCRATCH_OCI);
  }

  lemma PreparedBoundary(t: Node, w: Faults)
    requires Prepared(t, w).Some? && ScratchClean(Purged(t, w))
    ensures Boundary(t, Prepared(t, w).value, 0)
  {
    MkdirAllMakes(Purged(t, w), SCRATCH_OCI);
    forall p: Part
      ensures Untouched(t, Prepared(t, w).value, p)
    {
      PurgeKeeps(t, w, Live, p);
      PurgeKeeps(t, w, Staged, p);
      MkdirKeepsScratch(t, w, p);
    }
  }

  /** The live config.json after the final `px-runc install`. */
  function Respec(config: Option<Node>, w: Faults): Option<Node> {
    if w.rewrite.Some? && !(config.Some? && config.value.Dir?) then Some(File(w.rewrite.value)) else config
  }

  lemma RerunRespecs(t: Node, w: Faults, l: Place, p: Part)
    requires Ready(t) && (l, p) != (Nested, Config)
    ensures At(Rerun(t, w), l, p) == if (l, p) == (Live, Config) then Respec(At(t, l, p), w) else At(t, l, p)
    ensures Ready(Rerun(t, w))
  {
    ReadyParents(t, Live, Config);
    if w.rewrite.Some? {
      var f := File(w.rewrite.value);
      GetPut(t, Loc(Live, Config), f);
      LocApart(Live, Config);
      IsDirPut(t, Loc(Live, Config), f, SCRATCH_OCI);
      if (l, p) != (Live, Config) {
        LocDisjoint(Live, Config, l, p);
        GetPutElsewhere(t, Loc(Live, Config), f, Loc(l, p));
      }
    }
  }

  lemma MidwayPart(t0: Node, s: Node, k: nat, p: Part)
    requires Midway(t0, s, k)
    ensures if Rank(p) < k then Placed(t0, s, p) else Untouched(t0, s, p) || MovedOut(t0, s, p)
  {
  }

  /** The forward half of a run, put together. */
  lemma ForwardHalf(t: Node, w: Faults)
    requires Prepared(t, w).Some? && ScratchClean(Purged(t, w))
    ensures var fwd := Fwd(t, w);
            && Midway(t, fwd.tree, fwd.placed)
            && (fwd.ok <==> fwd.placed == |PARTS|)
            && forall s :: s in fwd.trace ==> SomewhereMidway(t, s)
  {
    PreparedBoundary(t, w);
    ForwardInvariant(t, Prepared(t, w).value, 0, w);
  }

  /** One part, when the forward half is over with `placed` parts done. */
  ghost predicate AfterForward(t0: Node, t: Node, placed: nat, p: Part, w: Faults) {
    if Rank(p) < placed then
      && At(t, Scratch, p) == At(t0, Live, p)
      && At(t0, Staged, p).Some?
      && At(t, Live, p) == (if p == Config then Respec(At(t0, Staged, p), w) else At(t0, Staged, p))
      && At(t, Live, p).Some?
    else
      Untouched(t0, t, p) || MovedOut(t0, t, p)
  }

  lemma TurnPart(t: Node, w: Faults, p: Part)
    requires Prepared(t, w).Some? && ScratchClean(Purged(t, w))
    ensures var turn, placed := Turn(t, w), Fwd(t, w).placed;
            && Ready(turn) && placed <= |PARTS| && (Fwd(t, w).ok <==> placed == |PARTS|)
            && AfterForward(t, turn, placed, p, w)
  {
    ForwardHalf(t, w);
    var fwd := Fwd(t, w);
    MidwayPart(t, fwd.tree, fwd.placed, p);
    RerunRespecs(fwd.tree, w, Scratch, p);
    RerunRespecs(fwd.tree, w, Live, p);
  }

  // ---------------------------------------------------------------- success

  /** Part `p` is installed: its staged version is live, and its former version in scratch. */
  ghost predicate PartInstalled(t0: Node, t: Node, p: Part, w: Faults) {
    && At(t0, Staged, p).Some?
    && At(t, Live, p) == (if p == Config then Respec(At(t0, Staged, p), w) else At(t0, Staged, p))
    && At(t, Scratch, p) == At(t0, Live, p)
  }

  lemma AfterForwardInstalled(t0: Node, t: Node, p: Part, w: Faults)
    requires AfterForward(t0, t, |PARTS|, p, w)
    ensures PartInstalled(t0, t, p, w)
  {
    assert Rank(p) < |PARTS|;
  }

  /** A successful switch installs every part. */
  lemma SwitchInstalls(t: Node, w: Faults)
    requires ScratchClean(Purged(t, w)) && Switch(t, w).ok
    ensures forall p :: PartInstalled(t, Switch(t, w).tree, p, w)
  {
    forall p: Part
      ensures PartInstalled(t, Switch(t, w).tree, p, w)
    {
      TurnPart(t, w, p);
      AfterForwardInstalled(t, Turn(t, w), p, w);
    }
  }

  /** Nothing stands in the way of part `p`. */
  predicate Movable(t: Node, p: Part, w: Faults) {
    && At(t, Staged, p).Some? && !w.fails(MoveIn(p))
    && (At(t, Live, p).Some? ==> !w.fails(MoveOut(p)))
  }

  /** One turn of the forward loop goes through exactly when nothing stands in the way of its part. */
  lemma TurnSucceedsWhen(t0: Node, t: Node, p: Part, w: Faults)
    requires Boundary(t0, t, Rank(p))
    ensures var out := OutStep(t, p, w);
            if Movable(t0, p, w) then
              out.ok && InStep(out.tree, p, w).ok && Boundary(t0, InStep(out.tree, p, w).tree, Rank(p) + 1)
            else
              !out.ok || !InStep(out.tree, p, w).ok
  {
    assert Untouched(t0, t, p);
    if At(t, Live, p).Some? { MoveBetween(t, Live, Scratch, p); }
    var out := OutStep(t, p, w);
    OutStepMidway(t0, t, p, w);
    if out.ok {
      InStepMidway(t0, out.tree, p, w);
      if At(out.tree, Staged, p).Some? { MoveBetween(out.tree, Staged, Live, p); }
    }
  }

  lemma {:induction false} ForwardSucceedsWhen(t0: Node, t: Node, i: nat, w: Faults)
    requires Boundary(t0, t, i)
    ensures Forward(t, i, w).ok <==> forall p :: Rank(p) >= i ==> Movable(t0, p, w)
    decreases |PARTS| - i
  {
    if i < |PARTS| {
      var p := PARTS[i];
      assert Rank(p) == i;
      TurnSucceedsWhen(t0, t, p, w);
      if Movable(t0, p, w) {
        ForwardSucceedsWhen(t0, InStep(OutStep(t, p, w).tree, p, w).tree, i + 1, w);
        forall q: Part | Rank(q) == i
          ensures q == p
        {
          RankInjective(q, p);
        }
      }
    }
  }

  /** Once the scratch directory is made, the switch succeeds exactly when every part
      is staged, no needed move fails, and the reinstall does not fail. */
  lemma SwitchSucceedsWhen(t: Node, w: Faults)
    requires Prepared(t, w).Some? && ScratchClean(Purged(t, w))
    ensures Switch(t, w).ok <==> !w.fails(Reinstall) && forall p :: Movable(t, p, w)
  {
    PreparedBoundary(t, w);
    ForwardSucceedsWhen(t, Prepared(t, w).value, 0, w);
  }

  /** Nothing stands in the way of part `p`, nor of those before it. */
  predicate MovedIn(t: Node, p: Part, w: Faults) {
    forall q :: Rank(q) <= Rank(p) ==> Movable(t, q, w)
  }

  /** How far the forward loop gets can be told beforehand. */
  lemma {:induction false} PlacedFrom(t0: Node, t: Node, i: nat, w: Faults, p: Part)
    requires Boundary(t0, t, i)
    ensures Forward(t, i, w).placed >= i
    ensures Rank(p) < Forward(t, i, w).placed <==>
              Rank(p) < i || forall q :: i <= Rank(q) <= Rank(p) ==> Movable(t0, q, w)
    decreases |PARTS| - i
  {
    if i < |PARTS| {
      var r := PARTS[i];
      assert Rank(r) == i;
      TurnSucceedsWhen(t0, t, r, w);
      if Movable(t0, r, w) {
        PlacedFrom(t0, InStep(OutStep(t, r, w).tree, r, w).tree, i + 1, w, p);
        forall q: Part | Rank(q) == i
          ensures q == r
        {
          RankInjective(q, r);
        }
      }
    }
  }

  lemma PlacedWhen(t: Node, w: Faults, p: Part)
    requires Prepared(t, w).Some? && ScratchClean(Purged(t, w))
    ensures Rank(p) < Fwd(t, w).placed <==> MovedIn(t, p, w)
  {
    PreparedBoundary(t, w);
    PlacedFrom(t, Prepared(t, w).value, 0, w, p);
  }

  // ---------------------------------------------------------------- rollback

  /** The rollback's own two steps for part `p` do not fail. */
  predicate RollsBack(w: Faults, p: Part) {
    !w.fails(RollbackRemove(p)) && !w.fails(RollbackMove(p))
  }

  predicate RollbackWorks(w: Faults) {
    forall p :: RollsBack(w, p)
  }

  /** In a rollback that works, a live part is what it was before, or gone, or what was in scratch. */
  lemma {:induction false} RollbackLive(t: Node, i: nat, w: Faults, p: Part, s: Node)
    requires Ready(t) && i <= |PARTS| && InRollback(t, i, w, s) && RollbackWorks(w)
    ensures At(s, Live, p) in {At(t, Live, p), None, At(t, Scratch, p)}
    decreases |PARTS| - i
  {
    if i < |PARTS| {
      var q := PARTS[i];
      assert Rank(q) == i;
      RollbackTurns(t, i, w, s);
      if At(t, Scratch, q).None? {
        RollbackLive(t, i + 1, w, p, s);
      } else {
        var cut := RollbackCut(t, q, w);
        var back := RollbackBack(cut, q, w).tree;
        assert RollsBack(w, q);
        RollbackCutStep(t, q, w);
        RollbackOwnTurn(t, q, w);
        if p != q { RollbackStepElsewhere(t, q, w, p); }
        if InRollback(back, i + 1, w, s) { RollbackLive(back, i + 1, w, p, s); }
      }
    }
  }

  /** One part in a state of the rollback of a failed run: `s` is one it passes through, or its last. */
  lemma FailedRunPart(t: Node, w: Faults, p: Part, s: Node)
    requires ScratchClean(Purged(t, w)) && Switch(t, w).entered && !Switch(t, w).ok
    requires s == Switch(t, w).tree || s in Switch(t, w).back
    ensures var r := Switch(t, w);
            && (At(t, Live, p).Some? ==>
                  && Held(s, p, At(t, Live, p).value, w.fails(RollbackRemove(p)))
                  && (s == r.tree && RollsBack(w, p) ==>
                        At(s, Live, p) == At(t, Live, p) && At(s, Scratch, p) == None))
            && (At(t, Live, p).None? ==>
                  && At(s, Scratch, p).None? && (At(s, Live, p).None? <==> Rank(p) >= r.placed)
                  && At(s, Live, p) == At(Turn(t, w), Live, p))
  {
    TurnPart(t, w, p);
    var turn := Turn(t, w);
    assert InRollback(turn, 0, w, s);
    if At(turn, Scratch, p).Some? {
      RollbackRecovers(turn, 0, w, p, s);
    } else {
      RollbackLeaves(turn, 0, w, p, s);
    }
  }

  /** What a failed switch leaves live, part by part: every part that existed at entry, with
      its original content; and of the others those that had been moved in, since the
      rollback undoes nothing for a part that left no copy in scratch. */
  function LeftBehind(t: Node, p: Part, w: Faults): Option<Node> {
    if At(t, Live, p).Some? || !MovedIn(t, p, w) then At(t, Live, p)
    else if p == Config then Respec(At(t, Staged, p), w)
    else At(t, Staged, p)
  }

  /** Rollback restores, after any failure past the creation of the scratch directory: each
      part whose own two rollback steps do not fail, and each that did not exist. */
  lemma RollbackRestores(t: Node, w: Faults)
    requires ScratchClean(Purged(t, w)) && Switch(t, w).entered && !Switch(t, w).ok
    ensures forall p :: At(t, Live, p).None? || RollsBack(w, p) ==>
              At(Switch(t, w).tree, Live, p) == LeftBehind(t, p, w)
  {
    forall p: Part | At(t, Live, p).None? || RollsBack(w, p)
      ensures At(Switch(t, w).tree, Live, p) == LeftBehind(t, p, w)
    {
      FailedRunPart(t, w, p, Switch(t, w).tree);
      TurnPart(t, w, p);
      PlacedWhen(t, w, p);
    }
  }

  /** On a first install (no live parts) whose second move fails, the first new part stays behind. */
  lemma FirstInstallLeavesPartBehind(t: Node, w: Faults)
    requires Prepared(t, w).Some? && ScratchClean(Purged(t, w))
    requires forall p :: At(t, Live, p).None? && At(t, Staged, p).Some?
    requires forall a :: w.fails(a) <==> a == MoveIn(Rootfs)
    ensures !Switch(t, w).ok && At(Switch(t, w).tree, Live, Bin) == At(t, Staged, Bin) != None
  {
    SwitchSucceedsWhen(t, w);
    assert !Movable(t, Rootfs, w);
    RollbackRestores(t, w);
    forall q: Part | Rank(q) <= Rank(Bin)
      ensures Movable(t, q, w)
    {
      RankInjective(q, Bin);
    }
  }

  // ---------------------------------------------------------------- crash points

  /** The table of places at a point where the process may die: the original of each
      part is in scratch if scratch has the part, and live otherwise; a part that did
      not exist has no scratch copy. `nested` is the one further possibility, for a
      part whose live replacement the rollback failed to delete. */
  ghost predicate Conserved(t0: Node, s: Node, w: Faults) {
    forall p :: ConservedPart(t0, s, w, p)
  }

  ghost predicate ConservedPart(t0: Node, s: Node, w: Faults, p: Part) {
    if At(t0, Live, p).Some? then Held(s, p, At(t0, Live, p).value, w.fails(RollbackRemove(p)))
    else At(s, Scratch, p).None?
  }

  lemma MidwayConserves(t0: Node, s: Node, w: Faults)
    requires SomewhereMidway(t0, s)
    ensures Conserved(t0, s, w)
  {
    var k :| Midway(t0, s, k);
    forall p: Part
      ensures ConservedPart(t0, s, w, p)
    {
      MidwayPart(t0, s, k, p);
    }
  }

  lemma ForwardMidway(t: Node, w: Faults, s: Node)
    requires ScratchClean(Purged(t, w)) && Switch(t, w).entered
    requires s in Switch(t, w).forward
    ensures SomewhereMidway(t, s) || s == Turn(t, w)
  {
    if s == Prepared(t, w).value {
      PreparedBoundary(t, w);
      assert Midway(t, s, 0);
    } else {
      ForwardHalf(t, w);
    }
  }

  lemma AfterForwardConserves(t0: Node, s: Node, placed: nat, w: Faults, p: Part)
    requires AfterForward(t0, s, placed, p, w)
    ensures ConservedPart(t0, s, w, p)
  {
  }

  lemma TurnConserves(t: Node, w: Faults)
    requires Prepared(t, w).Some? && ScratchClean(Purged(t, w))
    ensures Conserved(t, Turn(t, w), w)
  {
    forall p: Part
      ensures ConservedPart(t, Turn(t, w), w, p)
    {
      TurnPart(t, w, p);
      AfterForwardConserves(t, Turn(t, w), Fwd(t, w).placed, w, p);
    }
  }

  /** Crash-point conservation: in every state of every run, from the made scratch
      directory to the start of the cleanup, through forward moves, rollback removals
      and rollback moves, succeeding or failing, no original is lost. */
  lemma CrashPointConservation(t: Node, w: Faults)
    requires ScratchClean(Purged(t, w)) && Switch(t, w).entered
    ensures var r := Switch(t, w);
            forall s :: s in r.forward + r.back + [r.tree] ==> Conserved(t, s, w)
  {
    var r := Switch(t, w);
    forall s | s in r.forward + r.back + [r.tree]
      ensures Conserved(t, s, w)
    {
      if s in r.forward {
        ForwardMidway(t, w, s);
        TurnConserves(t, w);
        if s != Turn(t, w) { MidwayConserves(t, s, w); }
      } else if !r.ok {
        forall p: Part { FailedRunPart(t, w, p, s); }
      }
    }
  }

  /** Before the scratch directory is made, nothing live has moved. */
  lemma NothingMovedBeforeMkdir(t: Node, w: Faults, p: Part)
    requires !Switch(t, w).entered
    ensures At(Switch(t, w).tree, Live, p) == At(t, Live, p) && At(Switch(t, w).tree, Staged, p) == At(t, Staged, p)
  {
    PurgeKeeps(t, w, Live, p);
    PurgeKeeps(t, w, Staged, p);
  }

  // ---------------------------------------------------------------- frame

  /** `q` has nothing to do with any part or with the scratch directory. */
  ghost predicate Foreign(q: Path) {
    Disjoint(SCRATCH, q) && Disjoint(SCRATCH_OCI, q) && forall l: Place, p: Part :: Disjoint(q, Loc(l, p))
  }

  lemma {:induction false} ForwardForeign(t: Node, i: nat, w: Faults, q: Path)
    requires i <= |PARTS| && Foreign(q)
    ensures Get(Forward(t, i, w).tree, q) == Get(t, q)
    decreases |PARTS| - i
  {
    if i < |PARTS| {
      var p := PARTS[i];
      MvClear(t, Loc(Live, p), Loc(Scratch, p), w.fails(MoveOut(p)), q);
      var out := OutStep(t, p, w);
      if out.ok {
        MvClear(out.tree, Loc(Staged, p), Loc(Live, p), w.fails(MoveIn(p)), q);
        ForwardForeign(InStep(out.tree, p, w).tree, i + 1, w, q);
      }
    }
  }

  lemma {:induction false} RollbackForeign(t: Node, i: nat, w: Faults, q: Path)
    requires i <= |PARTS| && Foreign(q)
    ensures Get(Rollback(t, i, w).tree, q) == Get(t, q)
    decreases |PARTS| - i
  {
    if i < |PARTS| {
      var p := PARTS[i];
      if At(t, Scratch, p).None? {
        RollbackForeign(t, i + 1, w, q);
      } else {
        var cut := RollbackCut(t, p, w);
        GetRemoveElsewhere(t, Loc(Live, p), q);
        var residue := w.residue(RollbackRemove(p));
        if residue.Some? { GetPutElsewhere(t, Loc(Live, p), residue.value, q); }
        MvClear(cut, Loc(Scratch, p), Loc(Live, p), w.fails(RollbackMove(p)), q);
        RollbackForeign(RollbackBack(cut, p, w).tree, i + 1, w, q);
      }
    }
  }

  lemma PreparedForeign(t: Node, w: Faults, q: Path)
    requires Foreign(q)
    ensures Get(Purged(t, w), q) == Get(t, q)
    ensures Prepared(t, w).Some? ==> Get(Prepared(t, w).value, q) == Get(t, q)
  {
    GetRemoveElsewhere(t, SCRATCH, q);
    if w.residue(Purge).Some? { GetPutElsewhere(t, SCRATCH, w.residue(Purge).value, q); }
    if Prepared(t, w).Some? { MkdirAllElsewhere(Purged(t, w), SCRATCH_OCI, q); }
  }

  lemma RerunForeign(t: Node, w: Faults, q: Path)
    requires Foreign(q)
    ensures Get(Rerun(t, w), q) == Get(t, q)
  {
    if w.rewrite.Some? { GetPutElsewhere(t, Loc(Live, Config), File(w.rewrite.value), q); }
  }

  /** The switch, successful or rolled back, changes nothing outside the parts and the scratch
      directory, whatever that held before. */
  lemma SwitchForeign(t: Node, w: Faults, q: Path)
    requires Foreign(q)
    ensures Get(Switch(t, w).tree, q) == Get(t, q)
  {
    PreparedForeign(t, w, q);
    if Prepared(t, w).Some? {
      ForwardForeign(Prepared(t, w).value, 0, w, q);
      RerunForeign(Fwd(t, w).tree, w, q);
      RollbackForeign(Turn(t, w), 0, w, q);
    }
  }

  /** No directory above the parts goes away, whatever fails. */
  lemma {:induction false} ForwardKeepsDir(t: Node, i: nat, w: Faults, d: Path)
    requires i <= |PARTS| && IsDir(t, d) && d <= SCRATCH_OCI
    ensures IsDir(Forward(t, i, w).tree, d)
    decreases |PARTS| - i
  {
    if i < |PARTS| {
      var p := PARTS[i];
      ApartFrom(d, p);
      MvKeepsDir(t, Loc(Live, p), Loc(Scratch, p), w.fails(MoveOut(p)), d);
      var out := OutStep(t, p, w);
      if out.ok {
        MvKeepsDir(out.tree, Loc(Staged, p), Loc(Live, p), w.fails(MoveIn(p)), d);
        ForwardKeepsDir(InStep(out.tree, p, w).tree, i + 1, w, d);
      }
    }
  }

  lemma {:induction false} RollbackKeepsDir(t: Node, i: nat, w: Faults, d: Path)
    requires i <= |PARTS| && IsDir(t, d) && d <= SCRATCH_OCI
    ensures IsDir(Rollback(t, i, w).tree, d)
    decreases |PARTS| - i
  {
    if i < |PARTS| {
      var p := PARTS[i];
      ApartFrom(d, p);
      if At(t, Scratch, p).None? {
        RollbackKeepsDir(t, i + 1, w, d);
      } else {
        var cut, residue := RollbackCut(t, p, w), w.residue(RollbackRemove(p));
        IsDirRemove(t, Loc(Live, p), d);
        if residue.Some? { IsDirPut(t, Loc(Live, p), residue.value, d); }
        MvKeepsDir(cut, Loc(Scratch, p), Loc(Live, p), w.fails(RollbackMove(p)), d);
        RollbackKeepsDir(RollbackBack(cut, p, w).tree, i + 1, w, d);
      }
    }
  }

  lemma ApartFrom(d: Path, p: Part)
    requires d <= SCRATCH_OCI
    ensures forall l: Place :: !(Loc(l, p) <= d)
  {
    forall l: Place
      ensures !(Loc(l, p) <= d)
    {
      LocApart(l, p);
    }
  }

  lemma SwitchKeepsDir(t: Node, w: Faults, d: Path)
    requires IsDir(t, d) && d <= SCRATCH_OCI && |d| < |SCRATCH|
    ensures IsDir(Switch(t, w).tree, d)
  {
    IsDirRemove(t, SCRATCH, d);
    if w.residue(Purge).Some? { IsDirPut(t, SCRATCH, w.residue(Purge).value, d); }
    if Prepared(t, w).Some? {
      MkdirAllKeepsDir(Purged(t, w), SCRATCH_OCI, d);
      ForwardKeepsDir(Prepared(t, w).value, 0, w, d);
      ApartFrom(d, Config);
      if w.rewrite.Some? { IsDirPut(Fwd(t, w).tree, Loc(Live, Config), File(w.rewrite.value), d); }
      RollbackKeepsDir(Turn(t, w), 0, w, d);
    }
  }
}
