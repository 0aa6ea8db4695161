/** A switch that starts on a scratch directory which still holds parts of an older run,
    because the purge failed and nobody looked.  What it leaves live, in every case.
 */
module StaleScratch {
  import opened Common
  import opened HostTree
  import opened OciSwitch
  import opened SwitchTheorems

  function Name(p: Part): string {
    Suffix(p)[|Suffix(p)| - 1]
  }

  /** `mv` accepts moving `live` to where `stale` is, or into it. */
  predicate Accepts(stale: Option<Node>, live: Node, p: Part) {
    match stale
    case None => true
    case Some(File(_)) => live.File?
    case Some(Dir(es)) =>
      Name(p) in es ==> if live.Dir? then es[Name(p)] == Dir(map[]) else es[Name(p)].File?
  }

  /** What is in scratch afterwards: a stale directory swallows the live part. */
  function Swallow(stale: Option<Node>, live: Node, p: Part): Node {
    match stale
    case Some(Dir(es)) => Dir(es[Name(p) := live])
    case _ => live
  }

  lemma NotItself(es: map<string, Node>, name: string, n: Node)
    ensures Dir(es[name := n]) != n
  {
    var d := Dir(es[name := n]);
    assert d decreases to d.entries[name];
  }

  lemma SwallowedIntact(stale: Option<Node>, live: Node, p: Part)
    ensures Swallow(stale, live, p) == live <==> !(stale.Some? && stale.value.Dir?)
  {
    if stale.Some? && stale.value.Dir? { NotItself(stale.value.entries, Name(p), live); }
  }

  // ---------------------------------------------------------------- one turn of the forward loop

  /** Where a move between a live path and scratch goes. */
  lemma MoveGoes(t: Node, from: Place, to: Place, p: Part)
    requires Ready(t) && (from, to) in {(Live, Scratch), (Scratch, Live)}
    ensures var src, dest := Loc(from, p), Loc(to, p);
            var target := MvTarget(t, src, dest);
            && target == (if IsDir(t, dest) then dest + [Name(p)] else dest)
            && Disjoint(src, dest) && Disjoint(src, target) && CanPut(t, target)
  {
    var src, dest := Loc(from, p), Loc(to, p);
    assert src[|src| - 1] == Name(p);
    LocDisjoint(from, p, to, p);
    ReadyParents(t, to, p);
    var target := MvTarget(t, src, dest);
    DisjointBelow(dest, target, src);
    assert target[..|target| - 1] == if IsDir(t, dest) then dest else dest[..|dest| - 1];
  }

  /** When it is accepted. */
  lemma MoveAccepted(t: Node, from: Place, to: Place, p: Part)
    requires Ready(t) && (from, to) in {(Live, Scratch), (Scratch, Live)} && At(t, from, p).Some?
    ensures MvAllowed(t, Loc(from, p), Loc(to, p)) == Accepts(At(t, to, p), At(t, from, p).value, p)
  {
    MoveGoes(t, from, to, p);
    GetThenGet(t, Loc(to, p), [Name(p)]);
  }

  /** A move between a live path and scratch, onto nothing or something. */
  lemma MoveOnto(t: Node, from: Place, to: Place, p: Part, fault: bool)
    requires Ready(t) && (from, to) in {(Live, Scratch), (Scratch, Live)} && At(t, from, p).Some?
    ensures var moved, n, there := Mv(t, Loc(from, p), Loc(to, p), fault), At(t, from, p).value, At(t, to, p);
            && moved.ok == (!fault && Accepts(there, n, p))
            && (moved.ok ==> At(moved.tree, to, p) == Some(Swallow(there, n, p)) && At(moved.tree, from, p) == None)
  {
    var src, dest, n := Loc(from, p), Loc(to, p), At(t, from, p).value;
    MoveAccepted(t, from, to, p);
    MoveGoes(t, from, to, p);
    if Mv(t, src, dest, fault).ok {
      MvMoves(t, src, dest, dest);
      GetRemoveElsewhere(t, src, dest);
      if IsDir(t, dest) { GetPutInside(Remove(t, src), dest, Name(p), n); }
    }
  }

  lemma OutOntoStale(t: Node, p: Part, w: Faults)
    requires Ready(t) && At(t, Live, p).Some?
    ensures var out, live, stale := OutStep(t, p, w), At(t, Live, p).value, At(t, Scratch, p);
            && out.ok == (!w.fails(MoveOut(p)) && Accepts(stale, live, p))
            && (out.ok ==> At(out.tree, Scratch, p) == Some(Swallow(stale, live, p)) && At(out.tree, Live, p) == None)
  {
    MoveOnto(t, Live, Scratch, p, w.fails(MoveOut(p)));
  }

  /** What the out-step leaves alone. */
  lemma OutClear(t: Node, p: Part, w: Faults, l: Place, q: Part)
    requires Ready(t) && (q != p || l == Staged)
    ensures Ready(OutStep(t, p, w).tree) && At(OutStep(t, p, w).tree, l, q) == At(t, l, q)
  {
    LocDisjoint(l, q, Live, p);
    LocDisjoint(l, q, Scratch, p);
    LocApart(Live, p);
    LocApart(Scratch, p);
    MvClear(t, Loc(Live, p), Loc(Scratch, p), w.fails(MoveOut(p)), Loc(l, q));
    MvKeepsDir(t, Loc(Live, p), Loc(Scratch, p), w.fails(MoveOut(p)), SCRATCH_OCI);
  }

  lemma InStepOntoNothing(t: Node, p: Part, w: Faults, l: Place, q: Part)
    requires Ready(t) && At(t, Live, p).None? && l != Nested
    ensures var into := InStep(t, p, w);
            && into.ok == (At(t, Staged, p).Some? && !w.fails(MoveIn(p))) && Ready(into.tree)
            && (into.ok ==> At(into.tree, Live, p) == At(t, Staged, p))
            && ((q != p || l == Scratch || !into.ok) ==> At(into.tree, l, q) == At(t, l, q))
  {
    if At(t, Staged, p).Some? && !w.fails(MoveIn(p)) { MoveBetween(t, Staged, Live, p); }
  }

  /** The three places of a part. */
  datatype Slot = Slot(live: Option<Node>, staged: Option<Node>, scratch: Option<Node>)

  function SlotOf(t: Node, p: Part): Slot {
    Slot(At(t, Live, p), At(t, Staged, p), At(t, Scratch, p))
  }

  /** The live part gets out of the way. */
  predicate Leaves(s: Slot, p: Part, w: Faults) {
    s.live.Some? && !w.fails(MoveOut(p)) && Accepts(s.scratch, s.live.value, p)
  }

  /** The turn for part `p` goes through. */
  predicate Passes(s: Slot, p: Part, w: Faults) {
    s.staged.Some? && !w.fails(MoveIn(p)) && (s.live.Some? ==> Leaves(s, p, w))
  }

  /** The slot of a part once its turn is over, gone through or not. */
  function Turned(s: Slot, p: Part, w: Faults): Slot {
    var out := if Leaves(s, p, w) then Slot(None, s.staged, Some(Swallow(s.scratch, s.live.value, p))) else s;
    if Passes(s, p, w) then Slot(s.staged, None, out.scratch) else out
  }

  lemma TurnOntoStale(t: Node, p: Part, w: Faults)
    requires Ready(t)
    ensures var out := OutStep(t, p, w);
            var into := if out.ok then InStep(out.tree, p, w) else out;
            && into.ok == Passes(SlotOf(t, p), p, w) && Ready(into.tree)
            && SlotOf(into.tree, p) == Turned(SlotOf(t, p), p, w)
            && forall q :: q != p ==> SlotOf(into.tree, q) == SlotOf(t, q)
  {
    var out := OutStep(t, p, w);
    if At(t, Live, p).Some? { OutOntoStale(t, p, w); }
    OutClear(t, p, w, Staged, p);
    if out.ok {
      InStepOntoNothing(out.tree, p, w, Scratch, p);
      InStepOntoNothing(out.tree, p, w, Staged, p);
      if Passes(SlotOf(t, p), p, w) { MoveBetween(out.tree, Staged, Live, p); }
    }
    forall q: Part | q != p
      ensures SlotOf(if out.ok then InStep(out.tree, p, w).tree else out.tree, q) == SlotOf(t, q)
    {
      forall l: Place | l != Nested
        ensures At(if out.ok then InStep(out.tree, p, w).tree else out.tree, l, q) == At(t, l, q)
      {
        OutClear(t, p, w, l, q);
        if out.ok { InStepOntoNothing(out.tree, p, w, l, q); }
      }
    }
  }

  // ---------------------------------------------------------------- the whole forward half

  /** Where each part is when the first move is made. */
  function Start(t: Node, w: Faults, p: Part): Slot {
    Slot(At(t, Live, p), At(t, Staged, p), At(Purged(t, w), Scratch, p))
  }

  predicate ReachedAt(t: Node, w: Faults, p: Part) {
    forall q :: Rank(q) < Rank(p) ==> Passes(Start(t, w, q), q, w)
  }

  /** ... and where it is after the last. */
  function EndedAt(t: Node, w: Faults, p: Part): Slot {
    if ReachedAt(t, w, p) then Turned(Start(t, w, p), p, w) else Start(t, w, p)
  }

  predicate AllPass(t: Node, w: Faults) {
    forall p :: Passes(Start(t, w, p), p, w)
  }

  /** The head of the loop: the parts before `i` have had their turns. */
  ghost predicate AtHead(t0: Node, t: Node, i: nat, w: Faults) {
    && Ready(t) && i <= |PARTS|
    && forall p :: if Rank(p) < i then Passes(Start(t0, w, p), p, w) && SlotOf(t, p) == Turned(Start(t0, w, p), p, w)
                   else SlotOf(t, p) == Start(t0, w, p)
  }

  ghost predicate AtEnd(t0: Node, t: Node, w: Faults) {
    Ready(t) && forall p :: SlotOf(t, p) == EndedAt(t0, w, p)
  }

  lemma {:induction false} ForwardOntoStale(t0: Node, t: Node, i: nat, w: Faults)
    requires AtHead(t0, t, i, w)
    ensures AtEnd(t0, Forward(t, i, w).tree, w) && (Forward(t, i, w).ok <==> AllPass(t0, w))
    decreases |PARTS| - i
  {
    if i < |PARTS| {
      var p := PARTS[i];
      assert Rank(p) == i;
      TurnOntoStale(t, p, w);
      var out := OutStep(t, p, w);
      var into := if out.ok then InStep(out.tree, p, w) else out;
      forall q: Part | Rank(q) == i
        ensures q == p
      {
        RankInjective(q, p);
      }
      if into.ok {
        ForwardOntoStale(t0, into.tree, i + 1, w);
      } else {
        StoppedHere(t0, t, i, w, into.tree);
      }
    }
  }

  /** A turn that does not go through is the last. */
  lemma StoppedHere(t0: Node, t: Node, i: nat, w: Faults, s: Node)
    requires i < |PARTS| && AtHead(t0, t, i, w) && Ready(s)
    requires var p := PARTS[i];
             && !Passes(Start(t0, w, p), p, w) && SlotOf(s, p) == Turned(Start(t0, w, p), p, w)
             && forall q :: q != p ==> SlotOf(s, q) == SlotOf(t, q)
    ensures AtEnd(t0, s, w)
  {
    var p := PARTS[i];
    assert Rank(p) == i;
    forall q: Part
      ensures SlotOf(s, q) == EndedAt(t0, w, q)
    {
      if q != p && Rank(q) == i { RankInjective(q, p); }
      assert ReachedAt(t0, w, q) <==> Rank(q) <= i;
    }
  }

  lemma ForwardHalfOntoStale(t: Node, w: Faults)
    requires Prepared(t, w).Some?
    ensures AtEnd(t, Fwd(t, w).tree, w) && (Fwd(t, w).ok <==> AllPass(t, w))
  {
    MkdirAllMakes(Purged(t, w), SCRATCH_OCI);
    forall p: Part
      ensures SlotOf(Prepared(t, w).value, p) == Start(t, w, p)
    {
      PurgeKeeps(t, w, Live, p);
      PurgeKeeps(t, w, Staged, p);
      MkdirKeepsScratch(t, w, p);
    }
    ForwardOntoStale(t, Prepared(t, w).value, 0, w);
  }

  // ---------------------------------------------------------------- what is left

  /** A switch succeeds exactly if every part's turn goes through, which a stale part may
      prevent, and the reinstall does not fail. */
  lemma StaleSwitchSucceedsWhen(t: Node, w: Faults)
    requires Prepared(t, w).Some?
    ensures Switch(t, w).ok <==> !w.fails(Reinstall) && AllPass(t, w)
  {
    ForwardHalfOntoStale(t, w);
    SwitchOkIs(t, w);
  }

  lemma SwitchOkIs(t: Node, w: Faults)
    requires Prepared(t, w).Some?
    ensures Switch(t, w).ok == (Fwd(t, w).ok && !w.fails(Reinstall))
    ensures !Switch(t, w).ok ==> Switch(t, w).tree == Rollback(Turn(t, w), 0, w).tree
  {
  }

  /** The live part when the forward half is over, reinstall included. */
  function LiveAtTurn(t: Node, w: Faults, p: Part): Option<Node> {
    var live := EndedAt(t, w, p).live;
    if p == Config && AllPass(t, w) then Respec(live, w) else live
  }

  lemma SlotAtTurn(t: Node, w: Faults, p: Part)
    requires Prepared(t, w).Some?
    ensures Ready(Turn(t, w))
    ensures At(Turn(t, w), Scratch, p) == EndedAt(t, w, p).scratch && At(Turn(t, w), Live, p) == LiveAtTurn(t, w, p)
  {
    ForwardHalfOntoStale(t, w);
    var fwd := Fwd(t, w).tree;
    assert SlotOf(fwd, p) == EndedAt(t, w, p);
    RerunRespecs(fwd, w, Live, p);
    RerunRespecs(fwd, w, Scratch, p);
  }

  // ---------------------------------------------------------------- the rollback, whatever fails

  /** What the rollback's deletion leaves of a live part. */
  function CutOf(live: Option<Node>, p: Part, w: Faults): Option<Node> {
    var residue := w.residue(RollbackRemove(p));
    if live.None? || !w.fails(RollbackRemove(p)) then None
    else if residue.Some? && RemainsOf(residue.value, live.value) then residue
    else live
  }

  lemma CutIs(t: Node, p: Part, w: Faults)
    ensures At(RollbackCut(t, p, w), Live, p) == CutOf(At(t, Live, p), p, w)
  {
    GetRemove(t, Loc(Live, p));
    if At(t, Live, p).Some? { GetSomeCanPut(t, Loc(Live, p)); }
    var residue := w.residue(RollbackRemove(p));
    if residue.Some? && At(t, Live, p).Some? { GetPut(t, Loc(Live, p), residue.value); }
  }

  /** The live part after a rollback that began with these two: what is in scratch takes the
      place of what the deletion leaves, or moves into it, or stays where it is. */
  function BackOf(scratch: Option<Node>, live: Option<Node>, p: Part, w: Faults): Option<Node> {
    var cut := CutOf(live, p, w);
    if scratch.None? then live
    else if !w.fails(RollbackMove(p)) && Accepts(cut, scratch.value, p) then Some(Swallow(cut, scratch.value, p))
    else cut
  }

  lemma OwnTurnIs(t: Node, p: Part, w: Faults)
    requires Ready(t) && At(t, Scratch, p).Some?
    ensures var back := RollbackBack(RollbackCut(t, p, w), p, w).tree;
            Ready(back) && At(back, Live, p) == BackOf(At(t, Scratch, p), At(t, Live, p), p, w)
  {
    var cut := RollbackCut(t, p, w);
    RollbackCutStep(t, p, w);
    CutIs(t, p, w);
    MoveOnto(cut, Scratch, Live, p, w.fails(RollbackMove(p)));
    RollbackBackElsewhere(cut, p, w);
  }

  lemma {:induction false} RollbackResult(t: Node, i: nat, w: Faults, p: Part)
    requires Ready(t) && i <= Rank(p)
    ensures At(Rollback(t, i, w).tree, Live, p) == BackOf(At(t, Scratch, p), At(t, Live, p), p, w)
    decreases |PARTS| - i
  {
    var q := PARTS[i];
    assert Rank(q) == i;
    if p == q {
      OwnTurn(t, w, p);
    } else {
      if Rank(p) == i { RankInjective(p, q); }
      if At(t, Scratch, q).None? {
        RollbackResult(t, i + 1, w, p);
      } else {
        RollbackStepElsewhere(t, q, w, p);
        RollbackResult(RollbackBack(RollbackCut(t, q, w), q, w).tree, i + 1, w, p);
      }
    }
  }

  lemma OwnTurn(t: Node, w: Faults, p: Part)
    requires Ready(t)
    ensures At(Rollback(t, Rank(p), w).tree, Live, p) == BackOf(At(t, Scratch, p), At(t, Live, p), p, w)
  {
    var r := Rollback(t, Rank(p), w).tree;
    if At(t, Scratch, p).None? {
      RollbackLeaves(t, Rank(p), w, p, r);
    } else {
      OwnTurnIs(t, p, w);
      RollbackLeaves(RollbackBack(RollbackCut(t, p, w), p, w).tree, Rank(p) + 1, w, p, r);
    }
  }

  /** The live part after a failed switch. */
  function Revived(t: Node, w: Faults, p: Part): Option<Node> {
    BackOf(EndedAt(t, w, p).scratch, LiveAtTurn(t, w, p), p, w)
  }

  /** What a failed switch leaves, whatever was in scratch when it began, and whatever fails
      in its rollback. */
  lemma StaleOutcome(t: Node, w: Faults, p: Part)
    requires Switch(t, w).entered && !Switch(t, w).ok
    ensures At(Switch(t, w).tree, Live, p) == Revived(t, w, p)
  {
    SwitchOkIs(t, w);
    SlotAtTurn(t, w, p);
    RollbackResult(Turn(t, w), 0, w, p);
  }

  /** And a successful one: the staged parts, with nothing asked of scratch. */
  lemma SuccessPutsStagedLive(t: Node, w: Faults, p: Part)
    requires Switch(t, w).ok
    ensures At(t, Staged, p).Some?
    ensures At(Switch(t, w).tree, Live, p) == if p == Config then Respec(At(t, Staged, p), w) else At(t, Staged, p)
  {
    StaleSwitchSucceedsWhen(t, w);
    SlotAtTurn(t, w, p);
    assert Passes(Start(t, w, p), p, w) && ReachedAt(t, w, p);
    SwitchTurn(t, w);
  }

  lemma SwitchTurn(t: Node, w: Faults)
    requires Switch(t, w).ok
    ensures Switch(t, w).tree == Turn(t, w)
  {
  }

  /** `held`, on its way back from scratch, makes the live part what it was. */
  predicate Returns(cut: Option<Node>, held: Node, former: Option<Node>, p: Part, w: Faults) {
    if !w.fails(RollbackMove(p)) && Accepts(cut, held, p) then Some(Swallow(cut, held, p)) == former else cut == former
  }

  /** Part `p` survives a failed switch: scratch has something that returns it; or scratch has
      nothing, and the staged version does not get in. */
  predicate Survives(t: Node, w: Faults, p: Part) {
    var s, held := Start(t, w, p), EndedAt(t, w, p).scratch;
    if held.Some? then Returns(CutOf(LiveAtTurn(t, w, p), p, w), held.value, s.live, p, w)
    else !(ReachedAt(t, w, p) && Passes(s, p, w))
  }

  lemma RevivedIntact(t: Node, w: Faults, p: Part)
    ensures Revived(t, w, p) == At(t, Live, p) <==> Survives(t, w, p)
  {
    assert AllPass(t, w) ==> Passes(Start(t, w, p), p, w) && ReachedAt(t, w, p);
  }

  /** The exact condition, for every failed run, with a clean scratch directory or not, and
      whatever fails in its rollback: the live install is unchanged if and only if each part
      survives. */
  lemma StaleRollbackExactWhen(t: Node, w: Faults)
    requires Switch(t, w).entered && !Switch(t, w).ok
    ensures (forall p :: At(Switch(t, w).tree, Live, p) == At(t, Live, p)) <==> (forall p :: Survives(t, w, p))
  {
    forall p: Part
      ensures At(Switch(t, w).tree, Live, p) == At(t, Live, p) <==> Survives(t, w, p)
    {
      StaleOutcome(t, w, p);
      RevivedIntact(t, w, p);
    }
  }

  // ---------------------------------------------------------------- from a clean scratch directory

  lemma CleanPasses(t: Node, w: Faults, p: Part)
    requires ScratchClean(Purged(t, w))
    ensures Passes(Start(t, w, p), p, w) == Movable(t, p, w)
  {
  }

  lemma CleanMovedIn(t: Node, w: Faults, p: Part)
    requires ScratchClean(Purged(t, w))
    ensures MovedIn(t, p, w) <==> ReachedAt(t, w, p) && Movable(t, p, w)
  {
    forall q: Part
      ensures Passes(Start(t, w, q), q, w) == Movable(t, q, w)
      ensures Rank(q) == Rank(p) ==> q == p
    {
      CleanPasses(t, w, q);
      if Rank(q) == Rank(p) { RankInjective(q, p); }
    }
  }

  /** The live part is moved out. */
  predicate GetsOut(t: Node, w: Faults, p: Part) {
    At(t, Live, p).Some? && !w.fails(MoveOut(p)) && forall q :: Rank(q) < Rank(p) ==> Movable(t, q, w)
  }

  /** The original comes back over what the deletion leaves: not into a directory. */
  predicate ComesBack(cut: Option<Node>, former: Node, p: Part, w: Faults) {
    if !w.fails(RollbackMove(p)) && Accepts(cut, former, p) then !(cut.Some? && cut.value.Dir?) else cut == Some(former)
  }

  lemma CleanSlot(t: Node, w: Faults, p: Part)
    requires ScratchClean(Purged(t, w))
    ensures EndedAt(t, w, p).scratch == if GetsOut(t, w, p) then At(t, Live, p) else None
  {
    assert ReachedAt(t, w, p) <==> forall q :: Rank(q) < Rank(p) ==> Movable(t, q, w) by {
      forall q: Part { CleanPasses(t, w, q); }
    }
  }

  lemma CleanSurvives(t: Node, w: Faults, p: Part)
    requires ScratchClean(Purged(t, w))
    ensures Survives(t, w, p) <==>
              if At(t, Live, p).None? then !MovedIn(t, p, w)
              else !GetsOut(t, w, p) || ComesBack(CutOf(LiveAtTurn(t, w, p), p, w), At(t, Live, p).value, p, w)
  {
    CleanSlot(t, w, p);
    CleanPasses(t, w, p);
    CleanMovedIn(t, w, p);
    if At(t, Live, p).Some? {
      SwallowedIntact(CutOf(LiveAtTurn(t, w, p), p, w), At(t, Live, p).value, p);
      if !GetsOut(t, w, p) { assert !(ReachedAt(t, w, p) && Passes(Start(t, w, p), p, w)) by { CleanStays(t, w, p); } }
    }
  }

  lemma CleanStays(t: Node, w: Faults, p: Part)
    requires ScratchClean(Purged(t, w)) && At(t, Live, p).Some? && !GetsOut(t, w, p)
    ensures !(ReachedAt(t, w, p) && Passes(Start(t, w, p), p, w))
  {
    forall q: Part { CleanPasses(t, w, q); }
  }

  /** When a part that existed at entry is live again after a failed switch, whatever fails in
      the rollback: it never got out, or it comes back. */
  lemma RollbackReturnsWhen(t: Node, w: Faults, p: Part)
    requires ScratchClean(Purged(t, w)) && Switch(t, w).entered && !Switch(t, w).ok && At(t, Live, p).Some?
    ensures At(Switch(t, w).tree, Live, p) == At(t, Live, p) <==>
              !GetsOut(t, w, p) || ComesBack(CutOf(LiveAtTurn(t, w, p), p, w), At(t, Live, p).value, p, w)
  {
    StaleOutcome(t, w, p);
    RevivedIntact(t, w, p);
    CleanSurvives(t, w, p);
  }

  /** The whole live install is exactly as before if and only if each part that existed
      never got out or comes back, and no other gets in. */
  lemma RollbackExactWhen(t: Node, w: Faults)
    requires ScratchClean(Purged(t, w)) && Switch(t, w).entered && !Switch(t, w).ok
    ensures (forall p :: At(Switch(t, w).tree, Live, p) == At(t, Live, p)) <==>
              forall p ::
                if At(t, Live, p).None? then !MovedIn(t, p, w)
                else !GetsOut(t, w, p) || ComesBack(CutOf(LiveAtTurn(t, w, p), p, w), At(t, Live, p).value, p, w)
  {
    StaleRollbackExactWhen(t, w);
    forall p: Part { CleanSurvives(t, w, p); }
  }

  /** With a rollback that works, what existed always comes back. */
  lemma WorkingRollbackExactWhen(t: Node, w: Faults)
    requires ScratchClean(Purged(t, w)) && Switch(t, w).entered && !Switch(t, w).ok && RollbackWorks(w)
    ensures (forall p :: At(Switch(t, w).tree, Live, p) == At(t, Live, p))
       <==> (forall p :: MovedIn(t, p, w) ==> At(t, Live, p).Some?)
  {
    RollbackRestores(t, w);
    forall p: Part
      ensures At(Switch(t, w).tree, Live, p) == At(t, Live, p) <==> (MovedIn(t, p, w) ==> At(t, Live, p).Some?)
    {
      assert RollsBack(w, p);
      if MovedIn(t, p, w) { assert Movable(t, p, w); }
    }
  }

  /** A rollback that cannot delete the new bin, a directory, moves the former one into it. */
  lemma FailedClearingNests(t: Node, w: Faults)
    requires !w.fails(Purge) && Prepared(t, w).Some? && (forall p :: Movable(t, p, w)) && w.fails(Reinstall)
    requires w.fails(RollbackRemove(Bin)) && w.residue(RollbackRemove(Bin)) == None && !w.fails(RollbackMove(Bin))
    requires At(t, Live, Bin).Some? && At(t, Staged, Bin).Some?
    requires At(t, Staged, Bin).value.Dir? && Name(Bin) !in At(t, Staged, Bin).value.entries
    ensures !Switch(t, w).ok && At(Switch(t, w).tree, Nested, Bin) == At(t, Live, Bin) != None
    ensures At(Switch(t, w).tree, Live, Bin) != At(t, Live, Bin)
  {
    PurgeCleans(t, w);
    SwitchSucceedsWhen(t, w);
    BinAtTurn(t, w);
    StaleOutcome(t, w, Bin);
    var r, former, staged := Switch(t, w).tree, At(t, Live, Bin).value, At(t, Staged, Bin).value;
    BackNests(former, staged, Bin, w);
    assert At(r, Live, Bin) == Some(Dir(staged.entries[Name(Bin) := former]));
    NotItself(staged.entries, Name(Bin), former);
    NestedIn(r, Bin, staged.entries, former);
  }

  lemma NestedIn(t: Node, p: Part, es: map<string, Node>, n: Node)
    requires At(t, Live, p) == Some(Dir(es[Name(p) := n]))
    ensures At(t, Nested, p) == Some(n)
  {
    GetThenGet(t, Loc(Live, p), [Name(p)]);
    assert Loc(Nested, p) == Loc(Live, p) + [Name(p)];
  }

  lemma BackNests(former: Node, staged: Node, p: Part, w: Faults)
    requires w.fails(RollbackRemove(p)) && w.residue(RollbackRemove(p)) == None && !w.fails(RollbackMove(p))
    requires staged.Dir? && Name(p) !in staged.entries
    ensures BackOf(Some(former), Some(staged), p, w) == Some(Dir(staged.entries[Name(p) := former]))
  {
  }

  lemma BinAtTurn(t: Node, w: Faults)
    requires ScratchClean(Purged(t, w)) && At(t, Live, Bin).Some? && forall p :: Movable(t, p, w)
    ensures EndedAt(t, w, Bin).scratch == At(t, Live, Bin) && LiveAtTurn(t, w, Bin) == At(t, Staged, Bin)
  {
    CleanSlot(t, w, Bin);
    CleanPasses(t, w, Bin);
    CleanMovedIn(t, w, Bin);
    assert Movable(t, Bin, w) && MovedIn(t, Bin, w);
  }

  lemma WorkingBack(scratch: Option<Node>, live: Option<Node>, p: Part, w: Faults)
    requires RollsBack(w, p)
    ensures BackOf(scratch, live, p, w) == if scratch.Some? then scratch else live
  {
  }

  /** A run whose first move fails: each part is replaced by its stale version if there is one. */
  lemma FailedPurgeRevivesStalePart(t: Node, w: Faults)
    requires Prepared(t, w).Some? && RollbackWorks(w)
    requires if At(t, Live, Bin).Some? then w.fails(MoveOut(Bin)) else w.fails(MoveIn(Bin))
    ensures !Switch(t, w).ok
    ensures forall p :: At(Switch(t, w).tree, Live, p) ==
                          if At(Purged(t, w), Scratch, p).Some? then At(Purged(t, w), Scratch, p) else At(t, Live, p)
    ensures (forall p :: At(Switch(t, w).tree, Live, p) == At(t, Live, p))
       <==> (forall p :: At(Purged(t, w), Scratch, p) in {None, At(t, Live, p)})
  {
    StaleSwitchSucceedsWhen(t, w);
    assert !Passes(Start(t, w, Bin), Bin, w) && !Leaves(Start(t, w, Bin), Bin, w);
    SwitchOkIs(t, w);
    forall p: Part
      ensures At(Switch(t, w).tree, Live, p) ==
                if At(Purged(t, w), Scratch, p).Some? then At(Purged(t, w), Scratch, p) else At(t, Live, p)
    {
      StaleOutcome(t, w, p);
      StoppedAtBin(t, w, p);
      assert RollsBack(w, p);
      WorkingBack(Start(t, w, p).scratch, At(t, Live, p), p, w);
    }
  }

  lemma StoppedAtBin(t: Node, w: Faults, p: Part)
    requires !Passes(Start(t, w, Bin), Bin, w) && !Leaves(Start(t, w, Bin), Bin, w)
    ensures EndedAt(t, w, p) == Start(t, w, p) && LiveAtTurn(t, w, p) == At(t, Live, p)
  {
    assert p != Bin ==> !ReachedAt(t, w, p);
    assert !AllPass(t, w);
  }
}
