/** A switch while the cleanup of an earlier one is still running: the switch as a machine
    of single steps, in any interleaving with deletions at and below the two trees that
    the cleanup owns.  Which of them are harmless, and which lose a part.
 */
module CleanupRace {
  import opened Common
  import opened HostTree
  import opened OciSwitch
  import opened SwitchTheorems
  import opened StaleScratch

  // ---------------------------------------------------------------- the machine

  /** The step of the switch that comes next. */
  datatype Control =
    | MovingOut(part: Part) | MovingIn(part: Part) | Reinstalling
    | Checking(part: Part) | Clearing(part: Part) | Restoring(part: Part)
    | Over(ok: bool)

  datatype Point = Point(tree: Node, next: Control)

  function Following(p: Part): Option<Part> {
    if Rank(p) + 1 < |PARTS| then Some(PARTS[Rank(p) + 1]) else None
  }

  function AfterMove(p: Part): Control {
    match Following(p)
    case Some(q) => MovingOut(q)
    case None => Reinstalling
  }

  function AfterCheck(p: Part): Control {
    match Following(p)
    case Some(q) => Checking(q)
    case None => Over(false)
  }

  function Tick(s: Point, w: Faults): Point {
    match s.next
    case MovingOut(p) =>
      var out := OutStep(s.tree, p, w);
      Point(out.tree, if out.ok then MovingIn(p) else Checking(Bin))
    case MovingIn(p) =>
      var into := InStep(s.tree, p, w);
      Point(into.tree, if into.ok then AfterMove(p) else Checking(Bin))
    case Reinstalling => Point(Rerun(s.tree, w), if w.fails(Reinstall) then Checking(Bin) else Over(true))
    case Checking(p) =>
      Point(s.tree, if At(s.tree, Scratch, p).Some? then Clearing(p) else AfterCheck(p))
    case Clearing(p) => Point(RollbackCut(s.tree, p, w), Restoring(p))
    case Restoring(p) => Point(RollbackBack(s.tree, p, w).tree, AfterCheck(p))
    case Over(_) => s
  }

  function Steps(c: Control): nat {
    match c
    case MovingOut(p) => 20 - 2 * Rank(p)
    case MovingIn(p) => 19 - 2 * Rank(p)
    case Reinstalling => 14
    case Checking(p) => 12 - 3 * Rank(p)
    case Clearing(p) => 11 - 3 * Rank(p)
    case Restoring(p) => 10 - 3 * Rank(p)
    case Over(_) => 0
  }

  function Settled(s: Point, w: Faults): Point
    decreases Steps(s.next)
  {
    if s.next.Over? then s else Settled(Tick(s, w), w)
  }

  lemma {:induction false} RollbackSettles(t: Node, p: Part, w: Faults)
    ensures Settled(Point(t, Checking(p)), w) == Point(Rollback(t, Rank(p), w).tree, Over(false))
    decreases |PARTS| - Rank(p)
  {
    var i := Rank(p);
    if At(t, Scratch, p).None? {
      if i + 1 < |PARTS| { RollbackSettles(t, PARTS[i + 1], w); }
    } else {
      var cut := RollbackCut(t, p, w);
      var back := RollbackBack(cut, p, w).tree;
      assert Settled(Point(t, Checking(p)), w) == Settled(Point(t, Clearing(p)), w);
      assert Settled(Point(t, Clearing(p)), w) == Settled(Point(cut, Restoring(p)), w);
      assert Settled(Point(cut, Restoring(p)), w) == Settled(Point(back, AfterCheck(p)), w);
      if i + 1 < |PARTS| { RollbackSettles(back, PARTS[i + 1], w); }
    }
  }

  /** What the machine does from the forward half on. */
  function Concluded(r: Run, w: Faults): Point {
    var turn := if r.ok then Rerun(r.tree, w) else r.tree;
    if r.ok && !w.fails(Reinstall) then Point(turn, Over(true)) else Point(Rollback(turn, 0, w).tree, Over(false))
  }

  lemma {:induction false} ForwardSettles(t: Node, p: Part, w: Faults)
    ensures Settled(Point(t, MovingOut(p)), w) == Concluded(Forward(t, Rank(p), w), w)
    decreases |PARTS| - Rank(p)
  {
    var i := Rank(p);
    var out := OutStep(t, p, w);
    if !out.ok {
      RollbackSettles(out.tree, Bin, w);
    } else {
      var into := InStep(out.tree, p, w);
      assert Settled(Point(t, MovingOut(p)), w) == Settled(Tick(Point(out.tree, MovingIn(p)), w), w);
      if !into.ok {
        RollbackSettles(into.tree, Bin, w);
      } else if i + 1 < |PARTS| {
        ForwardSettles(into.tree, PARTS[i + 1], w);
      } else {
        RollbackSettles(Rerun(into.tree, w), Bin, w);
      }
    }
  }

  /** Undisturbed, the machine does what the switch does. */
  lemma MachineIsSwitch(t: Node, w: Faults)
    requires Prepared(t, w).Some?
    ensures Settled(Point(Prepared(t, w).value, MovingOut(Bin)), w) == Point(Switch(t, w).tree, Over(Switch(t, w).ok))
  {
    ForwardSettles(Prepared(t, w).value, Bin, w);
  }

  /** The trees the machine comes by. */
  function Trees(s: Point, w: Faults): seq<Node>
    decreases Steps(s.next)
  {
    [s.tree] + if s.next.Over? then [] else Trees(Tick(s, w), w)
  }

  ghost predicate SameTrees(a: seq<Node>, b: seq<Node>) {
    forall t :: t in a <==> t in b
  }

  lemma {:induction false} RollbackTrees(t: Node, p: Part, w: Faults)
    ensures SameTrees(Trees(Point(t, Checking(p)), w), [t] + Rollback(t, Rank(p), w).trace)
    decreases |PARTS| - Rank(p)
  {
    var i := Rank(p);
    if At(t, Scratch, p).None? {
      if i + 1 < |PARTS| { RollbackTrees(t, PARTS[i + 1], w); }
    } else {
      var cut := RollbackCut(t, p, w);
      var back := RollbackBack(cut, p, w).tree;
      assert Trees(Point(t, Checking(p)), w) == [t] + Trees(Point(t, Clearing(p)), w);
      assert Trees(Point(t, Clearing(p)), w) == [t] + Trees(Point(cut, Restoring(p)), w);
      assert Trees(Point(cut, Restoring(p)), w) == [cut] + Trees(Point(back, AfterCheck(p)), w);
      if i + 1 < |PARTS| { RollbackTrees(back, PARTS[i + 1], w); }
    }
  }

  /** The trees from the end of the forward half on. */
  function LaterTrees(r: Run, w: Faults): seq<Node> {
    var turn := if r.ok then Rerun(r.tree, w) else r.tree;
    [turn] + if r.ok && !w.fails(Reinstall) then [] else Rollback(turn, 0, w).trace
  }

  lemma {:induction false} ForwardTrees(t: Node, p: Part, w: Faults)
    ensures var r := Forward(t, Rank(p), w);
            SameTrees(Trees(Point(t, MovingOut(p)), w), [t] + r.trace + LaterTrees(r, w))
    decreases |PARTS| - Rank(p)
  {
    var i := Rank(p);
    var out := OutStep(t, p, w);
    if !out.ok {
      RollbackTrees(out.tree, Bin, w);
    } else {
      var into := InStep(out.tree, p, w);
      assert Trees(Point(t, MovingOut(p)), w) == [t] + Trees(Point(out.tree, MovingIn(p)), w);
      if !into.ok {
        RollbackTrees(into.tree, Bin, w);
        assert into.tree == out.tree;
      } else if i + 1 < |PARTS| {
        ForwardTrees(into.tree, PARTS[i + 1], w);
      } else {
        ReinstallingTrees(into.tree, w);
      }
    }
  }

  lemma ReinstallingTrees(t: Node, w: Faults)
    ensures SameTrees(Trees(Point(t, Reinstalling), w), [t] + LaterTrees(Run(t, true, |PARTS|, []), w))
  {
    if w.fails(Reinstall) { RollbackTrees(Rerun(t, w), Bin, w); }
  }

  /** No state is left out of a switch's record of the states it passes through, and none
      is in it that is not one. */
  lemma EveryStateRecorded(t: Node, w: Faults)
    requires Prepared(t, w).Some?
    ensures SameTrees(Trees(Point(Prepared(t, w).value, MovingOut(Bin)), w), Switch(t, w).forward + Switch(t, w).back)
  {
    ForwardTrees(Prepared(t, w).value, Bin, w);
  }

  // ---------------------------------------------------------------- one deletion by the cleanup

  /** It deletes something of the copy of `p` in scratch. */
  predicate Takes(s: Node, path: Path, p: Part) {
    Get(s, path).Some? && !Disjoint(path, Loc(Scratch, p)) && At(s, Scratch, p).Some?
  }

  /** `n` is to be found outside scratch. */
  predicate Elsewhere(s: Node, p: Part, n: Node, nested: bool) {
    At(s, Live, p) == Some(n) || (nested && At(s, Nested, p) == Some(n))
  }

  lemma SweepLeavesLive(s: Node, path: Path, p: Part, l: Place)
    requires IsSweep(path) && l in {Live, Nested}
    ensures At(Remove(s, path), l, p) == At(s, l, p)
  {
    LocApart(l, p);
    var root := if STAGE <= path then STAGE else SCRATCH;
    DisjointBelow(root, path, Loc(l, p));
    GetRemoveElsewhere(s, path, Loc(l, p));
  }

  /** What a deletion anywhere in the two trees does to the copy of `p` in scratch. */
  lemma SweepInScratch(s: Node, path: Path, p: Part)
    requires IsSweep(path)
    ensures var before, after := At(s, Scratch, p), At(Remove(s, path), Scratch, p);
            if !Takes(s, path, p) then after == before
            else if path <= Loc(Scratch, p) then after == None
            else after.Some? && after != before
  {
    var at := Loc(Scratch, p);
    RemoveNothing(s, path);
    if Disjoint(path, at) {
      GetRemoveElsewhere(s, path, at);
    } else if path <= at {
      var rest := at[|path|..];
      assert at == path + rest;
      GetRemove(s, path);
      GetThenGet(Remove(s, path), path, rest);
      GetThenGet(s, path, rest);
    } else {
      var rest := path[|at|..];
      assert path == at + rest;
      GetRemoveBelow(s, at, rest);
      GetThenGet(s, at, rest);
      if At(s, Scratch, p).Some? { RemoveNothing(At(s, Scratch, p).value, rest); }
    }
  }

  /** When a deletion of the cleanup is harmless: for any state in which the original `n` of
      a part is held, and any path at or below the staging or the scratch directory, it is
      still held afterwards if and only if the deletion takes nothing of its copy in
      scratch, or takes all of it while `n` is to be found elsewhere. */
  lemma SweepHarmlessWhen(s: Node, path: Path, p: Part, n: Node, nested: bool)
    requires IsSweep(path) && Held(s, p, n, nested)
    ensures Held(Remove(s, path), p, n, nested)
       <==> !Takes(s, path, p) || (path <= Loc(Scratch, p) && Elsewhere(s, p, n, nested))
  {
    SweepLeavesLive(s, path, p, Live);
    SweepLeavesLive(s, path, p, Nested);
    SweepInScratch(s, path, p);
  }

  // ---------------------------------------------------------------- any interleaving

  datatype Move = Ticked | Swept(path: Path)

  ghost predicate LegalMoves(ms: seq<Move>) {
    forall i :: 0 <= i < |ms| && ms[i].Swept? ==> IsSweep(ms[i].path)
  }

  function Step(s: Point, m: Move, w: Faults): Point
    requires m.Swept? ==> IsSweep(m.path)
  {
    match m
    case Ticked => Tick(s, w)
    case Swept(path) => s.(tree := Remove(s.tree, path))
  }

  /** No original is lost, now or after any step. */
  ghost predicate AlwaysConserved(t0: Node, s: Point, ms: seq<Move>, w: Faults)
    requires LegalMoves(ms)
    decreases |ms|
  {
    Conserved(t0, s.tree, w) && (ms != [] ==> AlwaysConserved(t0, Step(s, ms[0], w), ms[1..], w))
  }

  /** Part `p` existed, and its copy in scratch is gone. */
  predicate Stranded(t0: Node, s: Node, p: Part) {
    At(t0, Live, p).Some? && At(s, Scratch, p).None?
  }

  /** `n` is what a failed deletion leaves of the live part, or is inside of it. */
  predicate Remains(cut: Option<Node>, p: Part, n: Node, nested: bool) {
    cut == Some(n) || (nested && cut.Some? && Get(cut.value, [Name(p)]) == Some(n))
  }

  /** The steps that lose a part: a deletion that is not harmless; and where a deletion has
      taken the copy in scratch because the original was to be found elsewhere, the reinstall
      that writes over it, and the rollback's deletion that does not leave it. */
  predicate Loses(t0: Node, s: Point, m: Move, w: Faults) {
    match (m, s.next)
    case (Swept(path), _) =>
      exists p :: At(t0, Live, p).Some? && Takes(s.tree, path, p)
        && !(path <= Loc(Scratch, p) && Elsewhere(s.tree, p, At(t0, Live, p).value, w.fails(RollbackRemove(p))))
    case (Ticked, Reinstalling) =>
      && Stranded(t0, s.tree, Config) && w.rewrite.Some?
      && At(s.tree, Live, Config) == At(t0, Live, Config)
      && At(t0, Live, Config).value.File? && At(t0, Live, Config).value.content != w.rewrite.value
    case (Ticked, Clearing(p)) =>
      && Stranded(t0, s.tree, p)
      && !Remains(CutOf(At(s.tree, Live, p), p, w), p, At(t0, Live, p).value, w.fails(RollbackRemove(p)))
    case _ => false
  }

  ghost predicate NeverLoses(t0: Node, s: Point, ms: seq<Move>, w: Faults)
    requires LegalMoves(ms)
    decreases |ms|
  {
    ms != [] ==> !Loses(t0, s, ms[0], w) && NeverLoses(t0, Step(s, ms[0], w), ms[1..], w)
  }

  /** The part has not had its turn. */
  predicate Fresh(t0: Node, t: Node, p: Part) {
    At(t, Live, p) == At(t0, Live, p) && At(t, Scratch, p).None?
  }

  /** What is known of part `p` at a point, besides that it is not lost. */
  predicate Known(t0: Node, s: Point, p: Part, w: Faults) {
    match s.next
    case MovingOut(q) => Rank(p) >= Rank(q) ==> Fresh(t0, s.tree, p)
    case MovingIn(q) => (p == q ==> At(s.tree, Live, p).None?) && (Rank(p) > Rank(q) ==> Fresh(t0, s.tree, p))
    case Restoring(q) => p == q && !w.fails(RollbackRemove(p)) ==> At(s.tree, Live, p).None?
    case _ => true
  }

  ghost predicate Sane(t0: Node, s: Point, w: Faults) {
    Conserved(t0, s.tree, w) && forall p :: Known(t0, s, p, w)
  }

  /** A move between places that does not nest. */
  lemma MoveOver(t: Node, from: Place, to: Place, p: Part, fault: bool)
    requires (from, to) in {(Live, Scratch), (Staged, Live), (Scratch, Live)} && At(t, to, p).None?
    ensures var moved := Mv(t, Loc(from, p), Loc(to, p), fault);
            && (moved.ok ==> At(moved.tree, to, p) == At(t, from, p) != None && At(moved.tree, from, p) == None)
            && (!moved.ok ==> moved.tree == t)
  {
    LocDisjoint(from, p, to, p);
    if Mv(t, Loc(from, p), Loc(to, p), fault).ok { MvMoves(t, Loc(from, p), Loc(to, p), []); }
  }

  /** Places of other parts, and third places of the same part, are not concerned. */
  lemma MoveBeside(t: Node, from: Place, to: Place, p: Part, fault: bool, l: Place, q: Part)
    requires (from, to) in {(Live, Scratch), (Staged, Live), (Scratch, Live)}
    requires q != p || l !in {from, to, Nested}
    ensures At(Mv(t, Loc(from, p), Loc(to, p), fault).tree, l, q) == At(t, l, q)
  {
    LocDisjoint(l, q, from, p);
    LocDisjoint(l, q, to, p);
    MvClear(t, Loc(from, p), Loc(to, p), fault, Loc(l, q));
  }

  /** Nothing that matters of part `p` has changed. */
  predicate SameFor(t: Node, u: Node, p: Part) {
    At(u, Live, p) == At(t, Live, p) && At(u, Scratch, p) == At(t, Scratch, p) && At(u, Nested, p) == At(t, Nested, p)
  }

  lemma MoveSameFor(t: Node, from: Place, to: Place, p: Part, fault: bool, q: Part)
    requires (from, to) in {(Live, Scratch), (Staged, Live), (Scratch, Live)} && q != p
    ensures SameFor(t, Mv(t, Loc(from, p), Loc(to, p), fault).tree, q)
  {
    MoveBeside(t, from, to, p, fault, Live, q);
    MoveBeside(t, from, to, p, fault, Scratch, q);
    MoveBeside(t, from, to, p, fault, Nested, q);
  }

  lemma SameForKeeps(t0: Node, t: Node, u: Node, p: Part, w: Faults)
    requires SameFor(t, u, p)
    ensures ConservedPart(t0, t, w, p) <==> ConservedPart(t0, u, w, p)
    ensures Fresh(t0, t, p) <==> Fresh(t0, u, p)
  {
  }

  // ---------------------------------------------------------------- each step of the switch

  lemma MovingOutTicks(t0: Node, t: Node, q: Part, w: Faults)
    requires Sane(t0, Point(t, MovingOut(q)), w)
    ensures Sane(t0, Tick(Point(t, MovingOut(q)), w), w)
  {
    var u := Tick(Point(t, MovingOut(q)), w);
    assert Known(t0, Point(t, MovingOut(q)), q, w);
    MoveOver(t, Live, Scratch, q, w.fails(MoveOut(q)));
    forall p: Part
      ensures ConservedPart(t0, u.tree, w, p) && Known(t0, u, p, w)
    {
      assert ConservedPart(t0, t, w, p) && Known(t0, Point(t, MovingOut(q)), p, w);
      if p != q {
        MoveSameFor(t, Live, Scratch, q, w.fails(MoveOut(q)), p);
        SameForKeeps(t0, t, u.tree, p, w);
      }
    }
  }

  lemma MovingInTicks(t0: Node, t: Node, q: Part, w: Faults)
    requires Sane(t0, Point(t, MovingIn(q)), w)
    ensures Sane(t0, Tick(Point(t, MovingIn(q)), w), w)
  {
    var u := Tick(Point(t, MovingIn(q)), w);
    assert Known(t0, Point(t, MovingIn(q)), q, w) && ConservedPart(t0, t, w, q);
    MoveOver(t, Staged, Live, q, w.fails(MoveIn(q)));
    MoveBeside(t, Staged, Live, q, w.fails(MoveIn(q)), Scratch, q);
    GetThenGet(t, Loc(Live, q), [Suffix(q)[|Suffix(q)| - 1]]);
    assert Loc(Nested, q) == Loc(Live, q) + [Suffix(q)[|Suffix(q)| - 1]];
    forall p: Part
      ensures ConservedPart(t0, u.tree, w, p) && Known(t0, u, p, w)
    {
      assert ConservedPart(t0, t, w, p) && Known(t0, Point(t, MovingIn(q)), p, w);
      if p != q {
        MoveSameFor(t, Staged, Live, q, w.fails(MoveIn(q)), p);
        SameForKeeps(t0, t, u.tree, p, w);
      }
      if Rank(p) == Rank(q) { RankInjective(p, q); }
    }
  }

  lemma RerunBeside(t: Node, w: Faults, l: Place, p: Part)
    requires p != Config || l == Scratch
    ensures At(Rerun(t, w), l, p) == At(t, l, p)
  {
    LocDisjoint(Live, Config, l, p);
    if w.rewrite.Some? { GetPutElsewhere(t, Loc(Live, Config), File(w.rewrite.value), Loc(l, p)); }
  }

  lemma NestedIsInside(t: Node, p: Part)
    ensures At(t, Nested, p) == if At(t, Live, p).Some? then Get(At(t, Live, p).value, [Name(p)]) else None
  {
    assert Loc(Nested, p) == Loc(Live, p) + [Name(p)];
    GetThenGet(t, Loc(Live, p), [Name(p)]);
  }

  /** The reinstall replaces a live config.json that is a file, and no other. */
  lemma RerunLive(t: Node, w: Faults)
    requires At(t, Live, Config).Some?
    ensures At(Rerun(t, w), Live, Config) ==
              if w.rewrite.Some? && At(t, Live, Config).value.File? then Some(File(w.rewrite.value))
              else At(t, Live, Config)
  {
    GetSomeCanPut(t, Loc(Live, Config));
    if w.rewrite.Some? { GetPut(t, Loc(Live, Config), File(w.rewrite.value)); }
  }

  /** Whether an original that is to be found at its live path, or inside, still is. */
  lemma RerunElsewhere(t: Node, w: Faults, n: Node, nested: bool)
    requires Elsewhere(t, Config, n, nested)
    ensures Elsewhere(Rerun(t, w), Config, n, nested) <==>
              !(w.rewrite.Some? && At(t, Live, Config) == Some(n) && n.File? && n.content != w.rewrite.value)
  {
    NestedIsInside(t, Config);
    NestedIsInside(Rerun(t, w), Config);
    RerunLive(t, w);
  }

  lemma ReinstallingTicks(t0: Node, t: Node, w: Faults)
    requires Sane(t0, Point(t, Reinstalling), w)
    ensures var u := Tick(Point(t, Reinstalling), w);
            && (Conserved(t0, u.tree, w) <==> !Loses(t0, Point(t, Reinstalling), Ticked, w))
            && (Conserved(t0, u.tree, w) ==> Sane(t0, u, w))
  {
    var u := Rerun(t, w);
    RerunBeside(t, w, Scratch, Config);
    assert ConservedPart(t0, t, w, Config);
    if Stranded(t0, t, Config) { RerunElsewhere(t, w, At(t0, Live, Config).value, w.fails(RollbackRemove(Config))); }
    assert ConservedPart(t0, u, w, Config) <==> !Loses(t0, Point(t, Reinstalling), Ticked, w);
    forall p: Part | p != Config
      ensures ConservedPart(t0, u, w, p)
    {
      assert ConservedPart(t0, t, w, p);
      RerunBeside(t, w, Live, p);
      RerunBeside(t, w, Scratch, p);
      RerunBeside(t, w, Nested, p);
    }
  }

  lemma CutBeside(t: Node, q: Part, w: Faults, l: Place, p: Part)
    requires p != q || l == Scratch
    ensures At(RollbackCut(t, q, w), l, p) == At(t, l, p)
  {
    var path, residue := Loc(Live, q), w.residue(RollbackRemove(q));
    LocDisjoint(Live, q, l, p);
    GetRemoveElsewhere(t, path, Loc(l, p));
    if residue.Some? { GetPutElsewhere(t, path, residue.value, Loc(l, p)); }
  }

  lemma ClearingTicks(t0: Node, t: Node, q: Part, w: Faults)
    requires Sane(t0, Point(t, Clearing(q)), w)
    ensures var u := Tick(Point(t, Clearing(q)), w);
            && (Conserved(t0, u.tree, w) <==> !Loses(t0, Point(t, Clearing(q)), Ticked, w))
            && (Conserved(t0, u.tree, w) ==> Sane(t0, u, w))
  {
    var u := RollbackCut(t, q, w);
    CutBeside(t, q, w, Scratch, q);
    CutIs(t, q, w);
    NestedIsInside(u, q);
    assert ConservedPart(t0, t, w, q);
    assert ConservedPart(t0, u, w, q) <==> !Loses(t0, Point(t, Clearing(q)), Ticked, w);
    assert !w.fails(RollbackRemove(q)) ==> At(u, Live, q) == None;
    forall p: Part | p != q
      ensures ConservedPart(t0, u, w, p)
    {
      assert ConservedPart(t0, t, w, p);
      CutBeside(t, q, w, Live, p);
      CutBeside(t, q, w, Scratch, p);
      CutBeside(t, q, w, Nested, p);
    }
  }

  /** The way back, into a live directory that could not be removed if there is one. */
  lemma BackSelf(t: Node, p: Part, w: Faults)
    ensures var back := RollbackBack(t, p, w);
            && (!back.ok ==> back.tree == t)
            && (back.ok ==> At(t, Scratch, p).Some? && At(back.tree, Scratch, p) == None)
            && (back.ok ==> At(t, Scratch, p) in {At(back.tree, Live, p), At(back.tree, Nested, p)})
            && (back.ok && At(t, Live, p).None? ==> At(back.tree, Live, p) == At(t, Scratch, p))
  {
    var src, dest := Loc(Scratch, p), Loc(Live, p);
    LocDisjoint(Scratch, p, Live, p);
    LocDisjoint(Scratch, p, Nested, p);
    var target := MvTarget(t, src, dest);
    assert target == Loc(Live, p) || target == Loc(Nested, p);
    if RollbackBack(t, p, w).ok { MvMoves(t, src, dest, []); }
  }

  lemma RestoringTicks(t0: Node, t: Node, q: Part, w: Faults)
    requires Sane(t0, Point(t, Restoring(q)), w)
    ensures Sane(t0, Tick(Point(t, Restoring(q)), w), w)
  {
    var u := Tick(Point(t, Restoring(q)), w);
    BackSelf(t, q, w);
    assert Known(t0, Point(t, Restoring(q)), q, w);
    forall p: Part
      ensures ConservedPart(t0, u.tree, w, p) && Known(t0, u, p, w)
    {
      assert ConservedPart(t0, t, w, p);
      if p != q {
        MoveSameFor(t, Scratch, Live, q, w.fails(RollbackMove(q)), p);
        SameForKeeps(t0, t, u.tree, p, w);
      }
    }
  }

  lemma SweepStep(t0: Node, s: Point, path: Path, w: Faults)
    requires Sane(t0, s, w) && IsSweep(path)
    ensures var u := Step(s, Swept(path), w);
            && (Conserved(t0, u.tree, w) <==> !Loses(t0, s, Swept(path), w))
            && (Conserved(t0, u.tree, w) ==> Sane(t0, u, w))
  {
    var u := Remove(s.tree, path);
    forall p: Part
      ensures Known(t0, s.(tree := u), p, w)
      ensures ConservedPart(t0, u, w, p) <==>
                !(At(t0, Live, p).Some? && Takes(s.tree, path, p)
                  && !(path <= Loc(Scratch, p)
                       && Elsewhere(s.tree, p, At(t0, Live, p).value, w.fails(RollbackRemove(p)))))
    {
      assert ConservedPart(t0, s.tree, w, p) && Known(t0, s, p, w);
      SweepLeavesLive(s.tree, path, p, Live);
      if At(s.tree, Scratch, p).None? { GetRemoveNone(s.tree, path, Loc(Scratch, p)); }
      if At(t0, Live, p).Some? {
        SweepHarmlessWhen(s.tree, path, p, At(t0, Live, p).value, w.fails(RollbackRemove(p)));
      }
    }
  }

  lemma StepKeeps(t0: Node, s: Point, m: Move, w: Faults)
    requires Sane(t0, s, w) && (m.Swept? ==> IsSweep(m.path))
    ensures Conserved(t0, Step(s, m, w).tree, w) <==> !Loses(t0, s, m, w)
    ensures Conserved(t0, Step(s, m, w).tree, w) ==> Sane(t0, Step(s, m, w), w)
  {
    match m
    case Swept(path) => SweepStep(t0, s, path, w);
    case Ticked =>
      match s.next
      case MovingOut(q) => MovingOutTicks(t0, s.tree, q, w);
      case MovingIn(q) => MovingInTicks(t0, s.tree, q, w);
      case Reinstalling => ReinstallingTicks(t0, s.tree, w);
      case Checking(_) =>
      case Clearing(q) => ClearingTicks(t0, s.tree, q, w);
      case Restoring(q) => RestoringTicks(t0, s.tree, q, w);
      case Over(_) =>
  }

  /** In every interleaving of a switch with deletions by a cleanup, no original is lost in
      any state if and only if none of the steps is one that loses a part. */
  lemma {:induction false} RaceConservedWhen(t0: Node, s: Point, ms: seq<Move>, w: Faults)
    requires Sane(t0, s, w) && LegalMoves(ms)
    ensures AlwaysConserved(t0, s, ms, w) <==> NeverLoses(t0, s, ms, w)
    decreases |ms|
  {
    if ms != [] {
      StepKeeps(t0, s, ms[0], w);
      if !Loses(t0, s, ms[0], w) { RaceConservedWhen(t0, Step(s, ms[0], w), ms[1..], w); }
    }
  }

  /** ... from the moment on which the scratch directory is made. */
  lemma SwitchRacedWhen(t: Node, ms: seq<Move>, w: Faults)
    requires Prepared(t, w).Some? && ScratchClean(Purged(t, w)) && LegalMoves(ms)
    ensures var s := Point(Prepared(t, w).value, MovingOut(Bin));
            AlwaysConserved(t, s, ms, w) <==> NeverLoses(t, s, ms, w)
  {
    SaneAtStart(t, w);
    RaceConservedWhen(t, Point(Prepared(t, w).value, MovingOut(Bin)), ms, w);
  }

  lemma SaneAtStart(t: Node, w: Faults)
    requires Prepared(t, w).Some? && ScratchClean(Purged(t, w))
    ensures Sane(t, Point(Prepared(t, w).value, MovingOut(Bin)), w)
  {
    var s := Point(Prepared(t, w).value, MovingOut(Bin));
    PreparedBoundary(t, w);
    forall p: Part
      ensures ConservedPart(t, s.tree, w, p) && Known(t, s, p, w)
    {
      assert Untouched(t, s.tree, p);
    }
  }

  /** The input on which it fails: bin is moved out, and a cleanup that is still at work
      deletes the scratch directory. */
  lemma LateCleanupLosesBin(t: Node, w: Faults)
    requires Prepared(t, w).Some? && ScratchClean(Purged(t, w))
    requires At(t, Live, Bin).Some? && !w.fails(MoveOut(Bin))
    ensures var s, ms := Point(Prepared(t, w).value, MovingOut(Bin)), [Ticked, Swept(SCRATCH)];
            && LegalMoves(ms) && !NeverLoses(t, s, ms, w) && !AlwaysConserved(t, s, ms, w)
  {
    var s, ms := Point(Prepared(t, w).value, MovingOut(Bin)), [Ticked, Swept(SCRATCH)];
    BinOutLosable(t, w);
    var u := Tick(s, w);
    assert ms[1..] == [Swept(SCRATCH)];
    assert Loses(t, u, Swept(SCRATCH), w);
    assert !NeverLoses(t, u, ms[1..], w);
    SwitchRacedWhen(t, ms, w);
  }

  lemma BinOutLosable(t: Node, w: Faults)
    requires Prepared(t, w).Some? && ScratchClean(Purged(t, w))
    requires At(t, Live, Bin).Some? && !w.fails(MoveOut(Bin))
    ensures var u := Tick(Point(Prepared(t, w).value, MovingOut(Bin)), w).tree;
            Takes(u, SCRATCH, Bin) && forall nested :: !Elsewhere(u, Bin, At(t, Live, Bin).value, nested)
  {
    PreparedBoundary(t, w);
    var start := Prepared(t, w).value;
    assert Untouched(t, start, Bin);
    MoveBetween(start, Live, Scratch, Bin);
    var u := OutStep(start, Bin, w).tree;
    NestedIsInside(u, Bin);
    assert Loc(Scratch, Bin) == SCRATCH + Suffix(Bin);
    GetThenGet(u, SCRATCH, Suffix(Bin));
  }

  // ---------------------------------------------------------------- deletions that take nothing

  /** A part that has been moved out has its copy in scratch. */
  predicate Copied(t0: Node, s: Point, p: Part) {
    var copied := !Stranded(t0, s.tree, p);
    match s.next
    case MovingOut(q) => Rank(p) < Rank(q) ==> copied
    case MovingIn(q) => Rank(p) <= Rank(q) ==> copied
    case Reinstalling => copied
    case Clearing(q) => p == q ==> copied
    case _ => true
  }

  lemma TickCopies(t0: Node, s: Point, w: Faults, p: Part)
    requires Sane(t0, s, w) && Copied(t0, s, p)
    ensures Copied(t0, Tick(s, w), p)
  {
    assert Known(t0, s, p, w);
    match s.next
    case MovingOut(q) =>
      if Rank(p) == Rank(q) { RankInjective(p, q); }
      if p == q {
        MoveOver(s.tree, Live, Scratch, q, w.fails(MoveOut(q)));
      } else {
        MoveBeside(s.tree, Live, Scratch, q, w.fails(MoveOut(q)), Scratch, p);
      }
    case MovingIn(q) => MoveBeside(s.tree, Staged, Live, q, w.fails(MoveIn(q)), Scratch, p);
    case _ =>
  }

  /** The deletions take nothing of any copy in scratch. */
  ghost predicate TakesNothing(s: Point, ms: seq<Move>, w: Faults)
    requires LegalMoves(ms)
    decreases |ms|
  {
    ms != [] ==>
      && (ms[0].Swept? ==> forall p :: !Takes(s.tree, ms[0].path, p))
      && TakesNothing(Step(s, ms[0], w), ms[1..], w)
  }

  lemma {:induction false} NothingTakenNothingLost(t0: Node, s: Point, ms: seq<Move>, w: Faults)
    requires Sane(t0, s, w) && LegalMoves(ms) && TakesNothing(s, ms, w) && forall p :: Copied(t0, s, p)
    ensures NeverLoses(t0, s, ms, w)
    decreases |ms|
  {
    if ms != [] {
      var u := Step(s, ms[0], w);
      StepKeeps(t0, s, ms[0], w);
      forall p: Part
        ensures Copied(t0, u, p)
      {
        assert Copied(t0, s, p);
        if ms[0].Ticked? { TickCopies(t0, s, w, p); } else { SweepInScratch(s.tree, ms[0].path, p); }
      }
      NotLost(t0, s, ms[0], w);
      NothingTakenNothingLost(t0, u, ms[1..], w);
    }
  }

  lemma NotLost(t0: Node, s: Point, m: Move, w: Faults)
    requires forall p :: Copied(t0, s, p)
    requires m.Swept? ==> forall p :: !Takes(s.tree, m.path, p)
    ensures !Loses(t0, s, m, w)
  {
    assert Copied(t0, s, Config);
    if s.next.Clearing? { assert Copied(t0, s, s.next.part); }
  }

  /** So a switch is safe from every deletion that finds nothing of a part in scratch; in
      particular from all of them inside the staging directory. */
  lemma SwitchSafeFrom(t: Node, ms: seq<Move>, w: Faults)
    requires Prepared(t, w).Some? && ScratchClean(Purged(t, w)) && LegalMoves(ms)
    requires TakesNothing(Point(Prepared(t, w).value, MovingOut(Bin)), ms, w)
    ensures AlwaysConserved(t, Point(Prepared(t, w).value, MovingOut(Bin)), ms, w)
  {
    var s := Point(Prepared(t, w).value, MovingOut(Bin));
    SaneAtStart(t, w);
    forall p: Part
      ensures Copied(t, s, p)
    {
      assert Rank(p) >= Rank(Bin);
    }
    NothingTakenNothingLost(t, s, ms, w);
    SwitchRacedWhen(t, ms, w);
  }

  lemma StagingTakesNothing(s: Node, path: Path, p: Part)
    requires STAGE <= path
    ensures !Takes(s, path, p)
  {
    LocApart(Scratch, p);
    DisjointWhere(STAGE, Loc(Scratch, p), 3);
    DisjointBelow(STAGE, path, Loc(Scratch, p));
  }
}
