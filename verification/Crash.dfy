/** A monitor that dies in the middle of a switch and is started again: what the next run's
    purge of the scratch directory deletes, and what becomes of the part if that run fails.
 */
module Crash {
  import opened Common
  import opened HostTree
  import opened OciSwitch
  import opened SwitchTheorems
  import opened StaleScratch
  import opened CleanupRace
  import opened OciInstall
  import opened InstallTheorems

  /** A state in which a run may die, from the made scratch directory to the cleanup. */
  ghost predicate MayDieAt(t: Node, w: Faults, s: Node) {
    && ScratchClean(Purged(t, w)) && Switch(t, w).entered
    && s in Switch(t, w).forward + Switch(t, w).back + [Switch(t, w).tree]
  }

  lemma PurgedIs(s: Node, w: Faults)
    requires !w.fails(Purge)
    ensures Purged(s, w) == Remove(s, SCRATCH)
  {
    RemoveNothing(s, SCRATCH);
  }

  lemma TakesAll(s: Node, p: Part)
    ensures Takes(s, SCRATCH, p) <==> At(s, Scratch, p).Some?
  {
    assert SCRATCH <= Loc(Scratch, p) && Loc(Scratch, p) == SCRATCH + Suffix(p);
    GetThenGet(s, SCRATCH, Suffix(p));
  }

  /** The purge of the next run keeps the original of a part exactly if it was not in scratch,
      or is to be found elsewhere; so it deletes the only copy of every part that was on its
      way when the monitor died. */
  lemma NextPurgeKeepsWhen(t: Node, w: Faults, s: Node, p: Part, next: Faults)
    requires MayDieAt(t, w, s) && At(t, Live, p).Some? && !next.fails(Purge)
    ensures var n, nested := At(t, Live, p).value, w.fails(RollbackRemove(p));
            Held(Purged(s, next), p, n, nested) <==> At(s, Scratch, p).None? || Elsewhere(s, p, n, nested)
  {
    CrashPointConservation(t, w);
    assert ConservedPart(t, s, w, p);
    PurgedIs(s, next);
    TakesAll(s, p);
    SweepHarmlessWhen(s, SCRATCH, p, At(t, Live, p).value, w.fails(RollbackRemove(p)));
  }

  /** The version of a part that a switch installs. */
  function NewVersion(s: Node, p: Part, w: Faults): Option<Node> {
    if p == Config then Respec(At(s, Staged, p), w) else At(s, Staged, p)
  }

  /** What a failed switch makes of a part, starting from where the monitor died: a part that
      was live stays what it was; one that was not is the new version or nothing, and it is
      not in scratch either. */
  lemma FailedSwitchAfterCrash(s: Node, p: Part, next: Faults)
    requires !next.fails(Purge) && Switch(s, next).entered && !Switch(s, next).ok
    requires At(s, Live, p).None? || RollsBack(next, p)
    ensures var r := Switch(s, next).tree;
            && At(r, Live, p) == (if At(s, Live, p).Some? then At(s, Live, p)
                                  else if MovedIn(s, p, next) then NewVersion(s, p, next) else None)
            && (At(s, Live, p).None? ==> At(r, Scratch, p).None?)
  {
    PurgeCleans(s, next);
    RollbackRestores(s, next);
    FailedRunPart(s, next, p, Switch(s, next).tree);
  }

  /** The next run, as a whole, after a death at `s`: it decides to install, gets as far as its
      switch, and fails there.  The original of a part is live again if and only if it was
      live when the monitor died, or was not and the run moves the very same version in. */
  lemma OriginalBackWhen(t: Node, w: Faults, s: Node, p: Part, cordoned: bool, c: Container, next: Plan)
    requires MayDieAt(t, w, s) && At(t, Live, p).Some?
    requires NeedInstall(s, next.imageId) && next.inspectOk && InstallPx(s, c, next).verdict == Done
    requires var u := InstallPx(s, c, next).tree;
             !next.swap.fails(Purge) && Switch(u, next.swap).entered && !Switch(u, next.swap).ok
    requires At(s, Live, p).None? || RollsBack(next.swap, p)
    ensures var u := InstallPx(s, c, next).tree;
            At(DoInstall(s, cordoned, c, next).tree, Live, p) == At(t, Live, p) <==>
              if At(s, Live, p).Some? then At(s, Live, p) == At(t, Live, p)
              else MovedIn(u, p, next.swap) && NewVersion(u, p, next.swap) == At(t, Live, p)
    ensures At(s, Live, p).None? && !MovedIn(InstallPx(s, c, next).tree, p, next.swap) ==>
              var r := DoInstall(s, cordoned, c, next).tree; At(r, Live, p).None? && At(r, Scratch, p).None?
  {
    var u := InstallPx(s, c, next).tree;
    InstallingRun(s, c, next);
    InstallingRunTree(s, cordoned, c, next);
    assert At(u, Live, p) == At(s, Live, p);
    FailedSwitchAfterCrash(u, p, next.swap);
  }

  /** Such a death is possible in every switch that moves a live bin out. */
  lemma DiesWithBinOut(t: Node, w: Faults) returns (s: Node)
    requires !w.fails(Purge) && Prepared(t, w).Some? && At(t, Live, Bin).Some? && !w.fails(MoveOut(Bin))
    ensures MayDieAt(t, w, s) && At(s, Live, Bin) == None && At(s, Scratch, Bin) == At(t, Live, Bin)
  {
    PurgeCleans(t, w);
    PreparedBoundary(t, w);
    var start := Prepared(t, w).value;
    assert Untouched(t, start, Bin) && Rank(Bin) == 0;
    MoveBetween(start, Live, Scratch, Bin);
    s := OutStep(start, Bin, w).tree;
    assert Forward(start, 0, w).trace[0] == s;
  }

  /** A run that decides to install, gets to its switch, and fails to move its bin in. */
  predicate FailsAtBin(s: Node, c: Container, next: Plan) {
    var u := InstallPx(s, c, next).tree;
    && next.inspectOk && NeedInstall(s, next.imageId) && InstallPx(s, c, next).verdict == Done
    && !next.swap.fails(Purge) && Prepared(u, next.swap).Some? && next.swap.fails(MoveIn(Bin))
  }

  /** So a death with bin moved out, and one such run after it: the bin that was installed is
      gone, live and in scratch. */
  lemma CrashLosesBin(t: Node, w: Faults, cordoned: bool, c: Container, next: Plan) returns (s: Node)
    requires !w.fails(Purge) && Prepared(t, w).Some? && At(t, Live, Bin).Some? && !w.fails(MoveOut(Bin))
    ensures MayDieAt(t, w, s) && At(s, Scratch, Bin) == At(t, Live, Bin) != None
    ensures FailsAtBin(s, c, next) ==>
              var r := DoInstall(s, cordoned, c, next).tree; At(r, Live, Bin).None? && At(r, Scratch, Bin).None?
  {
    s := DiesWithBinOut(t, w);
    if FailsAtBin(s, c, next) {
      var u := InstallPx(s, c, next).tree;
      PurgeCleans(u, next.swap);
      SwitchSucceedsWhen(u, next.swap);
      assert !Movable(u, Bin, next.swap) && !MovedIn(u, Bin, next.swap);
      OriginalBackWhen(t, w, s, Bin, cordoned, c, next);
    }
  }
}
