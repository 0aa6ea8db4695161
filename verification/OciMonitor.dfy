/** The install procedures of the monitor as they run: on a host whose tree they change
    step by step, with the health state and the cordon on the side.  Each does what its
    function in `OciSwitch` and `OciInstall` says, which is what the theorems are about.
 */
module OciMonitor {
  import opened Common
  import opened HostTree
  import opened OciSwitch
  import opened OciEnv
  import opened RestartAnalysis
  import opened Servlet
  import opened Drain
  import opened OciInstall
  import opened Strings

  class OciMonitor {
    /** the host's file tree */
    var tree: Node
    /** what was done, in order */
    var events: seq<Event>
    /** whether the node is cordoned */
    var cordoned: bool
    const servlet: OciRESTServlet
    /** the states the tree has been in since the current switch made its scratch directory */
    ghost var passed: seq<Node>

    constructor (tree: Node, servlet: OciRESTServlet)
      ensures this.tree == tree && this.servlet == servlet && events == [] && !cordoned
    {
      this.tree := tree;
      this.servlet := servlet;
      events := [];
      cordoned := false;
      passed := [];
    }

    predicate IsExist(p: Path)
      reads this`tree
    {
      Get(tree, p).Some?
    }

    method MoveFileOrDir(src: Path, dest: Path, fault: bool) returns (ok: bool)
      requires src != []
      modifies this`tree
      ensures Step(tree, ok) == Mv(old(tree), src, dest, fault)
    {
      var moved := Mv(tree, src, dest, fault);
      tree := moved.tree;
      ok := moved.ok;
    }

    // -------------------------------------------------------------- switchOciInstall

    /** The body of the forward loop: old part to scratch, staged part to live. */
    method MovePart(p: Part, w: Faults) returns (ok: bool, ghost through: seq<Node>)
      modifies this`tree, this`passed
      ensures PartMove(old(tree), p, w) == Moved(tree, ok, through) && passed == old(passed) + through
    {
      through := [];
      if IsExist(Loc(Live, p)) {
        ok := MoveFileOrDir(Loc(Live, p), Loc(Scratch, p), w.fails(MoveOut(p)));
        if !ok {
          return;
        }
      }
      passed, through := passed + [tree], [tree];
      ok := MoveFileOrDir(Loc(Staged, p), Loc(Live, p), w.fails(MoveIn(p)));
      if ok {
        passed, through := passed + [tree], through + [tree];
      }
    }

    /** One turn of the forward loop; `done` is what the turns before have passed through. */
    method MoveTurn(i: nat, w: Faults, ghost done: seq<Node>) returns (ok: bool, ghost now: seq<Node>)
      requires i < |PARTS|
      modifies this`tree, this`passed
      ensures forall before :: old(passed) == before + done ==> passed == before + now
      ensures Onward(done, Forward(old(tree), i, w)) ==
                if ok then Onward(now, Forward(tree, i + 1, w)) else Run(tree, false, i, now)
    {
      ForwardTurn(done, tree, i, w);
      ghost var through;
      ok, through := MovePart(PARTS[i], w);
      now := done + through;
    }

    /** The forward loop. */
    method MoveParts(w: Faults) returns (ok: bool)
      modifies this`tree, this`passed
      ensures var r := Forward(old(tree), 0, w);
              tree == r.tree && ok == r.ok && passed == old(passed) + r.trace
    {
      ghost var whole := Forward(tree, 0, w);
      ghost var done: seq<Node> := [];
      assert [] + whole.trace == whole.trace;
      for i := 0 to |PARTS|
        invariant whole == Onward(done, Forward(tree, i, w))
        invariant passed == old(passed) + done
      {
        ok, done := MoveTurn(i, w, done);
        if !ok {
          return false;
        }
      }
      return true;
    }

    /** One turn of the rollback loop: if scratch has the part, it replaces whatever is live. */
    method RollbackTurn(i: nat, w: Faults, ghost done: seq<Node>) returns (ghost now: seq<Node>)
      requires i < |PARTS|
      modifies this`tree, this`passed
      ensures forall before :: old(passed) == before + done ==> passed == before + now
      ensures Onward(done, Rollback(old(tree), i, w)) == Onward(now, Rollback(tree, i + 1, w))
    {
      var p := PARTS[i];
      now := done;
      OnwardRollback(done, tree, i, w);
      if IsExist(Loc(Scratch, p)) {
        tree := RemoveAll(tree, Loc(Live, p), w.fails(RollbackRemove(p)), w.residue(RollbackRemove(p)));
        passed, now := passed + [tree], now + [tree];
        var _ := MoveFileOrDir(Loc(Scratch, p), Loc(Live, p), w.fails(RollbackMove(p)));
        passed, now := passed + [tree], now + [tree];
      }
    }

    /** The rollback loop. */
    method RollbackParts(w: Faults)
      modifies this`tree, this`passed
      ensures var r := Rollback(old(tree), 0, w);
              tree == r.tree && passed == old(passed) + r.trace
    {
      ghost var whole := Rollback(tree, 0, w);
      ghost var done: seq<Node> := [];
      assert [] + whole.trace == whole.trace;
      for i := 0 to |PARTS|
        invariant whole == Onward(done, Rollback(tree, i, w))
        invariant passed == old(passed) + done
      {
        done := RollbackTurn(i, w, done);
      }
    }

    method SwitchOciInstall(w: Faults) returns (success: bool)
      modifies this`tree, this`passed
      ensures var r := Switch(old(tree), w);
              tree == r.tree && success == r.ok && passed == r.forward + r.back
    {
      passed := [];
      success := false;
      if IsExist(SCRATCH) {
        tree := RemoveAll(tree, SCRATCH, w.fails(Purge), w.residue(Purge));
      }
      var made := if w.fails(Mkdir) then None else MkdirAll(tree, SCRATCH_OCI);
      if made.None? {
        return false;
      }
      tree := made.value;
      passed := [tree];
      var moved := MoveParts(w);
      if moved {
        tree := Rerun(tree, w);
        success := !w.fails(Reinstall);
      }
      passed := passed + [tree];
      if !success {
        RollbackParts(w);
      }
    }

    // -------------------------------------------------------------- installPxFromOciImage

    method Emit(e: Event)
      modifies this`events, servlet
      ensures events == old(events) + [e]
      ensures servlet.state == if e.StateSet? then Set(e.op) else old(servlet.state)
    {
      events := events + [e];
      if e.StateSet? {
        if e.op == SetInstalling { servlet.SetStateInstalling(); } else { servlet.SetStateInstallFinished(); }
      }
    }

    /** px-runc, and what its output and the files around it say about a restart. */
    method RunPxRunc(needInstall: bool, needCordon: bool, c: Container, w: Plan, ghost log: seq<Event>)
      returns (status: Status, verdict: Verdict)
      modifies this`tree
      ensures var r := RunRunc(old(tree), needInstall, needCordon, c, w, log);
              tree == r.tree && status == r.status && verdict == r.verdict && r.events == log
    {
      var tail := ComposeTail(Leading(needInstall, c), c.mounts, FullEnv(c, w.imageId));
      var run := RuncInstall(tree, SpecPath(needInstall), tail, w.runcOk, w.runcWrites);
      tree := run.tree;
      if !run.ok {
        return Status(true, needInstall, needCordon), Failed;
      }
      var needRestart := false;
      if !needInstall {
        if w.unitBefore.None? {
          needRestart := true;
        } else if w.unitAfter.None? {
          return Status(true, needInstall, needCordon), Failed;
        } else if w.unitAfter.value > w.unitBefore.value {
          needRestart := true;
        }
      } else {
        needRestart := true;
      }
      var updated := IsRestartRequired(w.runcOutput, w.kubelet);
      if updated {
        needRestart := true;
      }
      if !w.pxConfigPresent {
        needRestart := true;
      }
      return Status(needRestart, needInstall, needCordon), Done;
    }

    /** Compares the pulled image with the installed one. */
    method CompareWithInstalled(w: Plan) returns (needInstall: bool)
      modifies this`events, servlet
      ensures needInstall == NeedInstall(tree, w.imageId)
      ensures events == old(events) + if needInstall then [] else [StateSet(SetFinished)]
      ensures servlet.state == if needInstall then old(servlet.state) else Finished
    {
      needInstall := true; // unless the IDs turn out to be equal
      if w.imageId.Some? && LongId(w.imageId.value) {
        var installed := ExtractEnvFromOciConfig(Get(tree, Loc(Live, Config)), IMAGE_ID_KEY);
        if installed.Ok? && LongId(installed.value) {
          if installed.value == w.imageId.value {
            needInstall := false;
            Emit(StateSet(SetFinished));
          }
        }
      }
    }

    method StageNewRelease(c: Container, w: Plan, ghost log: seq<Event>) returns (status: Status, verdict: Verdict)
      modifies this`tree, this`events, servlet
      ensures var r := StageAndRun(old(tree), c, w, log);
              && tree == r.tree && status == r.status && verdict == r.verdict
              && log <= r.events && events == old(events) + r.events[|log|..]
              && r.events[|log|..] in {[], [StagedRelease]}
      ensures servlet.state == old(servlet.state)
    {
      var staged := Stage(tree, w.staged);
      if staged.None? {
        return Status(false, true, false), Exited;
      }
      tree := staged.value;
      Emit(StagedRelease);
      var needCordon := CordonNeeded(w.log);
      if !w.stageOk {
        return Status(false, true, needCordon), Exited;
      }
      status, verdict := RunPxRunc(true, needCordon, c, w, log + [StagedRelease]);
    }

    method InstallPxFromOciImage(c: Container, w: Plan) returns (status: Status, verdict: Verdict)
      modifies this`tree, this`events, servlet
      ensures var r := InstallPx(old(tree), c, w);
              && tree == r.tree && status == r.status && verdict == r.verdict
              && events == old(events) + r.events
              && servlet.state == Health(old(servlet.state), r.events)
    {
      ghost var pulled := if w.downloading then [StateSet(SetInstalling)] else [];
      if w.downloading {
        Emit(StateSet(SetInstalling));
      }
      if !w.pullOk {
        return Status(false, false, false), Exited;
      }
      var needInstall := CompareWithInstalled(w);
      if needInstall {
        status, verdict := StageNewRelease(c, w, pulled);
      } else {
        status, verdict := RunPxRunc(false, false, c, w, pulled + [StateSet(SetFinished)]);
      }
    }

    // -------------------------------------------------------------- finalizePxOciInstall, doInstall

    method SwitchThenRestart(status: Status, w: Plan) returns (ok: bool)
      modifies this`tree, this`passed, this`events, servlet
      ensures var r := SwitchAndRestart(old(tree), status, w);
              tree == r.tree && ok == r.ok && events == old(events) + r.events
      ensures servlet.state == old(servlet.state)
    {
      if status.needInstall {
        ok := SwitchOciInstall(w.swap);
        Emit(Switched(ok));
        if !ok {
          return;
        }
      }
      ok := w.restartOk;
      Emit(Restarted(ok));
    }

    method FinalizePxOciInstall(status: Status, w: Plan) returns (ok: bool)
      modifies this`tree, this`passed, this`events, this`cordoned, servlet
      ensures var r := Finalize(old(tree), old(cordoned), status, w);
              tree == r.tree && cordoned == r.cordoned && ok == r.ok && events == old(events) + r.events
      ensures servlet.state == old(servlet.state)
    {
      if status.needInstall && status.needCordon {
        ok := UnderCordon(status, w);
      } else {
        ok := SwitchThenRestart(status, w);
      }
    }

    /** Drain, go on in any case, and uncordon in the end if the drain has succeeded. */
    method UnderCordon(status: Status, w: Plan) returns (ok: bool)
      modifies this`tree, this`passed, this`events, this`cordoned, servlet
      ensures var inner, d := SwitchAndRestart(old(tree), status, w), DrainNode(old(cordoned), w.drainAll, w.cluster);
              && tree == inner.tree && ok == inner.ok
              && cordoned == (d.cordoned && !(d.ok && w.uncordonOk))
              && events == old(events) +
                   ([Event.Drained(d.ok)] + inner.events + if d.ok then [Uncordoned(w.uncordonOk)] else [])
      ensures servlet.state == old(servlet.state)
    {
      ghost var before, inner := events, SwitchAndRestart(tree, status, w).events;
      var d := DrainPxVolumeConsumerPods(cordoned, w.drainAll, w.cluster);
      cordoned := d.cordoned;
      Emit(Event.Drained(d.ok));
      ok := SwitchThenRestart(status, w);
      assert events == before + ([Event.Drained(d.ok)] + inner);
      if d.ok { // deferred, and so done on every way out
        Emit(Uncordoned(w.uncordonOk));
        if w.uncordonOk {
          cordoned := false;
        }
      }
    }

    method DoInstallRun(c: Container, w: Plan) returns (verdict: Verdict)
      modifies this, servlet
      ensures var r := DoInstall(old(tree), old(cordoned), c, w);
              && tree == r.tree && cordoned == r.cordoned && verdict == r.verdict
              && events == old(events) + r.events
      ensures servlet.state ==
                if verdict == Done then Finished
                else if !w.inspectOk then old(servlet.state)
                else Health(old(servlet.state), InstallPx(old(tree), c, w).events)
    {
      if !w.inspectOk {
        return Failed;
      }
      ghost var inst := InstallPx(tree, c, w);
      var status;
      status, verdict := InstallPxFromOciImage(c, w);
      if verdict != Done {
        return;
      }
      verdict := Concluding(old(events), inst, status, w);
    }

    /** The rest of `doInstall`, after `inst`. */
    method Concluding(ghost before: seq<Event>, ghost inst: Installed, status: Status, w: Plan)
      returns (verdict: Verdict)
      requires status == inst.status && tree == inst.tree && events == before + inst.events
      modifies this, servlet
      ensures var r := Conclude(inst, old(cordoned), w);
              && tree == r.tree && cordoned == r.cordoned && verdict == r.verdict
              && events == before + r.events
      ensures verdict != Exited && servlet.state == if verdict == Done then Finished else old(servlet.state)
    {
      ghost var log := inst.events;
      if status.needRestart || status.needInstall || status.needCordon {
        ghost var fin := Finalize(tree, cordoned, status, w).events;
        log := inst.events + fin;
        var ok := FinalizePxOciInstall(status, w);
        assert events == before + log;
        if !ok {
          return Failed;
        }
      }
      verdict := Finishing(before, log);
    }

    method Finishing(ghost before: seq<Event>, ghost log: seq<Event>) returns (verdict: Verdict)
      requires events == before + log
      modifies this`events, servlet
      ensures events == before + (log + [StateSet(SetFinished)]) && servlet.state == Finished && verdict == Done
    {
      Emit(StateSet(SetFinished));
      verdict := Done;
    }
  }

  function Onward(done: seq<Node>, r: Run): Run {
    r.(trace := done + r.trace)
  }

  /** One turn of the forward loop, with the states it passes through. */
  datatype Moved = Moved(tree: Node, ok: bool, through: seq<Node>)

  function PartMove(t: Node, p: Part, w: Faults): Moved {
    var out := OutStep(t, p, w);
    if !out.ok then Moved(out.tree, false, [])
    else
      var into := InStep(out.tree, p, w);
      Moved(into.tree, into.ok, [out.tree] + if into.ok then [into.tree] else [])
  }

  lemma ForwardTurn(done: seq<Node>, t: Node, i: nat, w: Faults)
    requires i < |PARTS|
    ensures var m := PartMove(t, PARTS[i], w);
            var now := done + m.through;
            Onward(done, Forward(t, i, w)) ==
              if m.ok then Onward(now, Forward(m.tree, i + 1, w)) else Run(m.tree, false, i, now)
  {
  }

  lemma OnwardRollback(done: seq<Node>, t: Node, i: nat, w: Faults)
    requires i < |PARTS|
    ensures var r := Onward(done, Rollback(t, i, w));
            if At(t, Scratch, PARTS[i]).None? then r == Onward(done, Rollback(t, i + 1, w))
            else
              var cut := RollbackCut(t, PARTS[i], w);
              var back := RollbackBack(cut, PARTS[i], w).tree;
              r == Onward(done + [cut] + [back], Rollback(back, i + 1, w))
  {
  }
}
