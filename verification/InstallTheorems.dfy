/** What repeated runs of the installer promise: the recorded image ID never vouches for
    a release that is not there, a release once installed is not installed again, and
    the node and the health answer are looked after on every way out.
 */
module InstallTheorems {
  import opened Common
  import opened HostTree
  import opened OciSwitch
  import opened SwitchTheorems
  import opened StaleScratch
  import opened OciEnv
  import opened RestartAnalysis
  import opened Strings
  import opened Servlet
  import opened Drain
  import opened OciInstall

  // ---------------------------------------------------------------- status, cordon, health

  /** Cordoning implies installing implies restarting, on every return; so the three-way
      guard of `doInstall` asks for nothing more than a restart. */
  lemma StatusImplications(t: Node, c: Container, w: Plan)
    requires InstallPx(t, c, w).verdict != Exited
    ensures var s := InstallPx(t, c, w).status;
            && (s.needCordon ==> s.needInstall) && (s.needInstall ==> s.needRestart)
            && (s.needRestart || s.needInstall || s.needCordon <==> s.needRestart)
  {
  }

  /** The text of the installer's log, or the lack of it, decides about the cordon. */
  ghost predicate AsksForCordon(log: InstallerLog) {
    log.Broken? || (log.Complete? && exists k: nat :: OccursAt(log.text, " require reboot ", k))
  }

  /** Whether a run needs to install and to cordon, on every return of it. */
  lemma StatusMeans(t: Node, c: Container, w: Plan)
    requires w.pullOk
    ensures var inst := InstallPx(t, c, w);
            && inst.status.needInstall == NeedInstall(t, w.imageId)
            && (inst.verdict != Exited ==>
                  (inst.status.needCordon <==> NeedInstall(t, w.imageId) && AsksForCordon(w.log)))
  {
    CordonAsked(w.log);
  }

  lemma CordonAsked(log: InstallerLog)
    ensures CordonNeeded(log) <==> AsksForCordon(log)
  {
    if log.Complete? { IndexFromFinds(log.text, " require reboot ", 0); }
  }

  /** What px-runc's unit file asks for. */
  predicate UnitAsksForRestart(w: Plan) {
    w.unitBefore.None? || (w.unitAfter.Some? && w.unitAfter.value > w.unitBefore.value)
  }

  /** A run that skips the install gets through if the pull and px-runc succeed and the unit
      file has not vanished; and then a restart is needed if and only if the unit file is new
      or newer, /etc/pwx/config.json is missing, or px-runc's output asks for one. */
  lemma SkippingDecides(t: Node, c: Container, w: Plan)
    requires !NeedInstall(t, w.imageId)
    ensures var inst := InstallPx(t, c, w);
            && (inst.verdict == Done <==> w.pullOk && w.runcOk && (w.unitBefore.Some? ==> w.unitAfter.Some?))
            && (inst.verdict == Exited <==> !w.pullOk)
            && (inst.verdict == Done ==>
                  (inst.status.needRestart <==>
                     UnitAsksForRestart(w) || !w.pxConfigPresent || !NeedsNoRestart(w.runcOutput, w.kubelet)))
  {
    NoRestartIsJustified(w.runcOutput, w.kubelet);
    LiveSpecWritable(t);
  }

  lemma LiveSpecWritable(t: Node)
    requires exists id :: !NeedInstall(t, id)
    ensures CanPut(t, SpecPath(false)) && !IsDir(t, SpecPath(false))
  {
    GetSomeCanPut(t, Loc(Live, Config));
  }

  /** The staged release can be given a spec. */
  predicate Stageable(t: Node, release: Node) {
    var staged := Stage(t, release);
    staged.Some? && CanPut(staged.value, Loc(Staged, Config)) && !IsDir(staged.value, Loc(Staged, Config))
  }

  /** A run that installs gets as far as its switch if all of this succeeds; and it ends the
      process if the pull, the staging directory or the installer container fails. */
  lemma InstallingDecides(t: Node, c: Container, w: Plan)
    requires NeedInstall(t, w.imageId)
    ensures var inst := InstallPx(t, c, w);
            && (inst.verdict == Done <==> w.pullOk && w.stageOk && w.runcOk && Stageable(t, w.staged))
            && (inst.verdict == Exited <==> !w.pullOk || Stage(t, w.staged).None? || !w.stageOk)
            && (inst.verdict == Done ==> inst.status.needRestart)
  {
  }

  /** A finalization succeeds exactly if the restart does, and the switch if there is one,
      whatever the drain has done. */
  lemma FinalizeSucceedsWhen(t: Node, cordoned: bool, status: Status, w: Plan)
    ensures Finalize(t, cordoned, status, w).ok <==> w.restartOk && (status.needInstall ==> Switch(t, w.swap).ok)
  {
  }

  /** It switches at most once, and restarts the service after that, but not after a switch
      that failed. */
  lemma FinalizeOrder(t: Node, cordoned: bool, status: Status, w: Plan)
    ensures var cordons := status.needInstall && status.needCordon;
            var drain := if cordons then [Drained(DrainNode(cordoned, w.drainAll, w.cluster).ok)] else [];
            var switch := if status.needInstall then [Switched(Switch(t, w.swap).ok)] else [];
            var restart := if status.needInstall && !Switch(t, w.swap).ok then [] else [Restarted(w.restartOk)];
            var uncordon := if drain == [Drained(true)] then [Uncordoned(w.uncordonOk)] else [];
            Finalize(t, cordoned, status, w).events == drain + switch + restart + uncordon
  {
    SwitchAndRestartEvents(t, status, w);
  }

  lemma SwitchAndRestartEvents(t: Node, status: Status, w: Plan)
    ensures SwitchAndRestart(t, status, w).events ==
              (if status.needInstall then [Switched(Switch(t, w.swap).ok)] else [])
              + if status.needInstall && !Switch(t, w.swap).ok then [] else [Restarted(w.restartOk)]
  {
  }

  /** The switch from `s` goes through. */
  predicate SwitchGoes(s: Node, w: Faults) {
    Prepared(s, w).Some? && !w.fails(Reinstall) && AllPass(s, w)
  }

  /** When a run succeeds, from what the outside answers: with equal IDs, if the pull, px-runc
      and the restart do, which is left out if nothing asks for it; and otherwise if staging,
      px-runc, switch and restart do. */
  lemma RunSucceedsWhen(t: Node, cordoned: bool, c: Container, w: Plan)
    ensures DoInstall(t, cordoned, c, w).verdict == Done <==>
              && w.inspectOk && w.pullOk && w.runcOk
              && if NeedInstall(t, w.imageId) then
                   && w.stageOk && Stageable(t, w.staged) && w.restartOk
                   && SwitchGoes(InstallPx(t, c, w).tree, w.swap)
                 else
                   && (w.unitBefore.Some? ==> w.unitAfter.Some?)
                   && (UnitAsksForRestart(w) || !w.pxConfigPresent || !NeedsNoRestart(w.runcOutput, w.kubelet) ==>
                         w.restartOk)
  {
    if w.inspectOk {
      var inst := InstallPx(t, c, w);
      if NeedInstall(t, w.imageId) { InstallingDecides(t, c, w); } else { SkippingDecides(t, c, w); }
      if inst.verdict == Done {
        if w.pullOk { StatusMeans(t, c, w); }
        StatusImplications(t, c, w);
        ConcludeSucceedsWhen(inst, cordoned, w);
        if Prepared(inst.tree, w.swap).Some? { StaleSwitchSucceedsWhen(inst.tree, w.swap); }
      }
    }
  }

  lemma ConcludeSucceedsWhen(inst: Installed, cordoned: bool, w: Plan)
    ensures var s := inst.status;
            Conclude(inst, cordoned, w).verdict == Done <==>
              (s.needRestart || s.needInstall || s.needCordon ==>
                 w.restartOk && (s.needInstall ==> Switch(inst.tree, w.swap).ok))
    ensures Conclude(inst, cordoned, w).verdict != Exited
  {
    FinalizeSucceedsWhen(inst.tree, cordoned, inst.status, w);
  }

  /** When it ends the process. */
  lemma RunExitsWhen(t: Node, cordoned: bool, c: Container, w: Plan)
    ensures DoInstall(t, cordoned, c, w).verdict == Exited <==>
              w.inspectOk && (!w.pullOk || (NeedInstall(t, w.imageId) && (Stage(t, w.staged).None? || !w.stageOk)))
  {
    if w.inspectOk {
      if NeedInstall(t, w.imageId) { InstallingDecides(t, c, w); } else { SkippingDecides(t, c, w); }
      var inst := InstallPx(t, c, w);
      if inst.verdict == Done { ConcludeSucceedsWhen(inst, cordoned, w); }
    }
  }

  /** A successful drain is followed by an attempt to uncordon, as the very last step, on
      every exit: a failed switch and a failed restart included. */
  lemma CordonBracket(t: Node, cordoned: bool, status: Status, w: Plan)
    ensures Bracketed(Finalize(t, cordoned, status, w).events)
  {
    InnerEventsOf(t, status, w);
    var inner, events := SwitchAndRestart(t, status, w).events, Finalize(t, cordoned, status, w).events;
    assert events in {inner, [Drained(false)] + inner, [Drained(true)] + inner + [Uncordoned(w.uncordonOk)]};
    BracketedEvents(inner, w.uncordonOk);
  }

  predicate Bracketed(events: seq<Event>) {
    && events != []
    && (Drained(true) in events <==> events[|events| - 1].Uncordoned?)
    && (Drained(true) in events ==> events[0] == Drained(true))
    && (forall i :: 0 <= i < |events| - 1 ==> !events[i].Uncordoned?)
  }

  predicate InnerEvents(events: seq<Event>) {
    events != [] && forall i :: 0 <= i < |events| ==> events[i].Switched? || events[i].Restarted?
  }

  lemma InnerEventsOf(t: Node, status: Status, w: Plan)
    ensures InnerEvents(SwitchAndRestart(t, status, w).events)
  {
  }

  lemma BracketedEvents(inner: seq<Event>, ok: bool)
    requires InnerEvents(inner)
    ensures Bracketed(inner) && Bracketed([Drained(false)] + inner)
    ensures Bracketed([Drained(true)] + inner + [Uncordoned(ok)])
  {
    var events := [Drained(true)] + inner + [Uncordoned(ok)];
    assert events[0] == Drained(true);
  }

  /** Whether the node is cordoned when the installer is done with it, cordoned before or
      not: a successful drain that could not be undone leaves a cordon, and so may a failed
      one; and with nothing to drain the uncordon is still tried. */
  lemma NodeLeftCordoned(t: Node, cordoned: bool, status: Status, w: Plan)
    ensures Finalize(t, cordoned, status, w).cordoned <==>
              var c := w.cluster;
              if !(status.needInstall && status.needCordon) || c.pods.None? then cordoned
              else if !AnyToDrain(w.drainAll, c.pods.value) then cordoned && !w.uncordonOk
              else if !c.cordonOk then cordoned
              else if !c.deleteOk then !c.undoOk
              else !(c.goneOk && w.uncordonOk)
  {
    FailedDrainLeavesCordon(cordoned, w.drainAll, w.cluster);
  }

  /** So a cordon that an operator had set is lifted, even when there is nothing to drain,
      exactly in these cases. */
  lemma OperatorsCordonLifted(t: Node, status: Status, w: Plan)
    ensures !Finalize(t, true, status, w).cordoned <==>
              var c := w.cluster;
              && status.needInstall && status.needCordon && c.pods.Some?
              && if !AnyToDrain(w.drainAll, c.pods.value) then w.uncordonOk
                 else c.cordonOk && if c.deleteOk then c.goneOk && w.uncordonOk else c.undoOk
  {
    NodeLeftCordoned(t, true, status, w);
  }

  /** A run that downloads and installs sets the health state twice at most: "installing"
      at the download, and "finished" only at its successful end. */
  lemma InstallingRunSetters(t: Node, cordoned: bool, c: Container, w: Plan)
    requires w.inspectOk && w.downloading && NeedInstall(t, w.imageId)
    ensures var r := DoInstall(t, cordoned, c, w);
            EventSetters(r.events) == [SetInstalling] + if r.verdict == Done then [SetFinished] else []
  {
    InstallPxSetters(t, c, w);
    var inst := InstallPx(t, c, w);
    if inst.verdict == Done { ConcludeSetters(inst, cordoned, w); }
  }

  lemma FinalizeSetsNothing(t: Node, cordoned: bool, status: Status, w: Plan)
    ensures EventSetters(Finalize(t, cordoned, status, w).events) == []
  {
    InnerEventsOf(t, status, w);
    var inner, events := SwitchAndRestart(t, status, w).events, Finalize(t, cordoned, status, w).events;
    assert events in {inner, [Drained(false)] + inner, [Drained(true)] + inner + [Uncordoned(w.uncordonOk)]};
    InnerSetsNothing(inner, w.uncordonOk);
  }

  lemma InnerSetsNothing(inner: seq<Event>, ok: bool)
    requires InnerEvents(inner)
    ensures EventSetters(inner) == EventSetters([Drained(false)] + inner) == []
    ensures EventSetters([Drained(true)] + inner + [Uncordoned(ok)]) == []
  {
    NoSetters(inner);
    NoSetters([Drained(false)] + inner);
    NoSetters([Drained(true)] + inner + [Uncordoned(ok)]);
  }

  lemma ConcludeSetters(inst: Installed, cordoned: bool, w: Plan)
    ensures var r := Conclude(inst, cordoned, w);
            EventSetters(r.events) == EventSetters(inst.events) + if r.verdict == Done then [SetFinished] else []
  {
    var fin := Finalize(inst.tree, cordoned, inst.status, w).events;
    FinalizeSetsNothing(inst.tree, cordoned, inst.status, w);
    EventSettersConcat(inst.events, fin);
    EventSettersConcat(inst.events + fin, [StateSet(SetFinished)]);
    EventSettersConcat(inst.events, [StateSet(SetFinished)]);
    assert [StateSet(SetFinished)][1..] == [];
  }

  /** The state a run leaves behind: "finished" when it succeeds, but also when it fails after
      the recorded ID was found to be that of the pulled image; otherwise "installing" after
      a download, and what it was before without one. */
  lemma HealthAfterRun(t: Node, cordoned: bool, c: Container, w: Plan, state: InstallState)
    ensures var r := DoInstall(t, cordoned, c, w);
            Health(state, r.events) ==
              if r.verdict == Done then Finished
              else if !w.inspectOk then state
              else if w.pullOk && !NeedInstall(t, w.imageId) then Finished
              else if w.downloading then Installing
              else state
  {
    HealthIsSetters(state, DoInstall(t, cordoned, c, w).events);
    RunSetters(t, cordoned, c, w);
    var equal, done := w.pullOk && !NeedInstall(t, w.imageId), DoInstall(t, cordoned, c, w).verdict == Done;
    LastSetter(state, w.downloading, equal, done);
  }

  lemma LastSetter(state: InstallState, download: bool, equal: bool, done: bool)
    ensures SetAll(state, (if download then [SetInstalling] else [])
                          + (if equal then [SetFinished] else [])
                          + (if done then [SetFinished] else [])) ==
              if equal || done then Finished else if download then Installing else state
  {
  }

  /** The setters of a run: at the download, when the IDs are equal, and at its successful end. */
  lemma RunSetters(t: Node, cordoned: bool, c: Container, w: Plan)
    ensures var r := DoInstall(t, cordoned, c, w);
            EventSetters(r.events) ==
              if !w.inspectOk then []
              else
                (if w.downloading then [SetInstalling] else [])
                + (if w.pullOk && !NeedInstall(t, w.imageId) then [SetFinished] else [])
                + (if r.verdict == Done then [SetFinished] else [])
  {
    if w.inspectOk {
      var inst := InstallPx(t, c, w);
      InstallPxSetters(t, c, w);
      if inst.verdict == Done {
        ConcludeSetters(inst, cordoned, w);
      } else {
        assert EventSetters(inst.events) + [] == EventSetters(inst.events);
      }
    }
  }

  /** The setters of a run up to the finalization. */
  lemma InstallPxSetters(t: Node, c: Container, w: Plan)
    ensures EventSetters(InstallPx(t, c, w).events) ==
              (if w.downloading then [SetInstalling] else [])
              + if w.pullOk && !NeedInstall(t, w.imageId) then [SetFinished] else []
  {
    var events := InstallPx(t, c, w).events;
    var pulled := if w.downloading then [StateSet(SetInstalling)] else [];
    var next :=
      if !w.pullOk then [] else if NeedInstall(t, w.imageId) then [StagedRelease] else [StateSet(SetFinished)];
    assert events == pulled + [] == pulled || events == pulled + next;
    EventSettersConcat(pulled, next);
    SingleSetters(pulled);
    SingleSetters(next);
    assert EventSetters(pulled) + [] == EventSetters(pulled);
  }

  lemma SingleSetters(events: seq<Event>)
    requires |events| <= 1
    ensures EventSetters(events) == if events != [] && events[0].StateSet? then [events[0].op] else []
  {
    if events != [] { assert events[1..] == []; }
  }

  /** Health gating: in any interleaving in which this run is the only one to set the
      state, a request whose reads fall between the download and the run's last setter
      is told "installing", never proxied; and after a run that fails, so is every later
      one. `steps[at]` is the download's setter, `i` and `j` are the request's reads. */
  lemma GatedThroughInstall(t: Node, cordoned: bool, c: Container, w: Plan,
                            steps: seq<AtomicStep>, at: nat, i: nat, j: nat)
    requires w.inspectOk && w.downloading && NeedInstall(t, w.imageId)
    requires at < i < j < |steps| && steps[at] == Setting(SetInstalling)
    requires var r := DoInstall(t, cordoned, c, w);
             var seen := [SetInstalling] + Setters(steps[at + 1..j]);
             seen <= EventSetters(r.events) && (r.verdict == Done ==> seen != EventSetters(r.events))
    ensures Answered(steps, i, j) == StatusInstalling
  {
    InstallingRunSetters(t, cordoned, c, w);
    var more := Setters(steps[at + 1..j]);
    assert more == ([SetInstalling] + more)[1..];
    GatedWhileInstalling(steps, at, i, j);
  }

  // ---------------------------------------------------------------- staging and px-runc, by parts

  lemma StageParts(t: Node, release: Node, p: Part)
    requires Stage(t, release).Some?
    ensures var s := Stage(t, release).value;
            At(s, Live, p) == At(t, Live, p) && At(s, Staged, p) == Get(release, Suffix(p))
  {
    var made := MkdirAll(t, STAGE).value;
    MkdirAllMakes(t, STAGE);
    IsDirAbove(made, STAGE, STAGE[..|STAGE| - 1]);
    GetPut(made, STAGE, release);
    var s := Put(made, STAGE, release);
    GetThenGet(s, STAGE, Suffix(p));
    LocApart(Live, p);
    GetPutElsewhere(made, STAGE, release, Loc(Live, p));
    MkdirAllElsewhere(t, STAGE, Loc(Live, p));
  }

  /** px-runc changes at most its spec, and on success has written it. */
  lemma RuncParts(t: Node, need: bool, args: seq<string>, ok: bool, writes: bool)
    ensures var r := RuncInstall(t, SpecPath(need), args, ok, writes);
            var place, spec := if need then Staged else Live, Some(File(Spec(StoredEnv(args))));
            && At(r.tree, place, Config) in {At(t, place, Config), spec}
            && (r.ok ==> At(r.tree, place, Config) == spec)
            && (need ==> At(r.tree, Live, Config) == At(t, Live, Config))
            && (forall p, l: Place :: p != Config && l in {Live, Staged} ==> At(r.tree, l, p) == At(t, l, p))
  {
    var path, file := SpecPath(need), File(Spec(StoredEnv(args)));
    if CanPut(t, path) {
      GetPut(t, path, file);
      forall p: Part, l: Place | l in {Live, Staged} && (p, l) != (Config, if need then Staged else Live)
        ensures At(Put(t, path, file), l, p) == At(t, l, p)
      {
        LocDisjoint(if need then Staged else Live, Config, l, p);
        GetPutElsewhere(t, path, file, Loc(l, p));
      }
    }
  }

  // ---------------------------------------------------------------- the recorded ID

  /** The image ID on record for a config.json, or "". */
  function IdIn(config: Option<Node>): string {
    var r := ExtractedEnv(config, IMAGE_ID_KEY);
    if r.Ok? then r.value else ""
  }

  function RecordedId(t: Node): string {
    IdIn(At(t, Live, Config))
  }

  /** The ID px-runc records on this run. */
  function StoredId(need: bool, c: Container, imageId: Option<string>): string {
    LastValue(StoredEnv(CommandLine(need, c, imageId)), IMAGE_ID_KEY)
  }

  /** The monitor is the container's own process, so that what is in its environment is in
      the container's. */
  predicate Consistent(c: Container) {
    c.pxImage.Some? ==> exists e :: e in c.env && Sets(e, IMAGE_KEY)
  }

  lemma {:induction false} FilterPathKeeps(env: seq<string>, e: string)
    requires e in env && !("PATH=" <= e)
    ensures e in FilterPath(env)
  {
    if env[0] != e {
      FilterPathKeeps(env[1..], e);
    }
  }

  /** The environment always has an entry for the image, given or added; and so it never
      consists of nothing but "-e". */
  lemma ImageEntryPresent(c: Container) returns (e: string)
    requires Consistent(c)
    ensures e in BaseEnv(c) && e != "-e"
  {
    var added := if c.pxImage.None? then [IMAGE_KEY + "=" + DEFAULT_IMAGE] else [];
    if c.pxImage.None? {
      e := IMAGE_KEY + "=" + DEFAULT_IMAGE;
      assert added[0] == e && e in c.env + added;
    } else {
      e :| e in c.env && Sets(e, IMAGE_KEY);
    }
    assert e[0] == 'P' && e[1] == 'X';
    FilterPathKeeps(c.env + added, e);
  }

  /** So px-runc always reads the command line in step with the last entry, whatever the
      user's arguments are. */
  lemma NeverMisaligned(need: bool, c: Container)
    requires Consistent(c)
    ensures !Misaligned(Leading(need, c), c.mounts, BaseEnv(c))
  {
    var e := ImageEntryPresent(c);
  }

  /** What goes into the environment handed to px-runc: every entry of the container's but
      PATH, the default image if none is named, and the ID of the pulled image if it is known. */
  lemma EnvironmentIs(c: Container, imageId: Option<string>, e: string)
    ensures multiset(FullEnv(c, imageId))[e] ==
              (if "PATH=" <= e then 0 else multiset(c.env)[e])
              + (if c.pxImage.None? && e == "PX_IMAGE=" + "portworx/px-enterprise:1.2.12.1" then 1 else 0)
              + (if imageId.Some? && |imageId.value| > 19 && e == "PX_IMAGE_ID=" + imageId.value then 1 else 0)
  {
    BaseEnvironmentIs(c, e);
    if imageId.Some? && LongId(imageId.value) { IdComesLast(c, imageId.value); }
  }

  lemma DefaultImageEntry(image: string)
    ensures IMAGE_KEY + "=" + image == "PX_IMAGE=" + image && !("PATH=" <= "PX_IMAGE=" + image)
  {
    assert IMAGE_KEY + "=" == "PX_IMAGE=";
    assert ("PX_IMAGE=" + image)[1] == 'X' && "PATH="[1] == 'A';
  }

  lemma BaseEnvironmentIs(c: Container, e: string)
    ensures multiset(BaseEnv(c))[e] ==
              (if "PATH=" <= e then 0 else multiset(c.env)[e])
              + (if c.pxImage.None? && e == "PX_IMAGE=" + "portworx/px-enterprise:1.2.12.1" then 1 else 0)
  {
    DefaultImageEntry(DEFAULT_IMAGE);
    FilterPathCount(c.env + if c.pxImage.None? then [IMAGE_KEY + "=" + DEFAULT_IMAGE] else [], e);
  }

  lemma {:induction false} FilterPathCount(env: seq<string>, e: string)
    ensures multiset(FilterPath(env))[e] == if "PATH=" <= e then 0 else multiset(env)[e]
  {
    if env != [] {
      FilterPathCount(env[1..], e);
      assert env == [env[0]] + env[1..];
    }
  }

  /** The ID comes last. */
  lemma IdComesLast(c: Container, id: string)
    requires LongId(id)
    ensures FullEnv(c, Some(id)) == BaseEnv(c) + ["PX_IMAGE_ID=" + id]
  {
    assert IMAGE_ID_KEY + "=" + id == "PX_IMAGE_ID=" + id;
  }

  /** How px-runc is called: for a staged release, on its own directory and without a unit. */
  lemma CommandLineBegins(need: bool, c: Container, imageId: Option<string>)
    ensures need ==>
              ["install", "-oci", "/opt/pwx/oci/inst-k8s/oci", "-sysd", "/dev/null"] + c.user
                <= CommandLine(need, c, imageId)
    ensures !need ==> ["install"] + c.user <= CommandLine(need, c, imageId)
  {
    TailAt(Leading(need, c), c.mounts, FullEnv(c, imageId), 0);
  }

  /** And what px-runc stores: the user's own `-e` values, and after them the environment, entry
      by entry and in order; nothing of the mounts. */
  lemma EnvironmentStored(need: bool, c: Container, imageId: Option<string>)
    requires !Scan(Leading(need, c), false).pending
    ensures StoredEnv(CommandLine(need, c, imageId)) == StoredEnv(Leading(need, c)) + FullEnv(c, imageId)
  {
    var user, passed, env := Leading(need, c), PassedMounts(c.mounts), FullEnv(c, imageId);
    ScanConcat(user + Flatten("-v", passed), Flatten("-e", env), false);
    ScanConcat(user, Flatten("-v", passed), false);
    ScanMountPairs(passed, false);
    ScanMountsStored(passed);
    ScanEnvPairs(env, false);
    assert StoredEnv(user) + [] == StoredEnv(user);
  }

  lemma StoredIdIs(need: bool, c: Container, id: string)
    requires LongId(id) && Consistent(c)
    ensures StoredId(need, c, Some(id)) == id
  {
    ImageIdReadBack(Leading(need, c), c.mounts, BaseEnv(c), id);
    NeverMisaligned(need, c);
  }

  /** The final argument-less `px-runc install` leaves the recorded ID as it was staged. */
  predicate KeepsId(c: Container, w: Plan) {
    w.swap.rewrite.Some? ==> IdIn(Some(File(w.swap.rewrite.value))) == StoredId(true, c, w.imageId)
  }

  // ---------------------------------------------------------------- one run, by parts

  /** A run that does not install: at most the live spec changes, to what px-runc stores. */
  lemma SkippingRun(t: Node, cordoned: bool, c: Container, w: Plan)
    requires !NeedInstall(t, w.imageId)
    ensures var r := DoInstall(t, cordoned, c, w);
            && StagedRelease !in r.events && (forall ok :: Switched(ok) !in r.events)
            && At(r.tree, Live, Bin) == At(t, Live, Bin) && At(r.tree, Live, Rootfs) == At(t, Live, Rootfs)
            && RecordedId(r.tree) in {RecordedId(t), StoredId(false, c, w.imageId)}
            && (At(t, Live, Config).Some? ==> At(r.tree, Live, Config).Some?)
  {
    RuncParts(t, false, CommandLine(false, c, w.imageId), w.runcOk, w.runcWrites);
    var run := RuncInstall(t, SpecPath(false), CommandLine(false, c, w.imageId), w.runcOk, w.runcWrites);
    SkippingTree(t, cordoned, c, w);
    assert DoInstall(t, cordoned, c, w).tree in {t, run.tree};
  }

  lemma SkippingTree(t: Node, cordoned: bool, c: Container, w: Plan)
    requires !NeedInstall(t, w.imageId)
    ensures var r := DoInstall(t, cordoned, c, w);
            var run := RuncInstall(t, SpecPath(false), CommandLine(false, c, w.imageId), w.runcOk, w.runcWrites);
            && r.tree in {t, run.tree}
            && forall e :: e in r.events ==> e.StateSet? || e.Restarted?
  {
    var inst := InstallPx(t, c, w);
    assert forall e :: e in inst.events ==> e.StateSet?;
    if inst.verdict == Done { ConcludeSkipping(inst, cordoned, w); }
  }

  lemma ConcludeSkipping(inst: Installed, cordoned: bool, w: Plan)
    requires !inst.status.needInstall
    ensures var r := Conclude(inst, cordoned, w);
            r.tree == inst.tree && forall e :: e in r.events ==> e in inst.events || e.StateSet? || e.Restarted?
  {
    var fin := Finalize(inst.tree, cordoned, inst.status, w);
    assert fin.tree == inst.tree && fin.events == [Restarted(w.restartOk)];
  }

  /** The tree a switch starts from: the live parts of `t`, and staged the new release with
      the spec px-runc wrote for it. */
  ghost predicate ReadyToSwitch(t: Node, s: Node, c: Container, w: Plan) {
    && (forall p :: At(s, Live, p) == At(t, Live, p))
    && At(s, Staged, Bin) == Get(w.staged, Suffix(Bin))
    && At(s, Staged, Rootfs) == Get(w.staged, Suffix(Rootfs))
    && At(s, Staged, Config) == Some(File(Spec(StoredEnv(CommandLine(true, c, w.imageId)))))
  }

  /** A run that installs: until the switch, nothing live changes. */
  lemma InstallingRun(t: Node, c: Container, w: Plan)
    requires NeedInstall(t, w.imageId)
    ensures var inst := InstallPx(t, c, w);
            && (forall p :: At(inst.tree, Live, p) == At(t, Live, p))
            && (inst.verdict == Done ==> inst.status.needInstall && ReadyToSwitch(t, inst.tree, c, w))
  {
    if Stage(t, w.staged).Some? {
      var staged := Stage(t, w.staged).value;
      forall p: Part { StageParts(t, w.staged, p); }
      StageParts(t, w.staged, Config);
      RuncParts(staged, true, CommandLine(true, c, w.imageId), w.runcOk, w.runcWrites);
      var run := RuncInstall(staged, SpecPath(true), CommandLine(true, c, w.imageId), w.runcOk, w.runcWrites);
      forall p: Part
        ensures At(run.tree, Live, p) == At(t, Live, p)
      {
        StageParts(t, w.staged, p);
        if p == Config { } else { assert At(run.tree, Live, p) == At(staged, Live, p); }
      }
      StageParts(t, w.staged, Bin);
      StageParts(t, w.staged, Rootfs);
    }
  }

  lemma InstallingRunTree(t: Node, cordoned: bool, c: Container, w: Plan)
    requires w.inspectOk && NeedInstall(t, w.imageId)
    ensures var inst, r := InstallPx(t, c, w), DoInstall(t, cordoned, c, w);
            && r.tree == (if inst.verdict == Done then Switch(inst.tree, w.swap).tree else inst.tree)
            && (r.verdict == Done ==> inst.verdict == Done && Switch(inst.tree, w.swap).ok)
  {
    InstallingRun(t, c, w);
    var inst := InstallPx(t, c, w);
    if inst.verdict == Done { ConcludeInstalling(inst, cordoned, w); }
  }

  lemma ConcludeInstalling(inst: Installed, cordoned: bool, w: Plan)
    requires inst.status.needInstall
    ensures var r, sw := Conclude(inst, cordoned, w), Switch(inst.tree, w.swap);
            r.tree == sw.tree && (r.verdict == Done ==> sw.ok)
  {
  }

  // ---------------------------------------------------------------- convergence

  /** A successful run records the ID of what it pulled. */
  lemma RunRecordsId(t: Node, cordoned: bool, c: Container, w: Plan, id: string)
    requires w.imageId == Some(id) && LongId(id) && Consistent(c) && KeepsId(c, w)
    requires DoInstall(t, cordoned, c, w).verdict == Done
    ensures !NeedInstall(DoInstall(t, cordoned, c, w).tree, Some(id))
  {
    StoredIdIs(true, c, id);
    StoredIdIs(false, c, id);
    if !NeedInstall(t, Some(id)) {
      SkippingRun(t, cordoned, c, w);
    } else {
      InstallingRunTree(t, cordoned, c, w);
      InstallingRun(t, c, w);
      var inst := InstallPx(t, c, w);
      SuccessPutsStagedLive(inst.tree, w.swap, Config);
    }
  }

  /** Things that happen to the host: a run of the installer, or a step of a cleanup. */
  datatype Happening = Install(c: Container, w: Plan) | Sweep(path: Path)

  datatype History = History(tree: Node, cordoned: bool, events: seq<Event>)

  ghost predicate LegalHistory(hs: seq<Happening>) {
    forall i :: 0 <= i < |hs| && hs[i].Sweep? ==> IsSweep(hs[i].path)
  }

  function After(t: Node, cordoned: bool, hs: seq<Happening>): History
    requires LegalHistory(hs)
    decreases |hs|
  {
    if hs == [] then History(t, cordoned, [])
    else
      match hs[0]
      case Sweep(path) => After(Remove(t, path), cordoned, hs[1..])
      case Install(c, w) =>
        var r := DoInstall(t, cordoned, c, w);
        var rest := After(r.tree, r.cordoned, hs[1..]);
        rest.(events := r.events + rest.events)
  }

  lemma SweepKeepsLive(t: Node, path: Path, p: Part)
    requires IsSweep(path)
    ensures At(Remove(t, path), Live, p) == At(t, Live, p)
  {
    LocApart(Live, p);
    var root := if STAGE <= path then STAGE else SCRATCH;
    DisjointBelow(root, path, Loc(Live, p));
    GetRemoveElsewhere(t, path, Loc(Live, p));
  }

  // ---------------------------------------------------------------- runs amid a cleanup

  ghost predicate AllSweeps(paths: seq<Path>) {
    forall path :: path in paths ==> IsSweep(path)
  }

  function SweepAll(t: Node, paths: seq<Path>): Node
    requires AllSweeps(paths)
    decreases |paths|
  {
    if paths == [] then t
    else
      assert IsSweep(paths[0]);
      SweepAll(Remove(t, paths[0]), paths[1..])
  }

  lemma {:induction false} SweepAllKeepsLive(t: Node, paths: seq<Path>, p: Part)
    requires AllSweeps(paths)
    ensures At(SweepAll(t, paths), Live, p) == At(t, Live, p)
    decreases |paths|
  {
    if paths != [] {
      SweepKeepsLive(t, paths[0], p);
      SweepAllKeepsLive(Remove(t, paths[0]), paths[1..], p);
    }
  }

  /** A run that decides on the tree as it is, and then skips the install, with deletions by
      a cleanup between its decision and px-runc.  Nothing it does to the tree comes later. */
  function SkipAmid(t: Node, cordoned: bool, c: Container, w: Plan, amid: seq<Path>): RunResult
    requires AllSweeps(amid) && !NeedInstall(t, w.imageId)
  {
    var pulled := if w.downloading then [StateSet(SetInstalling)] else [];
    var s := SweepAll(t, amid);
    if !w.inspectOk then RunResult(s, cordoned, Failed, [])
    else if !w.pullOk then RunResult(s, cordoned, Exited, pulled)
    else
      var inst := RunRunc(s, false, false, c, w, pulled + [StateSet(SetFinished)]);
      if inst.verdict != Done then RunResult(inst.tree, cordoned, inst.verdict, inst.events)
      else Conclude(inst, cordoned, w)
  }

  /** They might as well have come first: the decision does not look at what they delete. */
  lemma SkipAmidIs(t: Node, cordoned: bool, c: Container, w: Plan, amid: seq<Path>)
    requires AllSweeps(amid) && !NeedInstall(t, w.imageId)
    ensures !NeedInstall(SweepAll(t, amid), w.imageId)
    ensures SkipAmid(t, cordoned, c, w, amid) == DoInstall(SweepAll(t, amid), cordoned, c, w)
  {
    SweepAllKeepsLive(t, amid, Config);
  }

  /** Things that happen while a cleanup is at work: one of its deletions, or a run with
      some of them in the middle. */
  datatype Occurrence = Swept(path: Path) | Ran(c: Container, w: Plan, amid: seq<Path>)

  ghost predicate LegalOccurrences(os: seq<Occurrence>) {
    forall i :: 0 <= i < |os| ==> if os[i].Swept? then IsSweep(os[i].path) else AllSweeps(os[i].amid)
  }

  /** A run that has to install does not let go of the tree in between; here it comes last. */
  function AfterAll(t: Node, cordoned: bool, os: seq<Occurrence>): History
    requires LegalOccurrences(os)
    decreases |os|
  {
    if os == [] then History(t, cordoned, [])
    else
      match os[0]
      case Swept(path) => AfterAll(Remove(t, path), cordoned, os[1..])
      case Ran(c, w, amid) =>
        var r :=
          if NeedInstall(t, w.imageId) then DoInstall(SweepAll(t, amid), cordoned, c, w)
          else SkipAmid(t, cordoned, c, w, amid);
        var rest := AfterAll(r.tree, r.cordoned, os[1..]);
        rest.(events := r.events + rest.events)
  }

  /** Every run pulls image `id`. */
  ghost predicate AllPull(os: seq<Occurrence>, id: string) {
    && LegalOccurrences(os)
    && forall i :: 0 <= i < |os| && os[i].Ran? ==> os[i].w.imageId == Some(id) && Consistent(os[i].c)
  }

  /** With `id` on record, no run that pulls it stages or switches anything, however many
      there are, whatever fails in them, and whenever a cleanup deletes, between runs or in
      the middle of one. */
  lemma {:induction false} RecordedIdLasts(t: Node, cordoned: bool, os: seq<Occurrence>, id: string)
    requires LongId(id) && !NeedInstall(t, Some(id)) && AllPull(os, id)
    ensures var a := AfterAll(t, cordoned, os);
            && StagedRelease !in a.events && (forall ok :: Switched(ok) !in a.events)
            && !NeedInstall(a.tree, Some(id))
    decreases |os|
  {
    if os != [] {
      match os[0]
      case Swept(path) =>
        SweepKeepsLive(t, path, Config);
        RecordedIdLasts(Remove(t, path), cordoned, os[1..], id);
      case Ran(c, w, amid) =>
        SkipAmidIs(t, cordoned, c, w, amid);
        SweepAllKeepsLive(t, amid, Config);
        var s := SweepAll(t, amid);
        SkippingRun(s, cordoned, c, w);
        StoredIdIs(false, c, id);
        var r := DoInstall(s, cordoned, c, w);
        RecordedIdLasts(r.tree, r.cordoned, os[1..], id);
    }
  }

  /** Install convergence: one successful run that pulled an image makes every later run
      that pulls the same image leave the installed release alone. */
  lemma InstallConverges(t: Node, cordoned: bool, c: Container, w: Plan, os: seq<Occurrence>, id: string)
    requires w.imageId == Some(id) && LongId(id) && Consistent(c) && KeepsId(c, w)
    requires DoInstall(t, cordoned, c, w).verdict == Done
    requires AllPull(os, id)
    ensures var r := DoInstall(t, cordoned, c, w);
            var a := AfterAll(r.tree, r.cordoned, os);
            StagedRelease !in a.events && forall ok :: Switched(ok) !in a.events
  {
    RunRecordsId(t, cordoned, c, w, id);
    var r := DoInstall(t, cordoned, c, w);
    RecordedIdLasts(r.tree, r.cordoned, os, id);
  }
}
