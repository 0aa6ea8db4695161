/** Histories that begin on a host with nothing installed: harmless as long as every run
    pulls the same image, and the two runs that make the record false when they do not.
 */
module FreshHost {
  import opened Common
  import opened HostTree
  import opened OciSwitch
  import opened SwitchTheorems
  import opened OciEnv
  import opened OciInstall
  import opened InstallTheorems
  import opened Coherence

  // ---------------------------------------------------------------- one image

  /** Whatever is live of bin and rootfs is of release `r`. */
  ghost predicate OnlyFrom(t: Node, r: Release) {
    At(t, Live, Bin) in {None, Some(r.bin)} && At(t, Live, Rootfs) in {None, Some(r.rootfs)}
  }

  lemma OneImageSwitch(t: Node, s: Node, c: Container, w: Plan, images: Registry, id: string)
    requires Trusted(c, w, images) && ReadyToSwitch(t, s, c, w) && w.imageId == Some(id) && LongId(id)
    requires OnlyFrom(s, images(id))
    ensures OnlyFrom(Switch(s, w.swap).tree, images(id))
  {
    var r := Switch(s, w.swap);
    PurgeCleans(s, w.swap);
    if r.ok {
      SwitchInstalls(s, w.swap);
      assert PartInstalled(s, r.tree, Bin, w.swap) && PartInstalled(s, r.tree, Rootfs, w.swap);
    } else if r.entered {
      RollbackRestores(s, w.swap);
      assert At(r.tree, Live, Bin) == LeftBehind(s, Bin, w.swap);
      assert At(r.tree, Live, Rootfs) == LeftBehind(s, Rootfs, w.swap);
    } else {
      NothingMovedBeforeMkdir(s, w.swap, Bin);
      NothingMovedBeforeMkdir(s, w.swap, Rootfs);
    }
  }

  lemma OneImageRun(t: Node, cordoned: bool, c: Container, w: Plan, images: Registry, id: string)
    requires Coherent(t, images) && Trusted(c, w, images) && w.imageId == Some(id) && LongId(id)
    requires OnlyFrom(t, images(id))
    ensures !FalseRun(t, c, w, images) && OnlyFrom(DoInstall(t, cordoned, c, w).tree, images(id))
  {
    if !NeedInstall(t, w.imageId) {
      SkippingRun(t, cordoned, c, w);
    } else if w.inspectOk {
      InstallingRun(t, c, w);
      InstallingRunTree(t, cordoned, c, w);
      var s := InstallPx(t, c, w).tree;
      assert At(s, Live, Bin) == At(t, Live, Bin) && At(s, Live, Rootfs) == At(t, Live, Rootfs);
      if InstallPx(t, c, w).verdict == Done {
        OneImageSwitch(t, s, c, w, images, id);
        TrustedRun(t, cordoned, c, w, images);
        OneImageNotFalse(t, s, c, w, images, id);
      }
    }
  }

  lemma OneImageNotFalse(t: Node, s: Node, c: Container, w: Plan, images: Registry, id: string)
    requires Faithful(c, w, images) && ReadyToSwitch(t, s, c, w) && w.imageId == Some(id) && LongId(id)
    requires OnlyFrom(s, images(id))
    ensures !FalseRecord(s, c, w)
  {
  }

  /** From a host that has nothing but parts of one release, a fresh one included, no
      history of runs that pull that release makes the record false, whatever fails. */
  lemma {:induction false} OneImageHistory(t: Node, cordoned: bool, hs: seq<Happening>, images: Registry, id: string)
    requires Coherent(t, images) && OnlyFrom(t, images(id)) && LongId(id) && AllTrusted(hs, images)
    requires forall i :: 0 <= i < |hs| && hs[i].Install? ==> hs[i].w.imageId == Some(id)
    ensures NoFalseRun(t, cordoned, hs, images) && AlwaysCoherent(t, cordoned, hs, images)
    decreases |hs|
  {
    if hs != [] {
      match hs[0]
      case Sweep(path) =>
        SweepKeepsCoherence(t, path, images);
        SweepKeepsLive(t, path, Bin);
        SweepKeepsLive(t, path, Rootfs);
        OneImageHistory(Remove(t, path), cordoned, hs[1..], images, id);
      case Install(c, w) =>
        OneImageRun(t, cordoned, c, w, images, id);
        RunKeepsCoherence(t, cordoned, c, w, images);
        var r := DoInstall(t, cordoned, c, w);
        OneImageHistory(r.tree, r.cordoned, hs[1..], images, id);
    }
  }

  // ---------------------------------------------------------------- two images

  const OCI: Path := ["opt", "pwx", "oci"]

  /** The directory is there, and nobody has staged anything. */
  predicate Idle(t: Node) {
    IsDir(t, OCI) && Get(t, STAGE).None?
  }

  /** A run in which nothing fails before the switch, nor the switch's first two steps. */
  predicate GoesOn(w: Plan) {
    && w.inspectOk && w.pullOk && w.stageOk && w.runcOk && w.imageId.Some? && LongId(w.imageId.value)
    && IsDir(w.staged, ["oci"]) && !IsDir(w.staged, ["oci", "config.json"])
    && !w.swap.fails(Purge) && !w.swap.fails(Mkdir)
  }

  lemma StageWorks(t: Node, release: Node)
    requires Idle(t) && IsDir(release, ["oci"]) && !IsDir(release, ["oci", "config.json"])
    ensures Stage(t, release).Some?
    ensures var s, path := Stage(t, release).value, Loc(Staged, Config);
            IsDir(s, OCI) && CanPut(s, path) && !IsDir(s, path)
  {
    assert STAGE[..3] == OCI && STAGE[..4] == STAGE;
    MkdirAllWorks(t, STAGE, 3);
    var made := MkdirAll(t, STAGE).value;
    var s := Put(made, STAGE, release);
    MkdirAllMakes(t, STAGE);
    MkdirAllKeepsDir(t, STAGE, OCI);
    IsDirPut(made, STAGE, release, OCI);
    IsDirAbove(made, STAGE, STAGE[..3]);
    GetPut(made, STAGE, release);
    GetThenGet(s, STAGE, ["oci"]);
    GetThenGet(s, STAGE, ["oci", "config.json"]);
    var path := Loc(Staged, Config);
    assert path == STAGE + ["oci", "config.json"] && path[..|path| - 1] == STAGE + ["oci"];
  }

  lemma MkdirWorks(t: Node, w: Faults)
    requires IsDir(t, OCI) && !w.fails(Purge) && !w.fails(Mkdir)
    ensures Prepared(t, w).Some?
  {
    var u := Purged(t, w);
    IsDirRemove(t, SCRATCH, OCI);
    GetRemove(t, SCRATCH);
    assert SCRATCH_OCI[..3] == OCI && SCRATCH_OCI[..4] == SCRATCH;
    MkdirAllWorks(u, SCRATCH_OCI, 3);
  }

  lemma InstallPxWorks(t: Node, c: Container, w: Plan)
    requires Idle(t) && GoesOn(w) && NeedInstall(t, w.imageId)
    ensures var inst := InstallPx(t, c, w);
            inst.verdict == Done && IsDir(inst.tree, OCI) && Prepared(inst.tree, w.swap).Some?
  {
    StageWorks(t, w.staged);
    var s := Stage(t, w.staged).value;
    var file := File(Spec(StoredEnv(CommandLine(true, c, w.imageId))));
    LocApart(Staged, Config);
    IsDirPut(s, Loc(Staged, Config), file, OCI);
    assert InstallPx(t, c, w).tree == Put(s, Loc(Staged, Config), file);
    MkdirWorks(InstallPx(t, c, w).tree, w.swap);
  }

  /** A run on an idle host leaves an idle host, once the cleanup is through with it. */
  lemma IdleAgain(t: Node, cordoned: bool, c: Container, w: Plan)
    requires Idle(t) && GoesOn(w) && NeedInstall(t, w.imageId)
    ensures var r := Remove(Remove(DoInstall(t, cordoned, c, w).tree, STAGE), SCRATCH);
            && Idle(r)
            && forall p :: At(r, Live, p) == At(Switch(InstallPx(t, c, w).tree, w.swap).tree, Live, p)
  {
    InstallPxWorks(t, c, w);
    InstallingRunTree(t, cordoned, c, w);
    var s := InstallPx(t, c, w).tree;
    var u := Switch(s, w.swap).tree;
    SwitchKeepsDir(s, w.swap, OCI);
    IsDirRemove(u, STAGE, OCI);
    IsDirRemove(Remove(u, STAGE), SCRATCH, OCI);
    GetRemove(u, STAGE);
    DisjointWhere(SCRATCH, STAGE, 3);
    GetRemoveElsewhere(Remove(u, STAGE), SCRATCH, STAGE);
    forall p: Part
      ensures At(Remove(Remove(u, STAGE), SCRATCH), Live, p) == At(u, Live, p)
    {
      SweepKeepsLive(u, STAGE, p);
      SweepKeepsLive(Remove(u, STAGE), SCRATCH, p);
    }
  }

  /** A switch that gets as far as bin. */
  lemma SwitchLeavesBin(s: Node, w: Faults)
    requires Prepared(s, w).Some? && !w.fails(Purge) && RollbackWorks(w) && forall p :: At(s, Live, p).None?
    requires At(s, Staged, Bin).Some? && w.fails(MoveIn(Rootfs)) && !w.fails(MoveIn(Bin))
    ensures var r := Switch(s, w).tree;
            At(r, Live, Bin) == At(s, Staged, Bin) && At(r, Live, Rootfs) == None && At(r, Live, Config) == None
  {
    PurgeCleans(s, w);
    SwitchSucceedsWhen(s, w);
    assert !Movable(s, Rootfs, w);
    assert Rank(Bin) == 0 && Rank(Rootfs) == 1 && Rank(Config) == 2;
    forall q: Part | Rank(q) <= Rank(Bin)
      ensures Movable(s, q, w)
    {
      RankInjective(q, Bin);
    }
    RollbackRestores(s, w);
    assert LeftBehind(s, Bin, w) == At(s, Staged, Bin);
    assert !MovedIn(s, Rootfs, w) && !MovedIn(s, Config, w);
  }

  /** The first run of the two. */
  lemma FirstRunLeavesBin(t: Node, c: Container, w: Plan)
    requires Idle(t) && GoesOn(w) && RollbackWorks(w.swap) && forall p :: At(t, Live, p).None?
    requires Get(w.staged, Suffix(Bin)).Some?
    requires w.swap.fails(MoveIn(Rootfs)) && !w.swap.fails(MoveIn(Bin))
    ensures var r := Switch(InstallPx(t, c, w).tree, w.swap).tree;
            && At(r, Live, Bin) == Get(w.staged, Suffix(Bin))
            && At(r, Live, Rootfs) == None && At(r, Live, Config) == None
  {
    assert At(t, Live, Config).None?;
    InstallPxWorks(t, c, w);
    InstallingRun(t, c, w);
    var s := InstallPx(t, c, w).tree;
    forall p: Part
      ensures At(s, Live, p).None?
    {
      assert At(s, Live, p) == At(t, Live, p);
    }
    SwitchLeavesBin(s, w.swap);
  }

  /** Everything moves, and the reinstall fails. */
  lemma FalseRecordFrom(t: Node, s: Node, c: Container, w: Plan)
    requires ReadyToSwitch(t, s, c, w) && Prepared(s, w.swap).Some? && forall a :: w.swap.fails(a) <==> a == Reinstall
    requires w.imageId.Some? && LongId(w.imageId.value) && Consistent(c)
    requires At(t, Live, Bin).Some? && At(t, Live, Config).None? && At(t, Live, Bin) != Get(w.staged, Suffix(Bin))
    requires Get(w.staged, Suffix(Bin)).Some? && Get(w.staged, Suffix(Rootfs)).Some?
    ensures FalseRecord(s, c, w)
  {
    StoredIdIs(true, c, w.imageId.value);
    forall p: Part
      ensures Movable(s, p, w.swap)
    {
      match p case Bin => case Rootfs => case Config =>
    }
    assert At(s, Live, Bin) == At(t, Live, Bin) && At(s, Live, Config) == At(t, Live, Config);
  }

  /** The second run. */
  lemma SecondRunIsFalse(t: Node, c: Container, w: Plan, images: Registry)
    requires Idle(t) && GoesOn(w) && Trusted(c, w, images)
    requires forall a :: w.swap.fails(a) <==> a == Reinstall
    requires At(t, Live, Bin).Some? && At(t, Live, Config).None? && At(t, Live, Bin) != Get(w.staged, Suffix(Bin))
    ensures FalseRun(t, c, w, images)
  {
    InstallPxWorks(t, c, w);
    InstallingRun(t, c, w);
    var s := InstallPx(t, c, w).tree;
    assert At(s, Live, Config) == At(t, Live, Config);
    FalseRecordFrom(t, s, c, w);
    EndsFalseIs(t, s, c, w, images);
  }

  function Prepend(h: Happening, hs: seq<Happening>): seq<Happening> {
    [h] + hs
  }

  /** What is false later makes the whole history one with a false run. */
  lemma FalseAfterSweep(t: Node, cordoned: bool, path: Path, hs: seq<Happening>, images: Registry)
    requires IsSweep(path) && LegalHistory(hs) && !NoFalseRun(Remove(t, path), cordoned, hs, images)
    ensures LegalHistory(Prepend(Sweep(path), hs)) && !NoFalseRun(t, cordoned, Prepend(Sweep(path), hs), images)
  {
    assert Prepend(Sweep(path), hs)[1..] == hs;
  }

  lemma FalseAfterRun(t: Node, cordoned: bool, c: Container, w: Plan, r: RunResult,
                      hs: seq<Happening>, images: Registry)
    requires r == DoInstall(t, cordoned, c, w) && LegalHistory(hs) && !NoFalseRun(r.tree, r.cordoned, hs, images)
    ensures LegalHistory(Prepend(Install(c, w), hs)) && !NoFalseRun(t, cordoned, Prepend(Install(c, w), hs), images)
  {
    assert Prepend(Install(c, w), hs)[1..] == hs;
  }

  lemma FalseNow(t: Node, cordoned: bool, c: Container, w: Plan, images: Registry)
    requires FalseRun(t, c, w, images)
    ensures LegalHistory([Install(c, w)]) && !NoFalseRun(t, cordoned, [Install(c, w)], images)
  {
  }

  /** A run, the whole cleanup, another run. */
  function RunCleanupRun(c: Container, w1: Plan, w2: Plan): seq<Happening> {
    Prepend(Install(c, w1), Prepend(Sweep(STAGE), Prepend(Sweep(SCRATCH), [Install(c, w2)])))
  }

  lemma RunCleanupFalse(t: Node, c: Container, w1: Plan, w2: Plan, r: RunResult, images: Registry)
    requires r == DoInstall(t, false, c, w1)
    requires FalseRun(Remove(Remove(r.tree, STAGE), SCRATCH), c, w2, images)
    ensures LegalHistory(RunCleanupRun(c, w1, w2)) && !NoFalseRun(t, false, RunCleanupRun(c, w1, w2), images)
  {
    var last := [Install(c, w2)];
    FalseNow(Remove(Remove(r.tree, STAGE), SCRATCH), r.cordoned, c, w2, images);
    FalseAfterSweep(Remove(r.tree, STAGE), r.cordoned, SCRATCH, last, images);
    FalseAfterSweep(r.tree, r.cordoned, STAGE, Prepend(Sweep(SCRATCH), last), images);
    FalseAfterRun(t, false, c, w1, r, Prepend(Sweep(STAGE), Prepend(Sweep(SCRATCH), last)), images);
  }

  lemma RunCleanupTrusted(c: Container, w1: Plan, w2: Plan, images: Registry)
    requires Trusted(c, w1, images) && Trusted(c, w2, images)
    ensures AllTrusted(RunCleanupRun(c, w1, w2), images)
  {
    var hs := RunCleanupRun(c, w1, w2);
    assert hs == [Install(c, w1), Sweep(STAGE), Sweep(SCRATCH), Install(c, w2)];
  }

  /** Two failed runs on a fresh host, the first pulling one image and failing at the move
      of rootfs, the second pulling another and failing at the reinstall, with the whole
      cleanup between them: the record then names the second image, over the bin of the first. */
  lemma TwoFailedRunsBreakRecord(t: Node, c: Container, w1: Plan, w2: Plan, images: Registry)
    requires Idle(t) && forall p :: At(t, Live, p).None?
    requires GoesOn(w1) && GoesOn(w2) && Trusted(c, w1, images) && Trusted(c, w2, images)
    requires images(w1.imageId.value).bin != images(w2.imageId.value).bin
    requires forall a :: w1.swap.fails(a) <==> a == MoveIn(Rootfs)
    requires forall a :: w2.swap.fails(a) <==> a == Reinstall
    ensures var hs := RunCleanupRun(c, w1, w2);
            && Coherent(t, images) && AllTrusted(hs, images)
            && !NoFalseRun(t, false, hs, images) && !AlwaysCoherent(t, false, hs, images)
  {
    assert At(t, Live, Config).None?;
    var r := DoInstall(t, false, c, w1);
    SecondRunAfterFirst(t, c, w1, w2, images, r);
    RunCleanupFalse(t, c, w1, w2, r, images);
    RunCleanupTrusted(c, w1, w2, images);
    HistoryCoherentWhen(t, false, RunCleanupRun(c, w1, w2), images);
  }

  lemma SecondRunAfterFirst(t: Node, c: Container, w1: Plan, w2: Plan, images: Registry, r: RunResult)
    requires Idle(t) && forall p :: At(t, Live, p).None?
    requires GoesOn(w1) && GoesOn(w2) && Trusted(c, w1, images) && Trusted(c, w2, images)
    requires images(w1.imageId.value).bin != images(w2.imageId.value).bin
    requires forall a :: w1.swap.fails(a) <==> a == MoveIn(Rootfs)
    requires forall a :: w2.swap.fails(a) <==> a == Reinstall
    requires r == DoInstall(t, false, c, w1)
    ensures FalseRun(Remove(Remove(r.tree, STAGE), SCRATCH), c, w2, images)
  {
    assert At(t, Live, Config).None?;
    FirstRunLeavesBin(t, c, w1);
    IdleAgain(t, false, c, w1);
    var u := Remove(Remove(r.tree, STAGE), SCRATCH);
    assert At(u, Live, Bin) == Get(w1.staged, Suffix(Bin)) && At(u, Live, Config) == None;
    SecondRunIsFalse(u, c, w2, images);
  }
}
