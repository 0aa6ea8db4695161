/** The image ID recorded in config.json vouches for the release that is live: over
    whole histories of runs and cleanups, and at the points where a run may die.
 */
module Coherence {
  import opened Common
  import opened HostTree
  import opened OciSwitch
  import opened SwitchTheorems
  import opened StaleScratch
  import opened OciEnv
  import opened OciInstall
  import opened InstallTheorems

  /** The parts of a release, and the release that an image ID stands for. */
  datatype Release = Release(bin: Node, rootfs: Node)

  type Registry = string -> Release

  ghost predicate LiveRelease(t: Node, r: Release) {
    At(t, Live, Bin) == Some(r.bin) && At(t, Live, Rootfs) == Some(r.rootfs)
  }

  /** An ID on record, long enough to be compared, names the live release. */
  ghost predicate Coherent(t: Node, images: Registry) {
    LongId(RecordedId(t)) ==> LiveRelease(t, images(RecordedId(t)))
  }

  /** All three parts are installed. */
  ghost predicate Whole(t: Node) {
    forall p :: At(t, Live, p).Some?
  }

  /** The container names no image ID of its own, neither in its environment nor in its arguments. */
  predicate NamesNoId(c: Container) {
    forall need: bool :: !LongId(StoredId(need, c, None))
  }

  /** What a run is trusted with: the installer container delivers the release of the image
      whose ID was read; the container does not name an ID itself; and the last `px-runc
      install` keeps the recorded one. */
  ghost predicate Faithful(c: Container, w: Plan, images: Registry) {
    && (w.imageId.Some? && LongId(w.imageId.value) ==>
          && Get(w.staged, Suffix(Bin)) == Some(images(w.imageId.value).bin)
          && Get(w.staged, Suffix(Rootfs)) == Some(images(w.imageId.value).rootfs))
    && Consistent(c) && NamesNoId(c) && KeepsId(c, w)
  }

  /** ... and its purge and its rollback do not fail. */
  ghost predicate Trusted(c: Container, w: Plan, images: Registry) {
    Faithful(c, w, images) && RollbackWorks(w.swap) && !w.swap.fails(Purge)
  }

  /** The ID a run would record: that of the image it pulled, or none that counts. */
  lemma StoredIdIsPulled(need: bool, c: Container, w: Plan)
    requires Consistent(c) && NamesNoId(c)
    ensures LongId(StoredId(need, c, w.imageId)) ==> w.imageId == Some(StoredId(need, c, w.imageId))
  {
    assert !LongId(StoredId(need, c, None));
    if w.imageId.Some? && LongId(w.imageId.value) {
      StoredIdIs(need, c, w.imageId.value);
    } else {
      assert FullEnv(c, w.imageId) == FullEnv(c, None);
    }
  }

  // ---------------------------------------------------------------- one run

  /** A skipped install was rightly skipped: the live release is the one just pulled. */
  lemma SkippingIsSound(t: Node, images: Registry, id: string)
    requires Coherent(t, images) && !NeedInstall(t, Some(id))
    ensures LiveRelease(t, images(id))
  {
  }

  lemma SkippingKeepsCoherence(t: Node, cordoned: bool, c: Container, w: Plan, images: Registry)
    requires Coherent(t, images) && Faithful(c, w, images) && !NeedInstall(t, w.imageId)
    ensures var r := DoInstall(t, cordoned, c, w).tree;
            && Coherent(r, images) && (Whole(t) ==> Whole(r))
            && (At(t, Live, Config).Some? ==> At(r, Live, Config).Some?)
  {
    SkippingRun(t, cordoned, c, w);
    StoredIdIsPulled(false, c, w);
    var r := DoInstall(t, cordoned, c, w).tree;
    if Whole(t) {
      forall p: Part
        ensures At(r, Live, p).Some?
      {
        assert At(t, Live, p).Some?;
      }
    }
  }

  /** The record of a successful switch is that of the staged spec, whatever scratch held. */
  lemma SwitchedIsCoherent(t: Node, s: Node, c: Container, w: Plan, images: Registry)
    requires Faithful(c, w, images) && ReadyToSwitch(t, s, c, w) && Switch(s, w.swap).ok
    ensures var r := Switch(s, w.swap).tree; Coherent(r, images) && Whole(r)
  {
    forall p: Part { SuccessPutsStagedLive(s, w.swap, p); }
    InstalledIsCoherent(t, s, c, w, images, Switch(s, w.swap).tree);
  }

  lemma InstalledIsCoherent(t: Node, s: Node, c: Container, w: Plan, images: Registry, r: Node)
    requires Faithful(c, w, images) && ReadyToSwitch(t, s, c, w)
    requires forall p ::
               && At(s, Staged, p).Some?
               && At(r, Live, p) == if p == Config then Respec(At(s, Staged, p), w.swap) else At(s, Staged, p)
    ensures Coherent(r, images) && Whole(r)
  {
    assert At(r, Live, Bin) == At(s, Staged, Bin) && At(r, Live, Rootfs) == At(s, Staged, Rootfs);
    assert At(r, Live, Config) == Respec(At(s, Staged, Config), w.swap);
    assert RecordedId(r) == StoredId(true, c, w.imageId);
    StoredIdIsPulled(true, c, w);
  }

  // ---------------------------------------------------------------- a failed switch, whatever fails

  /** A switch fails and leaves a record that is false: the ID in what its rollback, working
      or not, makes of config.json does not name what it makes of the other two parts. */
  ghost predicate EndsFalse(s: Node, w: Faults, images: Registry) {
    var id := IdIn(Revived(s, w, Config));
    && Prepared(s, w).Some? && !(AllPass(s, w) && !w.fails(Reinstall))
    && LongId(id)
    && !(Revived(s, w, Bin) == Some(images(id).bin) && Revived(s, w, Rootfs) == Some(images(id).rootfs))
  }

  lemma SwitchCoherentWhen(t: Node, s: Node, c: Container, w: Plan, images: Registry)
    requires Coherent(s, images) && Faithful(c, w, images) && ReadyToSwitch(t, s, c, w)
    ensures Coherent(Switch(s, w.swap).tree, images) <==> !EndsFalse(s, w.swap, images)
  {
    var r := Switch(s, w.swap).tree;
    if !Switch(s, w.swap).entered {
      forall p: Part { NothingMovedBeforeMkdir(s, w.swap, p); }
      SameLiveSameCoherence(s, r, images);
    } else {
      StaleSwitchSucceedsWhen(s, w.swap);
      if Switch(s, w.swap).ok {
        SwitchedIsCoherent(t, s, c, w, images);
      } else {
        forall p: Part { StaleOutcome(s, w.swap, p); }
        assert At(r, Live, Config) == Revived(s, w.swap, Config);
        assert At(r, Live, Bin) == Revived(s, w.swap, Bin) && At(r, Live, Rootfs) == Revived(s, w.swap, Rootfs);
      }
    }
  }

  lemma SameLiveSameCoherence(t: Node, r: Node, images: Registry)
    requires forall p :: At(r, Live, p) == At(t, Live, p)
    ensures Coherent(t, images) <==> Coherent(r, images)
    ensures Whole(t) <==> Whole(r)
  {
    assert At(r, Live, Bin) == At(t, Live, Bin) && At(r, Live, Rootfs) == At(t, Live, Rootfs);
    assert At(r, Live, Config) == At(t, Live, Config);
  }

  // ---------------------------------------------------------------- a failed switch whose rollback works

  /** With a purge and a rollback that work, the one way for a record to become false: nothing
      to roll config.json back to, so that a failed reinstall leaves the new one in place,
      while another part goes back to something other than its staged version. */
  predicate FalseRecord(s: Node, c: Container, w: Plan) {
    && Prepared(s, w.swap).Some? && w.swap.fails(Reinstall) && (forall p :: Movable(s, p, w.swap))
    && At(s, Live, Config).None? && LongId(StoredId(true, c, w.imageId))
    && !(At(s, Live, Bin) in {None, At(s, Staged, Bin)} && At(s, Live, Rootfs) in {None, At(s, Staged, Rootfs)})
  }

  lemma AllMovedIn(s: Node, w: Faults)
    ensures MovedIn(s, Config, w) <==> forall p :: Movable(s, p, w)
  {
    assert forall p :: Rank(p) <= Rank(Config);
  }

  /** After a switch that entered and failed, in terms of what is left behind. */
  lemma LeftBehindCoherentWhen(t: Node, s: Node, c: Container, w: Plan, images: Registry, r: Node)
    requires Coherent(s, images) && Trusted(c, w, images) && ReadyToSwitch(t, s, c, w)
    requires Prepared(s, w.swap).Some? && ((forall p :: Movable(s, p, w.swap)) ==> w.swap.fails(Reinstall))
    requires forall p :: At(r, Live, p) == LeftBehind(s, p, w.swap)
    ensures Coherent(r, images) <==> !FalseRecord(s, c, w)
  {
    AllMovedIn(s, w.swap);
    assert At(r, Live, Config) == LeftBehind(s, Config, w.swap);
    assert At(r, Live, Bin) == LeftBehind(s, Bin, w.swap) && At(r, Live, Rootfs) == LeftBehind(s, Rootfs, w.swap);
    if At(s, Live, Config).None? && MovedIn(s, Config, w.swap) {
      assert MovedIn(s, Bin, w.swap) && MovedIn(s, Rootfs, w.swap);
      assert RecordedId(r) == StoredId(true, c, w.imageId);
      StoredIdIsPulled(true, c, w);
    }
  }

  lemma FailedSwitchCoherentWhen(t: Node, s: Node, c: Container, w: Plan, images: Registry)
    requires Coherent(s, images) && Trusted(c, w, images) && ReadyToSwitch(t, s, c, w)
    requires !Switch(s, w.swap).ok
    ensures Coherent(Switch(s, w.swap).tree, images) <==> !FalseRecord(s, c, w)
  {
    if !Switch(s, w.swap).entered {
      forall p: Part { NothingMovedBeforeMkdir(s, w.swap, p); }
      SameLiveSameCoherence(s, Switch(s, w.swap).tree, images);
    } else {
      PurgeCleans(s, w.swap);
      RollbackRestores(s, w.swap);
      SwitchSucceedsWhen(s, w.swap);
      assert forall p :: RollsBack(w.swap, p);
      LeftBehindCoherentWhen(t, s, c, w, images, Switch(s, w.swap).tree);
    }
  }

  /** So there the two say the same. */
  lemma EndsFalseIs(t: Node, s: Node, c: Container, w: Plan, images: Registry)
    requires Coherent(s, images) && Trusted(c, w, images) && ReadyToSwitch(t, s, c, w)
    ensures EndsFalse(s, w.swap, images) <==> FalseRecord(s, c, w)
  {
    SwitchCoherentWhen(t, s, c, w, images);
    if Switch(s, w.swap).ok {
      PurgeCleans(s, w.swap);
      SwitchSucceedsWhen(s, w.swap);
      SwitchedIsCoherent(t, s, c, w, images);
    } else {
      FailedSwitchCoherentWhen(t, s, c, w, images);
    }
  }

  /** A failed switch of an install with all its parts changes nothing live, and takes no
      config.json away. */
  lemma FailedSwitchKeeps(s: Node, w: Faults, p: Part)
    requires RollbackWorks(w) && !w.fails(Purge) && !Switch(s, w).ok && At(s, Live, p).Some?
    ensures At(Switch(s, w).tree, Live, p) == At(s, Live, p)
  {
    PurgeCleans(s, w);
    assert RollsBack(w, p);
    if Switch(s, w).entered { RollbackRestores(s, w); } else { NothingMovedBeforeMkdir(s, w, p); }
  }

  // ---------------------------------------------------------------- one run, exactly

  ghost predicate FalseRun(t: Node, c: Container, w: Plan, images: Registry) {
    && w.inspectOk && NeedInstall(t, w.imageId) && InstallPx(t, c, w).verdict == Done
    && EndsFalse(InstallPx(t, c, w).tree, w.swap, images)
  }

  lemma SwitchKeepsWhole(t: Node, s: Node, c: Container, w: Plan, images: Registry)
    requires Trusted(c, w, images) && ReadyToSwitch(t, s, c, w)
    ensures var r := Switch(s, w.swap).tree;
            (Whole(s) ==> Whole(r)) && (At(s, Live, Config).Some? ==> At(r, Live, Config).Some?)
  {
    var r := Switch(s, w.swap).tree;
    if Switch(s, w.swap).ok {
      SwitchedIsCoherent(t, s, c, w, images);
      assert At(r, Live, Config).Some?;
    } else {
      forall p: Part | At(s, Live, p).Some?
        ensures At(r, Live, p).Some?
      {
        FailedSwitchKeeps(s, w.swap, p);
      }
    }
  }

  /** One run of the installer, from any host and whatever fails in it, purge and rollback
      included: the record stays truthful if and only if the run is not a false one. */
  lemma RunKeepsCoherence(t: Node, cordoned: bool, c: Container, w: Plan, images: Registry)
    requires Coherent(t, images) && Faithful(c, w, images)
    ensures Coherent(DoInstall(t, cordoned, c, w).tree, images) <==> !FalseRun(t, c, w, images)
  {
    if !NeedInstall(t, w.imageId) {
      SkippingKeepsCoherence(t, cordoned, c, w, images);
    } else if w.inspectOk {
      InstallingRun(t, c, w);
      InstallingRunTree(t, cordoned, c, w);
      var inst := InstallPx(t, c, w);
      SameLiveSameCoherence(t, inst.tree, images);
      if inst.verdict == Done { SwitchCoherentWhen(t, inst.tree, c, w, images); }
    }
  }

  /** With a purge and a rollback that work, a run is false in the one way only, which a
      config.json rules out; a config.json stays in place, and what is whole stays whole. */
  lemma TrustedRun(t: Node, cordoned: bool, c: Container, w: Plan, images: Registry)
    requires Coherent(t, images) && Trusted(c, w, images)
    ensures var r := DoInstall(t, cordoned, c, w).tree;
            && (FalseRun(t, c, w, images) <==>
                  && w.inspectOk && NeedInstall(t, w.imageId) && InstallPx(t, c, w).verdict == Done
                  && FalseRecord(InstallPx(t, c, w).tree, c, w))
            && (At(t, Live, Config).Some? ==> !FalseRun(t, c, w, images) && At(r, Live, Config).Some?)
            && (Whole(t) ==> Whole(r))
  {
    if !NeedInstall(t, w.imageId) {
      SkippingKeepsCoherence(t, cordoned, c, w, images);
    } else if w.inspectOk {
      InstallingRun(t, c, w);
      InstallingRunTree(t, cordoned, c, w);
      var inst := InstallPx(t, c, w);
      SameLiveSameCoherence(t, inst.tree, images);
      assert At(inst.tree, Live, Config) == At(t, Live, Config);
      if inst.verdict == Done {
        EndsFalseIs(t, inst.tree, c, w, images);
        SwitchKeepsWhole(t, inst.tree, c, w, images);
      }
    }
  }

  // ---------------------------------------------------------------- histories

  ghost predicate AllFaithful(hs: seq<Happening>, images: Registry) {
    forall i :: 0 <= i < |hs| ==>
      if hs[i].Install? then Faithful(hs[i].c, hs[i].w, images) else IsSweep(hs[i].path)
  }

  ghost predicate AllTrusted(hs: seq<Happening>, images: Registry) {
    forall i :: 0 <= i < |hs| ==>
      if hs[i].Install? then Trusted(hs[i].c, hs[i].w, images) else IsSweep(hs[i].path)
  }

  /** The record is truthful now and after every happening. */
  ghost predicate AlwaysCoherent(t: Node, cordoned: bool, hs: seq<Happening>, images: Registry)
    requires LegalHistory(hs)
    decreases |hs|
  {
    && Coherent(t, images)
    && (hs != [] ==>
          match hs[0]
          case Sweep(path) => AlwaysCoherent(Remove(t, path), cordoned, hs[1..], images)
          case Install(c, w) =>
            var r := DoInstall(t, cordoned, c, w);
            AlwaysCoherent(r.tree, r.cordoned, hs[1..], images))
  }

  ghost predicate NoFalseRun(t: Node, cordoned: bool, hs: seq<Happening>, images: Registry)
    requires LegalHistory(hs)
    decreases |hs|
  {
    hs != [] ==>
      match hs[0]
      case Sweep(path) => NoFalseRun(Remove(t, path), cordoned, hs[1..], images)
      case Install(c, w) =>
        var r := DoInstall(t, cordoned, c, w);
        !FalseRun(t, c, w, images) && NoFalseRun(r.tree, r.cordoned, hs[1..], images)
  }

  lemma SweepKeepsCoherence(t: Node, path: Path, images: Registry)
    requires IsSweep(path)
    ensures Coherent(t, images) <==> Coherent(Remove(t, path), images)
    ensures Whole(t) <==> Whole(Remove(t, path))
    ensures At(Remove(t, path), Live, Config) == At(t, Live, Config)
  {
    forall p: Part
      ensures At(Remove(t, path), Live, p) == At(t, Live, p)
    {
      SweepKeepsLive(t, path, p);
    }
    SameLiveSameCoherence(t, Remove(t, path), images);
  }

  /** Release coherence: over every history of runs (of any images, failing
      anywhere, in purges and rollbacks too) and of cleanup steps between them, from any host with a truthful
      record or none at all, the ID on record names the release that is live all the way
      through if and only if there is no false run in the history. */
  lemma {:induction false} HistoryCoherentWhen(t: Node, cordoned: bool, hs: seq<Happening>, images: Registry)
    requires Coherent(t, images) && AllFaithful(hs, images)
    ensures AlwaysCoherent(t, cordoned, hs, images) <==> NoFalseRun(t, cordoned, hs, images)
    decreases |hs|
  {
    if hs != [] {
      match hs[0]
      case Sweep(path) =>
        SweepKeepsCoherence(t, path, images);
        HistoryCoherentWhen(Remove(t, path), cordoned, hs[1..], images);
      case Install(c, w) =>
        RunKeepsCoherence(t, cordoned, c, w, images);
        var r := DoInstall(t, cordoned, c, w);
        if !FalseRun(t, c, w, images) { HistoryCoherentWhen(r.tree, r.cordoned, hs[1..], images); }
    }
  }

  /** As long as purges and rollbacks work, there is none once a config.json is in place, and
      it never goes away again. */
  lemma {:induction false} HistoryKeepsCoherence(t: Node, cordoned: bool, hs: seq<Happening>, images: Registry)
    requires At(t, Live, Config).Some? && Coherent(t, images) && AllTrusted(hs, images)
    ensures NoFalseRun(t, cordoned, hs, images)
    ensures var a := After(t, cordoned, hs).tree;
            At(a, Live, Config).Some? && Coherent(a, images) && (Whole(t) ==> Whole(a))
    decreases |hs|
  {
    if hs != [] {
      match hs[0]
      case Sweep(path) =>
        SweepKeepsCoherence(t, path, images);
        HistoryKeepsCoherence(Remove(t, path), cordoned, hs[1..], images);
      case Install(c, w) =>
        RunKeepsCoherence(t, cordoned, c, w, images);
        TrustedRun(t, cordoned, c, w, images);
        var r := DoInstall(t, cordoned, c, w);
        HistoryKeepsCoherence(r.tree, r.cordoned, hs[1..], images);
    }
  }

  lemma {:induction false} CoherentInTheEnd(t: Node, cordoned: bool, hs: seq<Happening>, images: Registry)
    requires LegalHistory(hs) && AlwaysCoherent(t, cordoned, hs, images)
    ensures Coherent(After(t, cordoned, hs).tree, images)
    decreases |hs|
  {
    if hs != [] {
      match hs[0]
      case Sweep(path) => CoherentInTheEnd(Remove(t, path), cordoned, hs[1..], images);
      case Install(c, w) =>
        var r := DoInstall(t, cordoned, c, w);
        CoherentInTheEnd(r.tree, r.cordoned, hs[1..], images);
    }
  }

  /** So whenever, after any history without a false run, a run decides to skip the install
      of the image it pulled, that image is what is live. */
  lemma SkipsAreSound(t: Node, cordoned: bool, hs: seq<Happening>, images: Registry, id: string)
    requires Coherent(t, images) && AllFaithful(hs, images) && NoFalseRun(t, cordoned, hs, images)
    requires !NeedInstall(After(t, cordoned, hs).tree, Some(id))
    ensures LiveRelease(After(t, cordoned, hs).tree, images(id))
  {
    HistoryCoherentWhen(t, cordoned, hs, images);
    CoherentInTheEnd(t, cordoned, hs, images);
    SkippingIsSound(After(t, cordoned, hs).tree, images, id);
  }

  // ---------------------------------------------------------------- where a run may die

  /** config.json is the last part to move: in every state of the forward half, a live
      config.json that is not the old one is accompanied by the whole staged release. */
  lemma ConfigMovesLast(t: Node, w: Faults, s: Node)
    requires ScratchClean(Purged(t, w)) && Switch(t, w).entered && s in Switch(t, w).forward
    requires At(s, Live, Config) != At(t, Live, Config) && At(s, Live, Config).Some?
    ensures At(s, Live, Bin) == At(t, Staged, Bin) && At(s, Live, Rootfs) == At(t, Staged, Rootfs)
  {
    ForwardMidway(t, w, s);
    if s == Turn(t, w) {
      TurnPart(t, w, Config);
      TurnPart(t, w, Bin);
      TurnPart(t, w, Rootfs);
    } else {
      var k :| Midway(t, s, k);
      MidwayPart(t, s, k, Config);
      MidwayPart(t, s, k, Bin);
      MidwayPart(t, s, k, Rootfs);
    }
  }

  /** So a monitor that dies anywhere in the forward half and starts over with the same
      image skips the install only if that image's release is completely live. */
  lemma RestartAfterCrashIsSound(t: Node, w: Faults, s: Node, id: string)
    requires ScratchClean(Purged(t, w)) && Switch(t, w).entered && s in Switch(t, w).forward
    requires NeedInstall(t, Some(id)) && !NeedInstall(s, Some(id))
    ensures At(s, Live, Bin) == At(t, Staged, Bin) && At(s, Live, Rootfs) == At(t, Staged, Rootfs)
  {
    ConfigMovesLast(t, w, s);
  }

  /** Bin and rootfs are those of the staged release. */
  predicate WhollyNew(t: Node, s: Node) {
    At(s, Live, Bin) == At(t, Staged, Bin) && At(s, Live, Rootfs) == At(t, Staged, Rootfs)
  }

  /** A rollback that undoes a part while the new ID is on record. */
  predicate Mixes(t: Node, w: Faults, id: string) {
    && LongId(id) && IdIn(Respec(At(t, Staged, Config), w)) == id
    && (forall p :: Movable(t, p, w)) && (At(t, Live, Bin).Some? || At(t, Live, Rootfs).Some?)
  }

  /** Not so in the rollback, which undoes the parts in the order in which they were done:
      it passes through a state in which the new ID is on record, so that a monitor that
      dies there would skip the install, while bin or rootfs is gone or old again, exactly
      if the forward half had come to its end and there was such a part to undo. */
  lemma RollbackMixesReleases(t: Node, w: Faults, id: string)
    requires !w.fails(Purge) && RollbackWorks(w) && NeedInstall(t, Some(id))
    requires Switch(t, w).entered && !Switch(t, w).ok
    ensures (exists s :: s in Switch(t, w).back && !NeedInstall(s, Some(id)) && !WhollyNew(t, s)) <==> Mixes(t, w, id)
  {
    PurgeCleans(t, w);
    if Mixes(t, w, id) {
      var s := MixedState(t, w, id);
    }
    forall s | s in Switch(t, w).back && !NeedInstall(s, Some(id)) && !WhollyNew(t, s)
      ensures Mixes(t, w, id)
    {
      MixedOnlyThen(t, w, id, s);
    }
  }

  lemma MixedOnlyThen(t: Node, w: Faults, id: string, s: Node)
    requires ScratchClean(Purged(t, w)) && RollbackWorks(w) && NeedInstall(t, Some(id))
    requires Switch(t, w).entered && !Switch(t, w).ok && s in Switch(t, w).back
    requires !NeedInstall(s, Some(id)) && !WhollyNew(t, s)
    ensures Mixes(t, w, id)
  {
    var turn := Turn(t, w);
    assert InRollback(turn, 0, w, s);
    TurnPart(t, w, Config);
    RollbackLive(turn, 0, w, Config, s);
    assert At(s, Live, Config) !in {None, At(t, Live, Config)};
    PlacedWhen(t, w, Config);
    AllMovedIn(t, w);
    if At(t, Live, Bin).None? && At(t, Live, Rootfs).None? {
      AllNewStays(t, w, Bin, s);
      AllNewStays(t, w, Rootfs, s);
    }
  }

  lemma AllNewStays(t: Node, w: Faults, p: Part, s: Node)
    requires ScratchClean(Purged(t, w)) && Prepared(t, w).Some? && InRollback(Turn(t, w), 0, w, s)
    requires MovedIn(t, p, w) && At(t, Live, p).None? && p != Config
    ensures At(s, Live, p) == At(t, Staged, p)
  {
    TurnPart(t, w, p);
    PlacedWhen(t, w, p);
    RollbackLeaves(Turn(t, w), 0, w, p, s);
  }

  lemma MixedState(t: Node, w: Faults, id: string) returns (s: Node)
    requires ScratchClean(Purged(t, w)) && RollbackWorks(w)
    requires Switch(t, w).entered && !Switch(t, w).ok && Mixes(t, w, id)
    ensures s in Switch(t, w).back && !NeedInstall(s, Some(id)) && !WhollyNew(t, s)
  {
    var turn := Turn(t, w);
    var p := if At(t, Live, Bin).Some? then Bin else Rootfs;
    AllMovedIn(t, w);
    PlacedWhen(t, w, Config);
    TurnPart(t, w, Config);
    TurnPart(t, w, Bin);
    TurnPart(t, w, Rootfs);
    assert Movable(t, p, w) && Rank(p) < Rank(Config);
    s := FirstCut(turn, w, p);
  }

  /** The first state of a rollback: its first part is gone, and nothing else has changed. */
  lemma FirstCut(turn: Node, w: Faults, p: Part) returns (s: Node)
    requires Ready(turn) && RollbackWorks(w) && At(turn, Scratch, p).Some?
    requires p == Bin || (p == Rootfs && At(turn, Scratch, Bin).None?)
    ensures s in Rollback(turn, 0, w).trace
    ensures At(s, Live, p) == None && At(s, Live, Config) == At(turn, Live, Config)
  {
    s := RollbackCut(turn, p, w);
    assert RollsBack(w, p);
    RollbackCutStep(turn, p, w);
    if p == Rootfs { assert Rollback(turn, 0, w) == Rollback(turn, 1, w); }
    assert Rollback(turn, Rank(p), w).trace[0] == s;
  }

  /** In particular, after a failed reinstall, through one with the old bin under the new
      config.json. */
  lemma OldBinUnderNewConfig(t: Node, w: Faults, id: string)
    requires Prepared(t, w).Some? && !w.fails(Purge) && RollbackWorks(w) && w.rewrite.None?
    requires w.fails(Reinstall) && forall p :: Movable(t, p, w)
    requires Whole(t) && LongId(id) && IdIn(At(t, Staged, Config)) == id
    ensures exists s :: s in Switch(t, w).back && At(s, Live, Bin) == At(t, Live, Bin) && !NeedInstall(s, Some(id))
  {
    PurgeCleans(t, w);
    PreparedBoundary(t, w);
    ForwardSucceedsWhen(t, Prepared(t, w).value, 0, w);
    TurnPart(t, w, Bin);
    TurnPart(t, w, Config);
    assert At(t, Live, Bin).Some? && Rank(Bin) == 0 && Rank(Config) == 2;
    var s := BinRolledBack(Turn(t, w), w);
    assert s in Switch(t, w).back;
  }

  /** The state in which the rollback has dealt with bin and nothing else. */
  lemma BinRolledBack(turn: Node, w: Faults) returns (s: Node)
    requires Ready(turn) && RollbackWorks(w) && At(turn, Scratch, Bin).Some?
    ensures s in Rollback(turn, 0, w).trace
    ensures At(s, Live, Bin) == At(turn, Scratch, Bin) && At(s, Live, Config) == At(turn, Live, Config)
  {
    var cut := RollbackCut(turn, Bin, w);
    assert RollsBack(w, Bin);
    s := RollbackBack(cut, Bin, w).tree;
    RollbackOwnTurn(turn, Bin, w);
    RollbackStepElsewhere(turn, Bin, w, Config);
    assert Rollback(turn, 0, w).trace[1] == s;
  }
}
