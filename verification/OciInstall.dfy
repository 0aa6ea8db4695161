/** One run of `doInstall`: decide from the recorded image ID whether to stage a new
    release, run px-runc, decide whether to restart, and finalize under a cordon.

    What the outside world answers is a `Plan`; the run is then a function of the
    host's tree, the node's cordon and the plan. `OciMonitor` has the procedure itself.
 */
module OciInstall {
  import opened Common
  import opened HostTree
  import opened OciSwitch
  import opened OciEnv
  import opened RestartAnalysis
  import opened Servlet
  import opened Drain
  import opened Strings

  const SHA1_END := 19

  /** What the monitor's own container says: the arguments meant for px-runc, the mounts,
      the environment, and $PX_IMAGE if it is set at all. */
  datatype Container = Container(user: seq<string>, mounts: seq<string>, env: seq<string>, pxImage: Option<string>)

  /** The installer container's log: not available, cut off by an error, or complete. */
  datatype InstallerLog = Unavailable | Broken | Complete(text: string)

  datatype Plan = Plan(
    inspectOk: bool,                                      // own container found and inspected
    pullOk: bool, downloading: bool,                      // the pull, and whether it announces a download
    imageId: Option<string>,                              // the pulled image's ID
    stageOk: bool, staged: Node, log: InstallerLog,       // the installer container
    runcOk: bool, runcWrites: bool, runcOutput: string,   // px-runc install
    unitBefore: Option<nat>, unitAfter: Option<nat>,      // the unit file's time stamps
    kubelet: Option<string>, pxConfigPresent: bool,
    drainAll: bool, cluster: Cluster, uncordonOk: bool,
    swap: Faults,
    restartOk: bool)

  /** `needRestart`, `needInstall`, `needCordon` */
  datatype Status = Status(needRestart: bool, needInstall: bool, needCordon: bool)

  datatype Event =
    | StateSet(op: Setter)
    | StagedRelease
    | Drained(ok: bool)
    | Switched(ok: bool)
    | Restarted(ok: bool)
    | Uncordoned(ok: bool)

  /** The health-state setters among the events of a run. */
  function EventSetters(events: seq<Event>): seq<Setter> {
    if events == [] then []
    else (if events[0].StateSet? then [events[0].op] else []) + EventSetters(events[1..])
  }

  lemma {:induction false} EventSettersConcat(a: seq<Event>, b: seq<Event>)
    ensures EventSetters(a + b) == EventSetters(a) + EventSetters(b)
  {
    if a == [] {
      assert a + b == b;
    } else {
      var head := if a[0].StateSet? then [a[0].op] else [];
      assert (a + b)[0] == a[0] && (a + b)[1..] == a[1..] + b;
      EventSettersConcat(a[1..], b);
      assert head + (EventSetters(a[1..]) + EventSetters(b)) == (head + EventSetters(a[1..])) + EventSetters(b);
    }
  }

  lemma {:induction false} NoSetters(events: seq<Event>)
    requires forall e :: e in events ==> !e.StateSet?
    ensures EventSetters(events) == []
  {
    if events != [] { NoSetters(events[1..]); }
  }

  /** The health state after the events of a run. */
  function Health(state: InstallState, events: seq<Event>): InstallState {
    if events == [] then state
    else
      var last := events[|events| - 1];
      if last.StateSet? then Set(last.op) else Health(state, events[..|events| - 1])
  }

  /** It depends on the setters only. */
  lemma {:induction false} HealthIsSetters(state: InstallState, events: seq<Event>)
    ensures Health(state, events) == SetAll(state, EventSetters(events))
    decreases |events|
  {
    if events != [] {
      var init, last := events[..|events| - 1], [events[|events| - 1]];
      HealthIsSetters(state, init);
      EventSettersConcat(init, last);
      assert events == init + last && last[1..] == [];
    }
  }

  datatype Verdict = Done | Failed | Exited

  // ---------------------------------------------------------------- the decision

  predicate LongId(id: string) {
    |id| > SHA1_END
  }

  /** Install, unless the ID of the pulled image is known, and recorded as installed. */
  predicate NeedInstall(t: Node, imageId: Option<string>) {
    !(&& imageId.Some? && LongId(imageId.value)
      && ExtractedEnv(At(t, Live, Config), IMAGE_ID_KEY) == Ok(imageId.value))
  }

  /** The container's environment as px-runc should have it: with PX_IMAGE, without PATH. */
  function FilterPath(env: seq<string>): seq<string> {
    if env == [] then []
    else if "PATH=" <= env[0] then FilterPath(env[1..])
    else [env[0]] + FilterPath(env[1..])
  }

  const DEFAULT_IMAGE := "portworx/px-enterprise:1.2.12.1"

  function BaseEnv(c: Container): seq<string> {
    FilterPath(c.env + if c.pxImage.None? then [IMAGE_KEY + "=" + DEFAULT_IMAGE] else [])
  }

  /** With the ID of the pulled image appended, if it is known. */
  function FullEnv(c: Container, imageId: Option<string>): seq<string> {
    BaseEnv(c) + if imageId.Some? && LongId(imageId.value) then [IMAGE_ID_KEY + "=" + imageId.value] else []
  }

  /** The arguments of px-runc before the mounts and the environment. */
  function Leading(needInstall: bool, c: Container): seq<string> {
    (if needInstall then ["install", "-oci", "/opt/pwx/oci/inst-k8s/oci", "-sysd", "/dev/null"]
     else ["install"]) + c.user
  }

  function CommandLine(needInstall: bool, c: Container, imageId: Option<string>): seq<string> {
    RuncTail(Leading(needInstall, c), c.mounts, FullEnv(c, imageId))
  }

  // ---------------------------------------------------------------- staging and px-runc

  /** The installer container leaves its files in the staging directory. */
  function Stage(t: Node, release: Node): Option<Node> {
    var made := MkdirAll(t, STAGE);
    if made.None? then None else Some(Put(made.value, STAGE, release))
  }

  /** `px-runc install` stores its environment in the spec at `path`; on failure perhaps too. */
  function RuncInstall(t: Node, path: Path, args: seq<string>, ok: bool, writes: bool): Step {
    if CanPut(t, path) && !IsDir(t, path) && (ok || writes) then Step(Put(t, path, File(Spec(StoredEnv(args)))), ok)
    else Step(t, false)
  }

  function SpecPath(needInstall: bool): Path {
    Loc(if needInstall then Staged else Live, Config)
  }

  function CordonNeeded(log: InstallerLog): bool {
    match log
    case Unavailable => false
    case Broken => true
    case Complete(text) => Contains(text, " require reboot ")
  }

  /** Does the unit file ask for a restart? Err when it has vanished. */
  function UnitChanged(w: Plan): Result<bool> {
    if w.unitBefore.None? then Ok(true)
    else if w.unitAfter.None? then Err
    else Ok(w.unitAfter.value > w.unitBefore.value)
  }

  datatype Installed = Installed(tree: Node, status: Status, verdict: Verdict, events: seq<Event>)

  /** From the staged (or already installed) release on. */
  function RunRunc(t: Node, need: bool, cordon: bool, c: Container, w: Plan, events: seq<Event>): Installed {
    var run := RuncInstall(t, SpecPath(need), CommandLine(need, c, w.imageId), w.runcOk, w.runcWrites);
    if !run.ok then Installed(run.tree, Status(true, need, cordon), Failed, events)
    else if !need && UnitChanged(w).Err? then Installed(run.tree, Status(true, need, cordon), Failed, events)
    else
      var restart := need || UnitChanged(w).value || RestartRequired(w.runcOutput, w.kubelet) || !w.pxConfigPresent;
      Installed(run.tree, Status(restart, need, cordon), Done, events)
  }

  /** Staging a new release, and px-runc on it. */
  function StageAndRun(t: Node, c: Container, w: Plan, events: seq<Event>): Installed {
    var staged := Stage(t, w.staged);
    if staged.None? then Installed(t, Status(false, true, false), Exited, events)
    else if !w.stageOk then
      Installed(staged.value, Status(false, true, CordonNeeded(w.log)), Exited, events + [StagedRelease])
    else RunRunc(staged.value, true, CordonNeeded(w.log), c, w, events + [StagedRelease])
  }

  /** `installPxFromOciImage` */
  function InstallPx(t: Node, c: Container, w: Plan): Installed {
    var pulled := if w.downloading then [StateSet(SetInstalling)] else [];
    if !w.pullOk then Installed(t, Status(false, false, false), Exited, pulled)
    else if !NeedInstall(t, w.imageId) then RunRunc(t, false, false, c, w, pulled + [StateSet(SetFinished)])
    else StageAndRun(t, c, w, pulled)
  }

  // ---------------------------------------------------------------- finalizing

  datatype Finalized = Finalized(tree: Node, cordoned: bool, ok: bool, events: seq<Event>)

  /** The part of it under the cordon: switch, if there is something to switch to, and restart. */
  function SwitchAndRestart(t: Node, status: Status, w: Plan): Finalized {
    if !status.needInstall then Finalized(t, false, w.restartOk, [Restarted(w.restartOk)])
    else
      var sw := Switch(t, w.swap);
      if !sw.ok then Finalized(sw.tree, false, false, [Switched(false)])
      else Finalized(sw.tree, false, w.restartOk, [Switched(true), Restarted(w.restartOk)])
  }

  /** `finalizePxOciInstall`; a failed drain is no reason to stop. */
  function Finalize(t: Node, cordoned: bool, status: Status, w: Plan): Finalized {
    var inner := SwitchAndRestart(t, status, w);
    if !(status.needInstall && status.needCordon) then inner.(cordoned := cordoned)
    else
      var d := DrainNode(cordoned, w.drainAll, w.cluster);
      if !d.ok then inner.(cordoned := d.cordoned, events := [Drained(false)] + inner.events)
      else
        inner.(cordoned := d.cordoned && !w.uncordonOk,
               events := [Drained(true)] + inner.events + [Uncordoned(w.uncordonOk)])
  }

  // ---------------------------------------------------------------- the whole run

  datatype RunResult = RunResult(tree: Node, cordoned: bool, verdict: Verdict, events: seq<Event>)

  /** What follows a successful `installPxFromOciImage`. */
  function Conclude(inst: Installed, cordoned: bool, w: Plan): RunResult {
    if inst.status.needRestart || inst.status.needInstall || inst.status.needCordon then
      var fin := Finalize(inst.tree, cordoned, inst.status, w);
      if !fin.ok then RunResult(fin.tree, fin.cordoned, Failed, inst.events + fin.events)
      else RunResult(fin.tree, fin.cordoned, Done, inst.events + fin.events + [StateSet(SetFinished)])
    else RunResult(inst.tree, cordoned, Done, inst.events + [StateSet(SetFinished)])
  }

  /** `doInstall` */
  function DoInstall(t: Node, cordoned: bool, c: Container, w: Plan): RunResult {
    if !w.inspectOk then RunResult(t, cordoned, Failed, [])
    else
      var inst := InstallPx(t, c, w);
      if inst.verdict != Done then RunResult(inst.tree, cordoned, inst.verdict, inst.events)
      else Conclude(inst, cordoned, w)
  }
}
