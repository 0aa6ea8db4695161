# A verified model of the Portworx OCI monitor

`px-oci-mon` runs as a pod on every node of a Kubernetes cluster. It pulls the
Portworx image, decides from a recorded image ID whether a new release has to be
installed, stages it beside the live one, swaps the two with a rollback on
failure, restarts the service, and from then on follows the labels of its node.
This project models that logic and proves what it promises.

`dafny verify dfyconfig.toml` checks everything.

## How it is modelled

Everything the monitor cannot control is an input that may take any value: which
moves, deletions, commands and cluster calls fail, what a failed deletion leaves
behind, how a reader cuts its stream into pieces, what other threads do between
two reads. The theorems hold for all of them, under the premises they state.

| module | what it holds |
|---|---|
| `HostTree` | the host's directory tree as a value, with stat, `rm -r`, `mkdir -p` and an all-or-nothing `mv` that nests in an existing directory; their laws |
| `OciSwitch` | the swap of `bin`, `oci/rootfs` and `oci/config.json` with its rollback; the loop invariants of both loops |
| `SwitchTheorems` | success, rollback, crash points, frame |
| `StaleScratch` | the swap on any scratch directory, empty or not, with a rollback that works or not: what is left, exactly, in every case |
| `Crash` | a monitor that dies in a swap, and the run after it |
| `Cleanup` | the asynchronous deletion as a second process, in every interleaving with what follows the swap |
| `CleanupRace` | the next swap as a machine of single steps, in every interleaving with a cleanup that is still running |
| `OciEnv` | the image ID's way through the environment, px-runc's argument list and config.json |
| `RestartAnalysis` | the reading of px-runc's output |
| `Drain`, `Servlet` | the drain and its cordon; the health state behind its lock |
| `OciInstall` | one run of `doInstall` as a function of tree, cordon and plan |
| `InstallTheorems` | status, cordon, health, convergence over histories of runs and cleanups |
| `Coherence` | when the recorded image ID names the release that is live: over whole histories, and where a run may die |
| `FreshHost` | histories that begin on a host with nothing installed |
| `OciMonitor` | the install procedures as methods of an object that change a tree step by step, each proved to do what its function says |
| `Watcher` | the node-label watcher over runs of events |
| `ByteStream`, `LogDemux`, `DemuxTheorems` | readers that deliver in pieces; the Docker log demultiplexer with its reused, growing buffer; round trip and conservation. The format is that of the Docker Engine API, operation "Attach to a container", section "Stream format" |
| `PullForwarder` | the inspection of a pull's head, and its forwarding |
| `Arguments`, `Mounts` | the argument loop of `main`; the mount list |
| `Common`, `Strings` | options and results; the few functions of Go's `strings` that matter |

Two kinds of definition stand side by side where the program changes state: a
method in the program's form, with its loops, fields and buffers, and a function
that says what the method does. The method's `ensures` ties the two together, and
the lemmas are about the function.

## What the proofs found

Properties one would expect and the code does not have are stated as lemmas too,
with the exact condition under which they hold or with the input that breaks them.

- A rollback decides what to undo from what it finds in scratch. A part that did
  not exist before leaves nothing there, so when it has been moved in, it stays
  (`RollbackExactWhen`, `FirstInstallLeavesPartBehind`).
- A run can leave a recorded image ID that names a release that is not live
  (`RunKeepsCoherence`, `HistoryCoherentWhen`, exact, with failing purges and rollbacks
  too). As long as purge and rollback work, there is one way: there was no
  config.json before but another, different part, and the final reinstall fails (`TrustedRun`, exact); two
  failed runs of different images on a fresh host bring it about
  (`TwoFailedRunsBreakRecord`), runs of one image never do (`OneImageHistory`).
- The result of purging an old scratch directory is not looked at. When the purge
  fails, the rollback installs stale parts over healthy ones, and a stale directory
  can swallow a part that is moved out (`StaleRollbackExactWhen`, exact for every
  failed run; `FailedPurgeRevivesStalePart`).
- A rollback whose deletion of a live part fails moves the former one *into* the
  directory that remains (`FailedClearingNests`); when a part comes back is
  `RollbackReturnsWhen`, exact, whatever fails in the rollback. Crash-point
  conservation counts the nested place.
- No original is lost when the monitor dies in a swap, but the next run purges the
  scratch directory first, and with it the only copy of every part that was on its
  way (`NextPurgeKeepsWhen`, exact). If that run then fails, such a part is gone, or the
  new version stays in its place (`OriginalBackWhen`, exact; `CrashLosesBin`).
- After a death in the forward half, where config.json moves last, at least no
  install is skipped wrongly (`RestartAfterCrashIsSound`). A rollback undoes the parts
  in the order in which they were moved, so that after a completed forward half it
  passes through states in which `bin` or `rootfs` is gone, or former, while the new
  image ID is on record. A monitor that dies there takes what it finds for the new
  release (`RollbackMixesReleases`, exact).
- A cleanup that is still running when the next switch is at work can delete the only
  copy of a part that has just been moved out (`SweepHarmlessWhen` for one deletion,
  `SwitchRacedWhen` for whole interleavings, both exact; `LateCleanupLosesBin`,
  `SwitchSafeFrom`).
- An empty argument is meant to be skipped, and takes the next one along
  (`EmptyArgumentTakesNextAlong`); that is harmless only where the next one would have
  vanished anyway (`EmptyArgumentHarmlessWhen`, exact).
- A mount report at the very start of px-runc's output has its added mounts
  overlooked, since the search asks for a position greater than zero
  (`ReportAnalysed`, stated exactly; `ReportAtStartIsMissed`).
- A payload that arrives in more than one piece is taken apart wrongly: its remainder
  is read as a header (`ShortPayloadRead`; `RoundTripWhen` says exactly when a log comes
  through).
- A Docker log whose last frame is empty ends in a spurious error, if the reader
  answers a request for no bytes with the end of the stream (`DemuxRoundTrip`); one cut
  inside a payload is reported as complete (`CutLog`); a reader that reports the end
  together with bytes of a header loses them, and no other does (`BytesLostWhen`); a
  header announcing 2^32-2 bytes or more makes the sum wrap, and the slice is out of
  bounds (`OutOfBoundsTurn`).
- A failed drain can leave the node cordoned, with no uncordon to follow
  (`FailedDrainLeavesCordon`, `NodeLeftCordoned`). With no pods to drain nothing is
  cordoned, yet the uncordon is still tried, which lifts a cordon that an operator had
  set (`OperatorsCordonLifted`, exact).
- An uninstall label on a node already labelled disabled is ignored
  (`NoUninstallWhileDisabled`). The log messages speak of `px/enable`; the label
  the code reads is `px/enabled`, and the model follows the code.
- The watcher can be registered twice, and a second copy of an event that comes late
  repeats installs and uninstalls (`SecondRegistrationHarmlessWhen`, exact;
  `LateCopyRepeatsDecisions`).
- A successful `start` or `stop` is remembered after its label is removed, so that
  the same request is ignored when it comes back (`RepeatedRequestIgnored`).
- The download callback sees the first 512 bytes only (`PullImageCb`).

## Model

| member | source | states |
|---|---|---|
| HostTree.MvMoves | px-oci-mon/main.go:327-339 | a successful move carries the whole subtree to its target (inside the destination if that is a directory), leaves nothing at the source and changes no path disjoint from both |
| OciSwitch.LocDisjoint | px-oci-mon/main.go:359-400 | the live, staged, scratch and nested paths of all parts are prefix-disjoint, except a live path and the one nested in it |
| OciSwitch.PathsAre | px-oci-mon/main.go:24-31 | the live, staged and scratch paths of the three parts |
| OciSwitch.MoveBetween | px-oci-mon/main.go:401-411 | a move of one part changes the table of places at its two entries only |
| OciSwitch.OutStepMidway | px-oci-mon/main.go:401-406 | moving the old part to scratch, done or failed, keeps the loop invariant over parts |
| OciSwitch.InStepMidway | px-oci-mon/main.go:408-411 | moving the staged part in takes the invariant to the next part, or keeps it on failure |
| OciSwitch.ForwardInvariant | px-oci-mon/main.go:398-413 | the invariant over parts holds at the loop's end and in every state between two moves, and the loop succeeds exactly when all parts are placed |
| OciSwitch.RollbackLeaves | px-oci-mon/main.go:362-377 | the rollback leaves a part without a scratch copy as it is, in the end and in every state between |
| OciSwitch.RollbackRecovers | px-oci-mon/main.go:362-377 | in every state of the rollback, whatever fails, a part with a scratch copy is held: in scratch, or live, or nested where its own deletion fails |
| SwitchTheorems.PurgeCleans | px-oci-mon/main.go:347-350 | a purge that is not cut short leaves no part in scratch |
| SwitchTheorems.PurgeKeeps | px-oci-mon/main.go:347-354 | purge and mkdir touch no live or staged part, even when they fail |
| SwitchTheorems.EnteredWhen | px-oci-mon/main.go:347-355 | rollback and cleanup are armed if and only if the mkdir does not fail and nothing left by the purge stands in its way |
| SwitchTheorems.SwitchInstalls | px-oci-mon/main.go:342-421 | after a successful switch every staged part is live, and every former one in scratch |
| SwitchTheorems.SwitchSucceedsWhen | px-oci-mon/main.go:398-420 | the switch succeeds if and only if all parts are staged, no needed move fails and the reinstall does not fail |
| SwitchTheorems.PlacedWhen | px-oci-mon/main.go:398-413 | a part is moved in if and only if it and all parts before it are staged and none of the moves needed fails |
| SwitchTheorems.RollbackRestores | px-oci-mon/main.go:359-378 | after any failure past the scratch mkdir, every part that existed at entry and whose own two rollback steps do not fail is live with its original content; of the others exactly those that were moved in are live, in their staged version |
| SwitchTheorems.FirstInstallLeavesPartBehind | px-oci-mon/main.go:364-376 | on a first install whose second move fails, the first new part stays behind |
| StaleScratch.TurnOntoStale | px-oci-mon/main.go:398-413 | one turn of the forward loop on whatever scratch holds: when it goes through, and where it leaves the part |
| StaleScratch.StaleSwitchSucceedsWhen | px-oci-mon/main.go:398-420 | with a stale scratch directory the switch succeeds if and only if nothing, a stale part included, stands in the way of any move and the reinstall does not fail |
| StaleScratch.RollbackResult | px-oci-mon/main.go:364-376 | what the rollback makes live of each part, from what is live and in scratch, whatever of its own steps fails |
| StaleScratch.StaleOutcome | px-oci-mon/main.go:347-377 | what each live part is after a failed switch, whatever was in scratch when it began and whatever fails in its rollback |
| StaleScratch.SuccessPutsStagedLive | px-oci-mon/main.go:398-420 | a successful switch has put every staged part live, whatever was in scratch |
| StaleScratch.StaleRollbackExactWhen | px-oci-mon/main.go:347-377 | a failed switch, with any scratch contents and any failures in its rollback, leaves the live install unchanged if and only if each part is returned by what scratch holds for it, or scratch holds nothing for it and it does not get replaced |
| StaleScratch.RollbackReturnsWhen | px-oci-mon/main.go:362-377 | after any failed switch from a clean scratch directory a part that existed is live again if and only if it never got out, or comes back over what the rollback's deletion leaves and not into a directory |
| StaleScratch.RollbackExactWhen | px-oci-mon/main.go:362-377 | so the live install is exactly as before if and only if that holds of each part that existed and no other gets in |
| StaleScratch.WorkingRollbackExactWhen | px-oci-mon/main.go:362-377 | with a rollback that works, if and only if every part that can be moved in replaces an existing one |
| StaleScratch.FailedClearingNests | px-oci-mon/main.go:367-372 | a rollback that cannot delete the new bin, a directory, moves the former one into it |
| StaleScratch.FailedPurgeRevivesStalePart | px-oci-mon/main.go:347-350 | a run whose first move fails replaces each part, a healthy one too, by its stale version if there is one; so nothing changes if and only if there is none but the same |
| SwitchTheorems.CrashPointConservation | px-oci-mon/main.go:352-413 | in every state from the scratch mkdir to the cleanup, including inside the rollback and with failing moves, the original of each part is in scratch if scratch has the part and live (or nested, where its deletion failed) otherwise |
| Crash.NextPurgeKeepsWhen | px-oci-mon/main.go:347-350 | after a death anywhere in a switch, the next run's purge keeps the original of a part if and only if it was not in scratch or is elsewhere too |
| Crash.OriginalBackWhen | px-oci-mon/main.go:347-413 | if that run fails in its switch, the original of a part is live again if and only if it was live at the death, or the run has moved the very same version in; a part neither live nor moved in is gone from scratch too |
| Crash.DiesWithBinOut | px-oci-mon/main.go:398-406 | every switch that moves a live bin out passes through a state with its only copy in scratch |
| Crash.CrashLosesBin | px-oci-mon/main.go:347-413 | a death there and one run that fails to move its bin in lose the installed bin |
| SwitchTheorems.NothingMovedBeforeMkdir | px-oci-mon/main.go:347-355 | a run that ends before the scratch directory is made has moved no live or staged part |
| SwitchTheorems.SwitchForeign | px-oci-mon/main.go:342-421 | a switch, successful or rolled back, changes no path outside the parts and the scratch directory |
| Cleanup.ExecErased | px-oci-mon/main.go:379-389 | every interleaving of the cleanup with other steps, seen without the two deleted trees, is the run without the cleanup |
| Cleanup.CleanupNonInterference | px-oci-mon/main.go:379-389 | in every interleaving any path outside the two deleted trees ends up as without the cleanup |
| Cleanup.LivePartsSurviveCleanup | px-oci-mon/main.go:379-389 | in particular all three live parts do, although both deleted trees lie below /opt/pwx/oci |
| Cleanup.CleanupConverges | px-oci-mon/main.go:379-389 | once both roots are deleted, the result does not depend on the schedule |
| CleanupRace.MachineIsSwitch | px-oci-mon/main.go:357-420 | the machine of single steps, undisturbed, ends where the switch ends |
| CleanupRace.EveryStateRecorded | px-oci-mon/main.go:352-413 | the states recorded of a switch, on which crash-point conservation speaks, are exactly those the machine comes by |
| CleanupRace.SweepHarmlessWhen | px-oci-mon/main.go:379-406 | a deletion anywhere in the two trees leaves the original of a part held if and only if it takes nothing of the copy in scratch, or all of it while the original is elsewhere |
| CleanupRace.SwitchRacedWhen | px-oci-mon/main.go:357-420 | in every interleaving of a switch with a cleanup, no original is lost in any state if and only if no step is a harmful deletion, a reinstall that writes over the only copy of config.json, or a rollback's deletion of the only copy of a part |
| CleanupRace.LateCleanupLosesBin | px-oci-mon/main.go:379-406 | a cleanup that deletes the scratch directory when bin has just been moved out loses it |
| CleanupRace.SwitchSafeFrom | px-oci-mon/main.go:379-413 | so none is lost in any interleaving whose deletions take nothing of a copy in scratch |
| CleanupRace.StagingTakesNothing | px-oci-mon/main.go:30-31 | no deletion in the staging directory does |
| OciMonitor.OciMonitor.MoveParts | px-oci-mon/main.go:398-413 | the forward loop ends in the tree, result and trace of states of its specification |
| OciMonitor.OciMonitor.RollbackParts | px-oci-mon/main.go:364-376 | the rollback loop likewise |
| OciMonitor.OciMonitor.SwitchOciInstall | px-oci-mon/main.go:342-421 | the whole switch, changing the tree step by step, yields the specified tree, result and trace, on which the switch theorems speak |
| OciMonitor.OciMonitor.CompareWithInstalled | px-oci-mon/main.go:130-153 | an install is needed unless the pulled ID is known, longer than 19 characters and equal to the recorded one; if not needed the state is set to finished |
| OciMonitor.OciMonitor.RunPxRunc | px-oci-mon/main.go:190-287 | command line, px-runc's effect on its spec, and the restart decision from unit file, output and /etc/pwx/config.json |
| OciMonitor.OciMonitor.InstallPxFromOciImage | px-oci-mon/main.go:112-288 | tree, status, verdict, events and health state agree with the specification on every exit |
| OciMonitor.OciMonitor.FinalizePxOciInstall | px-oci-mon/main.go:423-477 | tree, cordon, result and events agree with the specification, with the deferred uncordon done on every way out |
| OciMonitor.OciMonitor.DoInstallRun | px-oci-mon/main.go:479-531 | one whole run agrees with the specification the install theorems are about; the health state is finished after a success, and otherwise what the part before the finalization made of it |
| OciEnv.ExtractEnvFromOciConfig | px-oci-mon/utils/inspect.go:46-63 | the scan returns the value of the last matching entry, "" without one, and an error without a readable spec |
| OciEnv.ExtractedMeaning | px-oci-mon/utils/inspect.go:46-63 | something is read from a spec and nothing else, and it is the value in the last entry for the key, or "" if there is none |
| OciEnv.LastValueMeaning | px-oci-mon/utils/inspect.go:55-62 | that value is the one of the entry with no later entry for the same key |
| OciEnv.LastValueConcat | px-oci-mon/utils/inspect.go:57-61 | of two lists joined, the right one wins if it has the key at all |
| OciEnv.ComposeTail | px-oci-mon/main.go:217-235 | the two loops compose the user's arguments, the `-v` pairs of the mounts passed on, and the `-e` pairs, in order |
| OciEnv.PassedMountsAre | px-oci-mon/main.go:218-229 | every mount is passed on as often as it is listed, but for the monitor's own, anything on the Docker socket, and anything shorter than four characters |
| OciEnv.PassedMountsInOrder | px-oci-mon/main.go:218-230 | in the listed order |
| OciEnv.TailAt | px-oci-mon/main.go:217-235 | where each flag and each value stands on the command line |
| InstallTheorems.CommandLineBegins | px-oci-mon/main.go:193-215 | how px-runc is called for a staged release and for the installed one |
| InstallTheorems.EnvironmentIs | px-oci-mon/main.go:501-513 | the environment handed on is the container's without PATH, the default image if none is named, and the pulled ID if it is known and long enough, each entry as often as it should be |
| InstallTheorems.EnvironmentStored | px-oci-mon/main.go:217-235 | px-runc stores the user's own entries and after them that environment, in order, and nothing of the mounts |
| OciEnv.ScanEnvPairs | px-oci-mon/main.go:232-235 | `-e` pairs are stored entry by entry when read in step, and how they are misread out of step |
| OciEnv.ImageIdReadBack | px-oci-mon/main.go:133-137 | for every command line, the ID appended last is the one read back unless the reading is out of step at the end, and what is read back then |
| InstallTheorems.NeverMisaligned | px-oci-mon/main.go:501-503 | it never is, as the environment always has an entry for the image |
| RestartAnalysis.IsRestartRequired | px-oci-mon/main.go:593-646 | the analysis stays in bounds on every text and decides as specified |
| RestartAnalysis.NoRestartIsJustified | px-oci-mon/main.go:593-646 | on any text the answer is "no" if and only if the UNCHANGED marker is found, or CREATED is not, the kubelet was, and after each list marker that is found the text up to the next brace is not empty and every maximal stretch in it without white space starts with the pods directory; the removed mounts are searched behind the marker of the added ones, and from the beginning if that is not found |
| RestartAnalysis.AddFoundFirst | px-oci-mon/main.go:612-613 | the marker of added mounts is found where it was put, even behind text that ends like its beginning |
| RestartAnalysis.RmFoundAfterList | px-oci-mon/main.go:632-633 | the removed mounts are found behind the added ones, never inside them |
| RestartAnalysis.ListReadBack | px-oci-mon/main.go:614-618 | a printed mount list is read back word by word, an empty one is unreadable |
| RestartAnalysis.ReportAnalysed | px-oci-mon/main.go:593-646 | on a printed report a restart is required if and only if a listed mount is outside the pods directory or a list is empty, added mounts counting only if something precedes the report |
| RestartAnalysis.ReportAtStartIsMissed | px-oci-mon/main.go:613-631 | a report at the very start of the output that adds a foreign mount goes unnoticed |
| RestartAnalysis.RemovalReportAnalysed | px-oci-mon/main.go:625-645 | on a report of removed mounts only, a restart is required if and only if one is outside the pods directory or none is listed |
| Strings.IndexFromFinds | px-oci-mon/main.go:594-613 | the substring search finds an occurrence, and the first one |
| Strings.LowerMeans | px-oci-mon/utils/kubernetes.go:41-69 | lower-casing changes the letters from A to Z and nothing else |
| Strings.StretchIsField | px-oci-mon/main.go:616-616 | every maximal stretch without white space is a field |
| Strings.FieldIsStretch | px-oci-mon/main.go:616-616 | and every field is one |
| Strings.FieldsOfJoin | px-oci-mon/main.go:616-616 | splitting words joined by spaces gives the words back |
| InstallTheorems.StatusImplications | px-oci-mon/main.go:155-287 | on every return needCordon implies needInstall implies needRestart, so the three-way guard asks for no more than a restart |
| InstallTheorems.StatusMeans | px-oci-mon/main.go:155-177 | a run needs to install exactly if the IDs say so, and to cordon exactly if the installer's log is broken or asks for a reboot |
| InstallTheorems.SkippingDecides | px-oci-mon/main.go:239-287 | with equal IDs the install part gets through if and only if the pull and px-runc do and the unit file has not vanished; and a restart is then needed if and only if the unit file is new or newer, /etc/pwx/config.json is missing, or px-runc's output asks for one |
| InstallTheorems.InstallingDecides | px-oci-mon/main.go:123-244 | with other IDs it gets through if and only if pull, staging, installer container and px-runc do; and which failures end the process |
| InstallTheorems.FinalizeSucceedsWhen | px-oci-mon/main.go:423-477 | a finalization succeeds if and only if the restart does, and the switch if there is one, whatever the drain did |
| InstallTheorems.FinalizeOrder | px-oci-mon/main.go:431-476 | drain, switch, restart, uncordon, in this order; no restart after a failed switch, an uncordon after a successful drain only |
| InstallTheorems.RunSucceedsWhen | px-oci-mon/main.go:479-531 | when a whole run succeeds, from what the outside answers and the recorded ID |
| InstallTheorems.RunExitsWhen | px-oci-mon/main.go:123-185 | when it ends the process |
| InstallTheorems.CordonBracket | px-oci-mon/main.go:431-450 | a finalization ends in an attempt to uncordon exactly if its drain succeeded, and nothing happens before that drain or after that attempt |
| InstallTheorems.NodeLeftCordoned | px-oci-mon/main.go:432-446 | exactly when the node is left cordoned, cordoned at entry or not |
| InstallTheorems.OperatorsCordonLifted | px-oci-mon/utils/kubernetes.go:124-127 | exactly when a cordon set by an operator is lifted, with nothing to drain too |
| InstallTheorems.InstallingRunSetters | px-oci-mon/main.go:117-143 | a run that downloads and installs sets "installing" at the download and "finished" only at its successful end |
| InstallTheorems.HealthAfterRun | px-oci-mon/main.go:513-530 | the health state a run leaves: finished after a success or equal IDs, else installing after a download, else unchanged |
| InstallTheorems.RunSetters | px-oci-mon/main.go:117-143 | the setters of every run, in order |
| InstallTheorems.GatedThroughInstall | px-oci-mon/main.go:522-529 | in every interleaving, a request whose reads fall between the download and the end of the run is told "installing", and after a failed run so is every later one |
| InstallTheorems.StageParts | px-oci-mon/main.go:178-179 | staging puts the release in the staging directory and changes no live part |
| InstallTheorems.RuncParts | px-oci-mon/main.go:193-244 | px-runc changes its own spec at most, and on success has stored the environment there |
| InstallTheorems.SkippingRun | px-oci-mon/main.go:139-143 | a run with equal IDs neither stages nor switches, leaves bin and rootfs alone, and leaves on record the old ID or the one px-runc stores |
| InstallTheorems.InstallingRun | px-oci-mon/main.go:155-244 | until the switch no live part changes, and then the staged parts are those of the new release |
| InstallTheorems.RunRecordsId | px-oci-mon/main.go:479-531 | after a successful run the ID of the pulled image is on record, whatever the purge left in scratch |
| InstallTheorems.SkipAmidIs | px-oci-mon/main.go:130-244 | deletions by a cleanup in the middle of a run that skips the install are as good as deletions before it |
| InstallTheorems.RecordedIdLasts | px-oci-mon/main.go:130-146 | over every history of runs that pull that image, failing anywhere, with cleanup steps between them and inside them, nothing is staged or switched and the ID stays on record |
| InstallTheorems.InstallConverges | px-oci-mon/main.go:130-146 | so one successful run makes every later run for the same image leave the install alone |
| Coherence.SwitchedIsCoherent | px-oci-mon/main.go:396-420 | after a successful switch the record names what is live, and all parts are there |
| Coherence.SwitchCoherentWhen | px-oci-mon/main.go:342-421 | after any switch, with any failures, the record is truthful if and only if the switch succeeds or is not entered, or what its rollback makes of config.json names what it makes of the other two parts or nothing that counts |
| Coherence.FailedSwitchCoherentWhen | px-oci-mon/main.go:359-378 | where purge and rollback work: if and only if there was a config.json to roll back to, or not all parts were moved in, or the new ID is none that counts, or no other part went back to something other than its staged version |
| Coherence.RunKeepsCoherence | px-oci-mon/main.go:479-531 | any run on any host, failing anywhere, in purge and rollback too, keeps the record truthful if and only if it is not a false run |
| Coherence.TrustedRun | px-oci-mon/main.go:479-531 | where purge and rollback work, a false run takes a reinstall that fails after all moves on a host without config.json but with a different bin or rootfs; a config.json stays in place and a whole install whole |
| Coherence.HistoryCoherentWhen | px-oci-mon/main.go:479-531 | over every history of runs for any images, failing anywhere, and of cleanup steps, from any host, the record is truthful all the way if and only if there is no false run in it |
| Coherence.HistoryKeepsCoherence | px-oci-mon/main.go:479-531 | with a config.json, and purges and rollbacks that work, there is none, and the config.json stays |
| Coherence.SkipsAreSound | px-oci-mon/main.go:139-143 | whenever an install is skipped after a history without a false run, the image just pulled is the one that is live |
| FreshHost.OneImageHistory | px-oci-mon/main.go:479-531 | from a host with nothing but parts of one release, a fresh one included, no history of runs that pull that release makes the record false |
| FreshHost.TwoFailedRunsBreakRecord | px-oci-mon/main.go:359-420 | two failed runs for different images on a fresh host, with a complete cleanup between them, make it false |
| Coherence.ConfigMovesLast | px-oci-mon/main.go:357-413 | in every state of the forward half a config.json that is not the old one comes with the whole new release |
| Coherence.RestartAfterCrashIsSound | px-oci-mon/main.go:398-413 | a monitor that dies in the forward half skips the install later only if that release is completely live |
| Coherence.RollbackMixesReleases | px-oci-mon/main.go:364-376 | a rollback passes through a state in which the new ID is on record over a bin or rootfs that is not the new one if and only if the forward half was complete and there was a bin or rootfs to undo |
| Coherence.OldBinUnderNewConfig | px-oci-mon/main.go:364-376 | after a failed reinstall, through one with the old bin in which the next run would skip the install |
| Drain.DrainPxVolumeConsumerPods | px-oci-mon/utils/kubernetes.go:100-140 | result, cordon and drained pods agree with the specification |
| Drain.ManagedMeaning | px-oci-mon/utils/kubernetes.go:109-115 | the filter keeps exactly the managed pods, with their multiplicity |
| Drain.DrainedAre | px-oci-mon/utils/kubernetes.go:107-131 | who is drained: of the listed pods the managed ones, or all if asked for, as often as listed and in order; no unmanaged pod without being asked for |
| Drain.FailedDrainLeavesCordon | px-oci-mon/utils/kubernetes.go:100-140 | when a drain succeeds, and when the node is cordoned after it, cordoned before or not |
| Servlet.OciRESTServlet.HandleGetHead | px-oci-mon/utils/servlet.go:151-158 | the answer from two reads with any setters between them |
| Servlet.NeverUnknownAgain | px-oci-mon/utils/servlet.go:189-208 | in no interleaving does the state become unknown again |
| Servlet.AnswerIsAtomic | px-oci-mon/utils/servlet.go:151-158 | the two reads answer like one: INSTALLING only if the second saw installing, proxied only if it saw finished |
| Servlet.GatedWhileInstalling | px-oci-mon/utils/servlet.go:151-158 | from a set to installing to the next set to finished, every request is told installing |
| Watcher.InArray | px-oci-mon/utils/kubernetes.go:29-36 | membership, with the search ending at the first match |
| Watcher.UninstallMeansDisabled | px-oci-mon/utils/kubernetes.go:39-55 | an uninstall request is a disablement |
| Watcher.WordsDecide | px-oci-mon/main.go:653-666 | coming from enabled, "uninstall", "remove" and "rm" uninstall and "false" merely disables, in any case; coming from disabled, any other word or no label installs |
| Watcher.ServiceDecides | px-oci-mon/main.go:667-685 | which words of the service label are carried out, which succeed, and what is remembered |
| Watcher.NodeWatcher.WatchNodeLabels | px-oci-mon/main.go:650-687 | one event does to the two remembered values and to the world what the specification says, on every return path |
| Watcher.NodeWatcher.WatchAll | px-oci-mon/main.go:807-807 | and so does a whole session |
| Watcher.DecisionsAreEdges | px-oci-mon/main.go:653-666 | the installs and disablements of a run are exactly the edges of the label, independent of service requests and failures; the watcher always knows the last value |
| Watcher.RunsAlternate | px-oci-mon/main.go:653-666 | disablements and installs strictly alternate, a disablement first |
| Watcher.InstallBetweenUninstalls | px-oci-mon/main.go:655-662 | between any two uninstalls there is an install |
| Watcher.StutterInvariance | px-oci-mon/main.go:653-666 | delivering events several times in a row changes no install or uninstall decision |
| Watcher.SecondRegistrationHarmlessWhen | px-oci-mon/main.go:794-807 | with the watcher registered a second time at any point, the second copy starting anywhere and complete or not, the decisions are those of the events if and only if each repeated delivery finds the status unchanged or anticipates just the next edge |
| Watcher.LateCopyRepeatsDecisions | px-oci-mon/main.go:794-807 | a second copy that comes after the first repeats a disablement and an install |
| Watcher.NoUninstallWhileDisabled | px-oci-mon/main.go:658-666 | while the node stays labelled disabled, no label uninstalls |
| Watcher.ServiceTrace | px-oci-mon/main.go:667-685 | with any command failures, the remembered command is the last successful one, or "" at the start or after a restart, and no success directly repeats another, restarts excepted |
| Watcher.AdjacentSuccesses | px-oci-mon/main.go:668-684 | two adjacent equal successes are restarts |
| Watcher.RequestCarriedOut | px-oci-mon/main.go:667-685 | off the edges a request is carried out if and only if it is not the remembered one; a restart always, a failed one again |
| Watcher.RepeatedRequestIgnored | px-oci-mon/main.go:668-671 | a command carried out once is ignored when its label comes back without another success in between |
| LogDemux.BigEndianRoundTrip | px-oci-mon/utils/installer.go:137-137 | the decoded length is the encoded one, for every 32-bit value |
| LogDemux.NextChunk | px-oci-mon/utils/installer.go:125-153 | one iteration delivers the prefix and exactly the bytes read in it, through a buffer that is reused or reallocated |
| LogDemux.Writers.WriteAll | px-oci-mon/utils/installer.go:155-157 | every writer gets the chunk, once |
| LogDemux.DockerLogReader | px-oci-mon/utils/installer.go:116-159 | for every reader, the ending and what every writer gets agree with the specification; no writers is an error that reads nothing |
| DemuxTheorems.HeaderExists | px-oci-mon/utils/installer.go:137-137 | every payload of up to 2^32-3 bytes can be framed, under any tag |
| DemuxTheorems.RoundTripWhen | px-oci-mon/utils/installer.go:116-159 | for every reader, a log of frames is rendered in full and reported as complete if and only if each header and each payload is delivered whole by its own read, and the read after the last frame reports the end |
| DemuxTheorems.ShortPayloadRead | px-oci-mon/utils/installer.go:150-157 | a payload read that falls short writes what it got, and the loop goes on with the rest of the payload as if it began a frame |
| DemuxTheorems.DemuxRoundTrip | px-oci-mon/utils/installer.go:116-159 | with a reader that fills its requests, every list of frames is rendered frame by frame and in order, and ends as complete, except that an empty last frame ends in a data error if the reader reports the end to a request for no bytes |
| DemuxTheorems.CutLog | px-oci-mon/utils/installer.go:125-153 | a log cut inside a frame is noticed if and only if no byte of that frame's payload is left; otherwise what is left of it is rendered and the log reported as complete |
| DemuxTheorems.DemuxConserves | px-oci-mon/utils/installer.go:124-158 | for every reader, headers and payloads of the writing iterations are, in order, a prefix of the stream |
| DemuxTheorems.CompleteMeansAll | px-oci-mon/utils/installer.go:126-130 | a nil return means that only bytes delivered together with the end are missing, so none for a reader that reports the end by itself |
| DemuxTheorems.WrittenLengths | px-oci-mon/utils/installer.go:155-157 | bytes consumed are eight per write plus the write's length less its prefix |
| DemuxTheorems.DemuxConservation | px-oci-mon/utils/installer.go:124-158 | so on a nil return the length of the stream follows from the writes |
| DemuxTheorems.BytesLostWhen | px-oci-mon/utils/installer.go:126-130 | a reader can make bytes vanish behind a nil return if and only if it may report the end together with bytes to a request for a header |
| DemuxTheorems.WrittenWithinHeader | px-oci-mon/utils/installer.go:137-156 | no write carries more than its header announced, and no length written reached the wrap-around |
| DemuxTheorems.TurnsMean | px-oci-mon/utils/installer.go:125-153 | how an iteration ends, and what it sees if it goes on, from what the reader answers and the header announces |
| DemuxTheorems.OutOfBoundsTurn | px-oci-mon/utils/installer.go:137-150 | the slice is out of bounds if and only if a whole header announces at least 2^32-2 bytes |
| PullForwarder.ReadFull | px-oci-mon/utils/installer.go:83-90 | the buffer holds the next bytes of the stream; short and empty only at its end |
| PullForwarder.CopyBuffer | px-oci-mon/utils/installer.go:101-101 | what is forwarded is the rest of the stream, or a prefix of it when a read breaks |
| PullForwarder.ContainsMeaning | px-oci-mon/utils/installer.go:92-92 | the marker test means an occurrence somewhere |
| PullForwarder.AnnouncesMeaning | px-oci-mon/utils/installer.go:82-92 | a stream announces a download if and only if its first 512 bytes are there and hold the words for the pull of a layer |
| PullForwarder.PullImageCb | px-oci-mon/utils/installer.go:75-103 | for every length and chunking: a nil return has forwarded the whole stream, and the callback ran once and before any byte if and only if there is one and the first 512 bytes exist and hold the marker |
| Arguments.NormaliseArguments | px-oci-mon/main.go:711-755 | the loop with its variable stride agrees with the specification, exits included |
| Arguments.FlagsMean | px-oci-mon/main.go:716-742 | the flags taken out leave nothing behind, and the call for help ends the process, wherever they stand |
| Arguments.ValuesMean | px-oci-mon/main.go:720-738 | the options with a value are taken out with it; a log that does not open, a scheduler other than kubernetes and a missing value end the process |
| Arguments.SchedulerKept | px-oci-mon/main.go:731-740 | the scheduler's pair is kept in place |
| Arguments.NormalisedIsClean | px-oci-mon/main.go:711-755 | no local option and no empty string is left, every `-x` has its `kubernetes`, there is such a pair, and so there are at least two arguments |
| Arguments.FixedPoints | px-oci-mon/main.go:711-755 | normalising changes nothing if and only if the arguments are clean and name the scheduler |
| Arguments.NormalisedTwice | px-oci-mon/main.go:711-755 | normalising again changes nothing |
| Arguments.EmptyArgumentTakesNextAlong | px-oci-mon/main.go:713-715 | an empty argument makes the one after it vanish, whatever it is |
| Arguments.EmptyArgumentHarmlessWhen | px-oci-mon/main.go:711-749 | it is harmless if and only if that one would have vanished by itself, or the process ends with and without it, for every kind of argument |
| Arguments.EmptyArgumentHidesHelp | px-oci-mon/main.go:713-742 | it can keep the process from ending |
| Arguments.OrdinaryArgumentPassedOn | px-oci-mon/main.go:746-747 | any other argument the loop stands on is passed on, behind what was kept before it |
| Arguments.RuncIsTold | px-oci-mon/main.go:210-215 | px-runc is told the scheduler, also after the cut of an install argument, if and only if its flag is not the first normalised argument or is there again |
| Arguments.InstallArgumentCut | px-oci-mon/main.go:210-215 | the installer's cut takes the argument behind the program name away if and only if it ends in "install", in any case |
| Arguments.BareSchedulerLosesFlag | px-oci-mon/main.go:210-215 | it is not when nothing but the scheduler pair is left, as under an empty program name or a flag for one |
| Mounts.FormatReadBack | px-oci-mon/utils/inspect.go:93-115 | source, destination and options of a formatted mount are read back |
| Mounts.PlainFormat | px-oci-mon/utils/inspect.go:93-115 | a mount with a private or blank propagation is written without one |
| Mounts.SharedFormat | px-oci-mon/utils/inspect.go:93-115 | any other propagation is written behind a colon, and "ro" then behind a comma |
| Mounts.EmitMounts | px-oci-mon/utils/inspect.go:92-129 | one entry per mount in order, the warnings, and an index that holds for each destination what was last emitted for it, at every iteration |
| Mounts.FormatMounts | px-oci-mon/utils/inspect.go:87-156 | the list with its extras, and all warnings |
| Mounts.LastForMeaning | px-oci-mon/utils/inspect.go:119-127 | a destination is in the index if and only if a mount has it |
| Mounts.ClashMeans | px-oci-mon/utils/inspect.go:117-126 | a warning is given if and only if the destination was used before, and says whether the mount is the same as the last one for it |
| Mounts.ListedExtras | px-oci-mon/utils/inspect.go:131-153 | at most two entries beyond the mounts, what they are, each there if and only if its source is known and no mount is for its destination |
| Mounts.ListedReadBack | px-oci-mon/utils/inspect.go:92-153 | each entry of the list is for the destination its position says |
| Mounts.DestinationsStayDistinct | px-oci-mon/utils/inspect.go:87-156 | distinct destinations stay distinct for all mounts, extras included, and are so when read back |

## Left out

- Partial or non-atomic `mv`: a move is all or nothing, as the rollback's claims need it.
- `isExist` is exact; a stat that fails for a reason other than absence is not modelled.
- Stopping the service before the swap, `sync`, reload, enable and the portworx-reboot unit: their errors are logged and otherwise ignored.
- `px-runc` is not part of this repository. It is assumed to store the values of its `-e` arguments in order in its spec and to write no other path; what its last run without arguments rewrites is a parameter, which convergence and coherence require to keep the recorded ID.
- The installer container is a step that leaves an arbitrary release in the staging directory; its log reaches the cordon decision as text.
- Docker, Kubernetes, systemd and nsenter calls, the pull and the inspection of the own container: outcomes in the plan of a run. A process exit ends the run with its own verdict; failing to reach Docker at all, which exits too, is not told apart from failing to inspect the own container.
- The environment of the monitor's process is that of its container, whose entry point it is (px-oci-mon/Dockerfile); `Consistent` says so where it matters.
- JSON decoding, regular expressions and HTTP: a spec is its decoded environment list, the kubelet's root directory is a parameter, a GET is the class of its answer. `errorsGrace` changes log levels only.
- Watcher.StutterInvariance: events are handled one after the other; two watcher goroutines inside the same function at once are not modelled.
- Watcher.NodeWatcher.WatchNodeLabels: resetting the label after an uninstall, and removing it after a successful restart, are part of those two actions; the outcome of the install and uninstall it starts does not feed back into the watcher, as in the code; lower-casing is that of ASCII, to which Kubernetes label values are confined.
- PullForwarder.PullImageCb: writes to standard output always succeed, and a reader delivers a byte or an error when asked for bytes.
- LogDemux.DockerLogReader: writers take every chunk; their errors are ignored by the code as well.
- Arguments.NormaliseArguments: which values the local options set is left out, only what happens to the arguments; opening the log file is a parameter.
- Mounts.FormatReadBack: mounts with separators inside their own pieces cannot be read back from the written form and are excluded there; the list itself, and the distinctness of its destinations, are stated for all mounts.
- Coherence.RunKeepsCoherence: a run that dies is not one of the runs of a history; `Crash` has the state it leaves and the run after it.
- CleanupRace.SwitchRacedWhen: begins when the scratch directory is made; the check and the removal of a part in the rollback are separate steps, the check and the move of the forward loop one, as no deletion comes near a live part.
- InstallTheorems.RecordedIdLasts: a run that has to install is not interleaved with a cleanup there; `CleanupRace` interleaves its switch.
- `doUninstall`, the REST dispatch, pod-name formatting and logging: straight-line code.
- px-mon, px-init and px-spec-websvc: deprecated call sequences and template rendering.
