/** The argument loop of `main`: local options are taken out, the scheduler option is
    checked and supplied if missing, everything else is left for px-runc.
 */
module Arguments {
  import opened Common
  import opened Strings

  const SCHEDULER: seq<string> := ["-x", "kubernetes"]

  /** Options consumed here; the last two end the process. */
  const LOCAL: set<string> := {"--sync", "--drain-all", "--endpoint", "--log", "--help", "-h"}

  /** Arguments the loop copies without a second look. */
  predicate Ordinary(a: string) {
    a != "" && a != "-x" && a !in LOCAL
  }

  /** `kept`: what is left for px-runc; `scheduled`: whether `-x kubernetes` was among it. */
  datatype Scan = Scan(kept: seq<string>, scheduled: bool)

  function Push(args: seq<string>, scheduled: bool, rest: Option<Scan>): Option<Scan> {
    if rest.None? then None else Some(Scan(args + rest.value.kept, scheduled || rest.value.scheduled))
  }

  /** The loop on the arguments from the current index on; None when it ends the process.
      An empty argument makes it skip the next one as well. */
  function ScanArgs(args: seq<string>, logOpens: string -> bool): Option<Scan>
    decreases |args|
  {
    if args == [] then Some(Scan([], false))
    else if args[0] == "" then ScanArgs(if |args| > 1 then args[2..] else [], logOpens)
    else if args[0] == "--sync" || args[0] == "--drain-all" then ScanArgs(args[1..], logOpens)
    else if args[0] == "--endpoint" then
      if |args| == 1 then None else ScanArgs(args[2..], logOpens)
    else if args[0] == "--log" then
      if |args| == 1 || !logOpens(args[1]) then None else ScanArgs(args[2..], logOpens)
    else if args[0] == "-x" then
      if |args| == 1 || args[1] != "kubernetes" then None else Push(SCHEDULER, true, ScanArgs(args[2..], logOpens))
    else if args[0] == "--help" || args[0] == "-h" then None
    else Push([args[0]], false, ScanArgs(args[1..], logOpens))
  }

  function Normalised(args: seq<string>, logOpens: string -> bool): Option<seq<string>> {
    var r := ScanArgs(args, logOpens);
    if r.None? then None else Some(r.value.kept + if r.value.scheduled then [] else SCHEDULER)
  }

  /** The loop with its variable stride. */
  method NormaliseArguments(osArgs: seq<string>, logOpens: string -> bool) returns (r: Option<seq<string>>)
    ensures r == Normalised(osArgs, logOpens)
  {
    var args: seq<string> := [];
    var scheduler := false;
    var i := 0;
    ghost var whole := ScanArgs(osArgs, logOpens);
    assert osArgs[0..] == osArgs;
    PushNothing(whole);
    while i < |osArgs|
      invariant whole == Push(args, scheduler, ScanArgs(if i <= |osArgs| then osArgs[i..] else [], logOpens))
      decreases |osArgs| - i
    {
      ghost var rest := osArgs[i..];
      if i + 1 < |osArgs| { assert rest[2..] == osArgs[i + 2..]; }
      assert rest[1..] == osArgs[i + 1..];
      var arg := osArgs[i];
      if arg == "" {
        i := i + 1;
      } else if arg == "--sync" || arg == "--drain-all" {
      } else if arg == "--endpoint" || arg == "--log" {
        if i + 1 >= |osArgs| {
          return None;
        }
        i := i + 1;
        if arg == "--log" && !logOpens(osArgs[i]) {
          return None;
        }
      } else if arg == "-x" {
        if i + 1 >= |osArgs| {
          return None;
        }
        i := i + 1;
        if osArgs[i] != "kubernetes" {
          return None;
        }
        PushTwice(args, scheduler, SCHEDULER, true, ScanArgs(osArgs[i + 1..], logOpens));
        args := args + SCHEDULER;
        scheduler := true;
      } else if arg == "--help" || arg == "-h" {
        return None;
      } else {
        PushTwice(args, scheduler, [arg], false, ScanArgs(rest[1..], logOpens));
        args := args + [arg];
      }
      i := i + 1;
    }
    assert osArgs[|osArgs|..] == [];
    assert args + [] == args;
    if !scheduler {
      args := args + SCHEDULER;
    }
    return Some(args);
  }

  lemma PushNothing(r: Option<Scan>)
    ensures Push([], false, r) == r
  {
    if r.Some? { assert [] + r.value.kept == r.value.kept; }
  }

  lemma PushTwice(a: seq<string>, s: bool, b: seq<string>, t: bool, r: Option<Scan>)
    ensures Push(a, s, Push(b, t, r)) == Push(a + b, s || t, r)
  {
    if r.Some? { assert a + (b + r.value.kept) == (a + b) + r.value.kept; }
  }

  // ---------------------------------------------------------------- what comes out

  /** Nothing local, nothing empty, and every `-x` has its `kubernetes`. */
  predicate Clean(args: seq<string>) {
    forall i :: 0 <= i < |args| ==> CleanAt(args, i)
  }

  predicate CleanAt(args: seq<string>, i: nat)
    requires i < |args|
  {
    && args[i] != "" && args[i] !in LOCAL
    && (args[i] == "-x" ==> i + 1 < |args| && args[i + 1] == "kubernetes")
  }

  predicate Schedules(args: seq<string>) {
    exists i :: 0 <= i < |args| - 1 && args[i] == "-x" && args[i + 1] == "kubernetes"
  }

  lemma CleanConcat(a: seq<string>, b: seq<string>)
    requires Clean(a) && Clean(b)
    ensures Clean(a + b)
    ensures Schedules(a) || Schedules(b) ==> Schedules(a + b)
  {
    var ab := a + b;
    forall i | 0 <= i < |ab|
      ensures CleanAt(ab, i)
    {
      if i < |a| {
        assert CleanAt(a, i) && ab[i] == a[i];
        if i + 1 < |a| { assert ab[i + 1] == a[i + 1]; }
      } else {
        assert CleanAt(b, i - |a|) && ab[i] == b[i - |a|];
        if i + 1 < |ab| { assert ab[i + 1] == b[i + 1 - |a|]; }
      }
    }
    if Schedules(a) {
      var i :| 0 <= i < |a| - 1 && a[i] == "-x" && a[i + 1] == "kubernetes";
      assert (a + b)[i] == "-x" && (a + b)[i + 1] == "kubernetes";
    }
    if Schedules(b) {
      var i :| 0 <= i < |b| - 1 && b[i] == "-x" && b[i + 1] == "kubernetes";
      assert (a + b)[|a| + i] == "-x" && (a + b)[|a| + i + 1] == "kubernetes";
    }
  }

  lemma SchedulerClean()
    ensures Clean(SCHEDULER) && Schedules(SCHEDULER)
  {
    assert SCHEDULER[0] == "-x" && SCHEDULER[1] == "kubernetes";
  }

  lemma {:induction false} ScanClean(args: seq<string>, logOpens: string -> bool)
    requires ScanArgs(args, logOpens).Some?
    ensures var r := ScanArgs(args, logOpens).value;
            Clean(r.kept) && (r.scheduled ==> Schedules(r.kept))
    decreases |args|
  {
    if args != [] {
      if args[0] == "" {
        ScanClean(if |args| > 1 then args[2..] else [], logOpens);
      } else if args[0] in {"--sync", "--drain-all"} {
        ScanClean(args[1..], logOpens);
      } else if args[0] in {"--endpoint", "--log"} {
        ScanClean(args[2..], logOpens);
      } else if args[0] == "-x" {
        ScanClean(args[2..], logOpens);
        SchedulerClean();
        CleanConcat(SCHEDULER, ScanArgs(args[2..], logOpens).value.kept);
      } else {
        ScanClean(args[1..], logOpens);
        CleanConcat([args[0]], ScanArgs(args[1..], logOpens).value.kept);
      }
    }
  }

  /** Whenever the process goes on, its arguments are clean and name the scheduler, so
      there are at least two and the installer may look at the one after the first. */
  lemma NormalisedIsClean(args: seq<string>, logOpens: string -> bool)
    requires Normalised(args, logOpens).Some?
    ensures var r := Normalised(args, logOpens).value; Clean(r) && Schedules(r) && |r| >= 2
  {
    ScanClean(args, logOpens);
    SchedulerClean();
    var r := ScanArgs(args, logOpens).value;
    CleanConcat(r.kept, if r.scheduled then [] else SCHEDULER);
  }

  lemma {:induction false} ScanOfClean(args: seq<string>, logOpens: string -> bool)
    requires Clean(args)
    ensures ScanArgs(args, logOpens) == Some(Scan(args, "-x" in args))
    decreases |args|
  {
    if args != [] {
      assert CleanAt(args, 0);
      if args[0] == "-x" {
        CleanTail(args, 2);
        ScanOfClean(args[2..], logOpens);
        assert args == SCHEDULER + args[2..];
      } else {
        CleanTail(args, 1);
        ScanOfClean(args[1..], logOpens);
        assert args == [args[0]] + args[1..];
      }
    }
  }

  lemma CleanTail(args: seq<string>, n: nat)
    requires Clean(args) && n <= |args|
    ensures Clean(args[n..])
  {
    var rest := args[n..];
    forall i | 0 <= i < |rest|
      ensures CleanAt(rest, i)
    {
      assert CleanAt(args, n + i);
    }
  }

  /** Normalising changes nothing exactly on clean arguments that name the scheduler ... */
  lemma FixedPoints(args: seq<string>, logOpens: string -> bool)
    ensures Normalised(args, logOpens) == Some(args) <==> Clean(args) && Schedules(args)
  {
    if Normalised(args, logOpens) == Some(args) {
      NormalisedIsClean(args, logOpens);
    }
    if Clean(args) && Schedules(args) {
      ScanOfClean(args, logOpens);
      assert args + [] == args;
    }
  }

  /** ... so doing it again changes nothing. */
  lemma NormalisedTwice(args: seq<string>, logOpens: string -> bool)
    requires Normalised(args, logOpens).Some?
    ensures Normalised(Normalised(args, logOpens).value, logOpens) == Normalised(args, logOpens)
  {
    NormalisedIsClean(args, logOpens);
    FixedPoints(Normalised(args, logOpens).value, logOpens);
  }

  // ---------------------------------------------------------------- what gets lost

  /** The loop, started on `a`, comes to stand right behind it. */
  predicate InStep(a: seq<string>)
    decreases |a|
  {
    if a == [] then true
    else if a[0] in {"", "--endpoint", "--log", "-x"} then |a| > 1 && InStep(a[2..])
    else InStep(a[1..])
  }

  lemma {:induction false} ScanConcat(a: seq<string>, b: seq<string>, logOpens: string -> bool)
    requires InStep(a)
    ensures ScanArgs(a + b, logOpens) ==
              if ScanArgs(a, logOpens).None? then None
              else Push(ScanArgs(a, logOpens).value.kept, ScanArgs(a, logOpens).value.scheduled, ScanArgs(b, logOpens))
    decreases |a|
  {
    if a == [] {
      assert a + b == b;
      PushNothing(ScanArgs(b, logOpens));
    } else if a[0] in {"", "--endpoint", "--log", "-x"} {
      assert (a + b)[2..] == a[2..] + b;
      ScanConcat(a[2..], b, logOpens);
      var r := ScanArgs(a[2..], logOpens);
      if r.Some? { PushTwice(SCHEDULER, true, r.value.kept, r.value.scheduled, ScanArgs(b, logOpens)); }
    } else {
      assert (a + b)[1..] == a[1..] + b;
      ScanConcat(a[1..], b, logOpens);
      var r := ScanArgs(a[1..], logOpens);
      if r.Some? { PushTwice([a[0]], false, r.value.kept, r.value.scheduled, ScanArgs(b, logOpens)); }
    }
  }

  /** An empty argument, meant to be skipped, takes the argument after it along. */
  lemma EmptyArgumentTakesNextAlong(a: seq<string>, x: string, b: seq<string>, logOpens: string -> bool)
    requires InStep(a)
    ensures Normalised(a + ["", x] + b, logOpens) == Normalised(a + b, logOpens)
  {
    assert a + ["", x] + b == a + (["", x] + b);
    assert (["", x] + b)[2..] == b;
    ScanConcat(a, ["", x] + b, logOpens);
    ScanConcat(a, b, logOpens);
  }

  /** The loop, standing on the first of these arguments, might as well stand on the second:
      the first is a flag taken out here, or the last and empty; or it takes out one that
      would have gone by itself.  `logOpens` matters for the value of `--log` only. */
  predicate Vanishes(args: seq<string>, logOpens: string -> bool)
    requires args != []
    decreases |args|
  {
    match args[0]
    case "--sync" => true
    case "--drain-all" => true
    case "" => |args| == 1 || Vanishes(args[1..], logOpens)
    case "--endpoint" => |args| > 1 && Vanishes(args[1..], logOpens)
    case "--log" => |args| > 1 && logOpens(args[1]) && Vanishes(args[1..], logOpens)
    case _ => false
  }

  /** How many arguments are left for px-runc, if `-x kubernetes` was seen before or not. */
  function Length(r: Scan, scheduled: bool): nat {
    |r.kept| + if r.scheduled || scheduled then 0 else |SCHEDULER|
  }

  lemma {:induction false} VanishesMeans(args: seq<string>, logOpens: string -> bool, scheduled: bool)
    requires args != []
    ensures var r, s := ScanArgs(args, logOpens), ScanArgs(args[1..], logOpens);
            && (Vanishes(args, logOpens) ==> r == s)
            && (!Vanishes(args, logOpens) && r.Some? && s.Some? ==>
                  Length(r.value, scheduled) != Length(s.value, scheduled))
    decreases |args|
  {
    var r, s := ScanArgs(args, logOpens), ScanArgs(args[1..], logOpens);
    if args[0] in {"", "--endpoint", "--log"} {
      if |args| > 1 {
        assert args[2..] == args[1..][1..];
        VanishesMeans(args[1..], logOpens, scheduled);
      }
    } else if args[0] == "-x" && |args| > 1 && args[1] == "kubernetes" {
      assert args[1..][1..] == args[2..];
    }
  }

  /** When an empty argument is harmless, wherever the loop finds it: it changes nothing if
      and only if the argument behind it would have vanished by itself, or the process ends
      on the other arguments with and without that one; so it is not harmless before an
      ordinary argument, unless the process ends anyway, and always is before `--sync` or
      `--drain-all`. */
  lemma EmptyArgumentHarmlessWhen(a: seq<string>, x: string, b: seq<string>, logOpens: string -> bool)
    requires InStep(a)
    ensures Normalised(a + ["", x] + b, logOpens) == Normalised(a + [x] + b, logOpens) <==>
              || Normalised(a, logOpens).None? || Vanishes([x] + b, logOpens)
              || (Normalised(b, logOpens).None? && Normalised([x] + b, logOpens).None?)
    ensures Ordinary(x) || x == "-x" ==> !Vanishes([x] + b, logOpens)
    ensures x == "--sync" || x == "--drain-all" ==> Vanishes([x] + b, logOpens)
  {
    EmptyArgumentTakesNextAlong(a, x, b, logOpens);
    assert a + [x] + b == a + ([x] + b) && ([x] + b)[1..] == b;
    ScanConcat(a, [x] + b, logOpens);
    ScanConcat(a, b, logOpens);
    var head, r, s := ScanArgs(a, logOpens), ScanArgs([x] + b, logOpens), ScanArgs(b, logOpens);
    if head.Some? {
      VanishesMeans([x] + b, logOpens, head.value.scheduled);
      if r.Some? { NormalisedLength(a + ([x] + b), head.value, r.value, logOpens); }
      if s.Some? { NormalisedLength(a + b, head.value, s.value, logOpens); }
    }
  }

  /** It can keep the process from ending. */
  lemma EmptyArgumentHidesHelp(logOpens: string -> bool)
    ensures Normalised(["", "--help"], logOpens).Some? && Normalised(["--help"], logOpens).None?
  {
    assert ["", "--help"][2..] == [];
  }

  lemma NormalisedLength(args: seq<string>, head: Scan, r: Scan, logOpens: string -> bool)
    requires ScanArgs(args, logOpens) == Push(head.kept, head.scheduled, Some(r))
    ensures Normalised(args, logOpens).Some?
    ensures |Normalised(args, logOpens).value| == |head.kept| + Length(r, head.scheduled)
  {
  }

  /** Whatever the loop finds behind `a`, it has kept the same of `a` before. */
  lemma NormalisedBehind(a: seq<string>, b: seq<string>, c: seq<string>, logOpens: string -> bool)
    requires InStep(a)
    ensures ScanArgs(b, logOpens) == ScanArgs(c, logOpens) ==>
              Normalised(a + b, logOpens) == Normalised(a + c, logOpens)
    ensures ScanArgs(b, logOpens) == None ==> Normalised(a + b, logOpens) == None
  {
    ScanConcat(a, b, logOpens);
    ScanConcat(a, c, logOpens);
  }

  /** The flags taken out, wherever the loop finds them; and the call for help, which ends
      the process. */
  lemma FlagsMean(a: seq<string>, x: string, b: seq<string>, logOpens: string -> bool)
    requires InStep(a)
    ensures x in {"--sync", "--drain-all"} ==> Normalised(a + ([x] + b), logOpens) == Normalised(a + b, logOpens)
    ensures x in {"--help", "-h"} ==> Normalised(a + ([x] + b), logOpens) == None
  {
    assert ([x] + b)[0] == x && ([x] + b)[1..] == b;
    NormalisedBehind(a, [x] + b, b, logOpens);
  }

  /** The options with a value: a log file that does not open, a scheduler other than
      kubernetes, and a missing value end the process. */
  lemma ValuesMean(a: seq<string>, x: string, v: string, b: seq<string>, logOpens: string -> bool)
    requires InStep(a)
    ensures x == "--endpoint" ==> Normalised(a + ([x, v] + b), logOpens) == Normalised(a + b, logOpens)
    ensures x == "--log" ==>
              Normalised(a + ([x, v] + b), logOpens) == if logOpens(v) then Normalised(a + b, logOpens) else None
    ensures x == "-x" && v != "kubernetes" ==> Normalised(a + ([x, v] + b), logOpens) == None
    ensures x in {"--endpoint", "--log", "-x"} ==> Normalised(a + [x], logOpens) == None
  {
    var all := [x, v] + b;
    assert all[0] == x && all[1] == v && all[2..] == b;
    NormalisedBehind(a, all, b, logOpens);
    NormalisedBehind(a, [x], b, logOpens);
  }

  /** The scheduler's own pair is kept. */
  lemma SchedulerKept(a: seq<string>, b: seq<string>, logOpens: string -> bool)
    requires InStep(a) && ScanArgs(a, logOpens).Some? && ScanArgs(b, logOpens).Some?
    ensures var r := ScanArgs(a + (["-x", "kubernetes"] + b), logOpens);
            && r.Some? && r.value.scheduled
            && r.value.kept ==
                 ScanArgs(a, logOpens).value.kept + ["-x", "kubernetes"] + ScanArgs(b, logOpens).value.kept
  {
    ScanConcat(a, ["-x", "kubernetes"] + b, logOpens);
    assert (["-x", "kubernetes"] + b)[2..] == b;
  }

  /** An ordinary argument is passed on, wherever the loop finds it. */
  lemma OrdinaryArgumentPassedOn(a: seq<string>, x: string, b: seq<string>, logOpens: string -> bool)
    requires InStep(a) && Ordinary(x) && Normalised(a + [x] + b, logOpens).Some?
    ensures Normalised(a, logOpens).Some? && Normalised(b, logOpens).Some?
    ensures var kept := ScanArgs(a, logOpens).value.kept;
            kept + [x] <= Normalised(a + [x] + b, logOpens).value
  {
    assert a + [x] + b == a + ([x] + b);
    assert ([x] + b)[1..] == b;
    ScanConcat(a, [x] + b, logOpens);
    var r := ScanArgs(a, logOpens).value;
    PushTwice(r.kept, r.scheduled, [x], false, ScanArgs(b, logOpens));
    var all := ScanArgs(a + [x] + b, logOpens).value.kept;
    assert all == r.kept + [x] + ScanArgs(b, logOpens).value.kept;
  }

  // ---------------------------------------------------------------- what px-runc is given

  /** The installer's own cut: the program name goes, and an argument ending in "install" after it. */
  function RuncArguments(osArgs: seq<string>): seq<string>
    requires |osArgs| >= 2
  {
    if EndsInInstall(osArgs[1]) then osArgs[2..] else osArgs[1..]
  }

  predicate EndsInInstall(a: string) {
    |a| >= 7 && Lower(a)[|a| - 7..] == "install"
  }

  /** The installer's cut takes an argument away if it ends in "install", whatever the case. */
  lemma InstallArgumentCut(r: seq<string>)
    requires |r| >= 2
    ensures RuncArguments(r) == r[2..] <==> exists p :: Lower(r[1]) == p + "install"
    ensures RuncArguments(r) in {r[1..], r[2..]}
  {
    var a := Lower(r[1]);
    assert |r[1..]| != |r[2..]|;
    if EndsInInstall(r[1]) { assert a == a[..|a| - 7] + "install"; }
    forall p | a == p + "install"
      ensures EndsInInstall(r[1])
    {
      assert a[|a| - 7..] == "install";
    }
  }

  /** px-runc is told the scheduler if and only if its flag is not the very first of the
      normalised arguments, or is there again; so it is told if the program was started
      under an ordinary name. */
  lemma RuncIsTold(args: seq<string>, logOpens: string -> bool)
    requires Normalised(args, logOpens).Some?
    ensures var r := Normalised(args, logOpens).value;
            && |r| >= 2
            && (Schedules(RuncArguments(r)) <==> r[0] != "-x" || "-x" in r[1..])
            && (args != [] && Ordinary(args[0]) ==> Schedules(RuncArguments(r)))
  {
    NormalisedIsClean(args, logOpens);
    var r := Normalised(args, logOpens).value;
    if r[0] != "-x" { FlagNotFirst(r); } else { FlagFirst(r); }
    if args != [] && Ordinary(args[0]) { FirstKept(args, logOpens); }
  }

  lemma FirstKept(args: seq<string>, logOpens: string -> bool)
    requires args != [] && Ordinary(args[0]) && Normalised(args, logOpens).Some?
    ensures Normalised(args, logOpens).value != [] && Normalised(args, logOpens).value[0] == args[0] != "-x"
  {
  }

  lemma FlagNotFirst(r: seq<string>)
    requires |r| >= 2 && Schedules(r) && r[0] != "-x"
    ensures Schedules(RuncArguments(r))
  {
    var i :| 0 <= i < |r| - 1 && r[i] == "-x" && r[i + 1] == "kubernetes";
    ScheduleKept(r, i);
  }

  lemma FlagFirst(r: seq<string>)
    requires Clean(r) && r != [] && r[0] == "-x"
    ensures |r| >= 2 && (Schedules(RuncArguments(r)) <==> "-x" in r[1..])
  {
    assert CleanAt(r, 0);
    CutAfterFlag(r);
    if "-x" in r[1..] {
      var k :| 0 <= k < |r[1..]| && r[1..][k] == "-x";
      assert CleanAt(r, k + 1);
      ScheduleKept(r, k + 1);
    }
  }

  lemma CutAfterFlag(r: seq<string>)
    requires |r| >= 2 && r[1] == "kubernetes"
    ensures RuncArguments(r) == r[1..]
  {
    KubernetesIsNoInstall();
  }

  lemma ScheduleKept(r: seq<string>, i: nat)
    requires 1 <= i < |r| - 1 && r[i] == "-x" && r[i + 1] == "kubernetes"
    ensures Schedules(RuncArguments(r))
  {
    if EndsInInstall(r[1]) {
      assert i >= 2 && r[2..][i - 2] == "-x" && r[2..][i - 1] == "kubernetes";
    } else {
      assert r[1..][i - 1] == "-x" && r[1..][i] == "kubernetes";
    }
  }

  lemma KubernetesIsNoInstall()
    ensures !EndsInInstall("kubernetes")
  {
    assert Lower("kubernetes")[3..][0] == Lower("kubernetes")[3] == 'e';
  }

  /** Nothing but the scheduler's own pair is left, as of an empty program name with one
      argument, or of a program name that is itself a flag: then px-runc gets a stray word. */
  lemma BareSchedulerLosesFlag(args: seq<string>, x: string, logOpens: string -> bool)
    ensures Normalised(args, logOpens) == Some(SCHEDULER) ==>
              RuncArguments(Normalised(args, logOpens).value) == ["kubernetes"]
    ensures Normalised([], logOpens) == Normalised(["", x], logOpens) == Some(SCHEDULER)
    ensures Normalised(["--sync"], logOpens) == Some(SCHEDULER)
  {
    BareSchedulerCut();
    NothingLeft(x, logOpens);
  }

  lemma BareSchedulerCut()
    ensures RuncArguments(SCHEDULER) == ["kubernetes"]
  {
    CutAfterFlag(SCHEDULER);
    assert SCHEDULER[1..] == ["kubernetes"];
  }

  lemma NothingLeft(x: string, logOpens: string -> bool)
    ensures Normalised([], logOpens) == Normalised(["", x], logOpens) == Some(SCHEDULER)
    ensures Normalised(["--sync"], logOpens) == Some(SCHEDULER)
  {
    assert [] + SCHEDULER == SCHEDULER;
    assert ["", x][2..] == [] && ["--sync"][1..] == [];
  }
}
