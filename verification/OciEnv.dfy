/** The environment's way through an install: `PX_IMAGE_ID=<id>` is appended to the
    container's environment, flattened into px-runc's argument list, stored by
    px-runc in config.json, and read back by a last-match-wins scan.
 */
module OciEnv {
  import opened Common
  import opened HostTree

  const IMAGE_KEY := "PX_IMAGE"
  const IMAGE_ID_KEY := "PX_IMAGE_ID"

  // ---------------------------------------------------------------- reading back

  /** `e` is an entry `key=...`. */
  predicate Sets(e: string, key: string) {
    key + "=" <= e
  }

  function ValueOf(e: string, key: string): string
    requires Sets(e, key)
  {
    e[|key| + 1..]
  }

  /** The value of the last entry for `key`, or "" if there is none. */
  function LastValue(env: seq<string>, key: string): string {
    if env == [] then ""
    else if Sets(env[|env| - 1], key) then ValueOf(env[|env| - 1], key)
    else LastValue(env[..|env| - 1], key)
  }

  /** What the recursion computes: the value of the entry with no later entry for the same key. */
  lemma {:induction false} LastValueMeaning(env: seq<string>, key: string, i: nat)
    requires i < |env| && Sets(env[i], key) && forall j :: i < j < |env| ==> !Sets(env[j], key)
    ensures LastValue(env, key) == ValueOf(env[i], key)
  {
    if i < |env| - 1 {
      LastValueMeaning(env[..|env| - 1], key, i);
    }
  }

  /** The scan itself; a missing file or one that is not an OCI spec is an error. */
  method ExtractEnvFromOciConfig(file: Option<Node>, key: string) returns (r: Result<string>)
    ensures r == ExtractedEnv(file, key)
  {
    if file.None? || file.value.Dir? || file.value.content.Blob? {
      return Err;
    }
    var env := file.value.content.env;
    var found := "";
    for i := 0 to |env|
      invariant found == LastValue(env[..i], key)
    {
      assert env[..i + 1][..i] == env[..i];
      if Sets(env[i], key) {
        found := ValueOf(env[i], key);
      }
    }
    assert env[..|env|] == env;
    return Ok(found);
  }

  function ExtractedEnv(file: Option<Node>, key: string): Result<string> {
    match file
    case Some(File(Spec(env))) => Ok(LastValue(env, key))
    case _ => Err
  }

  /** `v` stands in the last entry for the key; or there is none, and it is "". */
  ghost predicate StandsLast(env: seq<string>, key: string, v: string) {
    || (v == "" && forall e :: e in env ==> !(key + "=" <= e))
    || exists i :: 0 <= i < |env| && env[i] == key + "=" + v && forall j :: i < j < |env| ==> !(key + "=" <= env[j])
  }

  /** What is read: nothing from what is not a spec; and from a spec, the last value. */
  lemma ExtractedMeaning(file: Option<Node>, key: string)
    ensures ExtractedEnv(file, key).Ok? <==> file.Some? && file.value.File? && file.value.content.Spec?
    ensures ExtractedEnv(file, key).Ok? ==> StandsLast(file.value.content.env, key, ExtractedEnv(file, key).value)
  {
    if ExtractedEnv(file, key).Ok? { LastValueStands(file.value.content.env, key); }
  }

  lemma {:induction false} LastValueStands(env: seq<string>, key: string)
    ensures StandsLast(env, key, LastValue(env, key))
  {
    if env != [] {
      var k, init, v := |env| - 1, env[..|env| - 1], LastValue(env, key);
      if Sets(env[k], key) {
        assert env[k] == key + "=" + v;
      } else {
        LastValueStands(init, key);
        assert env == init + [env[k]];
        if i :| 0 <= i < k && init[i] == key + "=" + v && forall j :: i < j < k ==> !(key + "=" <= init[j]) {
          assert env[i] == key + "=" + v && forall j :: i < j < |env| ==> !(key + "=" <= env[j]);
        }
      }
    }
  }

  /** Entries further right win. */
  lemma {:induction false} LastValueConcat(a: seq<string>, b: seq<string>, key: string)
    ensures LastValue(a + b, key) ==
            if exists e :: e in b && Sets(e, key) then LastValue(b, key) else LastValue(a, key)
  {
    if b == [] {
      assert a + b == a;
    } else {
      var init, last := b[..|b| - 1], b[|b| - 1];
      assert (a + b)[..|a + b| - 1] == a + init && (a + b)[|a + b| - 1] == last;
      if !Sets(last, key) {
        LastValueConcat(a, init, key);
        assert forall e :: e in b <==> e in init || e == last;
      }
    }
  }

  lemma LastValueAppended(env: seq<string>, key: string, v: string)
    ensures LastValue(env + [key + "=" + v], key) == v
  {
    var e := key + "=" + v;
    assert e == (key + "=") + v;
    assert (env + [e])[|env + [e]| - 1] == e;
    assert ValueOf(e, key) == v;
  }

  // ---------------------------------------------------------------- px-runc's command line

  /** px-runc's scan of its arguments: `-e` makes the next argument an environment
      entry. `pending` is whether such a `-e` is waiting for its value. */
  datatype Scanned = Scanned(env: seq<string>, pending: bool)

  function Scan(args: seq<string>, pending: bool): Scanned
    decreases |args|
  {
    if args == [] then Scanned([], pending)
    else if pending then
      var rest := Scan(args[1..], false);
      Scanned([args[0]] + rest.env, rest.pending)
    else
      Scan(args[1..], args[0] == "-e")
  }

  /** What px-runc stores as `process.env`. */
  function StoredEnv(args: seq<string>): seq<string> {
    Scan(args, false).env
  }

  function Flatten(flag: string, values: seq<string>): seq<string> {
    if values == [] then [] else [flag, values[0]] + Flatten(flag, values[1..])
  }

  const PRIVATE_MOUNTS: set<string> := {
    "/etc/pwx:/etc/pwx",
    "/opt/pwx:/opt/pwx",
    "/etc/systemd/system:/etc/systemd/system",
    "/proc/1/ns:/host_proc/1/ns",
    "/var/run/docker.sock:/var/run/docker.sock"
  }

  predicate PassedOn(mount: string) {
    mount !in PRIVATE_MOUNTS && |mount| >= 4 && !("/var/run/docker.sock:" <= mount)
  }

  function PassedMounts(mounts: seq<string>): (r: seq<string>)
    ensures forall m :: m in r <==> m in mounts && PassedOn(m)
  {
    if mounts == [] then []
    else if PassedOn(mounts[0]) then [mounts[0]] + PassedMounts(mounts[1..])
    else PassedMounts(mounts[1..])
  }

  /** The tail of the px-runc command line: the user's arguments, the mounts, the environment. */
  function RuncTail(user: seq<string>, mounts: seq<string>, env: seq<string>): seq<string> {
    user + Flatten("-v", PassedMounts(mounts)) + Flatten("-e", env)
  }

  /** The two loops that append mounts and environment to the command line. */
  method ComposeTail(user: seq<string>, mounts: seq<string>, env: seq<string>) returns (args: seq<string>)
    ensures args == RuncTail(user, mounts, env)
  {
    args := user;
    for i := 0 to |mounts|
      invariant args + Flatten("-v", PassedMounts(mounts[i..])) == user + Flatten("-v", PassedMounts(mounts))
    {
      assert mounts[i..][1..] == mounts[i + 1..];
      if PassedOn(mounts[i]) {
        var rest := PassedMounts(mounts[i + 1..]);
        assert ([mounts[i]] + rest)[1..] == rest;
        assert args + (["-v", mounts[i]] + Flatten("-v", rest)) == (args + ["-v", mounts[i]]) + Flatten("-v", rest);
        args := args + ["-v", mounts[i]];
      }
    }
    assert args == user + Flatten("-v", PassedMounts(mounts)) by {
      assert mounts[|mounts|..] == [];
      assert args + [] == args;
    }
    ghost var head := args;
    for i := 0 to |env|
      invariant args + Flatten("-e", env[i..]) == head + Flatten("-e", env)
    {
      assert env[i..][1..] == env[i + 1..];
      assert args + (["-e", env[i]] + Flatten("-e", env[i + 1..])) ==
               (args + ["-e", env[i]]) + Flatten("-e", env[i + 1..]);
      args := args + ["-e", env[i]];
    }
    assert env[|env|..] == [] && args + [] == args;
  }

  /** A mount that the monitor keeps for itself, or that exposes the Docker socket, or is too
      short to be one. */
  predicate Withheld(m: string) {
    || m == "/etc/pwx:/etc/pwx" || m == "/opt/pwx:/opt/pwx" || m == "/etc/systemd/system:/etc/systemd/system"
    || m == "/proc/1/ns:/host_proc/1/ns" || "/var/run/docker.sock:" <= m || |m| < 4
  }

  lemma WithheldIs(m: string)
    ensures PassedOn(m) <==> !Withheld(m)
  {
    var socket := "/var/run/docker.sock:/var/run/docker.sock";
    assert socket[..21] == "/var/run/docker.sock:";
  }

  /** All other mounts are passed on ... */
  lemma {:induction false} PassedMountsAre(mounts: seq<string>, m: string)
    ensures multiset(PassedMounts(mounts))[m] == if Withheld(m) then 0 else multiset(mounts)[m]
  {
    if mounts != [] {
      PassedMountsAre(mounts[1..], m);
      WithheldIs(mounts[0]);
      assert mounts == [mounts[0]] + mounts[1..];
    }
  }

  /** ... in their order. */
  lemma {:induction false} PassedMountsInOrder(mounts: seq<string>)
    ensures Sublist(PassedMounts(mounts), mounts)
  {
    if mounts != [] {
      PassedMountsInOrder(mounts[1..]);
      if PassedOn(mounts[0]) { assert PassedMounts(mounts)[1..] == PassedMounts(mounts[1..]); }
    }
  }

  lemma {:induction false} FlattenAt(flag: string, values: seq<string>, i: nat)
    requires i < |values|
    ensures |Flatten(flag, values)| == 2 * |values|
    ensures Flatten(flag, values)[2 * i] == flag && Flatten(flag, values)[2 * i + 1] == values[i]
  {
    var rest := values[1..];
    if rest != [] { FlattenAt(flag, rest, if i > 0 then i - 1 else 0); }
    assert Flatten(flag, values) == [flag, values[0]] + Flatten(flag, rest);
  }

  /** Where everything stands behind the user's arguments. */
  lemma TailAt(user: seq<string>, mounts: seq<string>, env: seq<string>, i: nat)
    ensures var args, passed := RuncTail(user, mounts, env), PassedMounts(mounts);
            && |args| == |user| + 2 * |passed| + 2 * |env| && user <= args
            && (i < |passed| ==> args[|user| + 2 * i] == "-v" && args[|user| + 2 * i + 1] == passed[i])
            && (i < |env| ==> var at := |user| + 2 * |passed| + 2 * i; args[at] == "-e" && args[at + 1] == env[i])
  {
    var passed := PassedMounts(mounts);
    if passed != [] { FlattenAt("-v", passed, if i < |passed| then i else 0); }
    if env != [] { FlattenAt("-e", env, if i < |env| then i else 0); }
  }

  // ---------------------------------------------------------------- the way through

  lemma {:induction false} ScanConcat(a: seq<string>, b: seq<string>, pending: bool)
    ensures var first := Scan(a, pending);
            var second := Scan(b, first.pending);
            Scan(a + b, pending) == Scanned(first.env + second.env, second.pending)
    decreases |a|
  {
    if a == [] {
      assert a + b == b;
      assert [] + Scan(b, pending).env == Scan(b, pending).env;
    } else {
      assert (a + b)[1..] == a[1..] + b;
      ScanConcat(a[1..], b, if pending then false else a[0] == "-e");
      if pending {
        var second := Scan(b, Scan(a[1..], false).pending);
        assert [a[0]] + (Scan(a[1..], false).env + second.env) == [a[0]] + Scan(a[1..], false).env + second.env;
      }
    }
  }

  /** Mount pairs are not taken for environment entries. */
  lemma {:induction false} ScanMountsStored(mounts: seq<string>)
    requires forall m :: m in mounts ==> |m| >= 4
    ensures Scan(Flatten("-v", mounts), false).env == []
  {
    if mounts != [] {
      var args := Flatten("-v", mounts);
      assert args[0] == "-v" && args[1..][0] == mounts[0] && args[1..][1..] == Flatten("-v", mounts[1..]);
      ScanMountsStored(mounts[1..]);
    }
  }

  /** The `-e` pairs, seen by the scan: aligned, they are stored entry by entry in
      order; with a `-e` still pending, the flags are taken for values until an
      entry other than "-e" itself puts the scan back in step. */
  lemma {:induction false} ScanEnvPairs(env: seq<string>, pending: bool)
    ensures var r := Scan(Flatten("-e", env), pending);
            if !pending then r == Scanned(env, false)
            else
              && r.pending == (forall e :: e in env ==> e == "-e")
              && (r.pending ==> forall e :: e in r.env ==> e == "-e")
  {
    if env != [] {
      var args := Flatten("-e", env);
      assert args[0] == "-e" && args[1..][0] == env[0] && args[1..][1..] == Flatten("-e", env[1..]);
      assert Scan(args, false) == Scan(args[1..], true);
      ScanEnvPairs(env[1..], pending && env[0] == "-e");
      assert env == [env[0]] + env[1..];
      assert env[0] in env && forall e :: e in env <==> e == env[0] || e in env[1..];
      if pending {
        assert Scan(args, true).env == ["-e"] + Scan(args[1..], false).env;
        assert Scan(args[1..], false) == Scan(args[1..][1..], env[0] == "-e");
      }
    }
  }

  /** Mount pairs never leave a `-e` pending: a passed mount is longer than "-e". */
  lemma {:induction false} ScanMountPairs(mounts: seq<string>, pending: bool)
    requires forall m :: m in mounts ==> |m| >= 4
    ensures Scan(Flatten("-v", mounts), pending).pending == (pending && mounts == [])
  {
    if mounts != [] {
      var args := Flatten("-v", mounts);
      assert args[0] == "-v" && args[1..][0] == mounts[0] && args[1..][1..] == Flatten("-v", mounts[1..]);
      assert mounts[0] != "-e";
      assert Scan(args, pending).pending == Scan(args[1..][1..], false).pending;
      ScanMountPairs(mounts[1..], false);
    }
  }

  /** The user's own arguments end in a `-e` whose value is missing, and nothing before
      the last environment entry absorbs it. */
  predicate Misaligned(user: seq<string>, mounts: seq<string>, env: seq<string>) {
    Scan(user, false).pending && PassedMounts(mounts) == [] && forall e :: e in env ==> e == "-e"
  }

  /** `stored` is `base` followed by nothing but stray "-e" values. */
  predicate OnlyStraysAfter(stored: seq<string>, base: seq<string>) {
    base <= stored && forall i :: |base| <= i < |stored| ==> stored[i] == "-e"
  }

  /** The scan of everything before the last pair. */
  lemma ScanBeforeLast(user: seq<string>, mounts: seq<string>, env: seq<string>)
    ensures var before := Scan(RuncTail(user, mounts, env), false);
            && before.pending == Misaligned(user, mounts, env)
            && (before.pending ==> OnlyStraysAfter(before.env, StoredEnv(user)))
  {
    var passed, pairs := Flatten("-v", PassedMounts(mounts)), Flatten("-e", env);
    ScanConcat(user, passed, false);
    ScanMountPairs(PassedMounts(mounts), Scan(user, false).pending);
    var upTo := Scan(user + passed, false);
    ScanConcat(user + passed, pairs, false);
    ScanEnvPairs(env, upTo.pending);
    if upTo.pending {
      assert passed == [] && user + passed == user;
      var tail := Scan(pairs, true).env;
      assert Scan(user + pairs, false).env == StoredEnv(user) + tail;
      if Scan(pairs, true).pending {
        assert forall i :: 0 <= i < |tail| ==> tail[i] in tail;
      }
    }
  }

  /** What px-runc stores, when `entry` is the last of the environment: `entry` comes
      last unless the command line is misaligned, and then it is not stored at all. */
  lemma LastEntryStored(user: seq<string>, mounts: seq<string>, env: seq<string>, entry: string)
    requires entry != "-e"
    ensures var stored := StoredEnv(RuncTail(user, mounts, env + [entry]));
            if Misaligned(user, mounts, env) then OnlyStraysAfter(stored, StoredEnv(user))
            else stored != [] && stored[|stored| - 1] == entry
  {
    FlattenConcat(env, [entry]);
    var last := Flatten("-e", [entry]);
    assert RuncTail(user, mounts, env + [entry]) == RuncTail(user, mounts, env) + last;
    ScanBeforeLast(user, mounts, env);
    ScanConcat(RuncTail(user, mounts, env), last, false);
    ScanEnvPairs([entry], false);
    assert last[0] == "-e" && last[1..] == [entry];
    assert Scan(last, true).env == ["-e"] + Scan([entry], false).env == ["-e"];
  }

  lemma {:induction false} FlattenConcat(a: seq<string>, b: seq<string>)
    ensures Flatten("-e", a + b) == Flatten("-e", a) + Flatten("-e", b)
  {
    if a == [] {
      assert a + b == b;
    } else {
      assert (a + b)[1..] == a[1..] + b;
      FlattenConcat(a[1..], b);
    }
  }

  /** The whole way: the ID appended last is the ID read back, unless the command line
      is misaligned; then what is read back is whatever the user's arguments say. */
  lemma ImageIdReadBack(user: seq<string>, mounts: seq<string>, env: seq<string>, id: string)
    ensures LastValue(StoredEnv(RuncTail(user, mounts, env + [IMAGE_ID_KEY + "=" + id])), IMAGE_ID_KEY)
         == if Misaligned(user, mounts, env) then LastValue(StoredEnv(user), IMAGE_ID_KEY) else id
  {
    var entry := IMAGE_ID_KEY + "=" + id;
    assert entry[0] == 'P';
    LastEntryStored(user, mounts, env, entry);
    var stored := StoredEnv(RuncTail(user, mounts, env + [entry]));
    if Misaligned(user, mounts, env) {
      var base := StoredEnv(user);
      assert stored == base + stored[|base|..];
      LastValueConcat(base, stored[|base|..], IMAGE_ID_KEY);
    } else {
      assert stored == stored[..|stored| - 1] + [entry];
      LastValueAppended(stored[..|stored| - 1], IMAGE_ID_KEY, id);
    }
  }
}
