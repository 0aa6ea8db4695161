/** `formatMounts`: the container's mounts in Docker's command-line form
    (`source:destination[:options]`), with the hosts and resolv.conf files added
    where no mount provides them.
 */
module Mounts {
  import opened Common
  import opened Strings

  datatype MountPoint = MountPoint(source: string, destination: string, propagation: string, rw: bool)

  const HOSTS := "/etc/hosts"
  const RESOLV_CONF := "/etc/resolv.conf"

  /** `strings.TrimSpace` */
  function TrimSpace(s: string): string
    decreases |s|
  {
    if s == "" then s
    else if IsSpace(s[0]) then TrimSpace(s[1..])
    else if IsSpace(s[|s| - 1]) then TrimSpace(s[..|s| - 1])
    else s
  }

  /** The options worth writing: a propagation other than private, and "ro". */
  function Options(m: MountPoint): seq<string> {
    (if m.propagation in {"private", "rprivate"} || TrimSpace(m.propagation) == "" then []
     else [TrimSpace(m.propagation)])
    + if m.rw then [] else ["ro"]
  }

  /** One mount, written piece by piece: the first option is set off by a colon, the second by a comma. */
  function Format(m: MountPoint): string {
    var prop := TrimSpace(m.propagation);
    var shown := m.propagation !in {"private", "rprivate"} && prop != "";
    m.source + ":" + m.destination
    + (if shown then ":" + prop else "")
    + (if m.rw then "" else (if shown then "," else ":") + "ro")
  }

  /** `r` stands in `s` from `i` to `j`, with nothing but white space around it, and none at its ends. */
  predicate Trims(s: string, i: nat, j: nat, r: string) {
    && i <= j <= |s| && s[i..j] == r
    && (forall k :: 0 <= k < |s| && !(i <= k < j) ==> IsSpace(s[k]))
    && (r != "" ==> !IsSpace(r[0]) && !IsSpace(r[|r| - 1]))
  }

  lemma TrimsFront(s: string, i: nat, j: nat, r: string)
    requires s != "" && IsSpace(s[0]) && Trims(s[1..], i, j, r)
    ensures Trims(s, i + 1, j + 1, r)
  {
    assert s[1..][i..j] == s[i + 1..j + 1];
    forall k | 1 <= k < |s| && !(i + 1 <= k < j + 1)
      ensures IsSpace(s[k])
    {
      assert s[k] == s[1..][k - 1];
    }
  }

  lemma TrimsBack(s: string, i: nat, j: nat, r: string)
    requires s != "" && IsSpace(s[|s| - 1]) && Trims(s[..|s| - 1], i, j, r)
    ensures Trims(s, i, j, r)
  {
    assert s[..|s| - 1][i..j] == s[i..j];
    forall k | 0 <= k < |s| - 1 && !(i <= k < j)
      ensures IsSpace(s[k])
    {
      assert s[k] == s[..|s| - 1][k];
    }
  }

  /** What is trimmed: white space, at both ends, and all of it. */
  lemma {:induction false} TrimSpaceMeans(s: string) returns (i: nat, j: nat)
    ensures Trims(s, i, j, TrimSpace(s))
    decreases |s|
  {
    if s == "" {
      i, j := 0, 0;
    } else if IsSpace(s[0]) {
      var a, b := TrimSpaceMeans(s[1..]);
      TrimsFront(s, a, b, TrimSpace(s));
      i, j := a + 1, b + 1;
    } else if IsSpace(s[|s| - 1]) {
      i, j := TrimSpaceMeans(s[..|s| - 1]);
      TrimsBack(s, i, j, TrimSpace(s));
    } else {
      i, j := 0, |s|;
    }
  }

  // ---------------------------------------------------------------- reading a mount back

  function SplitLength(s: string, sep: char): (n: nat)
    ensures n <= |s| && (n < |s| ==> s[n] == sep) && sep !in s[..n]
  {
    if s == "" || s[0] == sep then 0
    else
      var n := 1 + SplitLength(s[1..], sep);
      assert s[..n] == [s[0]] + s[1..][..n - 1];
      n
  }

  /** `s` cut at every `sep`. */
  function Split(s: string, sep: char): seq<string>
    decreases |s|
  {
    var n := SplitLength(s, sep);
    if n == |s| then [s] else [s[..n]] + Split(s[n + 1..], sep)
  }

  lemma {:induction false} SplitLengthIs(a: string, sep: char, rest: string)
    requires sep !in a
    ensures SplitLength(a, sep) == |a| && SplitLength(a + ([sep] + rest), sep) == |a|
  {
    if a != "" {
      assert a[0] != sep && (a + ([sep] + rest))[1..] == a[1..] + ([sep] + rest);
      SplitLengthIs(a[1..], sep, rest);
    }
  }

  lemma SplitFirst(a: string, sep: char, rest: string)
    requires sep !in a
    ensures Split(a, sep) == [a]
    ensures Split(a + ([sep] + rest), sep) == [a] + Split(rest, sep)
  {
    SplitLengthIs(a, sep, rest);
    var s := a + ([sep] + rest);
    assert s[..|a|] == a && s[|a| + 1..] == rest;
  }

  datatype Parsed = Parsed(source: string, destination: string, options: seq<string>)

  function Parse(s: string): Option<Parsed> {
    var parts := Split(s, ':');
    if |parts| == 2 then Some(Parsed(parts[0], parts[1], []))
    else if |parts| == 3 then Some(Parsed(parts[0], parts[1], Split(parts[2], ',')))
    else None
  }

  /** A mount whose form can be read back: no separator inside its pieces. */
  predicate Readable(m: MountPoint) {
    && ':' !in m.source && ':' !in m.destination
    && ':' !in TrimSpace(m.propagation) && ',' !in TrimSpace(m.propagation)
  }

  lemma ParseParts(source: string, destination: string, tail: string)
    requires ':' !in source && ':' !in destination && ':' !in tail
    ensures Parse(source + (":" + destination)) == Some(Parsed(source, destination, []))
    ensures Parse(source + (":" + (destination + (":" + tail)))) == Some(Parsed(source, destination, Split(tail, ',')))
  {
    SplitTwo(source, destination);
    SplitThree(source, destination, tail);
  }

  lemma SplitTwo(a: string, b: string)
    requires ':' !in a && ':' !in b
    ensures Split(a + (":" + b), ':') == [a, b]
  {
    assert ":" + b == [':'] + b;
    SplitFirst(a, ':', b);
    SplitFirst(b, ':', "");
  }

  lemma SplitThree(a: string, b: string, c: string)
    requires ':' !in a && ':' !in b && ':' !in c
    ensures Split(a + (":" + (b + (":" + c))), ':') == [a, b, c]
  {
    var rest := b + (":" + c);
    assert ":" + rest == [':'] + rest;
    SplitFirst(a, ':', rest);
    SplitTwo(b, c);
  }

  /** The options, as they stand behind the second colon. */
  function OptionText(prop: string, rw: bool): string {
    if prop == "" then "ro" else prop + if rw then "" else ",ro"
  }

  lemma OptionsReadBack(prop: string, rw: bool)
    requires ':' !in prop && ',' !in prop && (prop != "" || !rw)
    ensures ':' !in OptionText(prop, rw)
    ensures Split(OptionText(prop, rw), ',') == (if prop == "" then [] else [prop]) + if rw then [] else ["ro"]
  {
    assert ',' !in "ro" && ":" == [':'];
    SplitFirst("ro", ',', "");
    if prop != "" {
      SplitFirst(prop, ',', "ro");
      assert ",ro" == [','] + "ro";
      assert rw ==> OptionText(prop, rw) == prop;
    }
  }

  /** Source, destination and options, all read back from what was written. */
  lemma FormatReadBack(m: MountPoint)
    requires Readable(m)
    ensures Parse(Format(m)) == Some(Parsed(m.source, m.destination, Options(m)))
  {
    var prop := if m.propagation in {"private", "rprivate"} then "" else TrimSpace(m.propagation);
    assert Options(m) == (if prop == "" then [] else [prop]) + if m.rw then [] else ["ro"];
    if prop == "" && m.rw {
      assert Format(m) == m.source + (":" + m.destination);
      ParseParts(m.source, m.destination, "");
    } else {
      OptionsReadBack(prop, m.rw);
      FormatGrouped(m, prop);
      ParseParts(m.source, m.destination, OptionText(prop, m.rw));
    }
  }

  /** A mount without a propagation worth writing ... */
  lemma PlainFormat(m: MountPoint)
    requires m.propagation == "private" || m.propagation == "rprivate" || forall c :: c in m.propagation ==> IsSpace(c)
    ensures Format(m) == m.source + ":" + m.destination + if m.rw then "" else ":ro"
  {
    var i, j := TrimSpaceMeans(m.propagation);
    if i < j { assert TrimSpace(m.propagation)[0] == m.propagation[i] && m.propagation[i] in m.propagation; }
    var head := m.source + ":" + m.destination;
    assert head + "" == head && ":" + "ro" == ":ro";
  }

  /** ... and one with one. */
  lemma SharedFormat(m: MountPoint)
    requires m.propagation != "private" && m.propagation != "rprivate"
    requires m.propagation != "" && !IsSpace(m.propagation[0]) && !IsSpace(m.propagation[|m.propagation| - 1])
    ensures Format(m) == m.source + ":" + m.destination + (":" + m.propagation) + if m.rw then "" else ",ro"
  {
    assert "," + "ro" == ",ro";
  }

  lemma FormatGrouped(m: MountPoint, prop: string)
    requires prop == if m.propagation in {"private", "rprivate"} then "" else TrimSpace(m.propagation)
    requires prop != "" || !m.rw
    ensures Format(m) == m.source + (":" + (m.destination + (":" + OptionText(prop, m.rw))))
  {
    assert "," + "ro" == ",ro";
  }

  // ---------------------------------------------------------------- the list and its index

  function FormatAll(mounts: seq<MountPoint>): seq<string> {
    if mounts == [] then [] else FormatAll(mounts[..|mounts| - 1]) + [Format(mounts[|mounts| - 1])]
  }

  /** The last mount for a destination, in the written form. */
  function LastFor(mounts: seq<MountPoint>, destination: string): Option<string> {
    if mounts == [] then None
    else if mounts[|mounts| - 1].destination == destination then Some(Format(mounts[|mounts| - 1]))
    else LastFor(mounts[..|mounts| - 1], destination)
  }

  datatype Warning =
    | Duplicate(mount: string)
    | Overriding(destination: string, previous: string, current: string)
    | OverridesExtra(mount: string, source: string)

  /** The warning for one more mount, after those before it. */
  function Clash(before: seq<MountPoint>, m: MountPoint): seq<Warning> {
    match LastFor(before, m.destination)
    case None => []
    case Some(previous) =>
      [if previous == Format(m) then Duplicate(Format(m)) else Overriding(m.destination, previous, Format(m))]
  }

  function Clashes(mounts: seq<MountPoint>): seq<Warning> {
    if mounts == [] then []
    else
      var before := mounts[..|mounts| - 1];
      Clashes(before) + Clash(before, mounts[|mounts| - 1])
  }

  /** An extra file is added unless it is unknown or a mount provides its destination. */
  function Extra(mounts: seq<MountPoint>, source: string, destination: string): seq<string> {
    if source == "" || LastFor(mounts, destination).Some? then [] else [source + ":" + destination + ":ro"]
  }

  function ExtraClash(mounts: seq<MountPoint>, source: string, destination: string): seq<Warning> {
    match LastFor(mounts, destination)
    case None => []
    case Some(previous) =>
      if source == "" || source + ":" + destination <= previous then [] else [OverridesExtra(previous, source)]
  }

  /** `cache` holds, for every destination, what was last emitted for it. */
  ghost predicate Indexes(cache: map<string, string>, mounts: seq<MountPoint>) {
    forall d :: LastFor(mounts, d) == if d in cache then Some(cache[d]) else None
  }

  /** The loop over the mounts, with its index. */
  method EmitMounts(mounts: seq<MountPoint>)
    returns (outList: seq<string>, warnings: seq<Warning>, lookupCache: map<string, string>)
    ensures outList == FormatAll(mounts) && warnings == Clashes(mounts) && Indexes(lookupCache, mounts)
  {
    outList, warnings, lookupCache := [], [], map[];
    for i := 0 to |mounts|
      invariant outList == FormatAll(mounts[..i])
      invariant warnings == Clashes(mounts[..i])
      invariant Indexes(lookupCache, mounts[..i])
    {
      assert mounts[..i + 1][..i] == mounts[..i];
      var m := mounts[i];
      var newMount := FormatOne(m);
      if m.destination in lookupCache {
        var oldMount := lookupCache[m.destination];
        if oldMount == newMount {
          warnings := warnings + [Duplicate(newMount)];
        } else {
          warnings := warnings + [Overriding(m.destination, oldMount, newMount)];
        }
      }
      lookupCache := lookupCache[m.destination := newMount];
      outList := outList + [newMount];
    }
    assert mounts[..|mounts|] == mounts;
  }

  /** The body of the loop over the two extra files. */
  method AddExtra(outList0: seq<string>, warnings0: seq<Warning>, lookupCache: map<string, string>,
                  confSource: string, destination: string, ghost mounts: seq<MountPoint>)
    returns (outList: seq<string>, warnings: seq<Warning>)
    requires Indexes(lookupCache, mounts)
    ensures outList == outList0 + Extra(mounts, confSource, destination)
    ensures warnings == warnings0 + ExtraClash(mounts, confSource, destination)
  {
    outList, warnings := outList0, warnings0;
    if confSource != "" {
      if destination in lookupCache {
        var previous := lookupCache[destination];
        if !(confSource + ":" + destination <= previous) {
          warnings := warnings + [OverridesExtra(previous, confSource)];
        }
      } else {
        outList := outList + [confSource + ":" + destination + ":ro"];
      }
    }
  }

  method FormatMounts(mounts: seq<MountPoint>, hostsPath: string, resolvConfPath: string)
    returns (outList: seq<string>, warnings: seq<Warning>)
    ensures outList == Listed(mounts, hostsPath, resolvConfPath)
    ensures warnings ==
              Clashes(mounts) + ExtraClash(mounts, hostsPath, HOSTS) + ExtraClash(mounts, resolvConfPath, RESOLV_CONF)
  {
    var lookupCache;
    outList, warnings, lookupCache := EmitMounts(mounts);
    outList, warnings := AddExtra(outList, warnings, lookupCache, hostsPath, HOSTS, mounts);
    outList, warnings := AddExtra(outList, warnings, lookupCache, resolvConfPath, RESOLV_CONF, mounts);
  }

  /** The writing of one mount, with the separator that changes on the way. */
  method FormatOne(m: MountPoint) returns (out: string)
    ensures out == Format(m)
  {
    var sep := ":";
    out := m.source + sep + m.destination;
    if m.propagation !in {"private", "rprivate"} {
      var prop := TrimSpace(m.propagation);
      if prop != "" {
        out := out + sep + prop;
        sep := ",";
        assert out == m.source + ":" + m.destination + (":" + prop);
      }
    }
    if !m.rw {
      out := out + sep + "ro";
      assert out == out[..|out| - 3] + (sep + "ro");
    }
  }

  // ---------------------------------------------------------------- what the list is like

  lemma {:induction false} FormatAllAt(mounts: seq<MountPoint>, i: nat)
    requires i < |mounts|
    ensures |FormatAll(mounts)| == |mounts| && FormatAll(mounts)[i] == Format(mounts[i])
    decreases |mounts|
  {
    var init := mounts[..|mounts| - 1];
    if init != [] { FormatAllAt(init, if i < |init| then i else 0); }
  }

  lemma {:induction false} LastForMeaning(mounts: seq<MountPoint>, destination: string)
    ensures LastFor(mounts, destination).None? <==> forall m :: m in mounts ==> m.destination != destination
    decreases |mounts|
  {
    if mounts != [] {
      var init, last := mounts[..|mounts| - 1], mounts[|mounts| - 1];
      LastForMeaning(init, destination);
      assert mounts == init + [last];
    }
  }

  /** A warning is given exactly if the destination was used before, and it says whether the
      mount is the same as the last one for it. */
  lemma ClashMeans(before: seq<MountPoint>, m: MountPoint)
    ensures Clash(before, m) != [] <==> exists b :: b in before && b.destination == m.destination
    ensures Clash(before, m) == [Duplicate(Format(m))] <==> LastFor(before, m.destination) == Some(Format(m))
  {
    LastForMeaning(before, m.destination);
  }

  /** The list the method returns. */
  function Listed(mounts: seq<MountPoint>, hostsPath: string, resolvConfPath: string): seq<string> {
    FormatAll(mounts) + Extra(mounts, hostsPath, HOSTS) + Extra(mounts, resolvConfPath, RESOLV_CONF)
  }

  /** The destination an entry of the list is for: by its position, or else one of the extras. */
  function DestinationAt(mounts: seq<MountPoint>, hostsPath: string, i: nat): string {
    if i < |mounts| then mounts[i].destination
    else if i == |mounts| && Extra(mounts, hostsPath, HOSTS) != [] then HOSTS
    else RESOLV_CONF
  }

  /** The same, read back from the entry itself. */
  lemma ListedReadBack(mounts: seq<MountPoint>, hostsPath: string, resolvConfPath: string, i: nat)
    requires forall m :: m in mounts ==> Readable(m)
    requires ':' !in hostsPath && ':' !in resolvConfPath
    requires i < |Listed(mounts, hostsPath, resolvConfPath)|
    ensures Parse(Listed(mounts, hostsPath, resolvConfPath)[i]).Some?
    ensures Parse(Listed(mounts, hostsPath, resolvConfPath)[i]).value.destination == DestinationAt(mounts, hostsPath, i)
  {
    if mounts != [] { FormatAllAt(mounts, if i < |mounts| then i else 0); }
    if i < |mounts| {
      FormatReadBack(mounts[i]);
    } else {
      ExtrasReadable();
      ExtraReadBack(hostsPath, HOSTS);
      ExtraReadBack(resolvConfPath, RESOLV_CONF);
    }
  }

  lemma ExtraReadBack(source: string, destination: string)
    requires ':' !in source && ':' !in destination
    ensures Parse(source + ":" + destination + ":ro") == Some(Parsed(source, destination, ["ro"]))
  {
    var m := MountPoint(source, destination, "private", false);
    var head := source + ":" + destination;
    assert head + "" == head && ":" + "ro" == ":ro";
    assert Format(m) == head + ":ro";
    FormatGrouped(m, "");
    OptionsReadBack("", false);
    assert [] + ["ro"] == ["ro"];
    ParseParts(source, destination, OptionText("", false));
  }

  lemma ExtrasReadable()
    ensures ':' !in HOSTS && ':' !in RESOLV_CONF && HOSTS != RESOLV_CONF
  {
    assert |HOSTS| != |RESOLV_CONF|;
  }

  /** If no two mounts share a destination, no two entries of the list are for the same one;
      and that shows in what is read back, where it can be read back. */
  lemma DestinationsStayDistinct(mounts: seq<MountPoint>, hostsPath: string, resolvConfPath: string, i: nat, j: nat)
    requires forall a, b :: 0 <= a < b < |mounts| ==> mounts[a].destination != mounts[b].destination
    requires i < j < |Listed(mounts, hostsPath, resolvConfPath)|
    ensures DestinationAt(mounts, hostsPath, i) != DestinationAt(mounts, hostsPath, j)
    ensures (forall m :: m in mounts ==> Readable(m)) && ':' !in hostsPath && ':' !in resolvConfPath ==>
              var list := Listed(mounts, hostsPath, resolvConfPath);
              && Parse(list[i]).Some? && Parse(list[j]).Some?
              && Parse(list[i]).value.destination != Parse(list[j]).value.destination
  {
    if mounts != [] { FormatAllAt(mounts, 0); }
    LastForMeaning(mounts, HOSTS);
    LastForMeaning(mounts, RESOLV_CONF);
    if i < |mounts| { assert mounts[i] in mounts; }
    ExtrasReadable();
    if (forall m :: m in mounts ==> Readable(m)) && ':' !in hostsPath && ':' !in resolvConfPath {
      ListedReadBack(mounts, hostsPath, resolvConfPath, i);
      ListedReadBack(mounts, hostsPath, resolvConfPath, j);
    }
  }

  /** One entry per mount and at most two more, each there exactly if its source is known
      and no mount is for its destination. */
  lemma ListedExtras(mounts: seq<MountPoint>, hostsPath: string, resolvConfPath: string)
    ensures var list := Listed(mounts, hostsPath, resolvConfPath);
            var hosts := hostsPath != "" && forall m :: m in mounts ==> m.destination != HOSTS;
            var resolv := resolvConfPath != "" && forall m :: m in mounts ==> m.destination != RESOLV_CONF;
            && |list| == |mounts| + (if hosts then 1 else 0) + (if resolv then 1 else 0)
            && (forall i :: 0 <= i < |mounts| ==> list[i] == Format(mounts[i]))
            && (hosts ==> list[|mounts|] == hostsPath + ":" + "/etc/hosts" + ":ro")
            && (resolv ==> list[|list| - 1] == resolvConfPath + ":" + "/etc/resolv.conf" + ":ro")
  {
    LastForMeaning(mounts, HOSTS);
    LastForMeaning(mounts, RESOLV_CONF);
    if mounts != [] { FormatAllAt(mounts, 0); }
    forall i | 0 <= i < |mounts|
      ensures Listed(mounts, hostsPath, resolvConfPath)[i] == Format(mounts[i])
    {
      FormatAllAt(mounts, i);
    }
  }
}
