/** `isRestartRequired`: does the output of `px-runc install` report a change that
    needs a service restart?  Changes of kubelet pod mounts alone do not.
 */
module RestartAnalysis {
  import opened Common
  import opened Strings

  const UNCHANGED := "SPEC UNCHANGED "
  const CREATED := "SPEC CREATED "
  const ADD := " Updated mounts: add{"
  const RM := " rm{"

  /** The words between `start` and the next "}"; Err when there is no "}" or nothing before it. */
  function ListAt(log: string, start: nat): Result<seq<string>>
    requires start <= |log|
  {
    var end := Index(log[start..], "}");
    if end > 0 then Ok(Fields(log[start..start + end])) else Err
  }

  /** Some listed mount is outside the kubelet's pods directory, or the list is unreadable. */
  predicate Foreign(list: Result<seq<string>>, podsDir: string) {
    list.Err? || exists m :: m in list.value && !(podsDir <= m)
  }

  /** Where the search for removed mounts starts. */
  function RmFrom(log: string): (i: nat)
    ensures i <= |log|
  {
    var add := Index(log, ADD);
    if add > 0 then add + |ADD| else 0
  }

  predicate AddsForeign(log: string, podsDir: string) {
    Index(log, ADD) > 0 && Foreign(ListAt(log, RmFrom(log)), podsDir)
  }

  predicate RemovesForeign(log: string, podsDir: string) {
    var rm := Index(log[RmFrom(log)..], RM);
    rm > 0 && Foreign(ListAt(log, RmFrom(log) + rm + |RM|), podsDir)
  }

  /** `kubelet`: the kubelet's root directory, None when it could not be found out. */
  function RestartRequired(log: string, kubelet: Option<string>): bool {
    if Index(log, UNCHANGED) > 0 then false
    else if Index(log, CREATED) > 0 then true
    else if kubelet.None? then true
    else
      var podsDir := kubelet.value + "/pods/";
      AddsForeign(log, podsDir) || RemovesForeign(log, podsDir)
  }

  /** The early-exit loop over the words of one list. */
  method AnyOutside(words: seq<string>, podsDir: string) returns (found: bool)
    ensures found <==> exists m :: m in words && !(podsDir <= m)
  {
    for i := 0 to |words|
      invariant forall j :: 0 <= j < i ==> podsDir <= words[j]
    {
      if !(podsDir <= words[i]) {
        assert words[i] in words;
        return true;
      }
    }
    return false;
  }

  /** Reads one list, starting right after its "{". */
  method ListOutside(log: string, start: nat, podsDir: string) returns (outside: bool)
    requires start <= |log|
    ensures outside == Foreign(ListAt(log, start), podsDir)
  {
    var endIdx := Index(log[start..], "}");
    if endIdx > 0 {
      endIdx := endIdx + start;
      outside := AnyOutside(Fields(log[start..endIdx]), podsDir);
    } else {
      outside := true;
    }
  }

  method IsRestartRequired(log: string, kubelet: Option<string>) returns (required: bool)
    ensures required == RestartRequired(log, kubelet)
  {
    if Index(log, UNCHANGED) > 0 {
      return false;
    } else if Index(log, CREATED) > 0 {
      return true;
    }
    if kubelet.None? {
      return true;
    }
    var podsDir := kubelet.value + "/pods/";

    var addStartIdx := Index(log, ADD);
    if addStartIdx > 0 {
      addStartIdx := addStartIdx + |ADD|;
      var outside := ListOutside(log, addStartIdx, podsDir);
      if outside {
        return true;
      }
    } else {
      addStartIdx := 0;
    }
    assert addStartIdx == RmFrom(log) && !AddsForeign(log, podsDir);

    var rmStartIdx := Index(log[addStartIdx..], RM);
    if rmStartIdx > 0 {
      rmStartIdx := rmStartIdx + addStartIdx + |RM|;
      required := ListOutside(log, rmStartIdx, podsDir);
    } else {
      required := false;
    }
  }

  // ---------------------------------------------------------------- arbitrary text

  /** The text between `start` and `end`, which is not empty, runs up to the first "}". */
  predicate Closes(log: string, start: nat, end: nat) {
    start < end < |log| && log[end] == '}' && '}' !in log[start..end]
  }

  /** There is such a text, and all that stands in it, between white space, starts with `podsDir`. */
  ghost predicate Inside(log: string, start: nat, podsDir: string) {
    exists end: nat :: Closes(log, start, end) && AllStart(log[start..end], podsDir)
  }

  ghost predicate AllStart(text: string, podsDir: string) {
    forall i: nat, j: nat :: IsStretch(text, i, j) ==> podsDir <= text[i..j]
  }

  lemma AllStartFields(text: string, podsDir: string)
    ensures AllStart(text, podsDir) <==> forall m :: m in Fields(text) ==> podsDir <= m
  {
    if AllStart(text, podsDir) {
      forall m | m in Fields(text)
        ensures podsDir <= m
      {
        var i, j := FieldIsStretch(text, m);
      }
    }
    if !AllStart(text, podsDir) {
      var i: nat, j: nat :| IsStretch(text, i, j) && !(podsDir <= text[i..j]);
      StretchIsField(text, i, j, text[i..j]);
    }
  }

  lemma OccursHere(text: string, j: nat)
    requires j < |text| && !OccursAt(text, "}", j)
    ensures text[j] != '}'
  {
    assert text[j..j + 1] == [text[j]];
  }

  lemma ClosesAt(log: string, start: nat, end: nat)
    requires start <= |log|
    ensures Closes(log, start, end) <==> end > start && Index(log[start..], "}") == end - start
  {
    var text := log[start..];
    if end > start {
      IndexMeaning(text, "}", end - start);
      if end < |log| { assert text[..end - start] == log[start..end]; }
      if Closes(log, start, end) {
        assert text[end - start..end - start + 1] == "}";
        forall j: nat | j < end - start
          ensures !OccursAt(text, "}", j)
        {
          assert text[j] == log[start..end][j];
          DiffersAt(text, "}", j, 0);
        }
      }
      if FirstAt(text, "}", end - start) {
        assert text[end - start..end - start + 1][0] == '}';
        forall j: nat | j < end - start
          ensures log[start..end][j] != '}'
        {
          OccursHere(text, j);
        }
      }
    }
  }

  /** The reading of a list, in terms of the text. */
  lemma ForeignMeaning(log: string, start: nat, podsDir: string)
    requires start <= |log|
    ensures Foreign(ListAt(log, start), podsDir) <==> !Inside(log, start, podsDir)
  {
    var end := Index(log[start..], "}");
    if end > 0 {
      var text := log[start..start + end];
      ClosesAt(log, start, start + end);
      AllStartFields(text, podsDir);
      assert ListAt(log, start) == Ok(Fields(text));
      if Foreign(ListAt(log, start), podsDir) {
        var m :| m in Fields(text) && !(podsDir <= m);
      } else {
        assert forall m :: m in Fields(text) ==> podsDir <= m;
      }
    }
    forall e: nat | Closes(log, start, e)
      ensures end > 0 && e == start + end
    {
      ClosesAt(log, start, e);
    }
  }

  /** `pat` occurs, and not first at the very beginning. */
  ghost predicate FoundLater(text: string, pat: string) {
    exists k: nat :: k > 0 && FirstAt(text, pat, k)
  }

  lemma FoundLaterIs(text: string, pat: string)
    ensures FoundLater(text, pat) <==> Index(text, pat) > 0
  {
    forall k: nat { IndexMeaning(text, pat, k); }
    if Index(text, pat) > 0 { assert FirstAt(text, pat, Index(text, pat)); }
  }

  /** After a marker that is found later than at the beginning of `log[from..]`, a list inside
      the pods directory. */
  ghost predicate ListsInside(log: string, from: nat, pat: string, podsDir: string)
    requires from <= |log|
  {
    forall k: nat :: k > 0 && FirstAt(log[from..], pat, k) ==> Inside(log, from + k + |pat|, podsDir)
  }

  lemma ListsInsideIs(log: string, from: nat, pat: string, podsDir: string)
    requires from <= |log|
    ensures var k := Index(log[from..], pat);
            ListsInside(log, from, pat, podsDir) <==> !(k > 0 && Foreign(ListAt(log, from + k + |pat|), podsDir))
  {
    var k := Index(log[from..], pat);
    forall i: nat { IndexMeaning(log[from..], pat, i); }
    if k > 0 {
      ForeignMeaning(log, from + k + |pat|, podsDir);
      assert FirstAt(log[from..], pat, k);
    }
  }

  /** A list of removed mounts, if its marker is found, is closed and inside the pods directory.
      The search starts behind the marker of added mounts if that one is found, and otherwise
      at the beginning. */
  ghost predicate RemovalsInside(log: string, podsDir: string) {
    var add := " Updated mounts: add{";
    && (!FoundLater(log, add) ==> ListsInside(log, 0, " rm{", podsDir))
    && (forall k: nat :: k > 0 && FirstAt(log, add, k) ==> ListsInside(log, k + |add|, " rm{", podsDir))
  }

  /** What the output must look like for no restart to be required: a spec reported unchanged;
      or one not reported new, a kubelet that was found, and both lists, where their markers
      are found, closed and with nothing outside the pods directory. */
  ghost predicate NeedsNoRestart(log: string, kubelet: Option<string>) {
    || FoundLater(log, "SPEC UNCHANGED ")
    || (&& !FoundLater(log, "SPEC CREATED ") && kubelet.Some?
        && ListsInside(log, 0, " Updated mounts: add{", kubelet.value + "/pods/")
        && RemovalsInside(log, kubelet.value + "/pods/"))
  }

  lemma RemovalsInsideIs(log: string, podsDir: string)
    ensures RemovalsInside(log, podsDir) <==> !RemovesForeign(log, podsDir)
  {
    var add := Index(log, ADD);
    FoundLaterIs(log, ADD);
    forall k: nat { IndexMeaning(log, ADD, k); }
    assert log[0..] == log;
    ListsInsideIs(log, RmFrom(log), RM, podsDir);
    assert add > 0 ==> FirstAt(log, ADD, add) && RmFrom(log) == add + |ADD|;
  }

  /** A "no" is justified, on any text, and a "yes" too. */
  lemma NoRestartIsJustified(log: string, kubelet: Option<string>)
    ensures !RestartRequired(log, kubelet) <==> NeedsNoRestart(log, kubelet)
  {
    FoundLaterIs(log, UNCHANGED);
    FoundLaterIs(log, CREATED);
    if kubelet.Some? {
      var podsDir := kubelet.value + "/pods/";
      assert log[0..] == log;
      ListsInsideIs(log, 0, ADD, podsDir);
      RemovalsInsideIs(log, podsDir);
    }
  }

  // ---------------------------------------------------------------- well-formed reports

  /** A mount as px-runc prints it. */
  predicate IsMount(m: string) {
    IsWord(m) && m[0] == '/' && '}' !in m
  }

  /** A mount report, as it stands in px-runc's output. */
  function Report(prefix: string, adds: seq<string>, rms: seq<string>, suffix: string): string {
    prefix + (ADD + (Join(adds) + ("}" + (RM + (Join(rms) + ("}" + suffix))))))
  }

  lemma {:induction false} JoinOfMounts(ms: seq<string>)
    requires forall m :: m in ms ==> IsMount(m)
    ensures '}' !in Join(ms)
    ensures ms != [] ==> Join(ms) != "" && Join(ms)[0] == '/' && Join(ms)[|Join(ms)| - 1] != ' '
    ensures forall k :: 0 <= k < |Join(ms)| - 1 && Join(ms)[k] == ' ' ==> Join(ms)[k + 1] == '/'
  {
    if |ms| == 1 {
      assert ms[0] in ms;
    } else if |ms| > 1 {
      var m, rest := ms[0], Join(ms[1..]);
      assert m in ms;
      JoinOfMounts(ms[1..]);
      var s := m + " " + rest;
      assert Join(ms) == s;
      assert forall k :: 0 <= k < |m| ==> s[k] == m[k] != ' ';
      forall k | 0 <= k < |s| - 1 && s[k] == ' '
        ensures s[k + 1] == '/'
      {
        if k == |m| {
          assert s[k + 1] == rest[0];
        } else {
          assert s[k] == rest[k - |m| - 1] && s[k + 1] == rest[k - |m|];
        }
      }
    }
  }

  /** The first "}" after a mount list closes it. */
  lemma ListReadBack(log: string, at: nat, ms: seq<string>, after: string)
    requires forall m :: m in ms ==> IsMount(m)
    requires at <= |log| && log[at..] == Join(ms) + ("}" + after)
    ensures ListAt(log, at) == if ms == [] then Err else Ok(ms)
  {
    var list, tail := Join(ms), log[at..];
    JoinOfMounts(ms);
    assert tail[|list|..|list| + 1] == "}";
    forall j: nat | j < |list|
      ensures !OccursAt(tail, "}", j)
    {
      assert tail[j] == list[j] && list[j] in list;
      DiffersAt(tail, "}", j, 0);
    }
    IndexIs(tail, "}", |list|);
    if ms != [] {
      assert log[at..at + |list|] == list;
      forall m | m in ms
        ensures IsWord(m)
      {
        assert IsMount(m);
      }
      FieldsOfJoin(ms);
    }
  }

  /** The marker of added mounts cannot overlap itself, so it is found where it was put. */
  lemma AddFoundFirst(prefix: string, rest: string)
    requires Index(prefix, ADD) == -1
    ensures Index(prefix + (ADD + rest), ADD) == |prefix|
  {
    var log := prefix + (ADD + rest);
    IndexFromFinds(prefix, ADD, 0);
    assert log[|prefix|..|prefix| + |ADD|] == ADD;
    forall j: nat | j < |prefix|
      ensures !OccursAt(log, ADD, j)
    {
      var d := |prefix| - j;
      if j + |ADD| <= |prefix| {
        assert log[j..j + |ADD|] == prefix[j..j + |ADD|];
        assert !OccursAt(prefix, ADD, j);
      } else if ADD[d] != ' ' {
        DiffersAt(log, ADD, j, d);
      } else {
        assert d == 8 || d == 16;
        DiffersAt(log, ADD, j, d + 1);
      }
    }
    IndexIs(log, ADD, |prefix|);
  }

  /** A text in which every space before `at`, but for the last character, is followed
      by something other than 'r' holds no " rm{" before `at`. */
  lemma RmFoundAt(text: string, at: nat, after: string)
    requires at <= |text| && text[at..] == RM + after
    requires forall k :: 0 <= k < at && text[k] == ' ' ==> text[k + 1] != 'r'
    ensures Index(text, RM) == at && text[at + |RM|..] == after
  {
    assert text[at..][..|RM|] == RM && text[at..][|RM|..] == after;
    assert text[at..at + |RM|] == RM;
    forall j: nat | j < at
      ensures !OccursAt(text, RM, j)
    {
      DiffersAt(text, RM, j, if text[j] != ' ' then 0 else 1);
    }
    IndexIs(text, RM, at);
  }

  /** No " rm{" starts inside a mount list, whose only spaces are followed by "/", nor
      inside the marker of the added mounts, which may come first. */
  lemma RmFoundAfterList(text: string, skip: nat, ms: seq<string>, after: string)
    requires forall m :: m in ms ==> IsMount(m)
    requires skip <= |text| && (skip == 0 || text[..skip] == ADD)
    requires text[skip..] == Join(ms) + ("}" + (RM + after))
    ensures var rm := skip + |Join(ms)| + 1;
            Index(text, RM) == rm && text[rm + |RM|..] == after
  {
    var list, tail := Join(ms), text[skip..];
    JoinOfMounts(ms);
    var at := skip + |list| + 1;
    forall k | 0 <= k < at && text[k] == ' '
      ensures text[k + 1] != 'r'
    {
      if k < skip {
        assert text[k] == ADD[k] && (k + 1 < skip ==> text[k + 1] == ADD[k + 1]);
      } else {
        assert text[k] == tail[k - skip];
        assert k - skip < |list| - 1 && text[k + 1] == tail[k - skip + 1] == list[k - skip + 1];
      }
    }
    assert tail[|list| + 1..] == RM + after && text[at..] == tail[|list| + 1..];
    RmFoundAt(text, at, after);
  }

  /** Where the analysis finds the removed mounts, and what it reads there: the search
      starts at `from`, `skip` characters ahead of the added mounts. */
  lemma ReportRms(log: string, from: nat, skip: nat, adds: seq<string>, rms: seq<string>, suffix: string)
    requires forall m :: m in adds || m in rms ==> IsMount(m)
    requires from + skip <= |log| && (skip == 0 || log[from..][..skip] == ADD)
    requires log[from..][skip..] == Join(adds) + ("}" + (RM + (Join(rms) + ("}" + suffix))))
    ensures var rm := Index(log[from..], RM);
            rm > 0 && ListAt(log, from + rm + |RM|) == if rms == [] then Err else Ok(rms)
  {
    var text := log[from..];
    RmFoundAfterList(text, skip, adds, Join(rms) + ("}" + suffix));
    ListBehind(log, from, Index(text, RM) + |RM|, rms, suffix);
  }

  lemma ListBehind(log: string, from: nat, k: nat, ms: seq<string>, suffix: string)
    requires forall m :: m in ms ==> IsMount(m)
    requires from + k <= |log| && log[from..][k..] == Join(ms) + ("}" + suffix)
    ensures ListAt(log, from + k) == if ms == [] then Err else Ok(ms)
  {
    DropTwice(log, from, k);
    ListReadBack(log, from + k, ms, suffix);
  }

  lemma DropTwice(s: string, i: nat, j: nat)
    requires i + j <= |s|
    ensures s[i..][j..] == s[i + j..]
  {
  }

  lemma Drops(a: string, b: string, rest: string)
    ensures (a + rest)[|a|..] == rest
    ensures (a + (b + rest))[|a| + |b|..] == rest
  {
  }

  lemma ReportRead(prefix: string, adds: seq<string>, rms: seq<string>, suffix: string)
    requires forall m :: m in adds || m in rms ==> IsMount(m)
    requires Index(prefix, ADD) == -1
    ensures var log := Report(prefix, adds, rms, suffix);
            Index(log, ADD) == |prefix| && Reads(log, adds, rms)
  {
    var log := Report(prefix, adds, rms, suffix);
    var tail := RM + (Join(rms) + ("}" + suffix));
    var rest := Join(adds) + ("}" + tail);
    AddFoundFirst(prefix, rest);
    Drops(prefix, ADD, rest);
    ReadFrom(log, adds, rms, suffix, tail, rest);
  }

  /** The analysis reads both lists of a report; the first one only if something precedes the report. */
  ghost predicate Reads(log: string, adds: seq<string>, rms: seq<string>) {
    var rm := Index(log[RmFrom(log)..], RM);
    && (Index(log, ADD) > 0 ==> ListAt(log, RmFrom(log)) == if adds == [] then Err else Ok(adds))
    && rm > 0
    && ListAt(log, RmFrom(log) + rm + |RM|) == if rms == [] then Err else Ok(rms)
  }

  lemma ReadFrom(log: string, adds: seq<string>, rms: seq<string>, suffix: string, tail: string, rest: string)
    requires forall m :: m in adds || m in rms ==> IsMount(m)
    requires tail == RM + (Join(rms) + ("}" + suffix)) && rest == Join(adds) + ("}" + tail)
    requires var add := Index(log, ADD);
             add >= 0 && log[add + |ADD|..] == rest && (add == 0 ==> log == ADD + rest)
    ensures Reads(log, adds, rms)
  {
    var from := RmFrom(log);
    if Index(log, ADD) > 0 {
      ListReadBack(log, from, adds, tail);
      assert log[from..][0..] == rest;
      ReportRms(log, from, 0, adds, rms, suffix);
    } else {
      assert log[from..] == log && log[..|ADD|] == ADD;
      ReportRms(log, from, |ADD|, adds, rms, suffix);
    }
  }

  lemma ReportDecides(log: string, adds: seq<string>, rms: seq<string>, podsDir: string)
    requires Reads(log, adds, rms)
    ensures AddsForeign(log, podsDir) <==>
              Index(log, ADD) > 0 && (adds == [] || exists m :: m in adds && !(podsDir <= m))
    ensures RemovesForeign(log, podsDir) <==> rms == [] || exists m :: m in rms && !(podsDir <= m)
  {
  }

  /** Round trip: on a report, the analysis answers exactly whether a listed mount is
      outside the pods directory or a list is empty.  One condition: the added mounts
      are looked at only if something precedes the report. */
  lemma ReportAnalysed(prefix: string, adds: seq<string>, rms: seq<string>, suffix: string, kubelet: string)
    requires forall m :: m in adds || m in rms ==> IsMount(m)
    requires Index(prefix, ADD) == -1
    requires var log := Report(prefix, adds, rms, suffix); Index(log, UNCHANGED) == -1 && Index(log, CREATED) == -1
    ensures var podsDir := kubelet + "/pods/";
            RestartRequired(Report(prefix, adds, rms, suffix), Some(kubelet)) <==>
              || (prefix != "" && (adds == [] || exists m :: m in adds && !(podsDir <= m)))
              || rms == [] || exists m :: m in rms && !(podsDir <= m)
  {
    var log := Report(prefix, adds, rms, suffix);
    ReportRead(prefix, adds, rms, suffix);
    ReportDecides(log, adds, rms, kubelet + "/pods/");
  }

  /** A report of removed mounts only. */
  function RemovalReport(prefix: string, rms: seq<string>, suffix: string): string {
    prefix + (RM + (Join(rms) + ("}" + suffix)))
  }

  /** The marker of removed mounts is found where it was put, too. */
  lemma RmFoundFirst(prefix: string, rest: string)
    requires Index(prefix, RM) == -1
    ensures Index(prefix + (RM + rest), RM) == |prefix|
  {
    var log := prefix + (RM + rest);
    IndexFromFinds(prefix, RM, 0);
    assert log[|prefix|..|prefix| + |RM|] == RM;
    forall j: nat | j < |prefix|
      ensures !OccursAt(log, RM, j)
    {
      var d := |prefix| - j;
      if j + |RM| <= |prefix| {
        assert log[j..j + |RM|] == prefix[j..j + |RM|];
        assert !OccursAt(prefix, RM, j);
      } else {
        assert RM[d] != ' ' && log[j + d] == ' ';
        DiffersAt(log, RM, j, d);
      }
    }
    IndexIs(log, RM, |prefix|);
  }

  /** With no added mounts reported, the removed ones decide by themselves. */
  lemma RemovalReportAnalysed(prefix: string, rms: seq<string>, suffix: string, kubelet: string)
    requires (forall m :: m in rms ==> IsMount(m)) && prefix != "" && Index(prefix, RM) == -1
    requires var log := RemovalReport(prefix, rms, suffix);
             Index(log, ADD) == -1 && Index(log, UNCHANGED) == -1 && Index(log, CREATED) == -1
    ensures RestartRequired(RemovalReport(prefix, rms, suffix), Some(kubelet)) <==>
              rms == [] || exists m :: m in rms && !(kubelet + "/pods/" <= m)
  {
    var log, after := RemovalReport(prefix, rms, suffix), Join(rms) + ("}" + suffix);
    RmFoundFirst(prefix, after);
    assert log[0..] == log;
    Drops(prefix, RM, after);
    ListReadBack(log, |prefix| + |RM|, rms, suffix);
  }

  /** The condition matters: a report at the very start of the output, adding a mount
      outside the pods directory, goes unnoticed when the removed mounts are all inside. */
  lemma ReportAtStartIsMissed(added: string, removed: string, suffix: string, kubelet: string)
    requires IsMount(added) && IsMount(removed) && kubelet + "/pods/" <= removed && !(kubelet + "/pods/" <= added)
    requires var log := Report("", [added], [removed], suffix); Index(log, UNCHANGED) == -1 && Index(log, CREATED) == -1
    ensures !RestartRequired(Report("", [added], [removed], suffix), Some(kubelet))
  {
    ReportAnalysed("", [added], [removed], suffix, kubelet);
  }
}
