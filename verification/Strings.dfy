/** The few functions of Go's `strings` package that the text analysers rely on. */
module Strings {

  predicate OccursAt(s: string, pat: string, i: nat) {
    i + |pat| <= |s| && s[i..i + |pat|] == pat
  }

  /** `strings.Index`, started at `from`: the first occurrence, or -1. */
  function IndexFrom(s: string, pat: string, from: nat): (i: int)
    requires from <= |s|
    ensures i == -1 || (from <= i && i + |pat| <= |s|)
    decreases |s| - from
  {
    if OccursAt(s, pat, from) then from
    else if from == |s| then -1
    else IndexFrom(s, pat, from + 1)
  }

  function Index(s: string, pat: string): (i: int)
    ensures i == -1 || (0 <= i && i + |pat| <= |s|)
  {
    IndexFrom(s, pat, 0)
  }

  predicate Contains(s: string, pat: string) {
    Index(s, pat) >= 0
  }

  /** The search finds an occurrence, and the first one. */
  lemma {:induction false} IndexFromFinds(s: string, pat: string, from: nat)
    requires from <= |s|
    ensures var i := IndexFrom(s, pat, from);
            && (i >= 0 ==> OccursAt(s, pat, i))
            && forall j: nat :: from <= j && (i == -1 || j < i) ==> !OccursAt(s, pat, j)
    decreases |s| - from
  {
    if !OccursAt(s, pat, from) && from < |s| {
      IndexFromFinds(s, pat, from + 1);
    }
  }

  /** The result is determined by that: an occurrence with none before it. */
  lemma IndexIs(s: string, pat: string, i: nat)
    requires OccursAt(s, pat, i) && forall j: nat :: j < i ==> !OccursAt(s, pat, j)
    ensures Index(s, pat) == i
  {
    IndexFromFinds(s, pat, 0);
  }

  predicate FirstAt(s: string, pat: string, i: nat) {
    OccursAt(s, pat, i) && forall j: nat :: j < i ==> !OccursAt(s, pat, j)
  }

  lemma IndexMeaning(s: string, pat: string, i: nat)
    ensures FirstAt(s, pat, i) <==> Index(s, pat) == i
  {
    IndexFromFinds(s, pat, 0);
  }

  lemma DiffersAt(s: string, pat: string, i: nat, k: nat)
    requires k < |pat| && i + k < |s| && s[i + k] != pat[k]
    ensures !OccursAt(s, pat, i)
  {
    if i + |pat| <= |s| {
      assert s[i..i + |pat|][k] == s[i + k];
    }
  }

  /** White space in the sense of `unicode.IsSpace`. */
  predicate IsSpace(c: char) {
    c in {'\t', '\n', '\U{000B}', '\U{000C}', '\r', ' ', '\U{0085}', '\U{00A0}', '\U{1680}',
          '\U{2028}', '\U{2029}', '\U{202F}', '\U{205F}', '\U{3000}'}
    || '\U{2000}' <= c <= '\U{200A}'
  }

  /** The number of characters before the first white space. */
  function WordLength(s: string): (n: nat)
    ensures n <= |s| && (n < |s| ==> IsSpace(s[n])) && forall k :: 0 <= k < n ==> !IsSpace(s[k])
  {
    if s == [] || IsSpace(s[0]) then 0 else 1 + WordLength(s[1..])
  }

  /** `strings.Fields`: the maximal runs of non-space characters. */
  function Fields(s: string): seq<string>
    decreases |s|
  {
    if s == [] then []
    else if IsSpace(s[0]) then Fields(s[1..])
    else
      var n := WordLength(s);
      [s[..n]] + Fields(s[n..])
  }

  /** A maximal stretch without white space. */
  predicate IsStretch(s: string, i: nat, j: nat) {
    && i < j <= |s| && Spaceless(s, i, j)
    && (i == 0 || IsSpace(s[i - 1])) && (j == |s| || IsSpace(s[j]))
  }

  /** No white space from `i` to `j`. */
  predicate Spaceless(s: string, i: nat, j: nat)
    requires i <= j <= |s|
  {
    forall k :: i <= k < j ==> !IsSpace(s[k])
  }

  lemma SpacelessShift(s: string, n: nat, i: nat, j: nat)
    requires n <= |s| && i <= j <= |s| - n
    ensures Spaceless(s[n..], i, j) <==> Spaceless(s, i + n, j + n)
    ensures s[n..][i..j] == s[i + n..j + n]
  {
    if Spaceless(s[n..], i, j) {
      forall k | i + n <= k < j + n
        ensures !IsSpace(s[k])
      {
        assert s[k] == s[n..][k - n];
      }
    }
    if Spaceless(s, i + n, j + n) {
      forall k | i <= k < j
        ensures !IsSpace(s[n..][k])
      {
        assert s[n..][k] == s[k + n];
      }
    }
  }

  /** Cutting the text where a stretch begins or ends leaves the later ones. */
  lemma StretchShift(s: string, n: nat, i: nat, j: nat)
    requires 0 < n <= |s| && (IsSpace(s[n - 1]) || n == |s| || IsSpace(s[n]))
    ensures IsStretch(s[n..], i, j) <==> IsStretch(s, i + n, j + n)
    ensures IsStretch(s[n..], i, j) ==> s[n..][i..j] == s[i + n..j + n]
  {
    if i <= j <= |s| - n { SpacelessShift(s, n, i, j); }
  }

  /** The first one, when the text does not begin with white space. */
  lemma FirstStretch(s: string, i: nat, j: nat)
    requires s != [] && !IsSpace(s[0])
    ensures IsStretch(s, i, j) && i <= WordLength(s) ==> i == 0 && j == WordLength(s)
    ensures IsStretch(s, 0, WordLength(s))
  {
    var n := WordLength(s);
    if IsStretch(s, i, j) && i <= n {
      assert forall k :: 0 <= k < n ==> !IsSpace(s[k]);
    }
  }

  /** Where the recursion of `Fields` cuts. */
  function Cut(s: string): (k: nat)
    requires s != []
    ensures 0 < k <= |s| && (IsSpace(s[k - 1]) || k == |s| || IsSpace(s[k]))
  {
    if IsSpace(s[0]) then 1 else WordLength(s)
  }

  lemma FieldsOfRest(s: string, w: string)
    requires s != []
    ensures w in Fields(s) <==> (!IsSpace(s[0]) && w == s[..Cut(s)]) || w in Fields(s[Cut(s)..])
  {
    assert Fields(s) == (if IsSpace(s[0]) then [] else [s[..Cut(s)]]) + Fields(s[Cut(s)..]);
  }

  /** `w` is the stretch from `i` to `j`. */
  predicate Stretches(s: string, i: nat, j: nat, w: string) {
    IsStretch(s, i, j) && s[i..j] == w
  }

  /** A stretch is the first field, or lies behind the cut. */
  lemma StretchPlace(s: string, i: nat, j: nat, w: string)
    requires Stretches(s, i, j, w)
    ensures if i >= Cut(s) then Stretches(s[Cut(s)..], i - Cut(s), j - Cut(s), w)
            else !IsSpace(s[0]) && w == s[..Cut(s)]
  {
    var k := Cut(s);
    if i >= k {
      StretchShift(s, k, i - k, j - k);
    } else if !IsSpace(s[0]) {
      FirstStretch(s, i, j);
    }
  }

  lemma StretchBehind(s: string, i: nat, j: nat, w: string)
    requires s != [] && Stretches(s[Cut(s)..], i, j, w)
    ensures Stretches(s, i + Cut(s), j + Cut(s), w)
  {
    StretchShift(s, Cut(s), i, j);
  }

  /** On any text, every such stretch is a field ... */
  lemma {:induction false} StretchIsField(s: string, i: nat, j: nat, w: string)
    requires Stretches(s, i, j, w)
    ensures w in Fields(s)
    decreases |s|
  {
    StretchPlace(s, i, j, w);
    if i >= Cut(s) { StretchIsField(s[Cut(s)..], i - Cut(s), j - Cut(s), w); }
    FieldsOfRest(s, w);
  }

  /** ... and every field is one. */
  lemma {:induction false} FieldIsStretch(s: string, w: string) returns (i: nat, j: nat)
    requires w in Fields(s)
    ensures Stretches(s, i, j, w)
    decreases |s|
  {
    FieldsOfRest(s, w);
    var k, rest := Cut(s), s[Cut(s)..];
    if w in Fields(rest) {
      var a, b := FieldIsStretch(rest, w);
      StretchBehind(s, a, b, w);
      i, j := a + k, b + k;
    } else {
      StretchAhead(s);
      i, j := 0, k;
    }
  }

  lemma StretchAhead(s: string)
    requires s != [] && !IsSpace(s[0])
    ensures Stretches(s, 0, Cut(s), s[..Cut(s)])
  {
    FirstStretch(s, 0, Cut(s));
  }

  /** `strings.ToLower`, on ASCII. */
  function Lower(s: string): (r: string)
    ensures |r| == |s| && forall i :: 0 <= i < |s| ==> r[i] == LowerChar(s[i])
  {
    if s == [] then [] else [LowerChar(s[0])] + Lower(s[1..])
  }

  function LowerChar(c: char): char {
    if 'A' <= c <= 'Z' then c - 'A' + 'a' else c
  }

  /** The letters from A to Z become those from a to z, and nothing else changes. */
  lemma LowerMeans(c: char)
    ensures Lower([c]) == [if 65 <= c as int <= 90 then (c as int + 32) as char else c]
  {
    assert Lower([c])[0] == LowerChar(c);
  }

  /** The words of a list, joined by single spaces. */
  function Join(words: seq<string>): string {
    if words == [] then ""
    else if |words| == 1 then words[0]
    else words[0] + " " + Join(words[1..])
  }

  predicate IsWord(w: string) {
    w != "" && forall k :: 0 <= k < |w| ==> !IsSpace(w[k])
  }

  lemma {:induction false} WordLengthIs(s: string, n: nat)
    requires n <= |s| && (n < |s| ==> IsSpace(s[n])) && forall k :: 0 <= k < n ==> !IsSpace(s[k])
    ensures WordLength(s) == n
  {
  }

  /** Splitting a joined list gives the list back. */
  lemma {:induction false} FieldsOfJoin(words: seq<string>)
    requires forall w :: w in words ==> IsWord(w)
    ensures Fields(Join(words)) == words
  {
    if |words| == 1 {
      var w := words[0];
      assert w in words;
      WordLengthIs(w, |w|);
      assert w[..|w|] == w && w[|w|..] == [];
      assert Fields(w) == [w] + Fields([]);
    } else if |words| > 1 {
      var w, rest := words[0], Join(words[1..]);
      var s := w + " " + rest;
      assert w in words;
      assert forall k :: 0 <= k < |w| ==> s[k] == w[k];
      assert s[|w|] == ' ';
      WordLengthIs(s, |w|);
      assert s[..|w|] == w && s[|w|..] == " " + rest;
      assert (" " + rest)[1..] == rest;
      assert Fields(s) == [w] + Fields(" " + rest) && Fields(" " + rest) == Fields(rest);
      FieldsOfJoin(words[1..]);
    }
  }
}
