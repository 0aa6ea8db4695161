/** The host's directory tree as a value, with the four operations the
    installer performs on it: stat, `rm -r`, `mkdir -p` and `mv`.

    A path is the list of its components, so "inside" is the sequence-prefix
    order and "/opt/pwx/oci2" is never mistaken for something below
    "/opt/pwx/oci".
 */
module HostTree {

  import opened Common

  /** A file is either an OCI spec, of which only the decoded `process.env` list
      matters here, or anything else. */
  datatype Content = Blob(data: string) | Spec(env: seq<string>)

  datatype Node = File(content: Content) | Dir(entries: map<string, Node>)

  type Path = seq<string>

  function Get(t: Node, p: Path): Option<Node>
    decreases |p|
  {
    if p == [] then Some(t)
    else if t.Dir? && p[0] in t.entries then Get(t.entries[p[0]], p[1..])
    else None
  }

  predicate IsDir(t: Node, p: Path) {
    var n := Get(t, p);
    n.Some? && n.value.Dir?
  }

  /** Something can be created at `p`: its parent is a directory. */
  predicate CanPut(t: Node, p: Path) {
    p != [] && IsDir(t, p[..|p| - 1])
  }

  /** Creates or replaces what is at `p`; nothing happens when there is no parent directory. */
  function Put(t: Node, p: Path, n: Node): Node
    decreases |p|
  {
    if p == [] then n
    else if !t.Dir? then t
    else if |p| == 1 then Dir(t.entries[p[0] := n])
    else if p[0] in t.entries then Dir(t.entries[p[0] := Put(t.entries[p[0]], p[1..], n)])
    else t
  }

  /** Deletes `p` and everything below it; nothing happens when `p` does not exist. */
  function Remove(t: Node, p: Path): Node
    requires p != []
    decreases |p|
  {
    if !t.Dir? || p[0] !in t.entries then t
    else if |p| == 1 then Dir(t.entries - {p[0]})
    else Dir(t.entries[p[0] := Remove(t.entries[p[0]], p[1..])])
  }

  /** Neither path lies at or below the other. */
  predicate Disjoint(p: Path, q: Path) {
    !(p <= q) && !(q <= p)
  }

  // ---------------------------------------------------------------- laws of Get, Put and Remove

  lemma DisjointWhere(p: Path, q: Path, k: nat)
    requires k < |p| && k < |q| && p[k] != q[k]
    ensures Disjoint(p, q)
  {
  }

  lemma DisjointDiffers(p: Path, q: Path) returns (k: nat)
    requires Disjoint(p, q)
    ensures k < |p| && k < |q| && p[k] != q[k]
  {
    k := 0;
    while k < |p| && k < |q| && p[k] == q[k]
      invariant k <= |p| && k <= |q| && p[..k] == q[..k]
    {
      k := k + 1;
    }
  }

  /** What is below one of two disjoint paths is disjoint from the other. */
  lemma DisjointBelow(p: Path, below: Path, q: Path)
    requires Disjoint(p, q) && p <= below
    ensures Disjoint(below, q)
  {
    var k := DisjointDiffers(p, q);
    DisjointWhere(below, q, k);
  }

  /** Prefix comparison, one component down. */
  lemma PrefixTail(p: Path, q: Path)
    requires p != [] && q != [] && p[0] == q[0]
    ensures p <= q <==> p[1..] <= q[1..]
  {
    if p[1..] <= q[1..] {
      assert p == [p[0]] + p[1..] && q == [q[0]] + q[1..];
    }
  }

  lemma {:induction false} GetPut(t: Node, p: Path, n: Node)
    requires CanPut(t, p)
    ensures Get(Put(t, p, n), p) == Some(n)
    decreases |p|
  {
    if |p| > 1 {
      assert p[..|p| - 1][1..] == p[1..][..|p[1..]| - 1];
      GetPut(t.entries[p[0]], p[1..], n);
    }
  }

  lemma {:induction false} GetPutElsewhere(t: Node, p: Path, n: Node, q: Path)
    requires Disjoint(p, q)
    ensures Get(Put(t, p, n), q) == Get(t, q)
    decreases |p|
  {
    if p[0] == q[0] {
      PrefixTail(p, q);
      PrefixTail(q, p);
      if t.Dir? && p[0] in t.entries {
        GetPutElsewhere(t.entries[p[0]], p[1..], n, q[1..]);
      }
    }
  }

  lemma {:induction false} GetRemove(t: Node, p: Path)
    requires p != []
    ensures Get(Remove(t, p), p) == None
    decreases |p|
  {
    if |p| > 1 && t.Dir? && p[0] in t.entries {
      GetRemove(t.entries[p[0]], p[1..]);
    }
  }

  lemma {:induction false} GetRemoveElsewhere(t: Node, p: Path, q: Path)
    requires Disjoint(p, q)
    ensures Get(Remove(t, p), q) == Get(t, q)
    decreases |p|
  {
    if p[0] == q[0] {
      PrefixTail(p, q);
      PrefixTail(q, p);
      if t.Dir? && p[0] in t.entries {
        GetRemoveElsewhere(t.entries[p[0]], p[1..], q[1..]);
      }
    }
  }

  /** A directory stays one unless it, or something above it, is replaced. */
  lemma {:induction false} IsDirPut(t: Node, p: Path, n: Node, d: Path)
    requires IsDir(t, d) && !(p <= d)
    ensures IsDir(Put(t, p, n), d)
    decreases |p|
  {
    if d != [] && p[0] == d[0] {
      PrefixTail(p, d);
      IsDirPut(t.entries[p[0]], p[1..], n, d[1..]);
    }
  }

  lemma {:induction false} IsDirRemove(t: Node, p: Path, d: Path)
    requires IsDir(t, d) && !(p <= d)
    ensures IsDir(Remove(t, p), d)
    decreases |p|
  {
    if d != [] && p[0] == d[0] {
      PrefixTail(p, d);
      IsDirRemove(t.entries[p[0]], p[1..], d[1..]);
    }
  }

  lemma {:induction false} IsDirAbove(t: Node, d: Path, e: Path)
    requires IsDir(t, d) && e <= d
    ensures IsDir(t, e)
    decreases |e|
  {
    if e != [] {
      PrefixTail(e, d);
      IsDirAbove(t.entries[e[0]], d[1..], e[1..]);
    }
  }

  lemma {:induction false} GetThenGet(t: Node, p: Path, q: Path)
    ensures Get(t, p + q) == if Get(t, p).Some? then Get(Get(t, p).value, q) else None
    decreases |p|
  {
    if p == [] {
      assert p + q == q;
    } else {
      assert (p + q)[1..] == p[1..] + q;
      if t.Dir? && p[0] in t.entries {
        GetThenGet(t.entries[p[0]], p[1..], q);
      }
    }
  }

  /** A deletion below `p`, seen from `p`. */
  lemma {:induction false} GetRemoveBelow(t: Node, p: Path, q: Path)
    requires q != []
    ensures Get(Remove(t, p + q), p) == if Get(t, p).Some? then Some(Remove(Get(t, p).value, q)) else None
    decreases |p|
  {
    if p == [] {
      assert p + q == q;
    } else {
      assert (p + q)[1..] == p[1..] + q;
      if t.Dir? && p[0] in t.entries { GetRemoveBelow(t.entries[p[0]], p[1..], q); }
    }
  }

  /** Deleting nothing changes nothing, and deleting something does. */
  lemma {:induction false} RemoveNothing(t: Node, p: Path)
    requires p != []
    ensures Remove(t, p) == t <==> Get(t, p).None?
    decreases |p|
  {
    if Get(t, p).None? {
      if |p| > 1 && t.Dir? && p[0] in t.entries {
        RemoveNothing(t.entries[p[0]], p[1..]);
        assert t.entries[p[0] := t.entries[p[0]]] == t.entries;
      }
    } else {
      GetRemove(t, p);
    }
  }

  /** A deletion does not create anything. */
  lemma {:induction false} GetRemoveNone(t: Node, p: Path, q: Path)
    requires p != [] && Get(t, q).None?
    ensures Get(Remove(t, p), q).None?
    decreases |p|
  {
    if |p| > 1 && t.Dir? && p[0] in t.entries && q[0] == p[0] {
      GetRemoveNone(t.entries[p[0]], p[1..], q[1..]);
    }
  }

  /** What exists has a directory above it. */
  lemma GetSomeCanPut(t: Node, p: Path)
    requires p != [] && Get(t, p).Some?
    ensures CanPut(t, p)
  {
    var parent, last := p[..|p| - 1], p[|p| - 1];
    assert p == parent + [last];
    GetThenGet(t, parent, [last]);
  }

  /** Deleting commutes with deleting, wherever the two paths are. */
  lemma {:induction false} RemoveCommutes(t: Node, p: Path, q: Path)
    requires p != [] && q != []
    ensures Remove(Remove(t, p), q) == Remove(Remove(t, q), p)
    decreases |p|
  {
    if t.Dir? && p[0] in t.entries && q[0] in t.entries {
      var es: map<string, Node> := t.entries;
      if p[0] != q[0] {
        if |p| == 1 && |q| == 1 {
          assert es - {p[0]} - {q[0]} == es - {q[0]} - {p[0]};
        } else if |p| == 1 {
          var r := Remove(es[q[0]], q[1..]);
          assert (es - {p[0]})[q[0] := r] == es[q[0] := r] - {p[0]};
        } else if |q| == 1 {
          var r := Remove(es[p[0]], p[1..]);
          assert (es - {q[0]})[p[0] := r] == es[p[0] := r] - {q[0]};
        } else {
          var r, s := Remove(es[p[0]], p[1..]), Remove(es[q[0]], q[1..]);
          assert es[p[0] := r][q[0] := s] == es[q[0] := s][p[0] := r];
        }
      } else if |p| > 1 && |q| > 1 {
        RemoveCommutes(es[p[0]], p[1..], q[1..]);
        var r, s := Remove(es[p[0]], p[1..]), Remove(es[p[0]], q[1..]);
        assert es[p[0] := r][q[0] := Remove(r, q[1..])] == es[q[0] := s][p[0] := Remove(s, p[1..])];
      } else if |p| == 1 && |q| > 1 {
        var s := Remove(es[q[0]], q[1..]);
        assert es[q[0] := s] - {p[0]} == es - {p[0]};
      } else if |p| > 1 && |q| == 1 {
        var s := Remove(es[p[0]], p[1..]);
        assert es[p[0] := s] - {q[0]} == es - {q[0]};
      }
    }
  }

  /** Deleting a tree makes every earlier deletion inside it irrelevant. */
  lemma {:induction false} RemoveAbsorbs(t: Node, p: Path, q: Path)
    requires p != [] && p <= q
    ensures Remove(Remove(t, q), p) == Remove(t, p)
    decreases |p|
  {
    PrefixTail(p, q);
    if t.Dir? && p[0] in t.entries {
      var es: map<string, Node> := t.entries;
      if |p| == 1 {
        if |q| > 1 {
          assert es[q[0] := Remove(es[q[0]], q[1..])] - {p[0]} == es - {p[0]};
        }
      } else {
        RemoveAbsorbs(es[p[0]], p[1..], q[1..]);
        var s := Remove(es[q[0]], q[1..]);
        assert es[q[0] := s][p[0] := Remove(s, p[1..])] == es[p[0] := Remove(es[p[0]], p[1..])];
      }
    }
  }

  lemma {:induction false} PutRemoveCommute(t: Node, p: Path, n: Node, q: Path)
    requires Disjoint(p, q)
    ensures Remove(Put(t, p, n), q) == Put(Remove(t, q), p, n)
    decreases |p|
  {
    if t.Dir? {
      var es: map<string, Node> := t.entries;
      if p[0] == q[0] {
        PrefixTail(p, q);
        PrefixTail(q, p);
        if p[0] in es {
          PutRemoveCommute(es[p[0]], p[1..], n, q[1..]);
          var r, s := Put(es[p[0]], p[1..], n), Remove(es[p[0]], q[1..]);
          var left: map<string, Node> := es[p[0] := r];
          var right: map<string, Node> := es[q[0] := s];
          assert left[q[0] := Remove(r, q[1..])] == right[p[0] := Put(s, p[1..], n)];
        }
      } else {
        var t1, t2 := Put(t, p, n), Remove(t, q);
        assert t1.Dir? && t2.Dir?;
        assert q[0] in t1.entries <==> q[0] in es;
        assert p[0] in t2.entries <==> p[0] in es;
        if q[0] in es && (|p| == 1 || p[0] in es) {
          var r := if |p| == 1 then n else Put(es[p[0]], p[1..], n);
          if |q| == 1 {
            assert es[p[0] := r] - {q[0]} == (es - {q[0]})[p[0] := r];
          } else {
            var s := Remove(es[q[0]], q[1..]);
            assert es[p[0] := r][q[0] := s] == es[q[0] := s][p[0] := r];
          }
        }
      }
    }
  }

  // ---------------------------------------------------------------- mv, rm and mkdir

  /** What `mv src dest` renames to: an existing directory receives the source
      under the source's own name. */
  function MvTarget(t: Node, src: Path, dest: Path): Path
    requires src != []
  {
    if IsDir(t, dest) then dest + [src[|src| - 1]] else dest
  }

  /** `mv` has nothing to object to: the source exists, is not moved into itself,
      and what it would replace is nothing, a file by a file, or an empty
      directory by a directory. */
  predicate MvAllowed(t: Node, src: Path, dest: Path)
    requires src != []
  {
    var target := MvTarget(t, src, dest);
    var from, to := Get(t, src), Get(t, target);
    && from.Some?
    && !(src <= target)
    && CanPut(t, target)
    && (to.Some? ==> if from.value.Dir? then to.value == Dir(map[]) else to.value.File?)
  }

  datatype Step = Step(tree: Node, ok: bool)

  /** An all-or-nothing `mv`; `fault` is a failure for a reason outside the tree. */
  function Mv(t: Node, src: Path, dest: Path, fault: bool): Step
    requires src != []
  {
    if fault || !MvAllowed(t, src, dest) then Step(t, false)
    else Step(Put(Remove(t, src), MvTarget(t, src, dest), Get(t, src).value), true)
  }

  /** A successful `mv` moves the whole subtree and touches nothing else. */
  lemma MvMoves(t: Node, src: Path, dest: Path, q: Path)
    requires src != [] && MvAllowed(t, src, dest)
    requires Disjoint(src, MvTarget(t, src, dest))
    ensures var target := MvTarget(t, src, dest);
            var moved := Mv(t, src, dest, false).tree;
            && Get(moved, target) == Get(t, src)
            && Get(moved, src) == None
            && (Disjoint(q, src) && Disjoint(q, target) ==> Get(moved, q) == Get(t, q))
            && (IsDir(t, q) && !(src <= q) && !(target <= q) ==> IsDir(moved, q))
  {
    var target := MvTarget(t, src, dest);
    var cut, n := Remove(t, src), Get(t, src).value;
    IsDirRemove(t, src, target[..|target| - 1]) by {
      assert target[..|target| - 1] <= target;
    }
    GetPut(cut, target, n);
    GetPutElsewhere(cut, target, n, src);
    GetRemove(t, src);
    if Disjoint(q, src) && Disjoint(q, target) {
      GetPutElsewhere(cut, target, n, q);
      GetRemoveElsewhere(t, src, q);
    }
    if IsDir(t, q) && !(src <= q) && !(target <= q) {
      IsDirRemove(t, src, q);
      IsDirPut(cut, target, n, q);
    }
  }

  /** A `mv`, done or failed, nesting or not, leaves alone what is clear of its two arguments. */
  lemma MvClear(t: Node, src: Path, dest: Path, fault: bool, q: Path)
    requires src != [] && Disjoint(q, src) && Disjoint(q, dest)
    ensures Get(Mv(t, src, dest, fault).tree, q) == Get(t, q)
  {
    if !fault && MvAllowed(t, src, dest) {
      var target := MvTarget(t, src, dest);
      DisjointBelow(dest, target, q);
      GetPutElsewhere(Remove(t, src), target, Get(t, src).value, q);
      GetRemoveElsewhere(t, src, q);
    }
  }

  lemma MvKeepsDir(t: Node, src: Path, dest: Path, fault: bool, d: Path)
    requires src != [] && IsDir(t, d) && !(src <= d) && !(dest <= d)
    ensures IsDir(Mv(t, src, dest, fault).tree, d)
  {
    if !fault && MvAllowed(t, src, dest) {
      var target := MvTarget(t, src, dest);
      assert dest <= target;
      IsDirRemove(t, src, d);
      IsDirPut(Remove(t, src), target, Get(t, src).value, d);
    }
  }

  /** A new entry in a directory, seen from the directory. */
  lemma {:induction false} GetPutInside(t: Node, p: Path, name: string, n: Node)
    requires IsDir(t, p)
    ensures Get(Put(t, p + [name], n), p) == Some(Dir(Get(t, p).value.entries[name := n]))
    decreases |p|
  {
    if p == [] {
      assert p + [name] == [name];
    } else {
      assert (p + [name])[1..] == p[1..] + [name];
      GetPutInside(t.entries[p[0]], p[1..], name, n);
    }
  }

  /** `r` is what may be left of `n` by a deletion that was cut short. */
  predicate RemainsOf(r: Node, n: Node) {
    match (r, n)
    case (File(c), File(d)) => c == d
    case (Dir(rs), Dir(ns)) => forall k :: k in rs ==> k in ns && RemainsOf(rs[k], ns[k])
    case _ => false
  }

  /** `rm -r`: complete, or on a fault leaving `residue` when that is a possible remainder. */
  function RemoveAll(t: Node, p: Path, fault: bool, residue: Option<Node>): Node
    requires p != []
  {
    if !fault then Remove(t, p)
    else if residue.Some? && Get(t, p).Some? && RemainsOf(residue.value, Get(t, p).value)
    then Put(t, p, residue.value)
    else t
  }

  /** `mkdir -p`: None when a component on the way is not a directory. */
  function MkdirAll(t: Node, p: Path): Option<Node>
    decreases |p|
  {
    if !t.Dir? then None
    else if p == [] then Some(t)
    else
      var child := if p[0] in t.entries then t.entries[p[0]] else Dir(map[]);
      var made := MkdirAll(child, p[1..]);
      if made.None? then None else Some(Dir(t.entries[p[0] := made.value]))
  }

  /** `mkdir -p` makes the directory, and changes nothing that already existed. */
  lemma {:induction false} MkdirAllMakes(t: Node, p: Path)
    requires MkdirAll(t, p).Some?
    ensures IsDir(MkdirAll(t, p).value, p)
    decreases |p|
  {
    if p != [] {
      var child := if p[0] in t.entries then t.entries[p[0]] else Dir(map[]);
      MkdirAllMakes(child, p[1..]);
    }
  }

  lemma {:induction false} MkdirAllElsewhere(t: Node, p: Path, q: Path)
    requires MkdirAll(t, p).Some? && Disjoint(p, q)
    ensures Get(MkdirAll(t, p).value, q) == Get(t, q)
    decreases |p|
  {
    if p[0] == q[0] {
      PrefixTail(p, q);
      PrefixTail(q, p);
      var child := if p[0] in t.entries then t.entries[p[0]] else Dir(map[]);
      MkdirAllElsewhere(child, p[1..], q[1..]);
      if p[0] !in t.entries {
        assert Get(Dir(map[]), q[1..]) == None;
      }
    }
  }

  lemma {:induction false} MkdirAllKeepsDir(t: Node, p: Path, d: Path)
    requires MkdirAll(t, p).Some? && IsDir(t, d)
    ensures IsDir(MkdirAll(t, p).value, d)
    decreases |p|
  {
    if p != [] && d != [] && p[0] == d[0] {
      MkdirAllKeepsDir(t.entries[p[0]], p[1..], d[1..]);
    }
  }

  /** It fails exactly if something on the way is there and is not a directory. */
  lemma {:induction false} MkdirAllWhen(t: Node, p: Path)
    ensures MkdirAll(t, p).Some? <==> forall k :: 0 <= k <= |p| ==> Get(t, p[..k]).None? || IsDir(t, p[..k])
    decreases |p|
  {
    assert Get(t, p[..0]) == Some(t);
    if t.Dir? && p != [] {
      var child := if p[0] in t.entries then t.entries[p[0]] else Dir(map[]);
      MkdirAllWhen(child, p[1..]);
      forall k | 1 <= k <= |p|
        ensures p[0] in t.entries ==> Get(t, p[..k]) == Get(child, p[1..][..k - 1])
        ensures p[0] !in t.entries ==> Get(t, p[..k]).None?
      {
        assert p[..k][1..] == p[1..][..k - 1];
      }
      if p[0] in t.entries {
        forall k | 0 <= k <= |p[1..]|
          ensures Get(child, p[1..][..k]) == Get(t, p[..k + 1])
        {
        }
      } else {
        forall k | 0 <= k <= |p[1..]|
          ensures Get(child, p[1..][..k]).None? || IsDir(child, p[1..][..k])
        {
          if k > 0 { assert p[1..][..k][0] !in child.entries; }
        }
      }
    }
  }

  /** It cannot fail where its first `k` components are directories and the next is missing. */
  lemma {:induction false} MkdirAllWorks(t: Node, p: Path, k: nat)
    requires k <= |p| && IsDir(t, p[..k]) && (k < |p| ==> Get(t, p[..k + 1]).None?)
    ensures MkdirAll(t, p).Some?
    decreases |p|
  {
    if p != [] {
      if k == 0 {
        assert p[..1][1..] == [];
        MkdirAllWorks(Dir(map[]), p[1..], 0);
      } else {
        assert p[..k][1..] == p[1..][..k - 1];
        if k < |p| { assert p[..k + 1][1..] == p[1..][..k]; }
        MkdirAllWorks(t.entries[p[0]], p[1..], k - 1);
      }
    }
  }

  /** Below the made directory, only what was there already. */
  lemma {:induction false} MkdirAllBelow(t: Node, p: Path, q: Path)
    requires MkdirAll(t, p).Some? && p <= q && p != q
    ensures Get(MkdirAll(t, p).value, q) == Get(t, q)
    decreases |p|
  {
    if p != [] {
      PrefixTail(p, q);
      var child := if p[0] in t.entries then t.entries[p[0]] else Dir(map[]);
      MkdirAllBelow(child, p[1..], q[1..]);
    }
  }
}
