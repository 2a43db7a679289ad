/** Optional values, for lookups that may find nothing. */
module Wrappers {

  datatype Option<+T> = None | Some(value: T)
}

/**
 An abstract filesystem: a directory maps entry names to nodes, a node is a
 regular file or a directory. Paths are sequences of entry names, relative to
 the root of the tree. The functions here are the meaning of the filesystem
 calls the command-line tool makes (`mkdir` with `recursive`, `rm` with
 `recursive` and `force`, `copyFile`, `writeFile`, `readdir`, `access`).
 */
module FileTree {
  import opened Wrappers

  type Name = string
  type Path = seq<Name>

  datatype Node = File(content: string) | Dir(entries: map<Name, Node>)

  /** The entry `n` of a directory listing, if there is one. */
  function Get(m: map<Name, Node>, n: Name): Option<Node>
  {
    if n in m then Some(m[n]) else None
  }

  /** The listing of an optional node seen as a directory: a missing node lists as empty. */
  function EntriesOf(d: Option<Node>): map<Name, Node>
  {
    if d.Some? && d.value.Dir? then d.value.entries else map[]
  }

  /** The node reached by following `p` from `t`, if every step exists. */
  function Lookup(t: Node, p: Path): Option<Node>
    decreases p
  {
    if p == [] then Some(t)
    else
      match t
      case File(_) => None
      case Dir(m) => if p[0] in m then Lookup(m[p[0]], p[1..]) else None
  }

  predicate IsDir(t: Node, p: Path)
  {
    Lookup(t, p).Some? && Lookup(t, p).value.Dir?
  }

  /** The node at `p`, or an empty file where there is none (a measure for recursion over the tree). */
  function NodeAt(t: Node, p: Path): Node
  {
    if Lookup(t, p).Some? then Lookup(t, p).value else File("")
  }

  predicate IsPrefix(p: Path, q: Path)
  {
    |p| <= |q| && q[..|p|] == p
  }

  /** Neither path lies inside the other. */
  predicate Disjoint(p: Path, q: Path)
  {
    !IsPrefix(p, q) && !IsPrefix(q, p)
  }

  /**
   The tree `t` with the node at `p` replaced by `v`; directories missing on
   the way to `p` are created empty.
   */
  function Graft(t: Node, p: Path, v: Node): Node
    decreases p
  {
    if p == [] then v
    else
      var m := if t.Dir? then t.entries else map[];
      var child := if p[0] in m then m[p[0]] else Dir(map[]);
      Dir(m[p[0] := Graft(child, p[1..], v)])
  }

  /** `mkdir(p, { recursive: true })`: fails when a file stands on the path or at `p`. */
  function MkdirAll(t: Node, p: Path): Option<Node>
    decreases p
  {
    match t
    case File(_) => None
    case Dir(m) =>
      if p == [] then Some(t)
      else
        var child := if p[0] in m then m[p[0]] else Dir(map[]);
        match MkdirAll(child, p[1..])
        case None => None
        case Some(c) => Some(Dir(m[p[0] := c]))
  }

  /** `rm(p, { recursive: true, force: true })`: removes the node at `p` if there is one. */
  function Prune(t: Node, p: Path): Node
    requires p != []
    decreases p
  {
    match t
    case File(_) => t
    case Dir(m) =>
      if p[0] !in m then t
      else if |p| == 1 then Dir(m - {p[0]})
      else Dir(m[p[0] := Prune(m[p[0]], p[1..])])
  }

  /** `copyFile(from, to)`: the source must be a file, `to` must not be a directory, its parent must be one. */
  predicate CanCopyFile(t: Node, from: Path, to: Path)
  {
    && Lookup(t, from).Some? && Lookup(t, from).value.File?
    && CanWriteFile(t, to)
  }

  /** `writeFile(to, ...)`: the parent of `to` must be a directory and `to` must not be one. */
  predicate CanWriteFile(t: Node, to: Path)
  {
    && to != []
    && IsDir(t, to[..|to| - 1])
    && !IsDir(t, to)
  }

  /** `readdir(p, { withFileTypes: true })`: each entry name with whether it is a directory. */
  function ReadDir(t: Node, p: Path): (r: Option<map<Name, bool>>)
    ensures r.Some? <==> IsDir(t, p)
    ensures r.Some? ==> r.value.Keys == Lookup(t, p).value.entries.Keys
    ensures r.Some? ==> forall n :: n in r.value ==>
      Lookup(t, p + [n]).Some? && (r.value[n] <==> Lookup(t, p + [n]).value.Dir?)
  {
    match Lookup(t, p)
    case Some(Dir(m)) =>
      LookupChild(t, p);
      Some(map n | n in m :: m[n].Dir?)
    case _ => None
  }

  // ---------------------------------------------------------------------------
  // Lookups through appended paths

  lemma {:induction false} LookupAppend(t: Node, a: Path, b: Path)
    ensures Lookup(t, a + b) == if Lookup(t, a).Some? then Lookup(Lookup(t, a).value, b) else None
    decreases a
  {
    if a != [] {
      assert (a + b)[0] == a[0] && (a + b)[1..] == a[1..] + b;
      match t
      case File(_) =>
      case Dir(m) =>
        if a[0] in m {
          LookupAppend(m[a[0]], a[1..], b);
        }
    } else {
      assert a + b == b;
    }
  }

  /** The child `n` of the directory at `p` is found at `p + [n]`. */
  lemma LookupChild(t: Node, p: Path)
    requires IsDir(t, p)
    ensures forall n :: Lookup(t, p + [n]) == Get(Lookup(t, p).value.entries, n)
  {
    forall n ensures Lookup(t, p + [n]) == Get(Lookup(t, p).value.entries, n) {
      LookupAppend(t, p, [n]);
    }
  }

  // ---------------------------------------------------------------------------
  // Graft

  /** After grafting `v` at `p`, the tree under `p` is `v`. */
  lemma {:induction false} LookupGraftBelow(t: Node, p: Path, v: Node, q: Path)
    ensures Lookup(Graft(t, p, v), p + q) == Lookup(v, q)
    decreases p
  {
    if p != [] {
      assert (p + q)[0] == p[0] && (p + q)[1..] == p[1..] + q;
      var m := if t.Dir? then t.entries else map[];
      var child := if p[0] in m then m[p[0]] else Dir(map[]);
      LookupGraftBelow(child, p[1..], v, q);
    } else {
      assert p + q == q;
    }
  }

  lemma LookupGraft(t: Node, p: Path, v: Node)
    ensures Lookup(Graft(t, p, v), p) == Some(v)
  {
    LookupGraftBelow(t, p, v, []);
    assert p + [] == p;
  }

  /** Grafting at `p` changes nothing at a path disjoint from `p`. */
  lemma {:induction false} LookupGraftDisjoint(t: Node, p: Path, v: Node, q: Path)
    requires Disjoint(p, q)
    ensures Lookup(Graft(t, p, v), q) == Lookup(t, q)
    decreases p
  {
    var m := if t.Dir? then t.entries else map[];
    var child := if p[0] in m then m[p[0]] else Dir(map[]);
    if p[0] == q[0] {
      DisjointTail(p, q);
      LookupGraftDisjoint(child, p[1..], v, q[1..]);
    }
  }

  lemma {:induction false} GraftGraft(t: Node, p: Path, a: Node, b: Node)
    ensures Graft(Graft(t, p, a), p, b) == Graft(t, p, b)
    decreases p
  {
    if p != [] {
      var m := if t.Dir? then t.entries else map[];
      var child := if p[0] in m then m[p[0]] else Dir(map[]);
      GraftGraft(child, p[1..], a, b);
      assert m[p[0] := Graft(child, p[1..], a)][p[0] := Graft(Graft(child, p[1..], a), p[1..], b)]
          == m[p[0] := Graft(child, p[1..], b)];
    }
  }

  /** Grafting the node that is already at `p` leaves the tree as it was. */
  lemma {:induction false} GraftSelf(t: Node, p: Path)
    requires Lookup(t, p).Some?
    ensures Graft(t, p, Lookup(t, p).value) == t
    decreases p
  {
    if p != [] {
      var m := t.entries;
      GraftSelf(m[p[0]], p[1..]);
      assert m[p[0] := m[p[0]]] == m;
    }
  }

  /** Writing the child `n` of a grafted directory is grafting the updated directory. */
  lemma {:induction false} GraftChild(t: Node, p: Path, m: map<Name, Node>, n: Name, v: Node)
    ensures Graft(Graft(t, p, Dir(m)), p + [n], v) == Graft(t, p, Dir(m[n := v]))
    decreases p
  {
    if p == [] {
      assert p + [n] == [n];
    } else {
      assert (p + [n])[0] == p[0] && (p + [n])[1..] == p[1..] + [n];
      var tm := if t.Dir? then t.entries else map[];
      var child := if p[0] in tm then tm[p[0]] else Dir(map[]);
      GraftChild(child, p[1..], m, n, v);
      assert tm[p[0] := Graft(child, p[1..], Dir(m))][p[0] := Graft(Graft(child, p[1..], Dir(m)), p[1..] + [n], v)]
          == tm[p[0] := Graft(child, p[1..], Dir(m[n := v]))];
    }
  }

  // ---------------------------------------------------------------------------
  // mkdir -p and rm -rf

  /**
   A successful `mkdir -p` leaves a directory at `p`: the one that was there,
   or a new empty one, and changes nothing but the path to it.
   */
  lemma {:induction false} MkdirAllGraft(t: Node, p: Path)
    requires MkdirAll(t, p).Some?
    ensures IsDir(MkdirAll(t, p).value, p)
    ensures Lookup(t, p).Some? ==> Lookup(MkdirAll(t, p).value, p) == Lookup(t, p)
    ensures Lookup(t, p).None? ==> Lookup(MkdirAll(t, p).value, p) == Some(Dir(map[]))
    ensures MkdirAll(t, p).value == Graft(t, p, Lookup(MkdirAll(t, p).value, p).value)
    decreases p
  {
    if p != [] {
      var m := t.entries;
      var child := if p[0] in m then m[p[0]] else Dir(map[]);
      MkdirAllGraft(child, p[1..]);
    }
  }

  /** `mkdir -p` of an existing directory does nothing. */
  lemma {:induction false} MkdirAllExisting(t: Node, p: Path)
    requires IsDir(t, p)
    ensures MkdirAll(t, p) == Some(t)
    decreases p
  {
    if p != [] {
      var m := t.entries;
      MkdirAllExisting(m[p[0]], p[1..]);
      assert m[p[0] := m[p[0]]] == m;
    }
  }

  /** `mkdir -p` of a child of an existing directory fails exactly when that child is a file. */
  lemma MkdirAllChild(t: Node, p: Path, n: Name)
    requires IsDir(t, p)
    ensures var m := Lookup(t, p).value.entries;
      MkdirAll(t, p + [n]) ==
        if n in m && m[n].File? then None
        else Some(Graft(t, p + [n], if n in m then m[n] else Dir(map[])))
  {
    var m := Lookup(t, p).value.entries;
    MkdirAllChildAux(t, p, n, m);
  }

  lemma {:induction false} MkdirAllChildAux(t: Node, p: Path, n: Name, m: map<Name, Node>)
    requires Lookup(t, p) == Some(Dir(m))
    ensures MkdirAll(t, p + [n]) ==
        if n in m && m[n].File? then None
        else Some(Graft(t, p + [n], if n in m then m[n] else Dir(map[])))
    decreases p
  {
    if p == [] {
      assert p + [n] == [n];
      var child := if n in m then m[n] else Dir(map[]);
      if child.Dir? {
        assert MkdirAll(child, []) == Some(child);
      }
    } else {
      assert (p + [n])[0] == p[0] && (p + [n])[1..] == p[1..] + [n];
      var tm := t.entries;
      MkdirAllChildAux(tm[p[0]], p[1..], n, m);
    }
  }

  /** `mkdir -p` of `p` changes nothing at a path that is not on the way to `p`. */
  lemma MkdirAllPreserves(t: Node, p: Path, q: Path)
    requires MkdirAll(t, p).Some?
    requires !IsPrefix(q, p)
    ensures Lookup(MkdirAll(t, p).value, q) == Lookup(t, q)
  {
    MkdirAllGraft(t, p);
    var t1 := MkdirAll(t, p).value;
    var d := Lookup(t1, p).value;
    if IsPrefix(p, q) {
      var r := q[|p|..];
      assert q == p + r;
      LookupGraftBelow(t, p, d, r);
      LookupAppend(t, p, r);
      assert r != [];
    } else {
      LookupGraftDisjoint(t, p, d, q);
    }
  }

  /** After `rm -rf p` nothing is left at `p`. */
  lemma {:induction false} LookupPrune(t: Node, p: Path)
    requires p != []
    ensures Lookup(Prune(t, p), p) == None
    decreases p
  {
    match t
    case File(_) =>
    case Dir(m) =>
      if p[0] in m && |p| > 1 {
        LookupPrune(m[p[0]], p[1..]);
      }
  }

  /** `rm -rf p` changes nothing at a path disjoint from `p`. */
  lemma {:induction false} LookupPruneDisjoint(t: Node, p: Path, q: Path)
    requires p != [] && Disjoint(p, q)
    ensures Lookup(Prune(t, p), q) == Lookup(t, q)
    decreases p
  {
    match t
    case File(_) =>
    case Dir(m) =>
      if p[0] in m && |p| > 1 && p[0] == q[0] {
        DisjointTail(p, q);
        LookupPruneDisjoint(m[p[0]], p[1..], q[1..]);
      }
  }

  /** Two paths that start with the same name are disjoint exactly when their tails are. */
  lemma DisjointTail(p: Path, q: Path)
    requires p != [] && q != [] && p[0] == q[0]
    ensures Disjoint(p, q) <==> Disjoint(p[1..], q[1..])
  {
    PrefixTail(p, q);
    PrefixTail(q, p);
  }

  lemma PrefixTail(p: Path, q: Path)
    requires p != [] && q != [] && p[0] == q[0]
    ensures IsPrefix(p, q) <==> IsPrefix(p[1..], q[1..])
  {
    if |p| <= |q| {
      assert q[..|p|] == [q[0]] + q[1..][..|p| - 1];
      assert p == [p[0]] + p[1..];
    }
  }

  lemma PrefixOfLonger(p: Path, a: Name, q: Path)
    ensures IsPrefix(p + [a], q) ==> IsPrefix(p, q)
  {
    if IsPrefix(p + [a], q) {
      assert q[..|p|] == q[..|p| + 1][..|p|];
    }
  }

  lemma PrefixOfExtended(p: Path, q: Path, b: Name)
    ensures IsPrefix(p, q + [b]) ==> IsPrefix(p, q) || p == q + [b]
  {
    if IsPrefix(p, q + [b]) && |p| <= |q| {
      assert (q + [b])[..|p|] == q[..|p|];
    }
  }

  /** Extending disjoint paths keeps them disjoint. */
  lemma DisjointExtend(p: Path, q: Path, a: Name, b: Name)
    requires Disjoint(p, q)
    ensures Disjoint(p + [a], q + [b]) && Disjoint(p + [a], q) && Disjoint(p, q + [b])
  {
    PrefixOfExtended(p + [a], q, b);
    PrefixOfLonger(p, a, q);
    PrefixOfExtended(q + [b], p, a);
    PrefixOfLonger(q, b, p);
    PrefixOfExtended(q, p, a);
    PrefixOfExtended(p, q, b);
  }

  /** The trees `a` and `b` agree at every path disjoint from `p`. */
  ghost predicate SameOutside(a: Node, b: Node, p: Path)
  {
    forall q :: Disjoint(q, p) ==> Lookup(a, q) == Lookup(b, q)
  }

  /** A `mkdir -p` of `p` followed by a graft at `p` changes nothing at a path disjoint from `p`. */
  lemma GraftedFrame(t: Node, p: Path, v: Node)
    requires MkdirAll(t, p).Some?
    ensures SameOutside(MkdirAll(t, p).value, t, p)
    ensures SameOutside(Graft(MkdirAll(t, p).value, p, v), t, p)
  {
    forall q | Disjoint(q, p) ensures Lookup(MkdirAll(t, p).value, q) == Lookup(t, q) {
      MkdirAllPreserves(t, p, q);
    }
    forall q | Disjoint(q, p) ensures Lookup(Graft(MkdirAll(t, p).value, p, v), q) == Lookup(t, q) {
      LookupGraftDisjoint(MkdirAll(t, p).value, p, v, q);
    }
  }

  /** Writing at a path where nothing stood, inside an existing directory, changes no existing file. */
  lemma {:induction false} GraftAbsentKeepsFiles(t: Node, p: Path, v: Node, q: Path)
    requires p != [] && IsDir(t, p[..|p| - 1]) && Lookup(t, p).None?
    requires Lookup(t, q).Some? && Lookup(t, q).value.File?
    ensures Lookup(Graft(t, p, v), q) == Lookup(t, q)
    decreases p
  {
    var m := t.entries;
    if q[0] == p[0] && |p| > 1 {
      assert p[1..][..|p| - 2] == p[..|p| - 1][1..];
      GraftAbsentKeepsFiles(m[p[0]], p[1..], v, q[1..]);
    }
  }

  lemma PrefixGrow(p: Path, q: Path, b: Name)
    ensures IsPrefix(p, q) ==> IsPrefix(p, q + [b])
  {
    if IsPrefix(p, q) {
      assert (q + [b])[..|p|] == q[..|p|];
    }
  }

  /** Two different entries of one directory are disjoint paths. */
  lemma SiblingsDisjoint(p: Path, a: Name, b: Name)
    requires a != b
    ensures Disjoint(p + [a], p + [b])
  {
    assert (p + [a])[|p|] == a && (p + [b])[|p|] == b;
  }

  lemma PrefixTrans(p: Path, q: Path, r: Path)
    ensures IsPrefix(p, q) && IsPrefix(q, r) ==> IsPrefix(p, r)
  {
    if IsPrefix(p, q) && IsPrefix(q, r) {
      assert r[..|p|] == r[..|q|][..|p|];
    }
  }

  /** Whatever exists at `p + [n]` lies in a directory at `p`. */
  lemma LookupParent(t: Node, p: Path, n: Name)
    requires Lookup(t, p + [n]).Some?
    ensures IsDir(t, p)
  {
    LookupAppend(t, p, [n]);
  }
}
