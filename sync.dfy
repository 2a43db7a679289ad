/**
 The meaning of `copyDirectory(src, dest)` (cli.js): the source tree, with every
 entry named `node_modules` or `.git` dropped at every depth, merged into the
 destination tree. Directories merge recursively; files overwrite whatever
 file stood at the same place. A directory copied onto a file, or a file
 copied onto a directory, is a failure of the filesystem call.
 */
module Sync {
  import opened Wrappers
  import opened FileTree

  /** The two names `copyDirectory` skips, whether they name files or directories. */
  predicate Excluded(n: Name)
  {
    n == "node_modules" || n == ".git"
  }

  /** No segment of `p` is an excluded name. */
  predicate Reachable(p: Path)
  {
    forall i :: 0 <= i < |p| ==> !Excluded(p[i])
  }

  /** The tree without its excluded entries, at every depth. */
  function Filter(t: Node): Node
  {
    match t
    case File(_) => t
    case Dir(m) => Dir(map n | n in m && !Excluded(n) :: Filter(m[n]))
  }

  /** `s` copied onto `d`: files replace, directories merge, entries only in `d` stay. */
  function Merge(s: Node, d: Option<Node>): Node
  {
    match s
    case File(_) => s
    case Dir(se) =>
      var de := EntriesOf(d);
      Dir(map n | n in se.Keys + de.Keys :: if n in se then Merge(se[n], Get(de, n)) else de[n])
  }

  /**
   Copying `s` onto `d` raises no error: no directory of `s` meets a file of `d`
   (`mkdir` fails) and no file of `s` meets a directory of `d` (`copyFile` fails).
   */
  predicate Fits(s: Node, d: Option<Node>)
  {
    match s
    case File(_) => !(d.Some? && d.value.Dir?)
    case Dir(se) =>
      && !(d.Some? && d.value.File?)
      && forall n :: n in se ==> Fits(se[n], Get(EntriesOf(d), n))
  }

  /**
   The whole effect of `copyDirectory(src, dest)` on the tree `t`: `mkdir -p dest`,
   then list `src`, then copy every entry that is not excluded. `None` when any
   step fails.
   */
  function CopyTree(t: Node, src: Path, dest: Path): Option<Node>
  {
    match MkdirAll(t, dest)
    case None => None
    case Some(t1) =>
      match Lookup(t1, src)
      case Some(Dir(se)) =>
        var s := Filter(Dir(se));
        if Fits(s, Lookup(t1, dest)) then Some(Graft(t1, dest, Merge(s, Lookup(t1, dest)))) else None
      case _ => None
  }

  /**
   The destination listing `de` once the names in `done` of the filtered source
   listing `fs` have been copied onto it.
   */
  function MergedSoFar(fs: map<Name, Node>, de: map<Name, Node>, done: set<Name>): map<Name, Node>
  {
    map n | n in de.Keys + (fs.Keys * done) :: if n in fs && n in done then Merge(fs[n], Get(de, n)) else de[n]
  }

  /**
   The destination listing after copying the entries of `fs` one at a time, in
   the order `order` in which a directory listing returned them.
   */
  function CopyInOrder(fs: map<Name, Node>, de: map<Name, Node>, order: seq<Name>): map<Name, Node>
    decreases |order|
  {
    if order == [] then de
    else
      var acc := CopyInOrder(fs, de, order[..|order| - 1]);
      var n := order[|order| - 1];
      if n in fs then acc[n := Merge(fs[n], Get(acc, n))] else acc
  }

  predicate Distinct(order: seq<Name>)
  {
    forall i, j :: 0 <= i < j < |order| ==> order[i] != order[j]
  }

  // ---------------------------------------------------------------------------
  // Exclusion

  /**
   A path exists in the filtered tree exactly when it exists in the tree and
   none of its segments is excluded; what is found there is the filtered node.
   */
  lemma {:induction false} FilterLookup(t: Node, p: Path)
    ensures Lookup(Filter(t), p) ==
      if Reachable(p) && Lookup(t, p).Some? then Some(Filter(Lookup(t, p).value)) else None
    decreases p
  {
    if p != [] {
      match t
      case File(_) =>
      case Dir(m) =>
        if Excluded(p[0]) {
          assert !Reachable(p) by { assert !Excluded(p[0]) == false; }
        } else {
          assert Reachable(p) <==> Reachable(p[1..]) by {
            assert forall i :: 0 < i < |p| ==> p[i] == p[1..][i - 1];
          }
          if p[0] in m {
            FilterLookup(m[p[0]], p[1..]);
          }
        }
    }
  }

  /** Filtering keeps the root's kind: a directory stays a directory. */
  lemma FilterKind(t: Node)
    ensures Filter(t).Dir? == t.Dir?
    ensures t.File? ==> Filter(t) == t
  {
  }

  // ---------------------------------------------------------------------------
  // Merge

  /** Copying onto nothing, or onto an empty directory, reproduces the source. */
  lemma {:induction false} MergeOntoNothing(s: Node)
    ensures Fits(s, None) && Merge(s, None) == s
    ensures s.Dir? ==> Fits(s, Some(Dir(map[]))) && Merge(s, Some(Dir(map[]))) == s
    decreases s
  {
    match s
    case File(_) =>
    case Dir(se) =>
      forall n | n in se ensures Fits(se[n], None) && Merge(se[n], None) == se[n] {
        MergeOntoNothing(se[n]);
      }
      assert Merge(s, None).entries == se;
  }

  /**
   What copying `s` onto `d` leaves at each relative path `p`: a file of `s`
   overwrites, a directory of `s` is a directory, and wherever `s` has nothing
   the destination is untouched.
   */
  lemma {:induction false} MergeLookup(s: Node, d: Option<Node>, p: Path)
    requires Fits(s, d)
    ensures Lookup(s, p).Some? && Lookup(s, p).value.File? ==> Lookup(Merge(s, d), p) == Lookup(s, p)
    ensures Lookup(s, p).Some? && Lookup(s, p).value.Dir? ==> IsDir(Merge(s, d), p)
    ensures Lookup(s, p).None? ==> Lookup(Merge(s, d), p) == if d.Some? then Lookup(d.value, p) else None
    decreases p
  {
    if p != [] {
      match s
      case File(_) =>
      case Dir(se) =>
        var de := EntriesOf(d);
        var n := p[0];
        if n in se {
          MergeLookup(se[n], Get(de, n), p[1..]);
          if Lookup(se[n], p[1..]).None? && Get(de, n).None? {
            MergeOntoNothing(se[n]);
          }
        }
    }
  }

  /** Copying the same source a second time changes nothing and cannot fail. */
  lemma {:induction false} MergeIdempotent(s: Node, d: Option<Node>)
    requires Fits(s, d)
    ensures Fits(s, Some(Merge(s, d)))
    ensures Merge(s, Some(Merge(s, d))) == Merge(s, d)
    decreases s
  {
    match s
    case File(_) =>
    case Dir(se) =>
      var de := EntriesOf(d);
      var m := Merge(s, d).entries;
      forall n | n in se
        ensures Fits(se[n], Get(m, n)) && Merge(se[n], Get(m, n)) == m[n]
      {
        MergeIdempotent(se[n], Get(de, n));
      }
      assert (map n | n in se.Keys + m.Keys :: if n in se then Merge(se[n], Get(m, n)) else m[n]) == m;
  }

  // ---------------------------------------------------------------------------
  // Entry by entry, in any order

  /** Copying one more entry `n` of `fs` updates exactly the destination entry `n`. */
  lemma MergedSoFarStep(fs: map<Name, Node>, de: map<Name, Node>, done: set<Name>, n: Name)
    requires n !in done
    ensures Get(MergedSoFar(fs, de, done), n) == Get(de, n)
    ensures MergedSoFar(fs, de, done + {n}) ==
      if n in fs then MergedSoFar(fs, de, done)[n := Merge(fs[n], Get(de, n))] else MergedSoFar(fs, de, done)
  {
  }

  /** Before any entry is copied the listing is the destination's own. */
  lemma MergedSoFarNone(fs: map<Name, Node>, de: map<Name, Node>)
    ensures MergedSoFar(fs, de, {}) == de
  {
  }

  /** Once every entry is done, the listing is the merged directory's listing. */
  lemma MergedSoFarDone(fs: map<Name, Node>, de: map<Name, Node>, done: set<Name>)
    requires fs.Keys <= done
    ensures Dir(MergedSoFar(fs, de, done)) == Merge(Dir(fs), Some(Dir(de)))
  {
  }

  /**
   Copying the entries one at a time, in any order a directory listing may
   return them (each name once), gives the merged directory: the result does
   not depend on the order.
   */
  lemma {:induction false} CopyInOrderMerges(fs: map<Name, Node>, de: map<Name, Node>, order: seq<Name>)
    requires Distinct(order)
    requires fs.Keys <= set n | n in order
    ensures Dir(CopyInOrder(fs, de, order)) == Merge(Dir(fs), Some(Dir(de)))
  {
    CopyInOrderSoFar(fs, de, order);
    MergedSoFarDone(fs, de, (set n | n in order));
  }

  lemma {:induction false} CopyInOrderSoFar(fs: map<Name, Node>, de: map<Name, Node>, order: seq<Name>)
    requires Distinct(order)
    ensures CopyInOrder(fs, de, order) == MergedSoFar(fs, de, set n | n in order)
    decreases |order|
  {
    if order != [] {
      var front := order[..|order| - 1];
      var n := order[|order| - 1];
      CopyInOrderSoFar(fs, de, front);
      assert (set x | x in order) == (set x | x in front) + {n} by {
        assert order == front + [n];
      }
      assert n !in (set x | x in front);
      MergedSoFarStep(fs, de, (set x | x in front), n);
    }
  }

  // ---------------------------------------------------------------------------
  // copyDirectory on the whole tree

  /** A successful copy, unfolded in terms of the tree before it. */
  lemma CopyTreeUnfold(t: Node, src: Path, dest: Path)
    requires Disjoint(src, dest)
    requires CopyTree(t, src, dest).Some?
    ensures MkdirAll(t, dest).Some? && IsDir(t, src)
    ensures var t1 := MkdirAll(t, dest).value;
      && Lookup(t1, src) == Lookup(t, src)
      && Lookup(t1, dest) == (if Lookup(t, dest).Some? then Lookup(t, dest) else Some(Dir(map[])))
      && Fits(Filter(Lookup(t, src).value), Lookup(t1, dest))
      && CopyTree(t, src, dest).value == Graft(t1, dest, Merge(Filter(Lookup(t, src).value), Lookup(t1, dest)))
  {
    MkdirAllGraft(t, dest);
    MkdirAllPreserves(t, dest, src);
  }

  /**
   Content preservation and overwrite: every file reachable in the source
   through non-excluded names is at the same relative path in the destination
   with the same contents, and every such directory is a directory there;
   the destination root exists even when the source is empty.
   */
  lemma CopyTreeCopies(t: Node, src: Path, dest: Path, p: Path)
    requires Disjoint(src, dest)
    requires CopyTree(t, src, dest).Some?
    requires Reachable(p) && Lookup(t, src + p).Some?
    ensures Lookup(t, src + p).value.File? ==> Lookup(CopyTree(t, src, dest).value, dest + p) == Lookup(t, src + p)
    ensures Lookup(t, src + p).value.Dir? ==> IsDir(CopyTree(t, src, dest).value, dest + p)
    ensures IsDir(CopyTree(t, src, dest).value, dest)
  {
    CopyTreeUnfold(t, src, dest);
    var t1 := MkdirAll(t, dest).value;
    var sn := Lookup(t, src).value;
    var s := Filter(sn);
    var m := Merge(s, Lookup(t1, dest));
    LookupAppend(t, src, p);
    FilterLookup(sn, p);
    MergeLookup(s, Lookup(t1, dest), p);
    LookupGraftBelow(t1, dest, m, p);
    LookupGraft(t1, dest, m);
  }

  /**
   Exclusion and "nothing else changes": at every relative path that the
   filtered source does not have, in particular under any `node_modules` or
   `.git`, the destination after the copy is what it was before.
   */
  lemma CopyTreeKeepsRest(t: Node, src: Path, dest: Path, p: Path)
    requires Disjoint(src, dest)
    requires CopyTree(t, src, dest).Some?
    requires !Reachable(p) || Lookup(t, src + p).None?
    ensures Lookup(CopyTree(t, src, dest).value, dest + p) == Lookup(t, dest + p)
  {
    CopyTreeUnfold(t, src, dest);
    var t1 := MkdirAll(t, dest).value;
    var sn := Lookup(t, src).value;
    var s := Filter(sn);
    var m := Merge(s, Lookup(t1, dest));
    LookupAppend(t, src, p);
    FilterLookup(sn, p);
    MergeLookup(s, Lookup(t1, dest), p);
    LookupGraftBelow(t1, dest, m, p);
    LookupAppend(t, dest, p);
  }

  /** Nothing outside the destination changes, except that missing parents of it are created. */
  lemma CopyTreeFrame(t: Node, src: Path, dest: Path, q: Path)
    requires Disjoint(src, dest)
    requires CopyTree(t, src, dest).Some?
    requires Disjoint(q, dest)
    ensures Lookup(CopyTree(t, src, dest).value, q) == Lookup(t, q)
  {
    CopyTreeUnfold(t, src, dest);
    var t1 := MkdirAll(t, dest).value;
    var m := Merge(Filter(Lookup(t, src).value), Lookup(t1, dest));
    LookupGraftDisjoint(t1, dest, m, q);
    MkdirAllPreserves(t, dest, q);
  }

  /** Copying twice gives the same tree as copying once. */
  lemma CopyTreeIdempotent(t: Node, src: Path, dest: Path)
    requires Disjoint(src, dest)
    requires CopyTree(t, src, dest).Some?
    ensures CopyTree(CopyTree(t, src, dest).value, src, dest) == CopyTree(t, src, dest)
  {
    CopyTreeUnfold(t, src, dest);
    var t1 := MkdirAll(t, dest).value;
    var s := Filter(Lookup(t, src).value);
    var d := Lookup(t1, dest);
    var m := Merge(s, d);
    var t2 := Graft(t1, dest, m);
    assert m.Dir?;
    LookupGraft(t1, dest, m);
    MkdirAllExisting(t2, dest);
    LookupGraftDisjoint(t1, dest, m, src);
    MergeIdempotent(s, d);
    GraftGraft(t1, dest, m, m);
  }

  /** Filtering a filtered tree changes nothing. */
  lemma {:induction false} FilterIdempotent(t: Node)
    ensures Filter(Filter(t)) == Filter(t)
    decreases t
  {
    match t
    case File(_) =>
    case Dir(m) =>
      forall n | n in m && !Excluded(n) ensures Filter(Filter(m[n])) == Filter(m[n]) {
        FilterIdempotent(m[n]);
      }
  }

  // ---------------------------------------------------------------------------
  // One entry of the copy loop

  /**
   One entry `n` of the source listing, copied while the destination listing
   is `cur`, which still agrees with the listing `de` before the loop at `n`:
   the source side is where it was.
   */
  lemma EntryStepSource(t1: Node, src: Path, dest: Path, cur: map<Name, Node>, n: Name)
    requires Disjoint(src, dest)
    requires IsDir(t1, src) && n in Lookup(t1, src).value.entries
    ensures Lookup(Graft(t1, dest, Dir(cur)), src) == Lookup(t1, src)
    ensures Lookup(Graft(t1, dest, Dir(cur)), src + [n]) == Some(Lookup(t1, src).value.entries[n])
  {
    DisjointExtend(src, dest, n, n);
    LookupGraftDisjoint(t1, dest, Dir(cur), src);
    LookupGraftDisjoint(t1, dest, Dir(cur), src + [n]);
    LookupChild(t1, src);
  }

  /**
   A subdirectory entry `n` copies as the recursive copy does: it succeeds
   exactly when the filtered subdirectory fits onto what the destination had
   at `n`, and then changes the destination entry `n` only.
   */
  lemma EntryStepDir(t1: Node, src: Path, dest: Path, de: map<Name, Node>, cur: map<Name, Node>, n: Name, sn: Node)
    requires Disjoint(src, dest)
    requires Lookup(t1, src + [n]) == Some(sn) && sn.Dir?
    requires Lookup(t1, dest) == Some(Dir(de))
    requires Get(cur, n) == Get(de, n)
    ensures CopyTree(Graft(t1, dest, Dir(cur)), src + [n], dest + [n]) ==
      if Fits(Filter(sn), Get(de, n))
      then Some(Graft(t1, dest, Dir(cur[n := Merge(Filter(sn), Get(de, n))])))
      else None
  {
    var root := Graft(t1, dest, Dir(cur));
    LookupGraft(t1, dest, Dir(cur));
    MkdirAllChild(root, dest, n);
    FilterKind(sn);
    if !(n in cur && cur[n].File?) {
      EntryStepOpen(t1, src, dest, cur, n, sn, if n in cur then cur[n] else Dir(map[]));
    }
  }

  lemma EntryStepOpen(t1: Node, src: Path, dest: Path, cur: map<Name, Node>, n: Name, sn: Node, c: Node)
    requires Disjoint(src, dest)
    requires Lookup(t1, src + [n]) == Some(sn) && sn.Dir?
    requires MkdirAll(Graft(t1, dest, Dir(cur)), dest + [n]) == Some(Graft(Graft(t1, dest, Dir(cur)), dest + [n], c))
    ensures CopyTree(Graft(t1, dest, Dir(cur)), src + [n], dest + [n]) ==
      if Fits(Filter(sn), Some(c))
      then Some(Graft(t1, dest, Dir(cur[n := Merge(Filter(sn), Some(c))])))
      else None
  {
    var root := Graft(t1, dest, Dir(cur));
    var t2 := Graft(root, dest + [n], c);
    GraftChild(t1, dest, cur, n, c);
    DisjointExtend(src, dest, n, n);
    LookupGraftDisjoint(t1, dest, Dir(cur[n := c]), src + [n]);
    LookupGraftBelow(t1, dest, Dir(cur[n := c]), [n]);
    CopyTreeOnto(root, src + [n], dest + [n], t2, sn, c);
    var mg := Merge(Filter(sn), Some(c));
    GraftChild(t1, dest, cur[n := c], n, mg);
    assert cur[n := c][n := mg] == cur[n := mg];
  }

  /** `CopyTree` unfolded once the directory is made, the source found and the destination known. */
  lemma CopyTreeOnto(t: Node, src: Path, dest: Path, t1: Node, sn: Node, d: Node)
    requires MkdirAll(t, dest) == Some(t1)
    requires Lookup(t1, src) == Some(sn) && sn.Dir?
    requires Lookup(t1, dest) == Some(d)
    ensures CopyTree(t, src, dest) ==
      if Fits(Filter(sn), Some(d)) then Some(Graft(t1, dest, Merge(Filter(sn), Some(d)))) else None
  {
  }

  /**
   A file entry `n` copies with one `copyFile`, which succeeds exactly when
   the destination has no directory at `n`, and then changes the destination
   entry `n` only.
   */
  lemma EntryStepFile(t1: Node, dest: Path, de: map<Name, Node>, cur: map<Name, Node>, n: Name, sn: Node)
    requires sn.File?
    requires Lookup(t1, dest) == Some(Dir(de))
    requires Get(cur, n) == Get(de, n)
    ensures CanWriteFile(Graft(t1, dest, Dir(cur)), dest + [n]) <==> Fits(sn, Get(de, n))
    ensures Graft(Graft(t1, dest, Dir(cur)), dest + [n], sn) == Graft(t1, dest, Dir(cur[n := sn]))
  {
    var root := Graft(t1, dest, Dir(cur));
    LookupGraft(t1, dest, Dir(cur));
    LookupChild(root, dest);
    assert (dest + [n])[..|dest + [n]| - 1] == dest;
    GraftChild(t1, dest, cur, n, sn);
  }

  /**
   Once `mkdir -p dest` has run and both listings are known, the copy succeeds
   exactly when every entry kept by the filter fits onto the destination's
   entry of the same name.
   */
  lemma CopyTreeEntries(t: Node, src: Path, dest: Path, t1: Node, se: map<Name, Node>, de: map<Name, Node>)
    requires MkdirAll(t, dest) == Some(t1)
    requires Lookup(t1, src) == Some(Dir(se)) && Lookup(t1, dest) == Some(Dir(de))
    ensures CopyTree(t, src, dest).Some? <==>
      forall n :: n in Filter(Dir(se)).entries ==> Fits(Filter(Dir(se)).entries[n], Get(de, n))
    ensures CopyTree(t, src, dest).Some? ==>
      CopyTree(t, src, dest).value == Graft(t1, dest, Merge(Filter(Dir(se)), Some(Dir(de))))
  {
  }

  /**
   The copy loop's step for a subdirectory entry `n`, with the entries in
   `done` already copied: the recursive copy succeeds exactly when the entry
   fits, and then the destination listing is the one with `n` done too.
   */
  lemma CopyDirEntry(t1: Node, src: Path, dest: Path, se: map<Name, Node>, de: map<Name, Node>, done: set<Name>, n: Name)
    requires Disjoint(src, dest)
    requires Lookup(t1, src) == Some(Dir(se)) && Lookup(t1, dest) == Some(Dir(de))
    requires n in se && !Excluded(n) && se[n].Dir? && n !in done
    ensures var fs := Filter(Dir(se)).entries;
      var step := CopyTree(Graft(t1, dest, Dir(MergedSoFar(fs, de, done))), src + [n], dest + [n]);
      && n in fs
      && (step.Some? <==> Fits(fs[n], Get(de, n)))
      && (step.Some? ==> step.value == Graft(t1, dest, Dir(MergedSoFar(fs, de, done + {n}))))
  {
    var fs := Filter(Dir(se)).entries;
    var cur := MergedSoFar(fs, de, done);
    MergedSoFarStep(fs, de, done, n);
    LookupChild(t1, src);
    EntryStepDir(t1, src, dest, de, cur, n, se[n]);
  }

  /**
   The copy loop's step for a file entry `n`: the `copyFile` succeeds exactly
   when the entry fits, and then the destination listing is the one with `n`
   done too.
   */
  lemma CopyFileEntry(t1: Node, src: Path, dest: Path, se: map<Name, Node>, de: map<Name, Node>, done: set<Name>, n: Name)
    requires Disjoint(src, dest)
    requires Lookup(t1, src) == Some(Dir(se)) && Lookup(t1, dest) == Some(Dir(de))
    requires n in se && !Excluded(n) && se[n].File? && n !in done
    ensures var fs := Filter(Dir(se)).entries;
      var root := Graft(t1, dest, Dir(MergedSoFar(fs, de, done)));
      && n in fs
      && Lookup(root, src + [n]) == Some(se[n])
      && (CanCopyFile(root, src + [n], dest + [n]) <==> Fits(fs[n], Get(de, n)))
      && Graft(root, dest + [n], se[n]) == Graft(t1, dest, Dir(MergedSoFar(fs, de, done + {n})))
  {
    var fs := Filter(Dir(se)).entries;
    var cur := MergedSoFar(fs, de, done);
    MergedSoFarStep(fs, de, done, n);
    EntryStepSource(t1, src, dest, cur, n);
    EntryStepFile(t1, dest, de, cur, n, se[n]);
  }
}
