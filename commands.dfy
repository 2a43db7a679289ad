/**
 The commands of cli.js that change the disk: `copyDirectory`, `saveProject`,
 `checkoutProject`, `init` and `convertJsonToReadme`, and `main` running them.
 The disk is one tree held by a `FileSystem` object; each filesystem call the
 tool makes is a method that updates that tree as the matching function of
 `FileTree` says.
 */
module Commands {
  import opened Wrappers
  import opened FileTree
  import opened Sync
  import Readme
  import opened Cli

  /** The store's directory name under the home directory. */
  const STORE_DIR: Name := ".offlinepm"
  const MANIFEST_FILE: Name := "package.offlinepm.json"
  const README_FILE: Name := "README.md"

  /** `path.basename`: the last name of the path, empty for the root. */
  function Basename(p: Path): Name
  {
    if p == [] then "" else p[|p| - 1]
  }

  /** Where `saveProject` archives the directory `cwd`. */
  function ArchiveOf(store: Path, cwd: Path): Path
  {
    store + [Basename(cwd)]
  }

  // ---------------------------------------------------------------------------
  // saveProject

  /**
   The whole effect of `saveProject` run in `cwd`: `mkdir -p` the store,
   `rm -rf` the old archive, then copy `cwd` into the archive.
   */
  function Saved(t: Node, store: Path, cwd: Path): Option<Node>
  {
    match MkdirAll(t, store)
    case None => None
    case Some(t1) => CopyTree(Prune(t1, ArchiveOf(store, cwd)), cwd, ArchiveOf(store, cwd))
  }

  /**
   Save replaces: after a successful save the archive is exactly the project
   directory without its `node_modules` and `.git` entries, whatever the
   archive held before; the store is a directory afterwards.
   */
  lemma SaveReplaces(t: Node, store: Path, cwd: Path)
    requires Disjoint(cwd, ArchiveOf(store, cwd))
    requires Saved(t, store, cwd).Some?
    ensures IsDir(t, cwd)
    ensures Lookup(Saved(t, store, cwd).value, ArchiveOf(store, cwd)) == Some(Filter(Lookup(t, cwd).value))
    ensures IsDir(Saved(t, store, cwd).value, store)
  {
    var target := ArchiveOf(store, cwd);
    var t1 := MkdirAll(t, store).value;
    var t2 := Prune(t1, target);
    PrefixGrow(cwd, store, Basename(cwd));
    MkdirAllPreserves(t, store, cwd);
    LookupPruneDisjoint(t1, target, cwd);
    LookupPrune(t1, target);
    CopyTreeUnfold(t2, cwd, target);
    var t3 := MkdirAll(t2, target).value;
    var s := Filter(Lookup(t2, cwd).value);
    LookupGraft(t3, target, Merge(s, Lookup(t3, target)));
    MergeOntoNothing(s);
    LookupParent(Saved(t, store, cwd).value, store, Basename(cwd));
  }

  /**
   A save changes nothing outside the archive, apart from creating the store
   and its parents when they are missing: the project itself and the other
   archives are left as they were.
   */
  lemma SaveFrame(t: Node, store: Path, cwd: Path, q: Path)
    requires Disjoint(cwd, ArchiveOf(store, cwd))
    requires Saved(t, store, cwd).Some?
    requires Disjoint(q, ArchiveOf(store, cwd))
    ensures Lookup(Saved(t, store, cwd).value, q) == Lookup(t, q)
  {
    var target := ArchiveOf(store, cwd);
    var t1 := MkdirAll(t, store).value;
    var t2 := Prune(t1, target);
    PrefixGrow(cwd, store, Basename(cwd));
    PrefixGrow(q, store, Basename(cwd));
    MkdirAllPreserves(t, store, cwd);
    MkdirAllPreserves(t, store, q);
    LookupPruneDisjoint(t1, target, cwd);
    LookupPruneDisjoint(t1, target, q);
    CopyTreeFrame(t2, cwd, target, q);
  }

  // ---------------------------------------------------------------------------
  // checkoutProject

  /** How `checkoutProject` ends. */
  datatype CheckoutOutcome =
    | MissingName
    | NotFound(available: Option<set<Name>>)
    | CopyFailed
    | CheckedOut

  /** JavaScript's truth of the project-name argument: given and not empty. */
  predicate Present(name: Option<string>)
  {
    name.Some? && name.value != ""
  }

  /** The names `readdir` lists in the directory `p`, `None` when it cannot be read. */
  function Listing(t: Node, p: Path): (r: Option<set<Name>>)
    ensures r.Some? <==> IsDir(t, p)
    ensures r.Some? ==> r.value == Lookup(t, p).value.entries.Keys
  {
    match ReadDir(t, p)
    case None => None
    case Some(m) => Some(m.Keys)
  }

  /**
   How `checkoutProject(name)` run in `cwd` ends: no name, no archive of that
   name (with the archives there are, for the message), a failed copy, or the
   archive merged into `cwd/name`.
   */
  function CheckoutResult(t: Node, store: Path, cwd: Path, name: Option<string>): CheckoutOutcome
  {
    if !Present(name) then MissingName
    else if Lookup(t, store + [name.value]).None? then NotFound(Listing(t, store))
    else if CopyTree(t, store + [name.value], cwd + [name.value]).Some? then CheckedOut
    else CopyFailed
  }

  /**
   The checkout guard: without a name, or without an archive of that name,
   nothing is copied; a name and an existing archive always lead to the copy.
   */
  lemma CheckoutGuard(t: Node, store: Path, cwd: Path, name: Option<string>)
    ensures CheckoutResult(t, store, cwd, name).MissingName? <==> name.None? || name.value == ""
    ensures CheckoutResult(t, store, cwd, name).NotFound? <==>
      Present(name) && Lookup(t, store + [name.value]).None?
    ensures CheckoutResult(t, store, cwd, name).NotFound? ==>
      CheckoutResult(t, store, cwd, name).available.Some? == IsDir(t, store)
    ensures CheckoutResult(t, store, cwd, name) in {CheckedOut, CopyFailed} ==>
      Present(name) && Lookup(t, store + [name.value]).Some?
  {
  }

  /**
   Checkout merges: into a project directory that did not exist, it puts the
   archive (less any `node_modules` or `.git`); into an existing one, every
   entry the archive lacks stays as it was.
   */
  lemma CheckoutMerges(t: Node, store: Path, cwd: Path, name: string, p: Path)
    requires Disjoint(store + [name], cwd + [name])
    requires CheckoutResult(t, store, cwd, Some(name)) == CheckedOut
    ensures var r := CopyTree(t, store + [name], cwd + [name]).value;
      && (Lookup(t, cwd + [name]).None? ==>
            Lookup(r, cwd + [name]) == Some(Filter(Lookup(t, store + [name]).value)))
      && (Lookup(t, store + [name] + p).None? ==> Lookup(r, cwd + [name] + p) == Lookup(t, cwd + [name] + p))
  {
    var src, dest := store + [name], cwd + [name];
    if Lookup(t, src + p).None? {
      CopyTreeKeepsRest(t, src, dest, p);
    }
    if Lookup(t, dest).None? {
      CopyTreeUnfold(t, src, dest);
      var t1 := MkdirAll(t, dest).value;
      var s := Filter(Lookup(t, src).value);
      LookupGraft(t1, dest, Merge(s, Lookup(t1, dest)));
      MergeOntoNothing(s);
    }
  }

  /**
   Save, then check out: checking the archive of `cwd` out into another
   directory `other` that has no entry of that name yet reproduces the project
   there, less its `node_modules` and `.git`.
   */
  lemma SaveThenCheckout(t: Node, store: Path, cwd: Path, other: Path)
    requires Disjoint(cwd, ArchiveOf(store, cwd)) && Basename(cwd) != ""
    requires Saved(t, store, cwd).Some?
    requires Disjoint(ArchiveOf(store, cwd), other + [Basename(cwd)])
    requires IsDir(Saved(t, store, cwd).value, other)
    requires Lookup(Saved(t, store, cwd).value, other + [Basename(cwd)]).None?
    ensures var r := Saved(t, store, cwd).value;
      && CheckoutResult(r, store, other, Some(Basename(cwd))) == CheckedOut
      && Lookup(CopyTree(r, ArchiveOf(store, cwd), other + [Basename(cwd)]).value, other + [Basename(cwd)])
         == (if Lookup(t, cwd).Some? then Some(Filter(Lookup(t, cwd).value)) else None)
  {
    var r := Saved(t, store, cwd).value;
    var n := Basename(cwd);
    var src, dest := ArchiveOf(store, cwd), other + [n];
    SaveReplaces(t, store, cwd);
    var archive := Filter(Lookup(t, cwd).value);
    FilterKind(Lookup(t, cwd).value);
    LookupChild(r, other);
    MkdirAllChild(r, other, n);
    var t1 := Graft(r, dest, Dir(map[]));
    LookupGraftDisjoint(r, dest, Dir(map[]), src);
    LookupGraft(r, dest, Dir(map[]));
    MergeOntoNothing(archive);
    FilterIdempotent(Lookup(t, cwd).value);
    assert CopyTree(r, src, dest) == Some(Graft(t1, dest, archive));
    LookupGraft(t1, dest, archive);
  }

  // ---------------------------------------------------------------------------
  // init

  /** Write `text` at `p` unless something is already there, as `init` does for each file. */
  function WriteIfAbsent(t: Node, p: Path, text: string): Option<Node>
  {
    if Lookup(t, p).Some? then Some(t)
    else if CanWriteFile(t, p) then Some(Graft(t, p, File(text)))
    else None
  }

  /** The whole effect of `init` in `cwd`: the manifest, then the README, each only if absent. */
  function Scaffolded(t: Node, cwd: Path, manifestText: string, readmeText: string): Option<Node>
  {
    match WriteIfAbsent(t, cwd + [MANIFEST_FILE], manifestText)
    case None => None
    case Some(t1) => WriteIfAbsent(t1, cwd + [README_FILE], readmeText)
  }

  /**
   A write-if-absent never overwrites: every file that existed is unchanged,
   and the target holds the new text exactly when nothing stood there.
   */
  lemma WriteIfAbsentKeeps(t: Node, p: Path, text: string, q: Path)
    requires WriteIfAbsent(t, p, text).Some?
    ensures Lookup(t, q).Some? && Lookup(t, q).value.File? ==>
      Lookup(WriteIfAbsent(t, p, text).value, q) == Lookup(t, q)
    ensures Lookup(WriteIfAbsent(t, p, text).value, p) ==
      if Lookup(t, p).Some? then Lookup(t, p) else Some(File(text))
    ensures Disjoint(q, p) ==> Lookup(WriteIfAbsent(t, p, text).value, q) == Lookup(t, q)
  {
    if Lookup(t, p).None? {
      LookupGraft(t, p, File(text));
      if Disjoint(q, p) {
        LookupGraftDisjoint(t, p, File(text), q);
      }
      if Lookup(t, q).Some? && Lookup(t, q).value.File? {
        GraftAbsentKeepsFiles(t, p, File(text), q);
      }
    }
  }

  /**
   `init` never overwrites an existing file, and after it both the manifest
   and the README exist: the old one where there was one, the scaffold text
   where there was none.
   */
  lemma InitNeverOverwrites(t: Node, cwd: Path, manifestText: string, readmeText: string, q: Path)
    requires Scaffolded(t, cwd, manifestText, readmeText).Some?
    ensures var r := Scaffolded(t, cwd, manifestText, readmeText).value;
      && (Lookup(t, q).Some? && Lookup(t, q).value.File? ==> Lookup(r, q) == Lookup(t, q))
      && Lookup(r, cwd + [MANIFEST_FILE]) ==
           (if Lookup(t, cwd + [MANIFEST_FILE]).Some? then Lookup(t, cwd + [MANIFEST_FILE]) else Some(File(manifestText)))
      && Lookup(r, cwd + [README_FILE]) ==
           (if Lookup(t, cwd + [README_FILE]).Some? then Lookup(t, cwd + [README_FILE]) else Some(File(readmeText)))
  {
    var mp, rp := cwd + [MANIFEST_FILE], cwd + [README_FILE];
    SiblingsDisjoint(cwd, MANIFEST_FILE, README_FILE);
    SiblingsDisjoint(cwd, README_FILE, MANIFEST_FILE);
    var t1 := WriteIfAbsent(t, mp, manifestText).value;
    WriteIfAbsentKeeps(t, mp, manifestText, q);
    WriteIfAbsentKeeps(t, mp, manifestText, rp);
    WriteIfAbsentKeeps(t1, rp, readmeText, q);
    WriteIfAbsentKeeps(t1, rp, readmeText, mp);
  }

  // ---------------------------------------------------------------------------
  // convertJsonToReadme

  /**
   The whole effect of `convertJsonToReadme` in `cwd`: read the manifest,
   parse it with `parse` (standing for `JSON.parse`), and write the rendered
   README.
   */
  function Converted(t: Node, cwd: Path, parse: string -> Option<Readme.Manifest>): Option<Node>
  {
    match Lookup(t, cwd + [MANIFEST_FILE])
    case Some(File(text)) =>
      (match parse(text)
       case Some(m) =>
         if CanWriteFile(t, cwd + [README_FILE])
         then Some(Graft(t, cwd + [README_FILE], File(Readme.Render(m))))
         else None
       case None => None)
    case _ => None
  }

  /**
   A successful conversion leaves the rendering of the parsed manifest in
   README.md and changes nothing else on the disk except that file.
   */
  lemma ConvertWritesRender(t: Node, cwd: Path, parse: string -> Option<Readme.Manifest>, q: Path)
    requires Converted(t, cwd, parse).Some?
    ensures Lookup(t, cwd + [MANIFEST_FILE]).Some? && Lookup(t, cwd + [MANIFEST_FILE]).value.File?
    ensures parse(Lookup(t, cwd + [MANIFEST_FILE]).value.content).Some?
    ensures Lookup(Converted(t, cwd, parse).value, cwd + [README_FILE]) ==
      Some(File(Readme.Render(parse(Lookup(t, cwd + [MANIFEST_FILE]).value.content).value)))
    ensures Disjoint(q, cwd + [README_FILE]) ==> Lookup(Converted(t, cwd, parse).value, q) == Lookup(t, q)
  {
    var text := Lookup(t, cwd + [MANIFEST_FILE]).value.content;
    var m := parse(text).value;
    LookupGraft(t, cwd + [README_FILE], File(Readme.Render(m)));
    if Disjoint(q, cwd + [README_FILE]) {
      LookupGraftDisjoint(t, cwd + [README_FILE], File(Readme.Render(m)), q);
    }
  }

  // ---------------------------------------------------------------------------
  // main

  /**
   The exit status `main` ends with on the disk `t`: an unknown verb fails,
   printing commands succeed, and every other command succeeds exactly when
   its whole effect does.
   */
  function ExitStatus(t: Node, store: Path, cwd: Path, args: seq<string>, parse: string -> Option<Readme.Manifest>,
                      manifestText: string, readmeText: string): int
  {
    match Dispatch(args)
    case UnknownCommand(_) => 1
    case Run(command) =>
      match command
      case Init => if Scaffolded(t, cwd, manifestText, readmeText).Some? then 0 else 1
      case Save => if Saved(t, store, cwd).Some? then 0 else 1
      case Read => if Converted(t, cwd, parse).Some? then 0 else 1
      case Checkout(name) => if CheckoutResult(t, store, cwd, name) == CheckedOut then 0 else 1
      case List => 0
      case Help => 0
      case Version => 0
  }

  /**
   The exit status is 0 or 1; it is 1 for every first argument that is not a
   known verb, and 0 with no arguments at all (the help).
   */
  lemma ExitStatusByVerb(t: Node, store: Path, cwd: Path, args: seq<string>, parse: string -> Option<Readme.Manifest>,
                         manifestText: string, readmeText: string)
    ensures var status := ExitStatus(t, store, cwd, args, parse, manifestText, readmeText);
      && (status == 0 || status == 1)
      && (args != [] && args[0] !in Verbs ==> status == 1)
      && (args == [] ==> status == 0)
      && (args != [] && args[0] in {"-c", "--checkout"} && |args| == 1 ==> status == 1)
  {
    if args != [] {
      DispatchMatchesTable(args);
    }
  }

  // ---------------------------------------------------------------------------
  // The disk and the calls the tool makes on it

  class FileSystem {
    /** The whole disk, from the filesystem root. */
    var root: Node
    /** `~/.offlinepm`. */
    const store: Path

    constructor (disk: Node, home: Path)
      ensures root == disk && store == home + [STORE_DIR]
    {
      root := disk;
      store := home + [STORE_DIR];
    }

    /** `fs.mkdir(p, { recursive: true })`. */
    method Mkdir(p: Path) returns (ok: bool)
      modifies this
      ensures ok == MkdirAll(old(root), p).Some?
      ensures root == if ok then MkdirAll(old(root), p).value else old(root)
    {
      match MkdirAll(root, p)
      case Some(t) =>
        root := t;
        ok := true;
      case None =>
        ok := false;
    }

    /** `fs.rm(p, { recursive: true, force: true })`, its failures ignored as `saveProject` does. */
    method Remove(p: Path)
      requires p != []
      modifies this
      ensures root == Prune(old(root), p)
    {
      root := Prune(root, p);
    }

    /** `fs.access(p)`: whether anything exists at `p`. */
    method Access(p: Path) returns (found: bool)
      ensures found <==> Lookup(root, p).Some?
    {
      found := Lookup(root, p).Some?;
    }

    /** `fs.readdir(p, { withFileTypes: true })`: each name with whether it is a directory. */
    method ReadDirectory(p: Path) returns (listing: Option<map<Name, bool>>)
      ensures listing == ReadDir(root, p)
    {
      listing := ReadDir(root, p);
    }

    /** `fs.readFile(p, 'utf-8')`: the text of the file at `p`, `None` when there is no file. */
    method ReadFile(p: Path) returns (text: Option<string>)
      ensures text.Some? <==> Lookup(root, p).Some? && Lookup(root, p).value.File?
      ensures text.Some? ==> text.value == Lookup(root, p).value.content
    {
      match Lookup(root, p)
      case Some(File(c)) => text := Some(c);
      case _ => text := None;
    }

    /** `fs.copyFile(from, to)`. */
    method CopyFile(from: Path, to: Path) returns (ok: bool)
      modifies this
      ensures ok == CanCopyFile(old(root), from, to)
      ensures root == if ok then Graft(old(root), to, Lookup(old(root), from).value) else old(root)
    {
      ok := CanCopyFile(root, from, to);
      if ok {
        root := Graft(root, to, Lookup(root, from).value);
      }
    }

    /** `fs.writeFile(to, text)`. */
    method WriteFile(to: Path, text: string) returns (ok: bool)
      modifies this
      ensures ok == CanWriteFile(old(root), to)
      ensures root == if ok then Graft(old(root), to, File(text)) else old(root)
    {
      ok := CanWriteFile(root, to);
      if ok {
        root := Graft(root, to, File(text));
      }
    }

    /**
     `copyDirectory(src, dest)`: make `dest`, list `src`, and copy each entry
     in the order the listing gives, skipping `node_modules` and `.git`,
     recursing into directories. It succeeds exactly when `CopyTree` does and
     then leaves its result, whatever the order; failed or not, nothing
     outside `dest` changes except the directories made on the way to it.
     */
    method CopyDirectory(src: Path, dest: Path) returns (ok: bool)
      requires Disjoint(src, dest)
      modifies this
      ensures ok <==> CopyTree(old(root), src, dest).Some?
      ensures ok ==> root == CopyTree(old(root), src, dest).value
      ensures SameOutside(root, old(root), dest)
      decreases NodeAt(root, src)
    {
      ghost var t0 := root;
      ok := Mkdir(dest);
      if !ok {
        return;
      }
      ghost var t1 := root;
      MkdirAllGraft(t0, dest);
      MkdirAllPreserves(t0, dest, src);
      GraftedFrame(t0, dest, Dir(map[]));
      var listing := ReadDirectory(src);
      if listing.None? {
        ok := false;
        return;
      }
      ghost var se := Lookup(t1, src).value.entries;
      ghost var fs := Filter(Dir(se)).entries;
      ghost var de := Lookup(t1, dest).value.entries;
      GraftSelf(t1, dest);
      LookupChild(t1, src);
      MergedSoFarNone(fs, de);
      assert root == Graft(t1, dest, Dir(MergedSoFar(fs, de, {})));
      var remaining := listing.value.Keys;
      assert se.Keys - remaining == {};
      while remaining != {}
        invariant remaining <= se.Keys
        invariant root == Graft(t1, dest, Dir(MergedSoFar(fs, de, se.Keys - remaining)))
        invariant forall n :: n in fs && n !in remaining ==> Fits(fs[n], Get(de, n))
        decreases remaining
      {
        var name :| name in remaining;
        ghost var done := se.Keys - remaining;
        remaining := remaining - {name};
        assert se.Keys - remaining == done + {name};
        if Excluded(name) {
          assert name !in fs;
          MergedSoFarStep(fs, de, done, name);
          continue;
        }
        if listing.value[name] {
          CopyDirEntry(t1, src, dest, se, de, done, name);
          EntryStepSource(t1, src, dest, MergedSoFar(fs, de, done), name);
          DisjointExtend(src, dest, name, name);
          ok := CopyDirectory(src + [name], dest + [name]);
        } else {
          CopyFileEntry(t1, src, dest, se, de, done, name);
          ok := CopyFile(src + [name], dest + [name]);
        }
        if !ok {
          CopyTreeEntries(t0, src, dest, t1, se, de);
          CopyDirectoryFailed(t0, t1, dest, MergedSoFar(fs, de, done), root, name);
          return;
        }
      }
      assert se.Keys - remaining == se.Keys;
      MergedSoFarDone(fs, de, se.Keys);
      CopyTreeEntries(t0, src, dest, t1, se, de);
      GraftedFrame(t0, dest, Dir(MergedSoFar(fs, de, se.Keys)));
    }

    /**
     `saveProject` run in `cwd`: make the store, remove the old archive of
     this project, copy the project into it. Nothing outside the archive
     changes except the store made on the way.
     */
    method SaveProject(cwd: Path) returns (ok: bool)
      requires Disjoint(cwd, ArchiveOf(store, cwd))
      modifies this
      ensures ok <==> Saved(old(root), store, cwd).Some?
      ensures ok ==> root == Saved(old(root), store, cwd).value
      ensures SameOutside(root, old(root), ArchiveOf(store, cwd))
    {
      var target := ArchiveOf(store, cwd);
      ghost var t0 := root;
      ok := Mkdir(store);
      if !ok {
        return;
      }
      ghost var t1 := root;
      Remove(target);
      PrefixGrow(cwd, store, Basename(cwd));
      MkdirAllPreserves(t0, store, cwd);
      LookupPruneDisjoint(t1, target, cwd);
      ok := CopyDirectory(cwd, target);
      SaveFrameAnyway(t0, store, target, t1, root);
    }

    /**
     `checkoutProject(projectName)` run in `cwd`: refuse a missing name,
     report a missing archive with the archives there are, otherwise merge
     the archive into `cwd/projectName`. Only the copy changes the disk.
     */
    method CheckoutProject(cwd: Path, projectName: Option<string>) returns (outcome: CheckoutOutcome)
      requires Present(projectName) ==> Disjoint(store + [projectName.value], cwd + [projectName.value])
      modifies this
      ensures outcome == CheckoutResult(old(root), store, cwd, projectName)
      ensures outcome == CheckedOut ==>
        root == CopyTree(old(root), store + [projectName.value], cwd + [projectName.value]).value
      ensures outcome.MissingName? || outcome.NotFound? ==> root == old(root)
      ensures Present(projectName) ==> SameOutside(root, old(root), cwd + [projectName.value])
    {
      if projectName.None? || projectName.value == "" {
        return MissingName;
      }
      var name := projectName.value;
      var source := store + [name];
      var target := cwd + [name];
      var found := Access(source);
      if !found {
        var listing := ReadDirectory(store);
        var available := if listing.Some? then Some(listing.value.Keys) else None;
        return NotFound(available);
      }
      var ok := CopyDirectory(source, target);
      outcome := if ok then CheckedOut else CopyFailed;
    }

    /**
     `init` run in `cwd`: write the manifest and then the README, each only
     when nothing is at its path. The scaffold texts are parameters. No file
     that existed is ever changed, whether `init` succeeds or fails.
     */
    method Init(cwd: Path, manifestText: string, readmeText: string) returns (ok: bool)
      modifies this
      ensures ok <==> Scaffolded(old(root), cwd, manifestText, readmeText).Some?
      ensures ok ==> root == Scaffolded(old(root), cwd, manifestText, readmeText).value
      ensures forall q :: Lookup(old(root), q).Some? && Lookup(old(root), q).value.File? ==>
        Lookup(root, q) == Lookup(old(root), q)
    {
      ok := WriteUnlessPresent(cwd + [MANIFEST_FILE], manifestText);
      if !ok {
        return;
      }
      ok := WriteUnlessPresent(cwd + [README_FILE], readmeText);
    }

    /** One half of `init`: `access`, and `writeFile` only when `access` fails. */
    method WriteUnlessPresent(p: Path, text: string) returns (ok: bool)
      modifies this
      ensures ok <==> WriteIfAbsent(old(root), p, text).Some?
      ensures root == if ok then WriteIfAbsent(old(root), p, text).value else old(root)
      ensures forall q :: Lookup(old(root), q).Some? && Lookup(old(root), q).value.File? ==>
        Lookup(root, q) == Lookup(old(root), q)
    {
      var found := Access(p);
      if found {
        return true;
      }
      ghost var t0 := root;
      ok := WriteFile(p, text);
      forall q | Lookup(t0, q).Some? && Lookup(t0, q).value.File? ensures Lookup(root, q) == Lookup(t0, q) {
        if ok {
          WriteIfAbsentKeeps(t0, p, text, q);
        }
      }
    }

    /**
     `convertJsonToReadme` run in `cwd`: read the manifest, parse it with
     `parse`, write the rendered README. On any failure the disk is as it was.
     */
    method ConvertJsonToReadme(cwd: Path, parse: string -> Option<Readme.Manifest>) returns (ok: bool)
      modifies this
      ensures ok <==> Converted(old(root), cwd, parse).Some?
      ensures root == if ok then Converted(old(root), cwd, parse).value else old(root)
    {
      var text := ReadFile(cwd + [MANIFEST_FILE]);
      if text.None? {
        return false;
      }
      var manifest := parse(text.value);
      if manifest.None? {
        return false;
      }
      ok := WriteFile(cwd + [README_FILE], Readme.Render(manifest.value));
    }

    /**
     `main`: dispatch on the arguments and run the command. Returns the exit
     status; help, version and list only print, so they leave the disk alone.
     */
    method Execute(args: seq<string>, cwd: Path, parse: string -> Option<Readme.Manifest>,
                   manifestText: string, readmeText: string) returns (status: int)
      requires Dispatch(args) == Run(Save) ==> Disjoint(cwd, ArchiveOf(store, cwd))
      requires Dispatch(args).Run? && Dispatch(args).command.Checkout? && Present(Dispatch(args).command.project) ==>
        Disjoint(store + [Dispatch(args).command.project.value], cwd + [Dispatch(args).command.project.value])
      modifies this
      ensures status == ExitStatus(old(root), store, cwd, args, parse, manifestText, readmeText)
      ensures Dispatch(args).UnknownCommand? || Dispatch(args) in {Run(Help), Run(Version), Run(List)} ==>
        root == old(root)
      ensures Dispatch(args) == Run(Command.Init) && status == 0 ==>
        root == Scaffolded(old(root), cwd, manifestText, readmeText).value
      ensures Dispatch(args) == Run(Command.Init) ==>
        forall q :: Lookup(old(root), q).Some? && Lookup(old(root), q).value.File? ==>
          Lookup(root, q) == Lookup(old(root), q)
      ensures Dispatch(args) == Run(Save) && status == 0 ==> root == Saved(old(root), store, cwd).value
      ensures Dispatch(args) == Run(Save) ==> SameOutside(root, old(root), ArchiveOf(store, cwd))
      ensures Dispatch(args) == Run(Read) ==>
        root == if status == 0 then Converted(old(root), cwd, parse).value else old(root)
      ensures Dispatch(args).Run? && Dispatch(args).command.Checkout? ==>
        var name := Dispatch(args).command.project;
        && (status == 0 ==> root == CopyTree(old(root), store + [name.value], cwd + [name.value]).value)
        && (!Present(name) ==> root == old(root))
        && (CheckoutResult(old(root), store, cwd, name).NotFound? ==> root == old(root))
        && (Present(name) ==> SameOutside(root, old(root), cwd + [name.value]))
    {
      match Dispatch(args)
      case UnknownCommand(_) =>
        status := 1;
      case Run(command) =>
        match command
        case Init =>
          var ok := Init(cwd, manifestText, readmeText);
          status := if ok then 0 else 1;
        case Save =>
          var ok := SaveProject(cwd);
          status := if ok then 0 else 1;
        case Read =>
          var ok := ConvertJsonToReadme(cwd, parse);
          status := if ok then 0 else 1;
        case Checkout(name) =>
          var outcome := CheckoutProject(cwd, name);
          status := if outcome == CheckedOut then 0 else 1;
        case List =>
          status := 0;
        case Help =>
          status := 0;
        case Version =>
          status := 0;
    }
  }

  /** A save, failed or not, changes nothing outside the archive but the store made on the way. */
  lemma SaveFrameAnyway(t0: Node, store: Path, target: Path, t1: Node, now: Node)
    requires MkdirAll(t0, store) == Some(t1)
    requires IsPrefix(store, target) && store != target
    requires SameOutside(now, Prune(t1, target), target)
    ensures SameOutside(now, t0, target)
  {
    forall q | Disjoint(q, target) ensures Lookup(now, q) == Lookup(t0, q) {
      assert !IsPrefix(q, store) by {
        PrefixTrans(q, store, target);
      }
      MkdirAllPreserves(t0, store, q);
      LookupPruneDisjoint(t1, target, q);
    }
  }

  /**
   The frame of a copy that failed at entry `n`: what lies outside `dest`
   is what lay there before the copy.
   */
  lemma CopyDirectoryFailed(t0: Node, t1: Node, dest: Path, cur: map<Name, Node>, now: Node, n: Name)
    requires MkdirAll(t0, dest) == Some(t1)
    requires SameOutside(now, Graft(t1, dest, Dir(cur)), dest + [n])
    ensures SameOutside(now, t0, dest)
  {
    GraftedFrame(t0, dest, Dir(cur));
    forall q | Disjoint(q, dest) ensures Lookup(now, q) == Lookup(t0, q) {
      DisjointExtend(q, dest, n, n);
    }
  }
}
