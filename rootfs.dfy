/**
 * The root filesystem provisioner (`RootFSManager`): a fresh temporary directory
 * holding a skeleton of top-level directories, a copy of busybox with links for
 * the common commands, and optionally bash with the shared libraries `ldd`
 * reports for it.
 *
 * The host is seen through a `Host` value: which host paths exist, what
 * `ldd /usr/bin/bash` prints, and the name `mkdtemp` picks.  Each step of the
 * provisioner is first given as a function on the directory table (`Tree`),
 * and the methods of `RootFSManager` are proved to follow those functions.
 */
module RootFS {
  import opened Wrappers
  import opened PyText
  import opened RootTree
  import opened Ldd

  const SkeletonDirs: seq<string> := ["bin", "lib", "lib64", "proc", "tmp", "dev", "etc"]
  /** Where busybox is looked for, in this order. */
  const BusyboxPaths: seq<string> := ["/usr/bin/busybox", "/bin/busybox", "/usr/bin/busybox-static"]
  /** The commands that get a link to busybox in `bin`. */
  const Commands: seq<string> := ["sh", "ls", "cat", "echo", "ps", "sleep", "mkdir", "rm", "cp", "mv"]
  const BashPath: string := "/usr/bin/bash"
  const BusyboxDst: Path := ["bin", "busybox"]
  const BashDst: Path := ["bin", "bash"]

  /** What the provisioner can observe of the host. */
  datatype Host = Host(
    paths: set<string>,   // host paths for which `os.path.exists` holds (all regular files)
    ldd: Option<string>,  // what `ldd /usr/bin/bash` prints; `None` when there is no `ldd` program
    tempDir: string,      // the system temporary directory
    tempName: string)     // the random part of the name `mkdtemp` picks

  /** Why provisioning stopped. */
  datatype Error =
    | Fs(cause: FsError)   // an `OSError` from a filesystem call
    | BusyboxUnavailable   // the `RuntimeError` raised when no busybox was found
    | LddMissing           // the `FileNotFoundError` raised when `ldd` cannot be started

  /** A step's resulting directory table and whether it completed. */
  datatype Step<+E> = Step(tree: Tree, outcome: Outcome<E>)

  /** The busybox step's resulting table and its answer: whether busybox was installed. */
  datatype Setup = Setup(tree: Tree, installed: Result<bool, FsError>)

  /** The directory `mkdtemp(prefix="container_<name>_")` creates. */
  function TempPath(host: Host, name: string): string {
    host.tempDir + "/container_" + name + "_" + host.tempName
  }

  function Link(cmd: string): Path { ["bin", cmd] }

  predicate Distinct(names: seq<string>) {
    forall i, j :: 0 <= i < j < |names| ==> names[i] != names[j]
  }

  // ---------------------------------------------------------------------------
  // Skeleton directories
  // ---------------------------------------------------------------------------

  /** `(rootfs / d).mkdir(parents=True, exist_ok=True)` for each `d` in turn, stopping at the first error. */
  function Skeleton(t: Tree, dirs: seq<string>): (r: Step<FsError>)
    requires WellFormed(t)
    ensures WellFormed(r.tree) && Extends(r.tree, t)
    decreases |dirs|
  {
    if dirs == [] then Step(t, Pass)
    else
      match MkdirParents(t, [dirs[0]])
      case Err(e) => Step(t, Fail(e))
      case Ok(t1) =>
        var r := Skeleton(t1, dirs[1..]);
        ExtendsTransitive(r.tree, t1, t);
        r
  }

  /** The skeleton loop at index `i`: stop at a failed `mkdir`, or go on from the table it leaves. */
  lemma SkeletonAt(t: Tree, dirs: seq<string>, i: nat)
    requires WellFormed(t) && i < |dirs|
    ensures Skeleton(t, dirs[i..]) ==
      if MkdirParents(t, [dirs[i]]).Err? then Step(t, Fail(MkdirParents(t, [dirs[i]]).error))
      else Skeleton(MkdirParents(t, [dirs[i]]).value, dirs[i + 1..])
  {
    assert dirs[i..][0] == dirs[i];
    assert dirs[i..][1..] == dirs[i + 1..];
  }

  /** No top-level name in `dirs` is held by something other than a directory. */
  predicate Unblocked(t: Tree, dirs: seq<string>) {
    forall d | d in dirs :: [d] !in t || t[[d]].Dir?
  }

  /** `mkdir` of a top-level name: it succeeds unless a non-directory holds the name, and adds only that directory. */
  lemma MkdirTop(t: Tree, d: string)
    requires WellFormed(t)
    ensures MkdirParents(t, [d]).Ok? <==> [d] !in t || t[[d]].Dir?
    ensures MkdirParents(t, [d]).Ok? ==> var t1 := MkdirParents(t, [d]).value;
      IsDir(t1, [d]) && forall k | k in t1 && k !in t :: k == [d] && t1[k] == Dir
  {
    assert Parent([d]) == [];
    if MkdirParents(t, [d]).Ok? {
      MkdirParentsAdds(t, [d]);
    }
    assert forall k :: IsPrefix(k, [d]) && k != [] ==> k == [d];
  }

  /**
   * Creating the skeleton succeeds exactly when no name in it is taken by a
   * non-directory; it then leaves each name a directory, and adds nothing but
   * those directories.
   */
  lemma SkeletonMade(t: Tree, dirs: seq<string>)
    requires WellFormed(t)
    ensures Skeleton(t, dirs).outcome.Pass? <==> Unblocked(t, dirs)
    ensures Skeleton(t, dirs).outcome.Pass? ==> forall d | d in dirs :: IsDir(Skeleton(t, dirs).tree, [d])
    ensures forall k | k in Skeleton(t, dirs).tree && k !in t ::
              |k| == 1 && k[0] in dirs && Skeleton(t, dirs).tree[k] == Dir
  {
    SkeletonPasses(t, dirs);
    SkeletonDirsMade(t, dirs);
    SkeletonAddsDirs(t, dirs);
  }

  lemma {:induction false} SkeletonPasses(t: Tree, dirs: seq<string>)
    requires WellFormed(t)
    ensures Skeleton(t, dirs).outcome.Pass? <==> Unblocked(t, dirs)
    decreases |dirs|
  {
    if dirs != [] {
      var d := dirs[0];
      MkdirTop(t, d);
      assert dirs == [d] + dirs[1..];
      if MkdirParents(t, [d]).Ok? {
        var t1 := MkdirParents(t, [d]).value;
        SkeletonPasses(t1, dirs[1..]);
        assert Unblocked(t, dirs) <==> Unblocked(t1, dirs[1..]);
      }
    }
  }

  lemma {:induction false} SkeletonDirsMade(t: Tree, dirs: seq<string>)
    requires WellFormed(t)
    ensures Skeleton(t, dirs).outcome.Pass? ==> forall d | d in dirs :: IsDir(Skeleton(t, dirs).tree, [d])
    decreases |dirs|
  {
    if dirs != [] {
      var d := dirs[0];
      MkdirTop(t, d);
      if MkdirParents(t, [d]).Ok? {
        var t1 := MkdirParents(t, [d]).value;
        SkeletonDirsMade(t1, dirs[1..]);
        assert dirs == [d] + dirs[1..];
      }
    }
  }

  lemma {:induction false} SkeletonAddsDirs(t: Tree, dirs: seq<string>)
    requires WellFormed(t)
    ensures forall k | k in Skeleton(t, dirs).tree && k !in t ::
              |k| == 1 && k[0] in dirs && Skeleton(t, dirs).tree[k] == Dir
    decreases |dirs|
  {
    if dirs != [] {
      var d := dirs[0];
      MkdirTop(t, d);
      if MkdirParents(t, [d]).Ok? {
        var t1 := MkdirParents(t, [d]).value;
        SkeletonAddsDirs(t1, dirs[1..]);
        assert dirs == [d] + dirs[1..];
      }
    }
  }

  /** Creating the skeleton again over a finished one changes nothing and is not an error (`exist_ok`). */
  lemma {:induction false} SkeletonRepeatable(t: Tree, dirs: seq<string>)
    requires WellFormed(t)
    requires forall d | d in dirs :: IsDir(t, [d])
    ensures Skeleton(t, dirs) == Step(t, Pass)
    decreases |dirs|
  {
    if dirs != [] {
      assert Parent([dirs[0]]) == [];
      SkeletonRepeatable(t, dirs[1..]);
    }
  }

  // ---------------------------------------------------------------------------
  // busybox
  // ---------------------------------------------------------------------------

  /** The first candidate for which the host has a file. */
  function FirstExisting(candidates: seq<string>, paths: set<string>): Option<string> {
    if candidates == [] then None
    else if candidates[0] in paths then Some(candidates[0])
    else FirstExisting(candidates[1..], paths)
  }

  /** `FirstExisting` finds a candidate that exists with none before it, and finds nothing only when no candidate exists. */
  lemma {:induction false} FirstExistingIsFirst(candidates: seq<string>, paths: set<string>)
    ensures FirstExisting(candidates, paths).None? <==> forall i :: 0 <= i < |candidates| ==> candidates[i] !in paths
    ensures FirstExisting(candidates, paths).Some? ==>
      exists i :: 0 <= i < |candidates| && candidates[i] == FirstExisting(candidates, paths).value
        && candidates[i] in paths && forall j :: 0 <= j < i ==> candidates[j] !in paths
  {
    if candidates != [] && candidates[0] !in paths {
      var rest := candidates[1..];
      FirstExistingIsFirst(rest, paths);
      if FirstExisting(rest, paths).Some? {
        var i :| 0 <= i < |rest| && rest[i] == FirstExisting(rest, paths).value
          && rest[i] in paths && forall j :: 0 <= j < i ==> rest[j] !in paths;
        assert candidates[i + 1] == rest[i];
        forall j | 0 < j < i + 1
          ensures candidates[j] !in paths
        {
          assert candidates[j] == rest[j - 1];
        }
      } else {
        forall i | 1 <= i < |candidates|
          ensures candidates[i] !in paths
        {
          assert candidates[i] == rest[i - 1];
        }
      }
    }
  }

  /** For each command whose link does not exist (following links), `symlink_to('busybox')`. */
  function CommandLinks(t: Tree, names: seq<string>): (r: Step<FsError>)
    requires WellFormed(t)
    ensures WellFormed(r.tree) && Extends(r.tree, t)
    decreases |names|
  {
    if names == [] then Step(t, Pass)
    else if Exists(t, Link(names[0])) then CommandLinks(t, names[1..])
    else
      match SymlinkTo(t, Link(names[0]), "busybox")
      case Err(e) => Step(t, Fail(e))
      case Ok(t1) =>
        var r := CommandLinks(t1, names[1..]);
        ExtendsTransitive(r.tree, t1, t);
        r
  }

  /** The link loop at index `i`: skip an existing link, stop at a failed `symlink_to`, or go on. */
  lemma CommandLinksAt(t: Tree, names: seq<string>, i: nat)
    requires WellFormed(t) && i < |names|
    ensures CommandLinks(t, names[i..]) ==
      if Exists(t, Link(names[i])) then CommandLinks(t, names[i + 1..])
      else if SymlinkTo(t, Link(names[i]), "busybox").Err? then Step(t, Fail(SymlinkTo(t, Link(names[i]), "busybox").error))
      else CommandLinks(SymlinkTo(t, Link(names[i]), "busybox").value, names[i + 1..])
  {
    assert names[i..][0] == names[i];
    assert names[i..][1..] == names[i + 1..];
  }

  /** The link step only adds links to `busybox` for the listed commands, leaving every existing entry as it was. */
  lemma {:induction false} CommandLinksAdd(t: Tree, names: seq<string>)
    requires WellFormed(t)
    ensures forall k | k in CommandLinks(t, names).tree && k !in t ::
              |k| == 2 && k[0] == "bin" && k[1] in names && CommandLinks(t, names).tree[k] == Symlink("busybox")
    decreases |names|
  {
    if names != [] {
      var n := names[0];
      assert names == [n] + names[1..];
      if Exists(t, Link(n)) {
        CommandLinksAdd(t, names[1..]);
      } else if SymlinkTo(t, Link(n), "busybox").Ok? {
        CommandLinksAdd(SymlinkTo(t, Link(n), "busybox").value, names[1..]);
      }
    }
  }

  /** When the link step completes, every command has an entry in `bin`. */
  lemma {:induction false} CommandLinksComplete(t: Tree, names: seq<string>)
    requires WellFormed(t)
    ensures CommandLinks(t, names).outcome.Pass? ==> forall n | n in names :: Link(n) in CommandLinks(t, names).tree
    decreases |names|
  {
    if names != [] {
      var n := names[0];
      assert names == [n] + names[1..];
      if Exists(t, Link(n)) {
        CommandLinksComplete(t, names[1..]);
        if Link(n) !in t {
          ResolveAbsent(t, Link(n), MaxSymlinkHops);
        }
      } else if SymlinkTo(t, Link(n), "busybox").Ok? {
        CommandLinksComplete(SymlinkTo(t, Link(n), "busybox").value, names[1..]);
      }
    }
  }

  /** The link step completes whenever `bin` is a directory and every command's link either exists or is absent. */
  lemma {:induction false} CommandLinksSucceed(t: Tree, names: seq<string>)
    requires WellFormed(t) && IsDir(t, ["bin"]) && Distinct(names)
    requires forall n | n in names :: Link(n) !in t || Exists(t, Link(n))
    ensures CommandLinks(t, names).outcome.Pass?
    decreases |names|
  {
    if names != [] {
      var n := names[0];
      var rest := names[1..];
      assert forall m | m in rest :: m in names && m != n;
      if Exists(t, Link(n)) {
        CommandLinksSucceed(t, rest);
      } else {
        var t1 := t[Link(n) := Symlink("busybox")];
        assert n in names && Parent(Link(n)) == ["bin"];
        assert SymlinkTo(t, Link(n), "busybox") == Ok(t1);
        forall m | m in rest
          ensures Link(m) !in t1 || Exists(t1, Link(m))
        {
          if Exists(t, Link(m)) {
            ExistsMonotone(t1, t, Link(m));
          }
        }
        CommandLinksSucceed(t1, rest);
      }
    }
  }

  /**
   * `_setup_busybox`: answers `false` when no busybox exists on the host;
   * otherwise copies it to `bin/busybox`, makes it executable and adds the
   * command links.  Filesystem errors propagate.
   */
  function BusyboxSetup(t: Tree, paths: set<string>): (r: Setup)
    requires WellFormed(t)
    ensures WellFormed(r.tree)
  {
    match FirstExisting(BusyboxPaths, paths)
    case None => Setup(t, Ok(false))
    case Some(src) =>
      match Copy2(t, src, BusyboxDst)
      case Err(e) => Setup(t, Err(e))
      case Ok(t1) =>
        match Chmod755(t1, BusyboxDst)
        case Err(e) => Setup(t1, Err(e))
        case Ok(t2) =>
          var links := CommandLinks(t2, Commands);
          Setup(links.tree, if links.outcome.Fail? then Err(links.outcome.error) else Ok(true))
  }

  /** Without a busybox on the host nothing is copied and the answer is `false`. */
  lemma BusyboxAbsent(t: Tree, paths: set<string>)
    requires WellFormed(t)
    ensures (forall p | p in BusyboxPaths :: p !in paths) <==> BusyboxSetup(t, paths) == Setup(t, Ok(false))
  {
    FirstExistingIsFirst(BusyboxPaths, paths);
  }

  // ---------------------------------------------------------------------------
  // bash and its libraries
  // ---------------------------------------------------------------------------

  /**
   * One library: `dst.parent.mkdir(parents=True, exist_ok=True)`, then
   * `shutil.copy2(lib, dst)` unless `dst` exists.
   */
  function LibraryCopy(t: Tree, lib: string): (r: Step<FsError>)
    requires WellFormed(t)
    ensures WellFormed(r.tree)
  {
    CopyUnlessExists(t, lib, Destination(lib))
  }

  /** Copy the host file `lib` to `dst` below the rootfs, creating its directory, unless `dst` exists. */
  function CopyUnlessExists(t: Tree, lib: string, dst: Path): (r: Step<FsError>)
    requires WellFormed(t)
    ensures WellFormed(r.tree)
  {
    if dst == [] then Step(t, Pass)
    else
      match MkdirParents(t, Parent(dst))
      case Err(e) => Step(t, Fail(e))
      case Ok(t1) =>
        if Exists(t1, dst) then Step(t1, Pass)
        else
          match Copy2(t1, lib, dst)
          case Err(e) => Step(t1, Fail(e))
          case Ok(t2) => Step(t2, Pass)
  }

  /** The library named by an `ldd` line when it exists on the host. */
  function LineLibrary(line: string, paths: set<string>): Option<string> {
    var lib := LddLinePath(line);
    if lib.Some? && lib.value in paths then lib else None
  }

  /** The library each `ldd` line names and the host has, line by line. */
  function Libraries(lines: seq<string>, paths: set<string>): (libs: seq<Option<string>>)
    ensures |libs| == |lines|
    ensures forall i :: 0 <= i < |lines| ==> libs[i] == LineLibrary(lines[i], paths)
  {
    if lines == [] then [] else [LineLibrary(lines[0], paths)] + Libraries(lines[1..], paths)
  }

  /** Every line of `ldd`'s output in turn, stopping at the first error. */
  function LibraryCopies(t: Tree, lines: seq<string>, paths: set<string>): (r: Step<FsError>)
    requires WellFormed(t)
    ensures WellFormed(r.tree)
  {
    CopyLibraries(t, Libraries(lines, paths))
  }

  /** The copy of each library found, in order, stopping at the first error (reading a line has no effect of its own). */
  function CopyLibraries(t: Tree, libs: seq<Option<string>>): (r: Step<FsError>)
    requires WellFormed(t)
    ensures WellFormed(r.tree)
    decreases |libs|
  {
    if libs == [] then Step(t, Pass)
    else
      match libs[0]
      case None => CopyLibraries(t, libs[1..])
      case Some(lib) =>
        var step := LibraryCopy(t, lib);
        if step.outcome.Fail? then step else CopyLibraries(step.tree, libs[1..])
  }

  /** An entry the library step may add for `lib`: a directory on the way to its destination, or the copy itself. */
  predicate LibraryEntry(t: Tree, k: Path, lib: string)
    requires k in t
  {
    EntryOnTheWay(t, k, lib, Destination(lib))
  }

  predicate EntryOnTheWay(t: Tree, k: Path, lib: string, dst: Path)
    requires k in t
  {
    (IsPrefix(k, Parent(dst)) && t[k] == Dir) || (Parent(k) == Parent(dst) && t[k] == File(lib, false))
  }

  /** The library named by `line`, if it exists on the host, can be found in `t` (links followed). */
  predicate LineInstalled(t: Tree, line: string, paths: set<string>) {
    LineLibrary(line, paths).Some? ==> Exists(t, Destination(LineLibrary(line, paths).value))
  }

  /** A file written at a place the destination leads to, but that was absent, makes the destination exist. */
  lemma {:induction false} ResolveAfterWrite(t: Tree, p: Path, q: Path, e: Entry, hops: nat)
    requires Resolve(t, p, hops) == Some(q) && q !in t && !e.Symlink?
    ensures Resolve(t[q := e], p, hops) == Some(q)
    decreases hops
  {
    if p in t && t[p].Symlink? {
      ResolveAfterWrite(t, Sibling(p, t[p].target), q, e, hops - 1);
    }
  }

  /** One library copy does nothing at all when the destination already exists. */
  lemma CopyKeepsExisting(t: Tree, lib: string, dst: Path)
    requires WellFormed(t) && Exists(t, dst)
    ensures CopyUnlessExists(t, lib, dst) == Step(t, Pass)
  {
    if dst != [] {
      if dst !in t {
        ResolveAbsent(t, dst, MaxSymlinkHops);
      }
      if Parent(dst) != [] {
        AncestorsAreDirs(t, Parent(dst));
      }
      assert MkdirParents(t, Parent(dst)) == Ok(t);
    }
  }

  /** One library copy never alters an existing entry, and only adds the missing directories and the copy. */
  lemma CopyAdds(t: Tree, lib: string, dst: Path)
    requires WellFormed(t)
    ensures Extends(CopyUnlessExists(t, lib, dst).tree, t)
    ensures forall k | k in CopyUnlessExists(t, lib, dst).tree && k !in t ::
              EntryOnTheWay(CopyUnlessExists(t, lib, dst).tree, k, lib, dst)
  {
    if dst != [] && MkdirParents(t, Parent(dst)).Ok? {
      var t1 := MkdirParents(t, Parent(dst)).value;
      MkdirParentsAdds(t, Parent(dst));
      if !Exists(t1, dst) && Copy2(t1, lib, dst).Ok? {
        var q := CopyTarget(t1, dst).value;
        assert q !in t1;
        var t2 := t1[q := File(lib, false)];
        assert Copy2(t1, lib, dst).value == t2;
        assert CopyUnlessExists(t, lib, dst).tree == t2;
        forall k | k in t2 && k !in t
          ensures EntryOnTheWay(t2, k, lib, dst)
        {
          if k != q {
            assert k in t1 && t2[k] == t1[k];
          }
        }
      }
    }
  }

  /** When one library copy completes, its destination exists. */
  lemma CopyInstalls(t: Tree, lib: string, dst: Path)
    requires WellFormed(t)
    ensures CopyUnlessExists(t, lib, dst).outcome.Pass? ==> Exists(CopyUnlessExists(t, lib, dst).tree, dst)
  {
    if dst != [] && MkdirParents(t, Parent(dst)).Ok? {
      var t1 := MkdirParents(t, Parent(dst)).value;
      if !Exists(t1, dst) && Copy2(t1, lib, dst).Ok? {
        var q := CopyTarget(t1, dst).value;
        assert q !in t1;
        ResolveAfterWrite(t1, dst, q, File(lib, false), MaxSymlinkHops);
      }
    }
  }

  /**
   * One library copy never alters an existing entry, only adds the missing
   * directories and the copy, leaves the destination existing when it
   * completes, and does nothing at all when the destination already exists.
   */
  lemma LibraryCopySpec(t: Tree, lib: string)
    requires WellFormed(t)
    ensures Extends(LibraryCopy(t, lib).tree, t)
    ensures forall k | k in LibraryCopy(t, lib).tree && k !in t :: LibraryEntry(LibraryCopy(t, lib).tree, k, lib)
    ensures LibraryCopy(t, lib).outcome.Pass? ==> Exists(LibraryCopy(t, lib).tree, Destination(lib))
    ensures Exists(t, Destination(lib)) ==> LibraryCopy(t, lib) == Step(t, Pass)
  {
    var dst := Destination(lib);
    CopyAdds(t, lib, dst);
    CopyInstalls(t, lib, dst);
    if Exists(t, dst) {
      CopyKeepsExisting(t, lib, dst);
    }
  }

  /**
   * The library step never alters an existing entry, adds only entries that some
   * line's library accounts for, and, when it completes, every library named by a
   * line and present on the host exists under the rootfs.
   */
  lemma LibraryCopiesSpec(t: Tree, lines: seq<string>, paths: set<string>)
    requires WellFormed(t)
    ensures Extends(LibraryCopies(t, lines, paths).tree, t)
    ensures forall k | k in LibraryCopies(t, lines, paths).tree && k !in t ::
              exists i :: 0 <= i < |lines| && LineLibrary(lines[i], paths).Some?
                && LibraryEntry(LibraryCopies(t, lines, paths).tree, k, LineLibrary(lines[i], paths).value)
    ensures LibraryCopies(t, lines, paths).outcome.Pass? ==>
              forall i :: 0 <= i < |lines| ==> LineInstalled(LibraryCopies(t, lines, paths).tree, lines[i], paths)
  {
    var libs := Libraries(lines, paths);
    var r := LibraryCopies(t, lines, paths).tree;
    CopyLibrariesExtend(t, libs);
    CopyLibrariesAccounted(t, libs);
    forall k | k in r && k !in t
      ensures exists i :: 0 <= i < |lines| && LineLibrary(lines[i], paths).Some?
                && LibraryEntry(r, k, LineLibrary(lines[i], paths).value)
    {
      var i := AccountingIndex(r, k, libs);
      assert libs[i] == LineLibrary(lines[i], paths);
    }
    CopyLibrariesInstall(t, libs);
    if LibraryCopies(t, lines, paths).outcome.Pass? {
      InstalledEach(r, libs);
      forall i | 0 <= i < |lines|
        ensures LineInstalled(r, lines[i], paths)
      {
        assert libs[i] == LineLibrary(lines[i], paths);
      }
    }
  }

  lemma {:induction false} CopyLibrariesExtend(t: Tree, libs: seq<Option<string>>)
    requires WellFormed(t)
    ensures Extends(CopyLibraries(t, libs).tree, t)
    decreases |libs|
  {
    if libs != [] && libs[0].None? {
      CopyLibrariesExtend(t, libs[1..]);
    } else if libs != [] {
      var step := LibraryCopy(t, libs[0].value);
      assert Extends(step.tree, t) by {
        LibraryCopySpec(t, libs[0].value);
      }
      if step.outcome.Pass? {
        var r := CopyLibraries(step.tree, libs[1..]);
        assert CopyLibraries(t, libs) == r;
        CopyLibrariesExtend(step.tree, libs[1..]);
        ExtendsTransitive(r.tree, step.tree, t);
      }
    }
  }

  /** The library loop at index `i`: skip a line without a library, stop at a failed copy, or go on. */
  lemma CopyLibrariesAt(t: Tree, libs: seq<Option<string>>, i: nat)
    requires WellFormed(t) && i < |libs|
    ensures CopyLibraries(t, libs[i..]) ==
      if libs[i].None? then CopyLibraries(t, libs[i + 1..])
      else if LibraryCopy(t, libs[i].value).outcome.Fail? then LibraryCopy(t, libs[i].value)
      else CopyLibraries(LibraryCopy(t, libs[i].value).tree, libs[i + 1..])
  {
    assert libs[i..][0] == libs[i];
    assert libs[i..][1..] == libs[i + 1..];
  }

  /** The entry `k` of `t` is one that the copy of some library in `libs` may add. */
  predicate Accounted(t: Tree, k: Path, libs: seq<Option<string>>)
    requires k in t
  {
    libs != [] && ((libs[0].Some? && LibraryEntry(t, k, libs[0].value)) || Accounted(t, k, libs[1..]))
  }

  /** The index in `libs` of the library that accounts for an entry. */
  ghost function AccountingIndex(t: Tree, k: Path, libs: seq<Option<string>>): (i: nat)
    requires k in t && Accounted(t, k, libs)
    ensures i < |libs| && libs[i].Some? && LibraryEntry(t, k, libs[i].value)
  {
    if libs[0].Some? && LibraryEntry(t, k, libs[0].value) then 0
    else
      var j := AccountingIndex(t, k, libs[1..]);
      assert libs[j + 1] == libs[1..][j];
      j + 1
  }


  lemma {:induction false} CopyLibrariesAccounted(t: Tree, libs: seq<Option<string>>)
    requires WellFormed(t)
    ensures forall k | k in CopyLibraries(t, libs).tree && k !in t :: Accounted(CopyLibraries(t, libs).tree, k, libs)
    decreases |libs|
  {
    if libs != [] && libs[0].None? {
      var rest := libs[1..];
      var r := CopyLibraries(t, libs);
      assert r == CopyLibraries(t, rest);
      CopyLibrariesAccounted(t, rest);
    } else if libs != [] {
      var lib := libs[0].value;
      var step := LibraryCopy(t, lib);
      var r := CopyLibraries(t, libs);
      if step.outcome.Fail? {
        assert r == step;
        forall k | k in r.tree && k !in t
          ensures Accounted(r.tree, k, libs)
        {
          assert LibraryEntry(step.tree, k, lib) by {
            LibraryCopySpec(t, lib);
          }
        }
      } else {
        var t1 := step.tree;
        var rest := libs[1..];
        assert r == CopyLibraries(t1, rest);
        CopyLibrariesAccounted(t1, rest);
        assert Extends(r.tree, t1) by {
          CopyLibrariesExtend(t1, rest);
        }
        forall k | k in r.tree && k !in t
          ensures Accounted(r.tree, k, libs)
        {
          if k in t1 {
            assert LibraryEntry(t1, k, lib) by {
              LibraryCopySpec(t, lib);
            }
            assert LibraryEntry(r.tree, k, lib);
          }
        }
      }
    }
  }

  /** Every library in `libs` exists under the rootfs of `t`. */
  predicate Installed(t: Tree, libs: seq<Option<string>>) {
    libs == [] || ((libs[0].Some? ==> Exists(t, Destination(libs[0].value))) && Installed(t, libs[1..]))
  }

  lemma {:induction false} InstalledEach(t: Tree, libs: seq<Option<string>>)
    requires Installed(t, libs)
    ensures forall i :: 0 <= i < |libs| && libs[i].Some? ==> Exists(t, Destination(libs[i].value))
  {
    if libs != [] {
      InstalledEach(t, libs[1..]);
      forall i | 0 < i < |libs| && libs[i].Some?
        ensures Exists(t, Destination(libs[i].value))
      {
        assert libs[i] == libs[1..][i - 1];
      }
    }
  }

  lemma {:induction false} CopyLibrariesInstall(t: Tree, libs: seq<Option<string>>)
    requires WellFormed(t)
    ensures CopyLibraries(t, libs).outcome.Pass? ==> Installed(CopyLibraries(t, libs).tree, libs)
    decreases |libs|
  {
    if libs != [] && libs[0].None? {
      var rest := libs[1..];
      var r := CopyLibraries(t, rest);
      assert CopyLibraries(t, libs) == r;
      CopyLibrariesInstall(t, rest);
    } else if libs != [] {
      var lib := libs[0].value;
      var step := LibraryCopy(t, lib);
      if step.outcome.Pass? {
        var t1 := step.tree;
        var rest := libs[1..];
        var r := CopyLibraries(t1, rest);
        assert CopyLibraries(t, libs) == r;
        if r.outcome.Pass? {
          CopyLibrariesInstall(t1, rest);
          assert Exists(r.tree, Destination(lib)) by {
            LibraryCopySpec(t, lib);
            CopyLibrariesExtend(t1, rest);
            ExistsMonotone(r.tree, t1, Destination(lib));
          }
        }
      }
    }
  }

  /**
   * `_copy_bash`: nothing when the host has no bash; otherwise copy it to
   * `bin/bash`, make it executable, run `ldd` on it and copy each library it
   * lists.  A missing `ldd` and filesystem errors propagate.
   */
  function BashInstall(t: Tree, host: Host): (r: Step<Error>)
    requires WellFormed(t)
    ensures WellFormed(r.tree)
  {
    if BashPath !in host.paths then Step(t, Pass)
    else
      match Copy2(t, BashPath, BashDst)
      case Err(e) => Step(t, Fail(Fs(e)))
      case Ok(t1) =>
        match Chmod755(t1, BashDst)
        case Err(e) => Step(t1, Fail(Fs(e)))
        case Ok(t2) =>
          match host.ldd
          case None => Step(t2, Fail(LddMissing))
          case Some(out) =>
            var libs := LibraryCopies(t2, SplitLines(out), host.paths);
            Step(libs.tree, if libs.outcome.Fail? then Fail(Fs(libs.outcome.error)) else Pass)
  }

  // ---------------------------------------------------------------------------
  // The whole of `create`
  // ---------------------------------------------------------------------------

  /** What `create` leaves in the fresh temporary directory, and how it ends. */
  function Provisioning(host: Host): (r: Step<Error>)
    ensures WellFormed(r.tree)
  {
    AfterSkeleton(Skeleton(FreshDir(host), SkeletonDirs), host)
  }

  /** What `create` returns: the rootfs path, or the error it raises. */
  function CreateResult(host: Host, name: string): Result<string, Error> {
    if Provisioning(host).outcome.Pass? then Ok(TempPath(host, name)) else Err(Provisioning(host).outcome.error)
  }

  /** What `mkdtemp` hands over: an empty directory. */
  function FreshDir(host: Host): (t: Tree)
    ensures t == map[]
  {
    map[]
  }

  /** The rest of `create`, once the skeleton step has ended as `skeleton` says. */
  function AfterSkeleton(skeleton: Step<FsError>, host: Host): (r: Step<Error>)
    requires WellFormed(skeleton.tree)
    ensures WellFormed(r.tree)
  {
    if skeleton.outcome.Fail? then Step(skeleton.tree, Fail(Fs(skeleton.outcome.error)))
    else
      var busybox := BusyboxSetup(skeleton.tree, host.paths);
      if busybox.installed.Err? then Step(busybox.tree, Fail(Fs(busybox.installed.error)))
      else if !busybox.installed.value then Step(busybox.tree, Fail(BusyboxUnavailable))
      else BashInstall(busybox.tree, host)
  }

  /** A table holding top-level entries only, `bin` among them as a directory. */
  ghost predicate TopLevelOnly(t: Tree) {
    WellFormed(t) && IsDir(t, ["bin"]) && forall k | k in t :: |k| == 1
  }

  /** On the fresh temporary directory the skeleton step completes and leaves exactly its directories. */
  lemma SkeletonOnFreshDir(host: Host)
    ensures Skeleton(FreshDir(host), SkeletonDirs).outcome.Pass?
    ensures TopLevelOnly(Skeleton(FreshDir(host), SkeletonDirs).tree)
    ensures forall d | d in SkeletonDirs :: IsDir(Skeleton(FreshDir(host), SkeletonDirs).tree, [d])
    ensures forall k | k in Skeleton(FreshDir(host), SkeletonDirs).tree ::
              k[0] in SkeletonDirs && Skeleton(FreshDir(host), SkeletonDirs).tree[k] == Dir
  {
    SkeletonMade(FreshDir(host), SkeletonDirs);
    assert "bin" in SkeletonDirs;
  }

  /** The command names are distinct, and none of them is `busybox` or `bash`. */
  lemma CommandNames()
    ensures Distinct(Commands) && "busybox" !in Commands && "bash" !in Commands
  {
  }

  /**
   * With a busybox on the host, the busybox step over a table of top-level
   * entries installs it executable at `bin/busybox` and links every command to it.
   */
  lemma BusyboxInstalled(t: Tree, paths: set<string>)
    requires TopLevelOnly(t) && FirstExisting(BusyboxPaths, paths).Some?
    ensures BusyboxSetup(t, paths).installed == Ok(true)
    ensures Extends(BusyboxSetup(t, paths).tree, t)
    ensures BusyboxDst in BusyboxSetup(t, paths).tree
    ensures BusyboxSetup(t, paths).tree[BusyboxDst] == File(FirstExisting(BusyboxPaths, paths).value, true)
    ensures forall c | c in Commands ::
              Link(c) in BusyboxSetup(t, paths).tree && BusyboxSetup(t, paths).tree[Link(c)] == Symlink("busybox")
    ensures forall k | k in BusyboxSetup(t, paths).tree :: |k| == 1 || (|k| == 2 && k[0] == "bin" && k[1] != "bash")
  {
    var src := FirstExisting(BusyboxPaths, paths).value;
    var t2 := FreshFileInBin(t, src, "busybox");
    LinksInstalled(t2);
  }

  /** Over a table without command links and with `bin` a directory, every command gets its link. */
  lemma LinksInstalled(t: Tree)
    requires WellFormed(t) && IsDir(t, ["bin"])
    requires forall k | k in t :: |k| == 1 || k == BusyboxDst
    ensures CommandLinks(t, Commands).outcome.Pass?
    ensures Extends(CommandLinks(t, Commands).tree, t)
    ensures forall c | c in Commands ::
              Link(c) in CommandLinks(t, Commands).tree && CommandLinks(t, Commands).tree[Link(c)] == Symlink("busybox")
    ensures forall k | k in CommandLinks(t, Commands).tree :: |k| == 1 || (|k| == 2 && k[0] == "bin" && k[1] != "bash")
  {
    LinksComplete(t);
    LinksOnlyAdded(t);
  }

  lemma LinksComplete(t: Tree)
    requires WellFormed(t) && IsDir(t, ["bin"])
    requires forall k | k in t :: |k| == 1 || k == BusyboxDst
    ensures CommandLinks(t, Commands).outcome.Pass?
    ensures forall c | c in Commands ::
              Link(c) in CommandLinks(t, Commands).tree && CommandLinks(t, Commands).tree[Link(c)] == Symlink("busybox")
  {
    CommandNames();
    forall c | c in Commands
      ensures Link(c) !in t
    {
      assert Link(c) != BusyboxDst;
    }
    CommandLinksSucceed(t, Commands);
    CommandLinksComplete(t, Commands);
    CommandLinksAdd(t, Commands);
  }

  lemma LinksOnlyAdded(t: Tree)
    requires WellFormed(t)
    requires forall k | k in t :: |k| == 1 || k == BusyboxDst
    ensures forall k | k in CommandLinks(t, Commands).tree :: |k| == 1 || (|k| == 2 && k[0] == "bin" && k[1] != "bash")
  {
    CommandNames();
    CommandLinksAdd(t, Commands);
  }

  /** `copy2` then `chmod(0o755)` of a host file to a name in `bin` that is not taken yet. */
  lemma FreshFileInBin(t: Tree, src: string, name: string) returns (t2: Tree)
    requires WellFormed(t) && IsDir(t, ["bin"]) && ["bin", name] !in t
    ensures Copy2(t, src, ["bin", name]).Ok?
    ensures Chmod755(Copy2(t, src, ["bin", name]).value, ["bin", name]) == Ok(t2)
    ensures t2 == t[["bin", name] := File(src, true)]
    ensures WellFormed(t2)
  {
    var p := ["bin", name];
    assert Parent(p) == ["bin"];
    ResolveAbsent(t, p, MaxSymlinkHops);
    var t1 := t[p := File(src, false)];
    assert Copy2(t, src, p) == Ok(t1);
    t2 := t1[p := File(src, true)];
    assert t2 == t[p := File(src, true)];
    ResolveAbsent(t, p, MaxSymlinkHops);
    assert Resolve(t1, p, MaxSymlinkHops) == Some(p);
  }

  /** Every command link resolves to the busybox copy. */
  lemma LinksReachBusybox(t: Tree, c: string)
    requires Link(c) in t && t[Link(c)] == Symlink("busybox")
    requires BusyboxDst in t && t[BusyboxDst].File?
    ensures Resolve(t, Link(c), MaxSymlinkHops) == Some(BusyboxDst)
    ensures Exists(t, Link(c))
  {
    assert Sibling(Link(c), "busybox") == BusyboxDst;
  }

  /**
   * Over a table where `bin` is a directory without a `bash` entry, the bash
   * step adds entries without altering any; when it completes with bash on the
   * host, bash is installed executable and every library `ldd` lists (and the
   * host has) exists under the rootfs; a missing `ldd` stops it.
   */
  lemma BashInstalled(t: Tree, host: Host)
    requires WellFormed(t) && IsDir(t, ["bin"]) && BashDst !in t
    ensures Extends(BashInstall(t, host).tree, t)
    ensures BashPath !in host.paths ==> BashInstall(t, host) == Step(t, Pass)
    ensures BashPath in host.paths && host.ldd.None? ==> BashInstall(t, host).outcome == Fail(LddMissing)
    ensures BashPath in host.paths && BashInstall(t, host).outcome.Pass? ==>
              && BashDst in BashInstall(t, host).tree
              && BashInstall(t, host).tree[BashDst] == File(BashPath, true)
              && host.ldd.Some?
              && forall line | line in SplitLines(host.ldd.value) :: LineInstalled(BashInstall(t, host).tree, line, host.paths)
  {
    if BashPath in host.paths {
      var t2 := FreshFileInBin(t, BashPath, "bash");
      if host.ldd.Some? {
        LibraryCopiesSpec(t2, SplitLines(host.ldd.value), host.paths);
      }
    }
  }

  /** Once the skeleton is in place, the rest of `create` fails for want of busybox exactly when no candidate exists. */
  lemma AfterSkeletonNeedsBusybox(sk: Step<FsError>, host: Host)
    requires sk.outcome.Pass? && TopLevelOnly(sk.tree)
    ensures AfterSkeleton(sk, host).outcome == Fail(BusyboxUnavailable) <==> FirstExisting(BusyboxPaths, host.paths).None?
  {
    if FirstExisting(BusyboxPaths, host.paths).Some? {
      BusyboxInstalled(sk.tree, host.paths);
      var bb := BusyboxSetup(sk.tree, host.paths).tree;
      assert AfterSkeleton(sk, host) == BashInstall(bb, host);
      BashInstallFailures(bb, host);
    } else {
      assert BusyboxSetup(sk.tree, host.paths) == Setup(sk.tree, Ok(false));
    }
  }

  /** The bash step fails only with a filesystem error or for want of `ldd`. */
  lemma BashInstallFailures(t: Tree, host: Host)
    requires WellFormed(t)
    ensures BashInstall(t, host).outcome.Fail? ==>
              BashInstall(t, host).outcome.error.Fs? || BashInstall(t, host).outcome.error == LddMissing
  {
  }

  /** `create` fails for want of busybox exactly when none of the three candidates exists on the host. */
  lemma ProvisioningNeedsBusybox(host: Host)
    ensures Provisioning(host).outcome == Fail(BusyboxUnavailable) <==> forall p | p in BusyboxPaths :: p !in host.paths
  {
    SkeletonOnFreshDir(host);
    AfterSkeletonNeedsBusybox(Skeleton(FreshDir(host), SkeletonDirs), host);
    FirstExistingIsFirst(BusyboxPaths, host.paths);
  }

  /**
   * After a successful `create`: the skeleton directories exist, `bin/busybox`
   * is an executable copy of the first busybox found, and each command is a
   * link to it that resolves.
   */
  lemma ProvisioningLayout(host: Host)
    requires Provisioning(host).outcome.Pass?
    ensures forall d | d in SkeletonDirs :: IsDir(Provisioning(host).tree, [d])
    ensures FirstExisting(BusyboxPaths, host.paths).Some?
    ensures BusyboxDst in Provisioning(host).tree
    ensures Provisioning(host).tree[BusyboxDst] == File(FirstExisting(BusyboxPaths, host.paths).value, true)
    ensures forall c | c in Commands ::
              && Link(c) in Provisioning(host).tree
              && Provisioning(host).tree[Link(c)] == Symlink("busybox")
              && Resolve(Provisioning(host).tree, Link(c), MaxSymlinkHops) == Some(BusyboxDst)
              && Exists(Provisioning(host).tree, Link(c))
  {
    var sk := Skeleton(FreshDir(host), SkeletonDirs);
    SkeletonOnFreshDir(host);
    AfterSkeletonLayout(sk, host);
  }

  lemma AfterSkeletonLayout(sk: Step<FsError>, host: Host)
    requires sk.outcome.Pass? && TopLevelOnly(sk.tree) && AfterSkeleton(sk, host).outcome.Pass?
    ensures Extends(AfterSkeleton(sk, host).tree, sk.tree)
    ensures FirstExisting(BusyboxPaths, host.paths).Some?
    ensures BusyboxDst in AfterSkeleton(sk, host).tree
    ensures AfterSkeleton(sk, host).tree[BusyboxDst] == File(FirstExisting(BusyboxPaths, host.paths).value, true)
    ensures forall c | c in Commands ::
              && Link(c) in AfterSkeleton(sk, host).tree
              && AfterSkeleton(sk, host).tree[Link(c)] == Symlink("busybox")
              && Resolve(AfterSkeleton(sk, host).tree, Link(c), MaxSymlinkHops) == Some(BusyboxDst)
              && Exists(AfterSkeleton(sk, host).tree, Link(c))
  {
    BusyboxInstalled(sk.tree, host.paths);
    var bb := BusyboxSetup(sk.tree, host.paths).tree;
    BashInstalled(bb, host);
    ExtendsTransitive(AfterSkeleton(sk, host).tree, bb, sk.tree);
    var r := AfterSkeleton(sk, host).tree;
    forall c | c in Commands
      ensures Link(c) in r && r[Link(c)] == Symlink("busybox")
      ensures Resolve(r, Link(c), MaxSymlinkHops) == Some(BusyboxDst) && Exists(r, Link(c))
    {
      LinksReachBusybox(r, c);
    }
  }

  /**
   * After a successful `create` on a host with bash: bash is an executable copy,
   * and every library `ldd` lists and the host has exists under the rootfs.
   */
  lemma ProvisioningBash(host: Host)
    requires Provisioning(host).outcome.Pass? && BashPath in host.paths
    ensures BashDst in Provisioning(host).tree && Provisioning(host).tree[BashDst] == File(BashPath, true)
    ensures host.ldd.Some?
    ensures forall line | line in SplitLines(host.ldd.value) :: LineInstalled(Provisioning(host).tree, line, host.paths)
  {
    var sk := Skeleton(FreshDir(host), SkeletonDirs);
    SkeletonOnFreshDir(host);
    AfterSkeletonLayout(sk, host);
    BusyboxInstalled(sk.tree, host.paths);
    BashInstalled(BusyboxSetup(sk.tree, host.paths).tree, host);
  }

  /** Bash is optional: with busybox and without bash on the host, `create` succeeds. */
  lemma ProvisioningWithoutBash(host: Host)
    requires BashPath !in host.paths && exists p :: p in BusyboxPaths && p in host.paths
    ensures Provisioning(host).outcome.Pass?
  {
    var sk := Skeleton(FreshDir(host), SkeletonDirs);
    SkeletonOnFreshDir(host);
    BusyboxFound(host.paths);
    BusyboxInstalled(sk.tree, host.paths);
    var bb := BusyboxSetup(sk.tree, host.paths);
    assert AfterSkeleton(sk, host) == BashInstall(bb.tree, host);
    BashInstalled(bb.tree, host);
  }

  /** Some busybox candidate exists on the host exactly when the search finds one. */
  lemma BusyboxFound(paths: set<string>)
    ensures (exists p :: p in BusyboxPaths && p in paths) <==> FirstExisting(BusyboxPaths, paths).Some?
  {
    FirstExistingIsFirst(BusyboxPaths, paths);
    if exists p :: p in BusyboxPaths && p in paths {
      var p :| p in BusyboxPaths && p in paths;
      var i :| 0 <= i < |BusyboxPaths| && BusyboxPaths[i] == p;
      assert BusyboxPaths[i] in paths;
    }
  }

  /** With busybox and bash but no `ldd` program, `create` raises: starting `ldd` is not guarded. */
  lemma ProvisioningLddMissing(host: Host)
    requires BashPath in host.paths && host.ldd.None? && exists p :: p in BusyboxPaths && p in host.paths
    ensures Provisioning(host).outcome == Fail(LddMissing)
  {
    var sk := Skeleton(FreshDir(host), SkeletonDirs);
    SkeletonOnFreshDir(host);
    FirstExistingIsFirst(BusyboxPaths, host.paths);
    BusyboxInstalled(sk.tree, host.paths);
    BashInstalled(BusyboxSetup(sk.tree, host.paths).tree, host);
  }

  // ---------------------------------------------------------------------------
  // The manager
  // ---------------------------------------------------------------------------

  /** Creates and removes one container's root filesystem. */
  class RootFSManager {
    const name: string
    const host: Host
    /** The temporary directory, once `create` has picked it. */
    var rootfs: Option<string>
    /** Whether that directory is on disk. */
    var present: bool
    /** What the directory holds. */
    var tree: Tree

    ghost predicate Valid()
      reads this
    {
      WellFormed(tree) && (present ==> rootfs.Some?) && (!present ==> tree == map[])
    }

    constructor (name: string, host: Host)
      ensures Valid() && this.name == name && this.host == host
      ensures rootfs == None && !present && tree == map[]
    {
      this.name := name;
      this.host := host;
      rootfs := None;
      present := false;
      tree := map[];
    }

    /**
     * `create`: a fresh temporary directory, then the skeleton, busybox and
     * bash steps.  The directory stays in place, partly filled, when a step fails.
     */
    method Create() returns (r: Result<string, Error>)
      requires Valid()
      modifies this
      ensures Valid() && present && rootfs == Some(TempPath(host, name))
      ensures tree == Provisioning(host).tree
      ensures r == CreateResult(host, name)
    {
      var path := TempPath(host, name);
      rootfs := Some(path);
      present := true;
      tree := FreshDir(host);
      var skeleton := MakeSkeleton(SkeletonDirs);
      if skeleton.Fail? {
        r := Err(Fs(skeleton.error));
        return;
      }
      var installed := SetupBusybox();
      if installed.Err? {
        r := Err(Fs(installed.error));
      } else if !installed.value {
        r := Err(BusyboxUnavailable);
      } else {
        var bash := CopyBash();
        r := if bash.Fail? then Err(bash.error) else Ok(path);
      }
    }

    /** The skeleton step: `mkdir(parents=True, exist_ok=True)` of each directory of `dirs`, in order. */
    method MakeSkeleton(dirs: seq<string>) returns (outcome: Outcome<FsError>)
      requires Valid() && present
      modifies this`tree
      ensures Valid() && present
      ensures Step(tree, outcome) == Skeleton(old(tree), dirs)
    {
      ghost var start := tree;
      var i := 0;
      while i < |dirs|
        invariant 0 <= i <= |dirs|
        invariant WellFormed(tree)
        invariant Skeleton(tree, dirs[i..]) == Skeleton(start, dirs)
      {
        SkeletonAt(tree, dirs, i);
        match MkdirParents(tree, [dirs[i]])
        case Err(e) =>
          return Fail(e);
        case Ok(t) =>
          tree := t;
        i := i + 1;
      }
      return Pass;
    }

    /** The busybox search: the first of the candidate paths the host has. */
    method FindBusybox() returns (src: Option<string>)
      ensures src == FirstExisting(BusyboxPaths, host.paths)
    {
      src := None;
      var i := 0;
      while i < |BusyboxPaths|
        invariant 0 <= i <= |BusyboxPaths|
        invariant FirstExisting(BusyboxPaths[i..], host.paths) == FirstExisting(BusyboxPaths, host.paths)
      {
        if BusyboxPaths[i] in host.paths {
          return Some(BusyboxPaths[i]);
        }
        assert BusyboxPaths[i..][1..] == BusyboxPaths[i + 1..];
        i := i + 1;
      }
    }

    /** `_setup_busybox`. */
    method SetupBusybox() returns (installed: Result<bool, FsError>)
      requires Valid() && present
      modifies this`tree
      ensures Valid() && present
      ensures Setup(tree, installed) == BusyboxSetup(old(tree), host.paths)
    {
      var src := FindBusybox();
      if src.None? {
        return Ok(false);
      }
      match Copy2(tree, src.value, BusyboxDst)
      case Err(e) =>
        return Err(e);
      case Ok(t) =>
        tree := t;
      match Chmod755(tree, BusyboxDst)
      case Err(e) =>
        return Err(e);
      case Ok(t) =>
        tree := t;
      var links := LinkCommands(Commands);
      if links.Fail? {
        return Err(links.error);
      }
      return Ok(true);
    }

    /** The command links: `symlink_to('busybox')` for each name whose link does not exist. */
    method LinkCommands(names: seq<string>) returns (outcome: Outcome<FsError>)
      requires Valid() && present
      modifies this`tree
      ensures Valid() && present
      ensures Step(tree, outcome) == CommandLinks(old(tree), names)
    {
      ghost var start := tree;
      var i := 0;
      while i < |names|
        invariant 0 <= i <= |names|
        invariant WellFormed(tree)
        invariant CommandLinks(tree, names[i..]) == CommandLinks(start, names)
      {
        var link := Link(names[i]);
        CommandLinksAt(tree, names, i);
        if !Exists(tree, link) {
          match SymlinkTo(tree, link, "busybox")
          case Err(e) =>
            return Fail(e);
          case Ok(t) =>
            tree := t;
        }
        i := i + 1;
      }
      return Pass;
    }

    /** `_copy_bash`. */
    method CopyBash() returns (outcome: Outcome<Error>)
      requires Valid() && present
      modifies this`tree
      ensures Valid() && present
      ensures Step(tree, outcome) == BashInstall(old(tree), host)
    {
      if BashPath !in host.paths {
        return Pass;
      }
      match Copy2(tree, BashPath, BashDst)
      case Err(e) =>
        return Fail(Fs(e));
      case Ok(t) =>
        tree := t;
      match Chmod755(tree, BashDst)
      case Err(e) =>
        return Fail(Fs(e));
      case Ok(t) =>
        tree := t;
      if host.ldd.None? {
        return Fail(LddMissing);
      }
      var libs := CopyLddLibraries(SplitLines(host.ldd.value));
      if libs.Fail? {
        return Fail(Fs(libs.error));
      }
      return Pass;
    }

    /** The library loop: each library an `ldd` line names and the host has is copied, stopping at the first error. */
    method CopyLddLibraries(lines: seq<string>) returns (outcome: Outcome<FsError>)
      requires Valid() && present
      modifies this`tree
      ensures Valid() && present
      ensures Step(tree, outcome) == LibraryCopies(old(tree), lines, host.paths)
    {
      ghost var libs := Libraries(lines, host.paths);
      ghost var start := tree;
      var i := 0;
      while i < |lines|
        invariant 0 <= i <= |lines|
        invariant Valid() && present
        invariant CopyLibraries(tree, libs[i..]) == LibraryCopies(start, lines, host.paths)
      {
        CopyLibrariesAt(tree, libs, i);
        var lib := LineLibrary(lines[i], host.paths);
        assert lib == libs[i];
        if lib.Some? {
          var copied := CopyLibrary(lib.value);
          if copied.Fail? {
            return copied;
          }
        }
        i := i + 1;
      }
      return Pass;
    }

    /** One library: its directories are made, then it is copied unless its destination exists. */
    method CopyLibrary(lib: string) returns (outcome: Outcome<FsError>)
      requires Valid() && present
      modifies this`tree
      ensures Valid() && present
      ensures Step(tree, outcome) == LibraryCopy(old(tree), lib)
    {
      var dst := Destination(lib);
      if dst == [] {
        return Pass;
      }
      match MkdirParents(tree, Parent(dst))
      case Err(e) =>
        return Fail(e);
      case Ok(t) =>
        tree := t;
      if !Exists(tree, dst) {
        match Copy2(tree, lib, dst)
        case Err(e) =>
          return Fail(e);
        case Ok(t) =>
          tree := t;
      }
      return Pass;
    }

    /** `cleanup`: removes the directory if it is there; nothing to do otherwise, so a second call changes nothing. */
    method Cleanup()
      requires Valid()
      modifies this`present, this`tree
      ensures Valid() && !present && tree == map[]
      ensures !old(present) ==> unchanged(this)
    {
      if rootfs.Some? && present {
        present := false;
        tree := map[];
      }
    }
  }
}
