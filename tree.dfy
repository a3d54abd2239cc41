/**
 * The directory table under a container's root filesystem, and the effect on it
 * of the pathlib and shutil calls the provisioner makes: `mkdir(parents=True,
 * exist_ok=True)`, `exists()` (which follows symbolic links), `shutil.copy2`,
 * `chmod(0o755)` and `symlink_to`.  Keys are paths relative to the rootfs, one
 * component per level, as pathlib normalises them.
 */
module RootTree {
  import opened Wrappers
  import opened PyText

  /** A path below the rootfs; `[]` is the rootfs directory itself. */
  type Path = seq<string>

  /** What a name in the table is: a directory, a copied host file, or a symbolic link to a name in the same directory. */
  datatype Entry = Dir | File(source: string, executable: bool) | Symlink(target: string)

  type Tree = map<Path, Entry>

  /** An `OSError` raised by a filesystem call, with the path it concerns (the errno is not modelled). */
  datatype FsError = OSError(path: Path)

  /** Linux stops following symbolic links after this many hops (ELOOP). */
  const MaxSymlinkHops: nat := 40

  function Parent(p: Path): Path { if p == [] then [] else p[..|p| - 1] }

  predicate IsPrefix(a: Path, b: Path) { |a| <= |b| && b[..|a|] == a }

  /** `p` names a directory: the rootfs itself or a directory entry. */
  predicate IsDir(t: Tree, p: Path) { p == [] || (p in t && t[p].Dir?) }

  /** Every entry sits inside a directory of the table. */
  ghost predicate WellFormed(t: Tree) {
    forall p | p in t :: p != [] && IsDir(t, Parent(p))
  }

  /** Every entry of `t` is still in `t'`, unchanged. */
  ghost predicate Extends(t': Tree, t: Tree) {
    forall p | p in t :: p in t' && t'[p] == t[p]
  }

  lemma ExtendsTransitive(t3: Tree, t2: Tree, t1: Tree)
    requires Extends(t3, t2) && Extends(t2, t1)
    ensures Extends(t3, t1)
  {
  }

  // ---------------------------------------------------------------------------
  // Following symbolic links
  // ---------------------------------------------------------------------------

  /** The path a link's target names: the target, in the link's own directory. */
  function Sibling(p: Path, name: string): (r: Path)
    ensures Parent(r) == Parent(p) && r != []
  {
    Parent(p) + [name]
  }

  /**
   * The path `p` stands for once symbolic links in its last component are
   * followed, at most `hops` times; `None` when the hops run out (ELOOP).
   */
  function Resolve(t: Tree, p: Path, hops: nat): (r: Option<Path>)
    ensures r.Some? ==> Parent(r.value) == Parent(p)
    ensures r.Some? && r.value in t ==> !t[r.value].Symlink?
    ensures r.Some? && r.value != p ==> p in t && r.value != []
    ensures p !in t || !t[p].Symlink? ==> r == Some(p)
    ensures r.None? ==> p in t && t[p].Symlink?
    ensures hops == 0 && p in t && t[p].Symlink? ==> r.None?
    decreases hops
  {
    if p in t && t[p].Symlink? then
      if hops == 0 then None else Resolve(t, Sibling(p, t[p].target), hops - 1)
    else Some(p)
  }

  /** `Path.exists()`: true when `p`, with its links followed, names an entry. */
  predicate Exists(t: Tree, p: Path) {
    p == [] || (Resolve(t, p, MaxSymlinkHops).Some? && Resolve(t, p, MaxSymlinkHops).value in t)
  }

  /** Adding entries never changes where an existing path resolves to. */
  lemma {:induction false} ResolveMonotone(t': Tree, t: Tree, p: Path, hops: nat)
    requires Extends(t', t)
    requires Resolve(t, p, hops).Some? && Resolve(t, p, hops).value in t
    ensures Resolve(t', p, hops) == Resolve(t, p, hops)
    decreases hops
  {
    if p in t && t[p].Symlink? {
      ResolveMonotone(t', t, Sibling(p, t[p].target), hops - 1);
    }
  }

  /** A path that exists still exists once entries have been added. */
  lemma ExistsMonotone(t': Tree, t: Tree, p: Path)
    requires Extends(t', t) && Exists(t, p)
    ensures Exists(t', p)
  {
    if p != [] {
      ResolveMonotone(t', t, p, MaxSymlinkHops);
    }
  }

  /** Resolving a path that is absent from the table leaves it as it is. */
  lemma ResolveAbsent(t: Tree, p: Path, hops: nat)
    requires p !in t
    ensures Resolve(t, p, hops) == Some(p)
  {
  }

  // ---------------------------------------------------------------------------
  // mkdir(parents=True, exist_ok=True)
  // ---------------------------------------------------------------------------

  /** Neither `p` nor any directory above it is held by something other than a directory. */
  predicate NoBlockingEntry(t: Tree, p: Path)
    decreases |p|
  {
    p == [] || ((p !in t || t[p].Dir?) && NoBlockingEntry(t, Parent(p)))
  }

  /**
   * `Path.mkdir(parents=True, exist_ok=True)`: creates every missing directory
   * on the way to `p`; an existing directory is not an error, anything else in
   * the way is.
   */
  function MkdirParents(t: Tree, p: Path): (r: Result<Tree, FsError>)
    requires WellFormed(t)
    ensures r.Ok? <==> NoBlockingEntry(t, p)
    ensures r.Ok? ==> WellFormed(r.value) && Extends(r.value, t) && IsDir(r.value, p)
    ensures r.Err? ==> p != []
    decreases |p|
  {
    if p == [] then Ok(t)
    else if p in t then
      if t[p].Dir? then
        AncestorsAreDirs(t, p);
        Ok(t)
      else Err(OSError(p))
    else
      match MkdirParents(t, Parent(p))
      case Err(e) => Err(e)
      case Ok(t1) => Ok(t1[p := Dir])
  }

  /** `mkdir(parents=True)` adds nothing but directories on the way to `p`. */
  lemma {:induction false} MkdirParentsAdds(t: Tree, p: Path)
    requires WellFormed(t) && MkdirParents(t, p).Ok?
    ensures forall k | k in MkdirParents(t, p).value && k !in t :: IsPrefix(k, p) && MkdirParents(t, p).value[k] == Dir
    decreases |p|
  {
    if p != [] && p !in t {
      MkdirParentsAdds(t, Parent(p));
      assert forall k :: IsPrefix(k, Parent(p)) ==> IsPrefix(k, p);
    }
  }

  /** In a well-formed table, every ancestor of a directory entry is a directory entry. */
  lemma {:induction false} AncestorsAreDirs(t: Tree, p: Path)
    requires WellFormed(t) && p in t && t[p].Dir?
    ensures NoBlockingEntry(t, p)
    decreases |p|
  {
    if Parent(p) != [] {
      AncestorsAreDirs(t, Parent(p));
    }
  }

  // ---------------------------------------------------------------------------
  // shutil.copy2, chmod, symlink_to
  // ---------------------------------------------------------------------------

  /** Where `shutil.copy2(src, dst)` writes: the destination with its links followed. */
  function CopyTarget(t: Tree, dst: Path): Option<Path> {
    Resolve(t, dst, MaxSymlinkHops)
  }

  /**
   * `shutil.copy2(src, dst)` of the host file `src`: the file lands where `dst`
   * leads (a link is written through), replacing a file there.  The directory
   * the destination must sit in has to exist.
   */
  function Copy2(t: Tree, src: string, dst: Path): (r: Result<Tree, FsError>)
    requires WellFormed(t)
    ensures r.Ok? <==> CopyTarget(t, dst).Some? && CopyTarget(t, dst).value != []
                       && IsDir(t, Parent(dst))
                       && !IsDir(t, CopyTarget(t, dst).value)
    ensures r.Ok? ==> WellFormed(r.value)
    ensures r.Ok? ==> r.value == t[CopyTarget(t, dst).value := File(src, false)]
  {
    match CopyTarget(t, dst)
    case None => Err(OSError(dst))
    case Some(q) =>
      if IsDir(t, q) || !IsDir(t, Parent(dst)) then Err(OSError(q))
      else Ok(t[q := File(src, false)])
  }

  /** `Path.chmod(0o755)`: marks the file `p` leads to executable (directory modes are not tracked). */
  function Chmod755(t: Tree, p: Path): (r: Result<Tree, FsError>)
    requires WellFormed(t)
    ensures r.Ok? <==> Exists(t, p)
    ensures r.Ok? ==> WellFormed(r.value) && r.value.Keys == t.Keys
    ensures r.Ok? && p != [] ==> var q := Resolve(t, p, MaxSymlinkHops).value;
      forall k | k in t :: r.value[k] == if k == q && t[q].File? then t[q].(executable := true) else t[k]
  {
    if p == [] then Ok(t)
    else
      match Resolve(t, p, MaxSymlinkHops)
      case None => Err(OSError(p))
      case Some(q) =>
        if q !in t then Err(OSError(p))
        else if t[q].File? then Ok(t[q := t[q].(executable := true)])
        else Ok(t)
  }

  /** `Path.symlink_to(target)`: fails when anything, even a dangling link, already holds the name. */
  function SymlinkTo(t: Tree, p: Path, target: string): (r: Result<Tree, FsError>)
    requires WellFormed(t)
    ensures r.Ok? <==> p != [] && p !in t && IsDir(t, Parent(p))
    ensures r.Ok? ==> WellFormed(r.value) && r.value == t[p := Symlink(target)]
  {
    if p == [] || p in t || !IsDir(t, Parent(p)) then Err(OSError(p))
    else Ok(t[p := Symlink(target)])
  }
}
