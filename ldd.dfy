/**
 * The pure parts of the provisioner's shared-library step: reading one line of
 * `ldd` output into a library path, and mapping a host library path to the
 * place under the rootfs where its copy goes (`rootfs / path.lstrip('/')`).
 */
module Ldd {
  import opened Wrappers
  import opened PyText
  import opened RootTree

  /**
   * One line of `ldd` output:
   *   `libc.so.6 => /lib/x86_64-linux-gnu/libc.so.6 (0x...)` gives the first word after `=>`;
   *   `/lib64/ld-linux-x86-64.so.2 (0x...)` gives its first word;
   * anything else gives nothing.
   */
  function LddLinePath(line: string): Option<string> {
    if Contains(line, "=>") then
      var parts := Split(Strip(SplitOn(line, "=>")[1]));
      if parts != [] then Some(parts[0]) else None
    else if Strip(line) != [] && Strip(line)[0] == '/' then
      SplitHeadStartsWith(Strip(line));
      Some(Split(Strip(line))[0])
    else None
  }

  lemma StripHead(s: string)
    requires Strip(s) != []
    ensures !IsSpace(Strip(s)[0])
  {
  }

  /**
   * On a line containing `=>`, the parser yields exactly the first whitespace-separated
   * word of the text between the first `=>` and the next one (or the end of the line).
   */
  lemma LddArrowLine(line: string, t: string)
    requires Contains(line, "=>")
    ensures LddLinePath(line) == Some(t) <==> IsFirstToken(SplitOn(line, "=>")[1], t)
  {
    var seg := SplitOn(line, "=>")[1];
    SplitIgnoresStrip(seg);
    SplitHead(seg, t);
  }

  /** On a line containing `=>`, the parser yields nothing exactly when nothing but whitespace follows the `=>`. */
  lemma LddArrowLineBlank(line: string)
    requires Contains(line, "=>")
    ensures LddLinePath(line) == None <==> AllSpace(SplitOn(line, "=>")[1])
  {
    var seg := SplitOn(line, "=>")[1];
    SplitIgnoresStrip(seg);
    SplitEmpty(seg);
  }

  /**
   * On a line without `=>`, the parser yields `t` exactly when `t` is the line's
   * first word and starts with `/`; a line whose first word is anything else yields nothing.
   */
  lemma LddPlainLine(line: string, t: string)
    requires !Contains(line, "=>")
    ensures LddLinePath(line) == Some(t) <==> IsFirstToken(line, t) && t[0] == '/'
  {
    var st := Strip(line);
    SplitIgnoresStrip(line);
    SplitHead(line, t);
    if st != [] {
      StripHead(line);
      SplitHeadStartsWith(st);
    } else {
      SplitEmpty(st);
    }
  }

  // ---------------------------------------------------------------------------
  // Destination of a library copy
  // ---------------------------------------------------------------------------

  /** A path component as pathlib keeps it: not empty, not `.`, without `/` (`..` is kept). */
  predicate IsComponent(c: string) { c != "" && c != "." && !Contains(c, "/") }

  /** The `/`-separated pieces of a path, with the empty and `.` ones dropped. */
  function KeepComponents(parts: seq<string>): (r: Path)
    ensures forall i :: 0 <= i < |r| ==> IsComponent(r[i])
    ensures forall c :: c in r <==> c in parts && IsComponent(c)
  {
    if parts == [] then []
    else if IsComponent(parts[0]) then [parts[0]] + KeepComponents(parts[1..])
    else KeepComponents(parts[1..])
  }

  /** Filtering is piecewise: the kept components keep their order across a concatenation. */
  lemma {:induction false} KeepComponentsAppend(a: seq<string>, b: seq<string>)
    ensures KeepComponents(a + b) == KeepComponents(a) + KeepComponents(b)
  {
    if a == [] {
      assert a + b == b;
    } else {
      assert (a + b)[0] == a[0] && (a + b)[1..] == a[1..] + b;
      KeepComponentsAppend(a[1..], b);
    }
  }

  /** How pathlib splits a relative path into components. */
  function Components(s: string): Path {
    KeepComponents(SplitOn(s, "/"))
  }

  /** `rootfs / lib.lstrip('/')`, as a path below the rootfs. */
  function Destination(lib: string): Path {
    Components(LStripChar(lib, '/'))
  }

  lemma {:induction false} KeepComponentsIdentity(parts: seq<string>)
    requires forall i :: 0 <= i < |parts| ==> IsComponent(parts[i])
    ensures KeepComponents(parts) == parts
  {
    if parts != [] {
      KeepComponentsIdentity(parts[1..]);
    }
  }

  /** A joined path whose first component is a real component does not start with `/`. */
  lemma JoinedPathRelative(comps: Path)
    requires comps != [] && IsComponent(comps[0])
    ensures LStripChar("/" + Join(comps, "/"), '/') == Join(comps, "/")
  {
    var j := Join(comps, "/");
    var c := comps[0];
    JoinHead(comps, "/");
    assert j[0] == c[0];
    assert !OccursAt(c, "/", 0);
    assert c[0..1] == [c[0]];
    assert ("/" + j)[1..] == j;
  }

  /**
   * A library at the absolute host path `/c1/c2/.../cn` is copied to
   * `c1/c2/.../cn` below the rootfs: the same absolute path inside the container.
   */
  lemma DestinationMirrorsHostPath(comps: Path)
    requires comps != [] && forall i :: 0 <= i < |comps| ==> IsComponent(comps[i])
    ensures Destination("/" + Join(comps, "/")) == comps
  {
    JoinedPathRelative(comps);
    SplitOnJoin(comps, "/");
    KeepComponentsIdentity(comps);
  }

  lemma DotDotIsComponent()
    ensures IsComponent("..")
  {
    ContainsChar("..", '/');
  }

  lemma DotDotPath(x: string)
    ensures "/" + Join(["..", x], "/") == "/../" + x
  {
    assert ["..", x][1..] == [x];
  }

  /** `..` is not collapsed: the destination of `/../x` is `../x` below the rootfs, one level above it. */
  lemma DestinationKeepsDotDot(x: string)
    requires IsComponent(x)
    ensures Destination("/../" + x) == ["..", x]
  {
    var comps := ["..", x];
    DotDotIsComponent();
    DestinationMirrorsHostPath(comps);
    DotDotPath(x);
  }
}
