/**
 * The Python `str` operations the container core relies on, written out with
 * Python's own rules: `str(int)`, `strip()`, `lstrip(ch)`, `split()` on
 * whitespace, `split(sep)`, `sep in s` and `splitlines()`.  Each comes with the
 * facts that pin down what it computes independently of how it computes it.
 */
module PyText {
  import opened Wrappers

  // ---------------------------------------------------------------------------
  // Character classes
  // ---------------------------------------------------------------------------

  /** The characters Python's `str.isspace()` accepts. */
  const Whitespace: set<char> := {
    ' ', '\t', '\n', '\U{0B}', '\U{0C}', '\r', '\U{1C}', '\U{1D}', '\U{1E}', '\U{1F}',
    '\U{85}', '\U{A0}', '\U{1680}',
    '\U{2000}', '\U{2001}', '\U{2002}', '\U{2003}', '\U{2004}', '\U{2005}',
    '\U{2006}', '\U{2007}', '\U{2008}', '\U{2009}', '\U{200A}',
    '\U{2028}', '\U{2029}', '\U{202F}', '\U{205F}', '\U{3000}'}

  /** The line boundaries `str.splitlines()` recognises (`\r\n` is handled as a pair). */
  const LineBreaks: set<char> := {
    '\n', '\U{0B}', '\U{0C}', '\r', '\U{1C}', '\U{1D}', '\U{1E}', '\U{85}', '\U{2028}', '\U{2029}'}

  /** Python's `str.isspace()` on one character. */
  predicate IsSpace(c: char) { c in Whitespace }

  predicate IsLineBreak(c: char) { c in LineBreaks }

  predicate IsDigit(c: char) { '0' <= c <= '9' }

  predicate AllSpace(s: string) { forall i :: 0 <= i < |s| ==> IsSpace(s[i]) }

  predicate NoSpace(s: string) { forall i :: 0 <= i < |s| ==> !IsSpace(s[i]) }

  predicate NoLineBreak(s: string) { forall i :: 0 <= i < |s| ==> !IsLineBreak(s[i]) }

  predicate AllDigits(s: string) { forall i :: 0 <= i < |s| ==> IsDigit(s[i]) }

  // ---------------------------------------------------------------------------
  // str(int) and its reader
  // ---------------------------------------------------------------------------

  function DigitChar(d: nat): (c: char)
    requires d < 10
    ensures IsDigit(c)
  {
    (('0' as int) + d) as char
  }

  function DigitValue(c: char): (d: nat)
    requires IsDigit(c)
    ensures d < 10
  {
    (c as int) - ('0' as int)
  }

  /** `str(n)` for a non-negative integer: canonical decimal, no leading zero. */
  function NatToDecimal(n: nat): (r: string)
    ensures r != [] && AllDigits(r)
    ensures r[0] == '0' ==> n == 0
    decreases n
  {
    if n < 10 then [DigitChar(n)] else NatToDecimal(n / 10) + [DigitChar(n % 10)]
  }

  /** `str(i)` for any Python integer: a leading `-` for negatives. */
  function IntToDecimal(i: int): (r: string)
    ensures r != [] && ' ' !in r
    ensures (i < 0) == (r[0] == '-')
  {
    if i < 0 then "-" + NatToDecimal(-i) else NatToDecimal(i)
  }

  /** The value of a string of decimal digits. */
  function DecimalValue(s: string): nat
    requires AllDigits(s)
  {
    if s == [] then 0 else DecimalValue(s[..|s| - 1]) * 10 + DigitValue(s[|s| - 1])
  }

  /** Reads an optionally negative decimal integer, as the kernel reads the interface files. */
  function ParseInt(s: string): Option<int> {
    if |s| > 1 && s[0] == '-' && AllDigits(s[1..]) then Some(0 - DecimalValue(s[1..]))
    else if s != [] && AllDigits(s) then Some(DecimalValue(s))
    else None
  }

  lemma {:induction false} NatToDecimalValue(n: nat)
    ensures DecimalValue(NatToDecimal(n)) == n
    decreases n
  {
    if n >= 10 {
      var prefix := NatToDecimal(n / 10);
      var r := prefix + [DigitChar(n % 10)];
      assert r[..|r| - 1] == prefix;
      NatToDecimalValue(n / 10);
    }
  }

  /** Reading back `str(i)` gives `i`: the decimal text denotes exactly the integer. */
  lemma DecimalRoundTrip(i: int)
    ensures ParseInt(IntToDecimal(i)) == Some(i)
  {
    if i < 0 {
      NegativeRoundTrip(i);
    } else {
      NatToDecimalValue(i);
      assert ParseInt(NatToDecimal(i)) == Some(DecimalValue(NatToDecimal(i)));
    }
  }

  lemma NegativeRoundTrip(i: int)
    requires i < 0
    ensures ParseInt(IntToDecimal(i)) == Some(i)
  {
    var d := NatToDecimal(-i);
    var r := "-" + d;
    assert r[0] == '-' && r[1..] == d && |r| > 1;
    NatToDecimalValue(-i);
  }

  /** Distinct integers have distinct decimal texts. */
  lemma DecimalInjective(i: int, j: int)
    requires IntToDecimal(i) == IntToDecimal(j)
    ensures i == j
  {
    DecimalRoundTrip(i);
    DecimalRoundTrip(j);
  }

  // ---------------------------------------------------------------------------
  // strip(), lstrip(ch)
  // ---------------------------------------------------------------------------

  /** The number of whitespace characters `lstrip()` removes. */
  function LeadingSpace(s: string): (k: nat)
    ensures k <= |s| && AllSpace(s[..k])
    ensures k < |s| ==> !IsSpace(s[k])
  {
    if s == [] || !IsSpace(s[0]) then 0
    else
      var k' := LeadingSpace(s[1..]);
      assert s[..k' + 1] == [s[0]] + s[1..][..k'];
      k' + 1
  }

  /** The number of whitespace characters `rstrip()` removes. */
  function TrailingSpace(s: string): (k: nat)
    ensures k <= |s| && AllSpace(s[|s| - k..])
    ensures k < |s| ==> !IsSpace(s[|s| - k - 1])
  {
    if s == [] || !IsSpace(s[|s| - 1]) then 0
    else
      var k' := TrailingSpace(s[..|s| - 1]);
      TrailingSpaceStep(s, k');
      k' + 1
  }

  lemma TrailingSpaceStep(s: string, k: nat)
    requires s != [] && IsSpace(s[|s| - 1])
    requires k <= |s| - 1 && AllSpace(s[..|s| - 1][|s| - 1 - k..])
    requires k < |s| - 1 ==> !IsSpace(s[..|s| - 1][|s| - 2 - k])
    ensures AllSpace(s[|s| - (k + 1)..])
    ensures k + 1 < |s| ==> !IsSpace(s[|s| - k - 2])
  {
    var t := s[|s| - (k + 1)..];
    forall i | 0 <= i < |t|
      ensures IsSpace(t[i])
    {
      if i < k {
        assert t[i] == s[..|s| - 1][|s| - 1 - k..][i];
      }
    }
  }

  function LStrip(s: string): string { s[LeadingSpace(s)..] }

  function RStrip(s: string): string { s[..|s| - TrailingSpace(s)] }

  /** `s.strip()`. */
  function Strip(s: string): string { RStrip(LStrip(s)) }

  /** `s.lstrip(c)`: drops every leading copy of `c`. */
  function LStripChar(s: string, c: char): (r: string)
    ensures |r| <= |s| && r == s[|s| - |r|..]
    ensures forall k :: 0 <= k < |s| - |r| ==> s[k] == c
    ensures r == [] || r[0] != c
  {
    if s != [] && s[0] == c then
      var r := LStripChar(s[1..], c);
      assert s[1..][|s| - 1 - |r|..] == s[|s| - |r|..];
      assert forall k :: 1 <= k < |s| ==> s[k] == s[1..][k - 1];
      r
    else s
  }

  // ---------------------------------------------------------------------------
  // split() on whitespace
  // ---------------------------------------------------------------------------

  /** The length of the run of non-whitespace characters that starts `s`. */
  function TokenLength(s: string): (n: nat)
    ensures n <= |s| && NoSpace(s[..n])
    ensures n < |s| ==> IsSpace(s[n])
  {
    if s == [] || IsSpace(s[0]) then 0
    else
      var n' := TokenLength(s[1..]);
      assert s[..n' + 1] == [s[0]] + s[1..][..n'];
      n' + 1
  }

  /** `s.split()`: the maximal runs of non-whitespace characters, in order. */
  function Split(s: string): (r: seq<string>)
    ensures forall i :: 0 <= i < |r| ==> r[i] != [] && NoSpace(r[i])
    decreases |s|
  {
    var t := s[LeadingSpace(s)..];
    if t == [] then []
    else
      var n := TokenLength(t);
      [t[..n]] + Split(t[n..])
  }

  /** `t` is a whitespace-delimited token of `s` that starts at `i` with only whitespace before it. */
  ghost predicate FirstTokenAt(s: string, i: nat, t: string) {
    && i + |t| <= |s|
    && AllSpace(s[..i])
    && s[i..i + |t|] == t
    && t != [] && NoSpace(t)
    && (i + |t| == |s| || IsSpace(s[i + |t|]))
  }

  /** `t` is the first whitespace-delimited token of `s`. */
  ghost predicate IsFirstToken(s: string, t: string) {
    exists i: nat :: FirstTokenAt(s, i, t)
  }

  lemma LeadingSpaceUnique(s: string, k: nat)
    requires k <= |s| && AllSpace(s[..k]) && (k < |s| ==> !IsSpace(s[k]))
    ensures LeadingSpace(s) == k
  {
    var k' := LeadingSpace(s);
    assert forall j :: 0 <= j < k ==> s[..k][j] == s[j];
    assert forall j :: 0 <= j < k' ==> s[..k'][j] == s[j];
  }

  lemma TokenLengthUnique(s: string, n: nat)
    requires n <= |s| && NoSpace(s[..n]) && (n < |s| ==> IsSpace(s[n]))
    ensures TokenLength(s) == n
  {
    var n' := TokenLength(s);
    assert forall j :: 0 <= j < n ==> s[..n][j] == s[j];
    assert forall j :: 0 <= j < n' ==> s[..n'][j] == s[j];
  }

  /** `split()` returns nothing exactly when the text is all whitespace. */
  lemma SplitEmpty(s: string)
    ensures Split(s) == [] <==> AllSpace(s)
  {
    var k := LeadingSpace(s);
    if k == |s| {
      assert s[..k] == s;
    } else {
      assert !IsSpace(s[k]);
    }
  }

  /** The head of `split()` is the first token of the text, and the first token is unique. */
  lemma SplitHead(s: string, t: string)
    ensures (Split(s) != [] && Split(s)[0] == t) <==> IsFirstToken(s, t)
  {
    if Split(s) != [] {
      SplitHeadIsFirstToken(s);
    }
    if IsFirstToken(s, t) {
      FirstTokenIsSplitHead(s, t);
    }
  }

  lemma SplitHeadIsFirstToken(s: string)
    requires Split(s) != []
    ensures FirstTokenAt(s, LeadingSpace(s), Split(s)[0])
  {
    LeadingTokenIsFirst(s);
    SplitStep(s);
  }

  /** The token that starts after the leading whitespace is a first token. */
  lemma LeadingTokenIsFirst(s: string)
    requires LeadingSpace(s) < |s|
    ensures var u := s[LeadingSpace(s)..]; FirstTokenAt(s, LeadingSpace(s), u[..TokenLength(u)])
  {
    LeadingTokenNotEmpty(s);
    TokenAt(s, LeadingSpace(s), TokenLength(s[LeadingSpace(s)..]));
  }

  lemma LeadingTokenNotEmpty(s: string)
    requires LeadingSpace(s) < |s|
    ensures TokenLength(s[LeadingSpace(s)..]) != 0
  {
    assert s[LeadingSpace(s)..][0] == s[LeadingSpace(s)];
  }

  /** A non-blank run `s[k..][..n]` after blanks, followed by a blank or the end, is a first token. */
  lemma TokenAt(s: string, k: nat, n: nat)
    requires k + n <= |s| && AllSpace(s[..k]) && n != 0 && NoSpace(s[k..][..n])
    requires k + n < |s| ==> IsSpace(s[k..][n])
    ensures FirstTokenAt(s, k, s[k..][..n])
  {
    SliceOfSlice(s, k, n);
  }

  /** The first `n` characters of `s[k..]` are `s[k..k + n]`, and the one after them is `s[k + n]`. */
  lemma SliceOfSlice(s: string, k: nat, n: nat)
    requires k + n <= |s|
    ensures s[k..][..n] == s[k..k + n]
    ensures k + n < |s| ==> s[k..][n] == s[k + n]
  {
  }

  lemma FirstTokenIsSplitHead(s: string, t: string)
    requires IsFirstToken(s, t)
    ensures Split(s) != [] && Split(s)[0] == t
  {
    var i: nat :| FirstTokenAt(s, i, t);
    assert s[i] == t[0];
    LeadingSpaceUnique(s, i);
    var u := s[i..];
    assert u[..|t|] == t;
    assert |t| < |u| ==> u[|t|] == s[i + |t|];
    TokenLengthUnique(u, |t|);
    SplitStep(s);
  }


  /** Whitespace appended after a non-blank text does not move its first token. */
  lemma LeadingSpaceAppend(s: string, w: string)
    requires LeadingSpace(s) < |s|
    ensures LeadingSpace(s + w) == LeadingSpace(s)
  {
    var k := LeadingSpace(s);
    assert (s + w)[..k] == s[..k];
    assert (s + w)[k] == s[k];
    LeadingSpaceUnique(s + w, k);
  }

  /** Whitespace appended to a text never lengthens its leading token. */
  lemma TokenLengthAppend(u: string, w: string)
    requires AllSpace(w)
    ensures TokenLength(u + w) == TokenLength(u)
  {
    var n := TokenLength(u);
    assert (u + w)[..n] == u[..n];
    if n == |u| && w != [] {
      assert (u + w)[n] == w[0];
    } else if n < |u| {
      assert (u + w)[n] == u[n];
    }
    TokenLengthUnique(u + w, n);
  }

  /** A blank text stays blank with whitespace appended. */
  lemma BlankAppend(s: string, w: string)
    requires AllSpace(s) && AllSpace(w)
    ensures Split(s + w) == [] && Split(s) == []
  {
    assert forall i :: 0 <= i < |s + w| ==> (s + w)[i] == if i < |s| then s[i] else w[i - |s|];
    SplitEmpty(s + w);
    SplitEmpty(s);
  }

  /** `split()` of a non-blank text: its first token, then the split of what follows it. */
  lemma SplitStep(s: string)
    requires LeadingSpace(s) < |s|
    ensures var u := s[LeadingSpace(s)..];
      Split(s) == [u[..TokenLength(u)]] + Split(u[TokenLength(u)..])
  {
  }

  /** With whitespace appended, a non-blank text splits into its first token and the rest with that whitespace. */
  lemma SplitAppendStep(s: string, w: string)
    requires AllSpace(w) && LeadingSpace(s) < |s|
    ensures var u := s[LeadingSpace(s)..];
      Split(s + w) == [u[..TokenLength(u)]] + Split(u[TokenLength(u)..] + w)
  {
    var k := LeadingSpace(s);
    LeadingSpaceAppend(s, w);
    var u := s[k..];
    var n := TokenLength(u);
    SliceAppend(s, w, k);
    TokenLengthAppend(u, w);
    SliceAppend(u, w, n);
    SplitStep(s + w);
  }

  /** Slicing a concatenation within its first part. */
  lemma SliceAppend(a: string, b: string, k: nat)
    requires k <= |a|
    ensures (a + b)[..k] == a[..k] && (a + b)[k..] == a[k..] + b
  {
  }

  /** Trailing whitespace never changes what `split()` returns. */
  lemma {:induction false} SplitTrailingSpace(s: string, w: string)
    requires AllSpace(w)
    ensures Split(s + w) == Split(s)
    decreases |s|
  {
    var k := LeadingSpace(s);
    if k == |s| {
      assert s[..k] == s;
      BlankAppend(s, w);
    } else {
      var u := s[k..];
      SplitAppendStep(s, w);
      SplitTrailingSpace(u[TokenLength(u)..], w);
      SplitStep(s);
    }
  }



  /** `s.strip().split() == s.split()`. */
  lemma SplitIgnoresStrip(s: string)
    ensures Split(Strip(s)) == Split(s)
  {
    var l := LStrip(s);
    var k := LeadingSpace(s);
    LeadingSpaceUnique(l, 0);
    assert l[0..] == l;
    var t := TrailingSpace(l);
    assert l == RStrip(l) + l[|l| - t..];
    SplitTrailingSpace(RStrip(l), l[|l| - t..]);
  }

  /** When the stripped text starts with `c`, its first token starts with `c` too. */
  lemma SplitHeadStartsWith(s: string)
    requires s != [] && !IsSpace(s[0])
    ensures Split(s) != [] && Split(s)[0][0] == s[0]
  {
    LeadingSpaceUnique(s, 0);
    assert s[0..] == s;
  }

  // ---------------------------------------------------------------------------
  // sep in s, s.split(sep)
  // ---------------------------------------------------------------------------

  predicate OccursAt(s: string, sep: string, i: nat) {
    i + |sep| <= |s| && s[i..i + |sep|] == sep
  }

  /** `s.find(sep)`: the leftmost occurrence of `sep` in `s`. */
  function Find(s: string, sep: string): (r: Option<nat>)
    ensures r.Some? ==> OccursAt(s, sep, r.value)
    ensures r.Some? ==> forall j: nat :: j < r.value ==> !OccursAt(s, sep, j)
    ensures r.None? ==> forall j: nat :: !OccursAt(s, sep, j)
  {
    if |sep| <= |s| && s[..|sep|] == sep then Some(0)
    else if s == [] then None
    else
      OccursShift(s, sep);
      match Find(s[1..], sep)
      case None => None
      case Some(k) => Some(k + 1)
  }

  /** An occurrence at `j` in `s`, past its first character, is one at `j - 1` in its tail. */
  lemma OccursShift(s: string, sep: string)
    requires s != []
    ensures forall j: nat | 1 <= j :: OccursAt(s, sep, j) <==> OccursAt(s[1..], sep, j - 1)
  {
    forall j: nat | 1 <= j
      ensures OccursAt(s, sep, j) <==> OccursAt(s[1..], sep, j - 1)
    {
      if j + |sep| <= |s| {
        assert s[1..][j - 1..j - 1 + |sep|] == s[j..j + |sep|];
      }
    }
  }

  /** Python's `sep in s`. */
  predicate Contains(s: string, sep: string) { Find(s, sep).Some? }

  /** `sep.join(parts)`. */
  function Join(parts: seq<string>, sep: string): string
    requires parts != []
  {
    if |parts| == 1 then parts[0] else parts[0] + sep + Join(parts[1..], sep)
  }

  lemma NoOccurrenceInPrefix(s: string, sep: string, i: nat)
    requires sep != [] && i <= |s|
    requires forall j: nat :: j < i ==> !OccursAt(s, sep, j)
    ensures !Contains(s[..i], sep)
  {
    var p := s[..i];
    if Find(p, sep).Some? {
      var j := Find(p, sep).value;
      assert p[j..j + |sep|] == s[j..j + |sep|];
      assert OccursAt(s, sep, j);
    }
  }

  /** `s.split(sep)` for a non-empty separator. */
  function SplitOn(s: string, sep: string): (r: seq<string>)
    requires sep != []
    ensures r != []
    ensures forall i :: 0 <= i < |r| ==> !Contains(r[i], sep)
    ensures Contains(s, sep) <==> |r| >= 2
    decreases |s|
  {
    match Find(s, sep)
    case None => [s]
    case Some(i) =>
      NoOccurrenceInPrefix(s, sep, i);
      [s[..i]] + SplitOn(s[i + |sep|..], sep)
  }

  /** Joining the pieces of `s.split(sep)` with `sep` gives back `s`. */
  lemma {:induction false} JoinSplitOn(s: string, sep: string)
    requires sep != []
    ensures Join(SplitOn(s, sep), sep) == s
    decreases |s|
  {
    match Find(s, sep)
    case None =>
    case Some(i) =>
      var rest := s[i + |sep|..];
      JoinSplitOn(rest, sep);
      assert s == s[..i] + sep + rest;
  }

  /** The first piece of `s.split(sep)` is the text before the leftmost `sep`. */
  lemma SplitOnHead(s: string, sep: string)
    requires sep != [] && Contains(s, sep)
    ensures SplitOn(s, sep)[0] == s[..Find(s, sep).value]
    ensures SplitOn(s, sep)[1..] == SplitOn(s[Find(s, sep).value + |sep|..], sep)
  {
  }

  /** A one-character separator occurs in `s` exactly when that character does. */
  lemma ContainsChar(s: string, c: char)
    ensures Contains(s, [c]) <==> c in s
  {
    forall j: nat | j + 1 <= |s|
      ensures OccursAt(s, [c], j) == (s[j] == c)
    {
      assert s[j..j + 1] == [s[j]];
    }
  }

  /** An occurrence with none before it is the one `find` reports. */
  lemma FindLeftmost(s: string, sep: string, i: nat)
    requires OccursAt(s, sep, i)
    requires forall j: nat :: j < i ==> !OccursAt(s, sep, j)
    ensures Find(s, sep) == Some(i)
  {
  }

  /** A join starts with its first part. */
  lemma {:induction false} JoinHead(parts: seq<string>, sep: string)
    requires parts != []
    ensures |Join(parts, sep)| >= |parts[0]|
    ensures Join(parts, sep)[..|parts[0]|] == parts[0]
  {
  }

  /**
   * Splitting on a one-character separator undoes joining with it, provided
   * no part contains the separator.
   */
  lemma {:induction false} SplitOnJoin(parts: seq<string>, sep: string)
    requires |sep| == 1 && parts != []
    requires forall i :: 0 <= i < |parts| ==> !Contains(parts[i], sep)
    ensures SplitOn(Join(parts, sep), sep) == parts
    decreases |parts|
  {
    var s := Join(parts, sep);
    if |parts| == 1 {
    } else {
      var p := parts[0];
      var rest := Join(parts[1..], sep);
      assert s == p + sep + rest;
      assert OccursAt(s, sep, |p|) by {
        assert s[|p|..|p| + 1] == sep;
      }
      forall j: nat | j < |p|
        ensures OccursAt(s, sep, j) == OccursAt(p, sep, j)
      {
        assert s[j..j + 1] == p[j..j + 1];
      }
      FindLeftmost(s, sep, |p|);
      assert s[..|p|] == p && s[|p| + 1..] == rest;
      SplitOnJoin(parts[1..], sep);
      assert parts == [p] + parts[1..];
    }
  }

  // ---------------------------------------------------------------------------
  // splitlines()
  // ---------------------------------------------------------------------------

  /** The length of the first line of `s`, up to its first line boundary. */
  function LineEnd(s: string): (i: nat)
    ensures i <= |s| && NoLineBreak(s[..i])
    ensures i < |s| ==> IsLineBreak(s[i])
  {
    if s == [] || IsLineBreak(s[0]) then 0
    else
      var i' := LineEnd(s[1..]);
      assert s[..i' + 1] == [s[0]] + s[1..][..i'];
      i' + 1
  }

  /** `s.splitlines()`: lines without their boundaries; no trailing empty line. */
  function SplitLines(s: string): seq<string>
    decreases |s|
  {
    if s == [] then []
    else
      var i := LineEnd(s);
      if i == |s| then [s]
      else [s[..i]] + SplitLines(s[i + BreakLength(s, i)..])
  }

  /** The length of the line boundary at `i`: two for `\r\n`, one otherwise. */
  function BreakLength(s: string, i: nat): (n: nat)
    requires i < |s|
    ensures 1 <= n <= 2 && i + n <= |s|
    ensures n == 2 <==> i + 1 < |s| && s[i] == '\r' && s[i + 1] == '\n'
  {
    if s[i] == '\r' && i + 1 < |s| && s[i + 1] == '\n' then 2 else 1
  }

  /** `\r\n` is a single line boundary: the next line starts after both characters, with no empty line between them. */
  lemma SplitLinesCrLf(s: string)
    requires LineEnd(s) + 1 < |s| && s[LineEnd(s)] == '\r' && s[LineEnd(s) + 1] == '\n'
    ensures SplitLines(s) == [s[..LineEnd(s)]] + SplitLines(s[LineEnd(s) + 2..])
  {
    var i := LineEnd(s);
    SplitLinesUnfold(s, i, BreakLength(s, i));
    CrLfBreak(s, i);
  }

  lemma CrLfBreak(s: string, i: nat)
    requires i + 1 < |s| && s[i] == '\r' && s[i + 1] == '\n'
    ensures s[i + BreakLength(s, i)..] == s[i + 2..]
  {
  }

  /** No line of `splitlines()` contains a line boundary. */
  lemma {:induction false} SplitLinesNoBreak(s: string)
    ensures forall i :: 0 <= i < |SplitLines(s)| ==> NoLineBreak(SplitLines(s)[i])
    decreases |s|
  {
    if s != [] {
      var i := LineEnd(s);
      if i == |s| {
        assert s[..i] == s;
      } else {
        SplitLinesNoBreak(s[i + BreakLength(s, i)..]);
      }
    }
  }

  /** Every line followed by a newline. */
  function Terminated(lines: seq<string>): string {
    if lines == [] then [] else lines[0] + "\n" + Terminated(lines[1..])
  }

  /** `\n` is the only line boundary in `s`. */
  predicate NewlinesOnly(s: string) {
    forall k :: 0 <= k < |s| && IsLineBreak(s[k]) ==> s[k] == '\n'
  }

  lemma SplitLinesLastLine(s: string)
    requires s != [] && LineEnd(s) == |s|
    ensures Terminated(SplitLines(s)) == s + "\n" && s[|s| - 1] != '\n'
  {
    assert s[..|s|] == s;
    assert SplitLines(s) == [s];
    assert s[..|s|][|s| - 1] == s[|s| - 1];
  }

  lemma SplitAround(s: string, i: nat)
    requires i < |s|
    ensures s == s[..i] + [s[i]] + s[i + 1..]
  {
  }

  lemma SplitLinesFirstLine(s: string)
    requires LineEnd(s) < |s| && s[LineEnd(s)] == '\n'
    ensures Terminated(SplitLines(s)) == s[..LineEnd(s)] + "\n" + Terminated(SplitLines(s[LineEnd(s) + 1..]))
  {
    var i := LineEnd(s);
    SplitLinesStep(s);
    TerminatedCons(s[..i], SplitLines(s[i + 1..]));
  }

  lemma SplitLinesStep(s: string)
    requires LineEnd(s) < |s| && s[LineEnd(s)] == '\n'
    ensures SplitLines(s) == [s[..LineEnd(s)]] + SplitLines(s[LineEnd(s) + 1..])
  {
    var i := LineEnd(s);
    SplitLinesUnfold(s, i, BreakLength(s, i));
    NewlineBreak(s, i);
  }

  /** One step of `splitlines()`: the first line, then the lines after its boundary. */
  lemma SplitLinesUnfold(s: string, i: nat, n: nat)
    requires s != [] && i == LineEnd(s) && i < |s| && n == BreakLength(s, i)
    ensures SplitLines(s) == [s[..i]] + SplitLines(s[i + n..])
  {
  }


  lemma NewlineBreak(s: string, i: nat)
    requires i < |s| && s[i] == '\n'
    ensures BreakLength(s, i) == 1 && s[i + BreakLength(s, i)..] == s[i + 1..]
  {
  }

  lemma TerminatedCons(line: string, rest: seq<string>)
    ensures Terminated([line] + rest) == line + "\n" + Terminated(rest)
  {
    assert ([line] + rest)[1..] == rest;
  }

  /**
   * For text whose only line boundary is `\n`, the lines of `splitlines()`
   * put back together are the text itself, with a final `\n` added if it lacked one.
   */
  lemma {:induction false} SplitLinesTerminated(s: string)
    requires NewlinesOnly(s)
    ensures Terminated(SplitLines(s)) == if s == [] || s[|s| - 1] == '\n' then s else s + "\n"
    decreases |s|
  {
    if s != [] {
      var i := LineEnd(s);
      if i == |s| {
        SplitLinesLastLine(s);
      } else {
        var rest := s[i + 1..];
        assert s[i] == '\n';
        SplitLinesFirstLine(s);
        assert NewlinesOnly(rest) by {
          assert forall k :: 0 <= k < |rest| ==> rest[k] == s[i + 1 + k];
        }
        SplitLinesTerminated(rest);
        Reassemble(s, i);
      }
    }
  }

  /** Putting a line, its `\n` and the text after it back together gives the text. */
  lemma Reassemble(s: string, i: nat)
    requires i < |s| && s[i] == '\n'
    ensures s[..i] + "\n" + s[i + 1..] == s
    ensures s[..i] + "\n" + (s[i + 1..] + "\n") == s + "\n"
    ensures s[i + 1..] == [] ==> s[|s| - 1] == '\n'
    ensures s[i + 1..] != [] ==> s[|s| - 1] == s[i + 1..][|s| - i - 2]
  {
    SplitAround(s, i);
  }

}
