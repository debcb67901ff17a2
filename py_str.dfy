/** The few Python string and path primitives the application relies on:
    `str.isspace`, `str.strip()`, `str.endswith`, `str.replace` with a
    one-character pattern, and `os.path.join` on POSIX with two parts. */
module PyStr {

  /** Python's `str.isspace()` on one code point: the characters that
      `str.strip()` with no argument removes. */
  predicate IsSpace(c: char) {
    var n := c as int;
    (0x09 <= n <= 0x0D) || (0x1C <= n <= 0x20) || n == 0x85 || n == 0xA0 || n == 0x1680
    || (0x2000 <= n <= 0x200A) || n == 0x2028 || n == 0x2029 || n == 0x202F
    || n == 0x205F || n == 0x3000
  }

  predicate AllSpace(s: string) {
    forall i :: 0 <= i < |s| ==> IsSpace(s[i])
  }

  /** `s` does not start or end with whitespace. */
  predicate Trimmed(s: string) {
    s == [] || (!IsSpace(s[0]) && !IsSpace(s[|s| - 1]))
  }

  /** The number of whitespace characters `s` starts with: all of them are
      whitespace and the character after them, if any, is not. */
  function LeadingSpaces(s: string): (n: nat)
    ensures n <= |s|
    ensures forall i :: 0 <= i < n ==> IsSpace(s[i])
    ensures n < |s| ==> !IsSpace(s[n])
  {
    if |s| > 0 && IsSpace(s[0]) then
      var m := LeadingSpaces(s[1..]);
      assert forall i :: 1 <= i < m + 1 ==> s[i] == s[1..][i - 1];
      m + 1
    else 0
  }

  /** The length of `s` without its trailing whitespace: everything from
      there on is whitespace and the character before, if any, is not. */
  function KeptLength(s: string): (n: nat)
    ensures n <= |s|
    ensures forall i :: n <= i < |s| ==> IsSpace(s[i])
    ensures n > 0 ==> !IsSpace(s[n - 1])
  {
    if |s| > 0 && IsSpace(s[|s| - 1]) then
      var m := KeptLength(s[..|s| - 1]);
      assert forall i :: m <= i < |s| - 1 ==> s[i] == s[..|s| - 1][i];
      m
    else |s|
  }

  /** Python's `s.lstrip()`. */
  function TrimStart(s: string): string {
    s[LeadingSpaces(s)..]
  }

  /** Python's `s.rstrip()`. */
  function TrimEnd(s: string): string {
    s[..KeptLength(s)]
  }

  /** Python's `s.strip()`: the result does not start or end with
      whitespace, and is empty exactly when `s` is all whitespace. */
  function Strip(s: string): (r: string)
    ensures Trimmed(r)
    ensures r == [] <==> AllSpace(s)
  {
    var t := TrimStart(s);
    var r := TrimEnd(t);
    assert r != [] ==> r[0] == t[0];
    assert AllSpace(s) ==> t == [];
    assert t == [] ==> AllSpace(s);
    assert t != [] ==> KeptLength(t) > 0;
    r
  }

  lemma TrimStartSkips(p: string, t: string)
    requires AllSpace(p)
    requires t == [] || !IsSpace(t[0])
    ensures TrimStart(p + t) == t
  {
    var s := p + t;
    assert forall j :: 0 <= j < |p| ==> s[j] == p[j];
    assert t != [] ==> s[|p|] == t[0];
    assert LeadingSpaces(s) == |p|;
    assert s[|p|..] == t;
  }

  lemma TrimEndSkips(t: string, q: string)
    requires AllSpace(q)
    requires t == [] || !IsSpace(t[|t| - 1])
    ensures TrimEnd(t + q) == t
  {
    var s := t + q;
    assert forall j :: |t| <= j < |s| ==> s[j] == q[j - |t|];
    assert t != [] ==> s[|t| - 1] == t[|t| - 1];
    assert KeptLength(s) == |t|;
    assert s[..|t|] == t;
  }

  /** `Strip(s)` is the middle of a split of `s` into leading whitespace,
      a trimmed middle and trailing whitespace (the split is unique: see
      `StripUnique`). */
  lemma StripSplits(s: string)
    ensures var i, r := LeadingSpaces(s), Strip(s);
      && i + |r| <= |s| && s[i..i + |r|] == r
      && forall j :: 0 <= j < |s| && !(i <= j < i + |r|) ==> IsSpace(s[j])
  {
    var i := LeadingSpaces(s);
    var t := s[i..];
    var k := KeptLength(t);
    var r := t[..k];
    assert Strip(s) == r;
    assert s[i..i + k] == r by {
      forall j | 0 <= j < k ensures s[i..i + k][j] == r[j] {
        assert s[i..i + k][j] == s[i + j] == t[j];
      }
    }
    forall j | i + k <= j < |s| ensures IsSpace(s[j]) {
      assert s[j] == t[j - i];
    }
  }

  /** The converse: whatever whitespace surrounds a trimmed string, stripping
      gives that string back. */
  lemma StripUnique(p: string, r: string, q: string)
    requires AllSpace(p) && AllSpace(q) && Trimmed(r)
    ensures Strip(p + r + q) == r
  {
    if r == [] {
      assert p + r + q == p + q;
      assert AllSpace(p + q) by {
        forall i | 0 <= i < |p + q| ensures IsSpace((p + q)[i]) {
          if i < |p| { assert (p + q)[i] == p[i]; } else { assert (p + q)[i] == q[i - |p|]; }
        }
      }
    } else {
      assert p + r + q == p + (r + q);
      TrimStartSkips(p, r + q);
      TrimEndSkips(r, q);
    }
  }

  lemma StripIdempotent(s: string)
    ensures Strip(Strip(s)) == Strip(s)
  {
    var r := Strip(s);
    assert [] + r + [] == r;
    StripUnique([], r, []);
  }

  /** Python's `s.endswith(suffix)`. */
  predicate EndsWith(s: string, suffix: string) {
    |suffix| <= |s| && s[|s| - |suffix|..] == suffix
  }

  /** Python's `s.replace(old, new)` with one-character `pat` and `sub`:
      every occurrence of `pat` becomes `sub`, everything else stays where it is. */
  function ReplaceChar(s: string, pat: char, sub: char): (r: string)
    ensures |r| == |s|
    ensures forall i :: 0 <= i < |s| ==> r[i] == if s[i] == pat then sub else s[i]
  {
    if s == [] then []
    else [if s[0] == pat then sub else s[0]] + ReplaceChar(s[1..], pat, sub)
  }

  /** Python's `posixpath.join(a, b)`: an absolute `b` replaces `a`; otherwise
      a '/' is inserted unless `a` is empty or already ends with one. */
  function PathJoin(a: string, b: string): string {
    if |b| > 0 && b[0] == '/' then b
    else if a == [] || a[|a| - 1] == '/' then a + b
    else a + "/" + b
  }

  /** The directory part `PathJoin(a, b)` puts in front of `b`. */
  function DirPrefix(a: string): (d: string) {
    if a == [] || a[|a| - 1] == '/' then a else a + "/"
  }

  /** Joining a relative `b` keeps all of `a`, and what follows the
      separator is `b` itself; when `b` has no '/' at all the result names an
      entry directly inside `a`. */
  lemma PathJoinRelative(a: string, b: string)
    requires b == [] || b[0] != '/'
    ensures PathJoin(a, b) == DirPrefix(a) + b
    ensures DirPrefix(a) == [] || DirPrefix(a)[|DirPrefix(a)| - 1] == '/'
    ensures |DirPrefix(a)| - |a| <= 1 && DirPrefix(a)[..|a|] == a
  {
  }

  /** An absolute `b` discards `a` entirely. */
  lemma PathJoinAbsolute(a: string, b: string)
    requires |b| > 0 && b[0] == '/'
    ensures PathJoin(a, b) == b
  {
  }
}
