/**
 * The few Python string operations the classifier relies on: `startswith`,
 * `endswith`, the substring test `sub in s`, `str.split` on one separator
 * character, and `posixpath.basename` / `posixpath.dirname`.
 */
module PyStrings {

  /** `s.startswith(prefix)` */
  predicate StartsWith(s: string, prefix: string) {
    |prefix| <= |s| && s[..|prefix|] == prefix
  }

  /** `s.endswith(suffix)` */
  predicate EndsWith(s: string, suffix: string) {
    |suffix| <= |s| && s[|s| - |suffix|..] == suffix
  }

  /** `sub in s` for two strings: some position of `s` starts a copy of `sub`. */
  predicate Contains(s: string, sub: string)
    decreases |s|
  {
    StartsWith(s, sub) || (|s| > 0 && Contains(s[1..], sub))
  }

  /** `sub` occurs in `s` starting at index `i`. */
  predicate OccursAt(s: string, sub: string, i: nat) {
    i + |sub| <= |s| && s[i..i + |sub|] == sub
  }

  /** `Contains` is exactly "`sub` occurs at some index of `s`". */
  lemma {:induction false} ContainsAt(s: string, sub: string)
    ensures Contains(s, sub) <==> exists i: nat :: OccursAt(s, sub, i)
    decreases |s|
  {
    if StartsWith(s, sub) {
      assert OccursAt(s, sub, 0);
    }
    if |s| > 0 {
      ContainsAt(s[1..], sub);
      if Contains(s[1..], sub) {
        var i: nat :| OccursAt(s[1..], sub, i);
        assert s[i + 1..i + 1 + |sub|] == s[1..][i..i + |sub|];
        assert OccursAt(s, sub, i + 1);
      }
      if exists i: nat :: OccursAt(s, sub, i) {
        var i: nat :| OccursAt(s, sub, i);
        if i > 0 {
          assert s[1..][i - 1..i - 1 + |sub|] == s[i..i + |sub|];
          assert OccursAt(s[1..], sub, i - 1);
        }
      }
    } else if exists i: nat :: OccursAt(s, sub, i) {
      var i: nat :| OccursAt(s, sub, i);
      assert StartsWith(s, sub);
    }
  }

  /** A string cannot contain a word whose first letter it lacks. */
  lemma {:induction false} MissingFirstCharNotContained(s: string, sub: string)
    requires |sub| > 0 && sub[0] !in s
    ensures !Contains(s, sub)
    decreases |s|
  {
    if |s| > 0 {
      assert s[0] != sub[0];
      MissingFirstCharNotContained(s[1..], sub);
    }
  }

  /** A string cannot contain a word one of whose letters it lacks. */
  lemma {:induction false} MissingCharNotContained(s: string, sub: string, k: nat)
    requires k < |sub| && sub[k] !in s
    ensures !Contains(s, sub)
    decreases |s|
  {
    if k < |s| {
      assert s[k] in s;
      if |sub| <= |s| {
        assert s[..|sub|][k] == s[k];
      }
    }
    if |s| > 0 {
      MissingCharNotContained(s[1..], sub, k);
    }
  }

  /** Joins parts with the separator in between: the inverse of `Split`. */
  function Join(parts: seq<string>, sep: char): string
    decreases |parts|
  {
    if |parts| == 0 then ""
    else if |parts| == 1 then parts[0]
    else parts[0] + [sep] + Join(parts[1..], sep)
  }

  /**
   * `s.split(sep)` for a one-character separator: every occurrence splits,
   * so empty parts are kept and there is always at least one part.
   */
  function Split(s: string, sep: char): (parts: seq<string>)
    ensures |parts| >= 1
    ensures forall k :: 0 <= k < |parts| ==> sep !in parts[k]
    ensures Join(parts, sep) == s
    decreases |s|
  {
    if |s| == 0 then [""]
    else
      var rest := Split(s[1..], sep);
      if s[0] == sep then
        assert s == [sep] + s[1..];
        [""] + rest
      else
        var parts := [[s[0]] + rest[0]] + rest[1..];
        assert parts[1..] == rest[1..];
        assert s == [s[0]] + s[1..];
        parts
  }

  /** Splitting a join of separator-free parts gives the parts back. */
  lemma {:induction false} SplitJoin(parts: seq<string>, sep: char)
    requires |parts| >= 1
    requires forall k :: 0 <= k < |parts| ==> sep !in parts[k]
    ensures Split(Join(parts, sep), sep) == parts
    decreases |parts|
  {
    if |parts| == 1 {
      SplitWithoutSeparator(parts[0], sep);
    } else {
      SplitJoin(parts[1..], sep);
      SplitAfterPart(parts[0], Join(parts[1..], sep), sep);
    }
  }

  /** A separator-free string is its own single part. */
  lemma {:induction false} SplitWithoutSeparator(s: string, sep: char)
    requires sep !in s
    ensures Split(s, sep) == [s]
    decreases |s|
  {
    if |s| > 0 {
      SplitWithoutSeparator(s[1..], sep);
    }
  }

  /** The first part of `a + sep + rest`, when `a` has no separator, is `a`. */
  lemma {:induction false} SplitAfterPart(a: string, rest: string, sep: char)
    requires sep !in a
    ensures Split(a + [sep] + rest, sep) == [a] + Split(rest, sep)
    decreases |a|
  {
    if |a| == 0 {
      assert a + [sep] + rest == [sep] + rest;
      assert ([sep] + rest)[1..] == rest;
    } else {
      assert (a + [sep] + rest)[1..] == a[1..] + [sep] + rest;
      SplitAfterPart(a[1..], rest, sep);
      assert [a[0]] + a[1..] == a;
    }
  }

  /** `posixpath.basename`: everything after the last `/`. */
  function Basename(p: string): (b: string)
    ensures '/' !in b
    ensures EndsWith(p, b)
    ensures |b| < |p| ==> p[|p| - |b| - 1] == '/'
    decreases |p|
  {
    if |p| == 0 || p[|p| - 1] == '/' then ""
    else
      var b := Basename(p[..|p| - 1]) + [p[|p| - 1]];
      assert p[|p| - |b|..] == p[..|p| - 1][|p| - |b|..] + [p[|p| - 1]];
      b
  }

  /** The basename of `x + "/" + b`, for a slash-free `b`, is `b`. */
  lemma {:induction false} BasenameAfterSlash(x: string, b: string)
    requires '/' !in b
    requires x == "" || x[|x| - 1] == '/'
    ensures Basename(x + b) == b
    decreases |b|
  {
    if |b| > 0 {
      var xb := x + b;
      var front := b[..|b| - 1];
      var last := b[|b| - 1];
      assert xb[..|xb| - 1] == x + front && xb[|xb| - 1] == last;
      assert last != '/' by { assert last in b; }
      BasenameAfterSlash(x, front);
      assert Basename(xb) == Basename(x + front) + [last];
      assert front + [last] == b;
    }
  }

  predicate AllSlashes(s: string) {
    forall k :: 0 <= k < |s| ==> s[k] == '/'
  }

  /** `s.rstrip("/")` */
  function RStripSlashes(s: string): string
    decreases |s|
  {
    if |s| > 0 && s[|s| - 1] == '/' then RStripSlashes(s[..|s| - 1]) else s
  }

  /**
   * `posixpath.dirname`: the text up to and including the last `/`, with the
   * trailing slashes removed unless it consists of slashes only.
   */
  function Dirname(p: string): string {
    var head := p[..|p| - |Basename(p)|];
    if head != "" && !AllSlashes(head) then RStripSlashes(head) else head
  }

  /**
   * `os.path.basename(os.path.dirname(p))`: the name of the directory that
   * holds `p`, the word the classifier calls `parentdir`.
   */
  function ParentDirName(p: string): string {
    Basename(Dirname(p))
  }

  /**
   * The directory of `h + b`, when `h` ends in exactly one slash after some
   * non-slash text and `b` is a file name, is `h` without that slash.
   */
  lemma DirnameOf(h: string, b: string)
    requires |h| >= 2 && h[|h| - 1] == '/' && h[|h| - 2] != '/'
    requires '/' !in b
    ensures Basename(h + b) == b
    ensures Dirname(h + b) == h[..|h| - 1]
  {
    BasenameAfterSlash(h, b);
    assert (h + b)[..|h + b| - |b|] == h;
    assert !AllSlashes(h) by { assert h[|h| - 2] != '/'; }
    assert RStripSlashes(h) == RStripSlashes(h[..|h| - 1]);
  }

  /**
   * For `d + q + "/" + b` with `q` a non-empty directory name and `b` a file
   * name, the parent directory name is `q` whatever `d` holds.
   */
  lemma ParentDirNameOf(d: string, q: string, b: string)
    requires d == "" || d[|d| - 1] == '/'
    requires q != "" && '/' !in q && '/' !in b
    ensures Basename(d + q + "/" + b) == b
    ensures ParentDirName(d + q + "/" + b) == q
  {
    var h := d + q + "/";
    var last := q[|q| - 1];
    assert last in q;
    assert h[|h| - 2] == last;
    DirnameOf(h, b);
    assert h[..|h| - 1] == d + q;
    BasenameAfterSlash(d, q);
  }

  /** A name with no `/` at all has itself as basename and lies in no directory. */
  lemma BareName(b: string)
    requires '/' !in b
    ensures Basename(b) == b
    ensures Dirname(b) == ""
    ensures ParentDirName(b) == ""
  {
    BasenameAfterSlash("", b);
    assert b[..|b| - |b|] == "";
  }
}
