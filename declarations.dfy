/**
 * The standards version a file declares: a line matching
 * `^# Standards:\s*([\d.]+)` declares the captured text, and over a whole
 * file the last declaring line wins.
 */
module Declarations {
  import opened Wrappers
  import opened PyStrings
  import opened LooseVersions

  const Token: string := "# Standards:"

  /** `\s`, restricted to the ASCII whitespace characters. */
  predicate IsSpace(c: char) {
    c == ' ' || c == '\t' || c == '\n' || c == '\r' || c == '\U{000B}' || c == '\U{000C}'
  }

  predicate AllSpace(s: string) {
    forall k :: 0 <= k < |s| ==> IsSpace(s[k])
  }

  /** What `\s*` consumes: the longest run of whitespace at the front. */
  function SkipSpaces(s: string): (r: string)
    ensures |r| <= |s| && r == s[|s| - |r|..]
    ensures AllSpace(s[..|s| - |r|])
    ensures r == "" || !IsSpace(r[0])
    decreases |s|
  {
    if s != "" && IsSpace(s[0]) then
      var r := SkipSpaces(s[1..]);
      assert s[..|s| - |r|] == [s[0]] + s[1..][..|s| - 1 - |r|];
      r
    else s
  }

  /** What `[\d.]+` consumes, if anything: the longest run of digits and dots at the front. */
  function VersionPrefix(s: string): (r: string)
    ensures StartsWith(s, r) && AllVersionChars(r)
    ensures |r| == |s| || !IsVersionChar(s[|r|])
    decreases |s|
  {
    if s != "" && IsVersionChar(s[0]) then [s[0]] + VersionPrefix(s[1..]) else ""
  }

  /**
   * What `\s*([\d.]+)` means on the text `s` after the token: `m`
   * whitespace characters, then the group `v`, then a character that cannot
   * continue `v` (or the end of the text).
   */
  predicate CapturesAt(s: string, v: string, m: nat) {
    m + |v| <= |s| && AllSpace(s[..m]) && s[m..m + |v|] == v
    && (m + |v| == |s| || !IsVersionChar(s[m + |v|]))
  }

  /** The regular expression's own meaning, with the group `v` after `m` whitespace characters. */
  predicate DeclaresAt(line: string, v: string, m: nat) {
    StartsWith(line, Token) && CapturesAt(line[|Token|..], v, m)
  }

  /** `\s*([\d.]+)` matched at the start of `s`: the group, or `None` when there is no digit or dot. */
  function Capture(s: string): Option<VersionString> {
    var v := VersionPrefix(SkipSpaces(s));
    if v == "" then None else Some(v)
  }

  /** The version a single line declares, or `None` when the pattern does not match. */
  function DeclaredVersion(line: string): Option<VersionString> {
    if StartsWith(line, Token) then Capture(line[|Token|..]) else None
  }

  lemma SkipSpacesExact(s: string, n: nat)
    requires n <= |s| && AllSpace(s[..n]) && (n == |s| || !IsSpace(s[n]))
    ensures SkipSpaces(s) == s[n..]
    decreases n
  {
    if n > 0 {
      assert s[1..][..n - 1] == s[1..n];
      assert IsSpace(s[..n][0]);
      SkipSpacesExact(s[1..], n - 1);
    }
  }

  lemma VersionPrefixExact(s: string, n: nat)
    requires n <= |s| && AllVersionChars(s[..n])
    requires n == |s| || !IsVersionChar(s[n])
    ensures VersionPrefix(s) == s[..n]
    decreases n
  {
    if n > 0 {
      assert s[1..][..n - 1] == s[1..n];
      assert IsVersionChar(s[..n][0]);
      VersionPrefixExact(s[1..], n - 1);
      assert s[..n] == [s[0]] + s[1..][..n - 1];
    }
  }

  /** Taking `n` characters after the first `m` is slicing from `m` to `m + n`. */
  lemma SliceAfter(s: string, m: nat, n: nat)
    requires m + n <= |s|
    ensures s[m..][..n] == s[m..m + n]
  {
  }

  /** Whatever the capture returns is a match of the pattern. */
  lemma CaptureSound(s: string, v: string)
    requires Capture(s) == Some(v)
    ensures IsVersionString(v) && CapturesAt(s, v, |s| - |SkipSpaces(s)|)
  {
    var r := SkipSpaces(s);
    var m := |s| - |r|;
    assert r == s[m..] && AllSpace(s[..m]);
    assert v == VersionPrefix(r) && StartsWith(r, v);
    SliceAfter(s, m, |v|);
    if m + |v| < |s| {
      assert s[m + |v|] == r[|v|];
    }
  }

  /** Every match of the pattern is what the capture returns. */
  lemma CaptureComplete(s: string, v: string, m: nat)
    requires IsVersionString(v) && CapturesAt(s, v, m)
    ensures Capture(s) == Some(v)
  {
    assert s[m] == v[0];
    assert !IsSpace(v[0]) by { assert IsVersionChar(v[0]); }
    SkipSpacesExact(s, m);
    assert s[m..][..|v|] == v;
    VersionPrefixExact(s[m..], |v|);
  }

  /**
   * A line declares `v` exactly when the regular expression, read as
   * `DeclaresAt`, matches with `v` as its group.
   */
  lemma DeclaredVersionIff(line: string, v: string)
    ensures DeclaredVersion(line) == Some(v) <==> IsVersionString(v) && exists m: nat :: DeclaresAt(line, v, m)
  {
    if DeclaredVersion(line) == Some(v) {
      var s := line[|Token|..];
      CaptureSound(s, v);
      assert DeclaresAt(line, v, |s| - |SkipSpaces(s)|);
    }
    if IsVersionString(v) && exists m: nat :: DeclaresAt(line, v, m) {
      var m: nat :| DeclaresAt(line, v, m);
      CaptureComplete(line[|Token|..], v, m);
    }
  }

  /**
   * The pattern is anchored: an indented declaration, or any line whose
   * first character is not `#`, declares nothing. A line starting with some
   * other `#` text is covered by `DeclaredVersionIff`, not by this lemma.
   */
  lemma IndentedLineDeclaresNothing(line: string, indent: string)
    requires indent != "" && indent[0] != '#'
    ensures DeclaredVersion(indent + line) == None
  {
    assert (indent + line)[0] == indent[0];
  }

  /** Whitespace between the colon and the version is optional and unbounded. */
  lemma DeclarationParses(ws: string, v: VersionString, tail: string)
    requires AllSpace(ws)
    requires tail == "" || !IsVersionChar(tail[0])
    ensures DeclaredVersion(Token + ws + v + tail) == Some(v)
  {
    var line := Token + ws + v + tail;
    var s := line[|Token|..];
    assert line[..|Token|] == Token;
    assert s == ws + v + tail;
    assert s[..|ws|] == ws;
    assert s[|ws|..|ws| + |v|] == v;
    if tail != "" {
      assert s[|ws| + |v|] == tail[0];
    }
    assert DeclaresAt(line, v, |ws|);
    DeclaredVersionIff(line, v);
  }

  /** No line from index `i` on is matched by `matches`. */
  predicate NoMatchFrom(matches: string -> Option<VersionString>, lines: seq<string>, i: nat) {
    forall j :: i <= j < |lines| ==> matches(lines[j]).None?
  }

  /** The result of the last line `matches` accepts, or `None` when it accepts none. */
  function LastMatch(matches: string -> Option<VersionString>, lines: seq<string>): Option<VersionString>
    decreases |lines|
  {
    if lines == [] then None
    else if matches(lines[|lines| - 1]).Some? then matches(lines[|lines| - 1])
    else LastMatch(matches, lines[..|lines| - 1])
  }

  /**
   * `LastMatch` gives `None` exactly when no line matches, and otherwise the
   * result of a line after which no line matches.
   */
  lemma {:induction false} LastMatchMeaning(matches: string -> Option<VersionString>, lines: seq<string>)
    ensures var r := LastMatch(matches, lines);
            (r.None? <==> NoMatchFrom(matches, lines, 0))
            && (r.Some? ==> exists i :: 0 <= i < |lines| && matches(lines[i]) == r && NoMatchFrom(matches, lines, i + 1))
    decreases |lines|
  {
    if lines != [] && matches(lines[|lines| - 1]).None? {
      var init := lines[..|lines| - 1];
      LastMatchMeaning(matches, init);
      assert forall i :: 0 <= i <= |init| ==> NoMatchFrom(matches, init, i) ==> NoMatchFrom(matches, lines, i);
      assert NoMatchFrom(matches, lines, 0) ==> NoMatchFrom(matches, init, 0);
    }
  }

  /** The version a file declares: the declaration of its last declaring line. */
  function LastDeclaration(lines: seq<string>): Option<VersionString> {
    LastMatch(DeclaredVersion, lines)
  }

  /** The loop over the lines of the file: each match overwrites the previous one. */
  method ScanDeclaredVersion(lines: seq<string>) returns (version: Option<VersionString>)
    ensures version == LastDeclaration(lines)
  {
    version := None;
    for i := 0 to |lines|
      invariant version == LastMatch(DeclaredVersion, lines[..i])
    {
      var m := DeclaredVersion(lines[i]);
      if m.Some? {
        version := m;
      }
      assert lines[..i + 1][..i] == lines[..i];
    }
    assert lines[..|lines|] == lines;
  }

  /** Appending lines that declare nothing keeps the last declaration. */
  lemma {:induction false} LastMatchIgnoresTrailing(matches: string -> Option<VersionString>, lines: seq<string>, more: seq<string>)
    requires NoMatchFrom(matches, more, 0)
    ensures LastMatch(matches, lines + more) == LastMatch(matches, lines)
    decreases |more|
  {
    if more != [] {
      var all := lines + more;
      assert all[..|all| - 1] == lines + more[..|more| - 1];
      assert all[|all| - 1] == more[|more| - 1];
      assert matches(all[|all| - 1]).None?;
      assert NoMatchFrom(matches, more[..|more| - 1], 0);
      LastMatchIgnoresTrailing(matches, lines, more[..|more| - 1]);
    } else {
      assert lines + more == lines;
    }
  }

  /** Conversely, a line that declares and is followed by no declaring line gives the result. */
  lemma LastMatchIsLast(matches: string -> Option<VersionString>, lines: seq<string>, i: nat)
    requires i < |lines| && matches(lines[i]).Some? && NoMatchFrom(matches, lines, i + 1)
    ensures LastMatch(matches, lines) == matches(lines[i])
  {
    var front := lines[..i + 1];
    var back := lines[i + 1..];
    assert NoMatchFrom(matches, back, 0) by {
      forall j | 0 <= j < |back|
        ensures matches(back[j]).None?
      {
        assert back[j] == lines[i + 1 + j];
      }
    }
    LastMatchIgnoresTrailing(matches, front, back);
    assert front + back == lines;
    assert front[|front| - 1] == lines[i];
  }

  /**
   * The last declaration wins: a file declares `v` exactly when some line
   * declares `v` and no later line declares anything.
   */
  lemma LastDeclarationIff(lines: seq<string>, v: VersionString)
    ensures LastDeclaration(lines) == Some(v)
        <==> exists i :: 0 <= i < |lines| && DeclaredVersion(lines[i]) == Some(v) && NoMatchFrom(DeclaredVersion, lines, i + 1)
  {
    LastMatchMeaning(DeclaredVersion, lines);
    if exists i :: 0 <= i < |lines| && DeclaredVersion(lines[i]) == Some(v) && NoMatchFrom(DeclaredVersion, lines, i + 1) {
      var i :| 0 <= i < |lines| && DeclaredVersion(lines[i]) == Some(v) && NoMatchFrom(DeclaredVersion, lines, i + 1);
      LastMatchIsLast(DeclaredVersion, lines, i);
    }
  }

  /** A declaring line decides the version whatever the lines before it declare. */
  lemma LastLineDeclarationWins(lines: seq<string>, ws: string, v: VersionString, tail: string)
    requires AllSpace(ws)
    requires tail == "" || !IsVersionChar(tail[0])
    ensures LastDeclaration(lines + [Token + ws + v + tail]) == Some(v)
  {
    var all := lines + [Token + ws + v + tail];
    DeclarationParses(ws, v, tail);
    assert all[|all| - 1] == Token + ws + v + tail;
  }
}
