/**
 * The files a run sees: a map from absolute paths to entries, with
 * `os.path.abspath`, `os.path.dirname` on absolute paths and the reads the
 * candidate constructor performs.
 */
module FileSystem {
  import opened Wrappers
  import opened PyStrings
  import opened Faults

  /** A file is given by its lines, or is not valid UTF-8 text. */
  datatype Entry = Directory | TextFile(lines: seq<string>) | BinaryFile

  type FileSystem = map<Path, Entry>

  /** No name in the path is empty, `.`, `..` or holds a `/`. */
  predicate IsNormalized(p: Path) {
    forall k :: 0 <= k < |p| ==> p[k] != "" && p[k] != "." && p[k] != ".." && '/' !in p[k]
  }

  /** `os.path.dirname` of an absolute path: the root is its own parent. */
  function ParentOf(p: Path): (q: Path)
    ensures p == [] ==> q == []
    ensures p != [] ==> |q| == |p| - 1 && q + [p[|p| - 1]] == p
  {
    if p == [] then [] else p[..|p| - 1]
  }

  /**
   * `posixpath.normpath` applied name by name on top of `acc`: empty names
   * and `.` vanish, `..` removes the last name (and stays at the root).
   */
  function Normalize(acc: Path, names: seq<string>): (r: Path)
    requires IsNormalized(acc)
    requires forall k :: 0 <= k < |names| ==> '/' !in names[k]
    ensures IsNormalized(r)
    ensures |r| <= |acc| + |names|
    decreases |names|
  {
    if names == [] then acc
    else if names[0] == "" || names[0] == "." then Normalize(acc, names[1..])
    else if names[0] == ".." then Normalize(ParentOf(acc), names[1..])
    else Normalize(acc + [names[0]], names[1..])
  }

  /**
   * `os.path.join(cwd, filename)`: an absolute file name replaces the
   * working directory, a relative one is appended to it after a `/`.
   */
  function JoinToCwd(cwd: string, filename: string): string {
    if StartsWith(filename, "/") then filename else cwd + "/" + filename
  }

  /**
   * `os.path.abspath(filename)` with `cwd` the working directory
   * (`os.getcwd()`, an absolute path): the joined path normalised from the
   * root.
   */
  function AbsPath(cwd: string, filename: string): (r: Path)
    ensures IsNormalized(r)
  {
    Normalize([], Split(JoinToCwd(cwd, filename), '/'))
  }

  /** Reading every line of the file at `p` as UTF-8 text. */
  function ReadLines(fs: FileSystem, p: Path): (r: Result<seq<string>, Fault>)
    ensures r.Ok? <==> p in fs && fs[p].TextFile?
    ensures r.Ok? ==> r.value == fs[p].lines
    ensures p !in fs ==> r == Err(NotFound(p))
    ensures p in fs && fs[p].Directory? ==> r == Err(IsADirectory(p))
    ensures p in fs && fs[p].BinaryFile? ==> r == Err(Undecodable(p))
  {
    if p !in fs then Err(NotFound(p))
    else match fs[p]
      case Directory => Err(IsADirectory(p))
      case BinaryFile => Err(Undecodable(p))
      case TextFile(lines) => Ok(lines)
  }

  /** Normalising a path that is already normal and names no `..` changes nothing. */
  lemma {:induction false} NormalizeNormal(acc: Path, names: seq<string>)
    requires IsNormalized(acc) && IsNormalized(names)
    ensures Normalize(acc, names) == acc + names
    decreases |names|
  {
    if names != [] {
      NormalizeNormal(acc + [names[0]], names[1..]);
      assert acc + [names[0]] + names[1..] == acc + names;
    }
  }

  /** `..` right after a name cancels it. */
  lemma NormalizeDotDot(acc: Path, name: string, names: seq<string>)
    requires IsNormalized(acc) && IsNormalized([name])
    requires forall k :: 0 <= k < |names| ==> '/' !in names[k]
    ensures Normalize(acc, [name, ".."] + names) == Normalize(acc, names)
  {
    var all := [name, ".."] + names;
    assert all[1..] == [".."] + names;
    assert all[1..][1..] == names;
    assert ParentOf(acc + [name]) == acc;
  }

  /** Joining two non-empty lists of parts puts one separator between their joins. */
  lemma {:induction false} JoinAppend(a: seq<string>, b: seq<string>, sep: char)
    requires a != [] && b != []
    ensures Join(a + b, sep) == Join(a, sep) + [sep] + Join(b, sep)
    decreases |a|
  {
    if |a| == 1 {
      assert (a + b)[1..] == b;
    } else {
      assert (a + b)[1..] == a[1..] + b;
      JoinAppend(a[1..], b, sep);
    }
  }

  /** A relative file name made of normal names lies below the working directory. */
  lemma AbsPathOfRelative(cwdNames: seq<string>, names: seq<string>)
    requires IsNormalized(cwdNames) && IsNormalized(names) && cwdNames != [] && names != []
    ensures AbsPath("/" + Join(cwdNames, '/'), Join(names, '/')) == cwdNames + names
  {
    RelativeJoin(cwdNames, names);
    NormalizedConcat(cwdNames, names);
    AbsoluteJoinNormalizes(cwdNames + names);
  }

  /** Joining a relative file name to the working directory joins the two lists of names. */
  lemma RelativeJoin(cwdNames: seq<string>, names: seq<string>)
    requires IsNormalized(names) && cwdNames != [] && names != []
    ensures JoinToCwd("/" + Join(cwdNames, '/'), Join(names, '/')) == "/" + Join(cwdNames + names, '/')
  {
    JoinStartsWithFirst(names, '/');
    assert !StartsWith(Join(names, '/'), "/");
    JoinAppend(cwdNames, names, '/');
  }

  lemma NormalizedConcat(a: Path, b: Path)
    requires IsNormalized(a) && IsNormalized(b)
    ensures IsNormalized(a + b)
  {
    forall k | 0 <= k < |a + b|
      ensures (a + b)[k] == (if k < |a| then a[k] else b[k - |a|])
    {
    }
  }

  /** An absolute file name made of normal names is that path, whatever the working directory. */
  lemma AbsPathOfAbsolute(cwd: string, names: seq<string>)
    requires IsNormalized(names) && names != []
    ensures AbsPath(cwd, "/" + Join(names, '/')) == names
  {
    assert StartsWith("/" + Join(names, '/'), "/");
    AbsoluteJoinNormalizes(names);
  }

  /** Splitting `"/" + Join(names)` at `/` and normalising gives back the names. */
  lemma AbsoluteJoinNormalizes(names: seq<string>)
    requires IsNormalized(names) && names != []
    ensures Normalize([], Split("/" + Join(names, '/'), '/')) == names
  {
    var all := [""] + names;
    assert "/" + Join(names, '/') == Join(all, '/') by {
      assert all[1..] == names;
    }
    forall k | 0 <= k < |all|
      ensures '/' !in all[k]
    {
      if k > 0 {
        assert all[k] == names[k - 1];
      }
    }
    SplitJoin(all, '/');
    assert all[1..] == names;
    NormalizeNormal([], names);
  }

  lemma JoinStartsWithFirst(names: seq<string>, sep: char)
    requires names != [] && names[0] != ""
    ensures Join(names, sep) != "" && Join(names, sep)[0] == names[0][0]
  {
  }
}
