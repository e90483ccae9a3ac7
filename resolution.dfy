/**
 * Which standards version a candidate is held to: the version declared in
 * the file that governs it (the role's `meta/main.yml` for role files, the
 * file itself otherwise), or the latest version among its standards.
 */
module Resolution {
  import opened Wrappers
  import opened LooseVersions
  import opened Faults
  import opened FileSystem
  import opened Kinds
  import opened Standards
  import opened Declarations

  /** The names `os.path.join(parentdir, "meta", "main.yml")` appends. */
  const MetaMain: Path := ["meta", "main.yml"]

  predicate HasRoleMeta(fs: FileSystem, dir: Path) {
    dir + MetaMain in fs
  }

  /** No ancestor `dir[..m]` with `n < m` holds a `meta/main.yml`. */
  predicate NoRoleMetaAbove(fs: FileSystem, dir: Path, n: nat) {
    forall m :: n < m <= |dir| ==> !HasRoleMeta(fs, dir[..m])
  }

  /**
   * The `meta/main.yml` the ancestor walk finds from `dir`: the one of the
   * longest ancestor that has one, never the root's, and `None` when there is
   * none.
   */
  function NearestRoleMeta(fs: FileSystem, dir: Path): (r: Option<Path>)
    ensures r.None? <==> NoRoleMetaAbove(fs, dir, 0)
    ensures r.Some? ==> exists n :: 0 < n <= |dir| && r.value == dir[..n] + MetaMain
                                    && HasRoleMeta(fs, dir[..n]) && NoRoleMetaAbove(fs, dir, n)
    decreases |dir|
  {
    if dir == [] then None
    else if HasRoleMeta(fs, dir) then
      assert dir[..|dir|] == dir;
      Some(dir + MetaMain)
    else
      var up := ParentOf(dir);
      var r := NearestRoleMeta(fs, up);
      assert forall m :: 0 < m <= |up| ==> up[..m] == dir[..m];
      assert dir[..|dir|] == dir;
      r
  }

  /**
   * The walk `while parentdir != dirname(parentdir)`: it stops at the first
   * directory holding `meta/main.yml`, or at the root without probing it.
   */
  method FindRoleMeta(fs: FileSystem, start: Path) returns (found: Option<Path>)
    ensures found == NearestRoleMeta(fs, start)
  {
    found := None;
    var parentdir := start;
    while parentdir != ParentOf(parentdir)
      invariant NearestRoleMeta(fs, parentdir) == NearestRoleMeta(fs, start)
      decreases |parentdir|
    {
      var metaFile := parentdir + MetaMain;
      if metaFile in fs {
        found := Some(metaFile);
        break;
      }
      parentdir := ParentOf(parentdir);
    }
  }

  /** The root's own `meta/main.yml` never decides anything. */
  lemma {:induction false} RootMetaIgnored(fs: FileSystem, dir: Path, e: Entry)
    ensures NearestRoleMeta(fs[MetaMain := e], dir) == NearestRoleMeta(fs, dir)
    ensures NearestRoleMeta(fs - {MetaMain}, dir) == NearestRoleMeta(fs, dir)
    decreases |dir|
  {
    if dir != [] {
      assert dir + MetaMain != MetaMain by { assert |dir + MetaMain| > |MetaMain|; }
      RootMetaIgnored(fs, ParentOf(dir), e);
    }
  }

  /**
   * The file `_get_version` scans: the nearest role metadata for a role
   * file, the file itself otherwise; a role file without metadata fails.
   */
  function ScannedFile(fs: FileSystem, cwd: string, filename: string, kind: Kind): (r: Result<Path, Fault>)
    ensures !RoleScoped(kind) ==> r == Ok(AbsPath(cwd, filename))
    ensures RoleScoped(kind) ==>
              (r == Err(NoRoleMetadata) <==> NoRoleMetaAbove(fs, ParentOf(AbsPath(cwd, filename)), 0))
    ensures RoleScoped(kind) && r.Ok? ==> r.value in fs && r.value != MetaMain
  {
    var abs := AbsPath(cwd, filename);
    if RoleScoped(kind) then
      match NearestRoleMeta(fs, ParentOf(abs))
      case None => Err(NoRoleMetadata)
      case Some(meta) => Ok(meta)
    else Ok(abs)
  }

  /** The log warnings `_get_version` can emit when nothing is declared. */
  datatype Warning = RoleWithoutDeclaration | FileWithoutDeclaration

  /** The version a candidate gets, and the warning emitted while resolving it. */
  datatype Resolution = Resolution(version: VersionString, warning: Option<Warning>)

  /**
   * `_get_version`: the last declaration of the governing file, else
   * `latest(standards)` together with a warning when `expectedVersion` holds.
   */
  function ResolutionSpec(fs: FileSystem, cwd: string, filename: string, kind: Kind,
                          standards: seq<Standard>, latest: seq<Standard> -> VersionString,
                          expectedVersion: bool): (r: Result<Resolution, Fault>)
  {
    var scanned :- ScannedFile(fs, cwd, filename, kind);
    var lines :- ReadLines(fs, scanned);
    match LastDeclaration(lines)
    case Some(v) => Ok(Resolution(v, None))
    case None =>
      var warning := if RoleScoped(kind) then RoleWithoutDeclaration else FileWithoutDeclaration;
      Ok(Resolution(latest(standards), if expectedVersion then Some(warning) else None))
  }

  method ResolveVersion(fs: FileSystem, cwd: string, filename: string, kind: Kind,
                        standards: seq<Standard>, latest: seq<Standard> -> VersionString,
                        expectedVersion: bool) returns (r: Result<Resolution, Fault>)
    ensures r == ResolutionSpec(fs, cwd, filename, kind, standards, latest, expectedVersion)
  {
    var path: Path;
    var abs := AbsPath(cwd, filename);
    if RoleScoped(kind) {
      var found := FindRoleMeta(fs, ParentOf(abs));
      if found.None? {
        return Err(NoRoleMetadata);
      }
      path := found.value;
    } else {
      path := abs;
    }
    var read := ReadLines(fs, path);
    if read.Err? {
      return Err(read.error);
    }
    var version := ScanDeclaredVersion(read.value);
    if version.None? {
      var warning: Option<Warning> := None;
      if expectedVersion {
        warning := Some(if RoleScoped(kind) then RoleWithoutDeclaration else FileWithoutDeclaration);
      }
      return Ok(Resolution(latest(standards), warning));
    }
    return Ok(Resolution(version.value, None));
  }

  /**
   * A resolved version is what the governing file declares last, or, when it
   * declares nothing, the latest version among the standards; a warning is
   * emitted exactly in the second case and only when a version is expected.
   */
  lemma ResolutionOutcome(fs: FileSystem, cwd: string, filename: string, kind: Kind,
                          standards: seq<Standard>, latest: seq<Standard> -> VersionString,
                          expectedVersion: bool)
    ensures var r := ResolutionSpec(fs, cwd, filename, kind, standards, latest, expectedVersion);
            var scanned := ScannedFile(fs, cwd, filename, kind);
            (r.Ok? <==> scanned.Ok? && scanned.value in fs && fs[scanned.value].TextFile?)
            && (r.Ok? ==>
                  var lines := fs[scanned.value].lines;
                  (r.value.warning.Some? <==> expectedVersion && NoMatchFrom(DeclaredVersion, lines, 0))
                  && (NoMatchFrom(DeclaredVersion, lines, 0) ==> r.value.version == latest(standards))
                  && (!NoMatchFrom(DeclaredVersion, lines, 0) ==>
                        exists i :: 0 <= i < |lines| && DeclaredVersion(lines[i]) == Some(r.value.version)
                                    && NoMatchFrom(DeclaredVersion, lines, i + 1)))
  {
    var scanned := ScannedFile(fs, cwd, filename, kind);
    if scanned.Ok? && scanned.value in fs && fs[scanned.value].TextFile? {
      LastMatchMeaning(DeclaredVersion, fs[scanned.value].lines);
    }
  }

  /** A role file in a role without `meta/main.yml` cannot be built. */
  lemma RoleWithoutMetadataFails(fs: FileSystem, cwd: string, filename: string, kind: Kind,
                                 standards: seq<Standard>, latest: seq<Standard> -> VersionString,
                                 expectedVersion: bool)
    requires RoleScoped(kind)
    requires NoRoleMetaAbove(fs, ParentOf(AbsPath(cwd, filename)), 0)
    ensures ResolutionSpec(fs, cwd, filename, kind, standards, latest, expectedVersion) == Err(NoRoleMetadata)
  {
  }

  /** Only the governing file's lines matter: other files may change freely. */
  lemma OnlyGoverningFileMatters(fs1: FileSystem, fs2: FileSystem, cwd: string, filename: string, kind: Kind,
                                 standards: seq<Standard>, latest: seq<Standard> -> VersionString,
                                 expectedVersion: bool)
    requires ScannedFile(fs1, cwd, filename, kind) == ScannedFile(fs2, cwd, filename, kind)
    requires var s := ScannedFile(fs1, cwd, filename, kind);
             s.Ok? ==> ReadLines(fs1, s.value) == ReadLines(fs2, s.value)
    ensures ResolutionSpec(fs1, cwd, filename, kind, standards, latest, expectedVersion)
         == ResolutionSpec(fs2, cwd, filename, kind, standards, latest, expectedVersion)
  {
  }
}
