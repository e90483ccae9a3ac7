/**
 * Building a candidate: the constructor records the filtered standards, the
 * resolved version and what the first line of the file says about it
 * (binary, or an Ansible Vault file).
 */
module Candidates {
  import opened Wrappers
  import opened PyStrings
  import opened LooseVersions
  import opened Faults
  import opened FileSystem
  import opened Kinds
  import opened Standards
  import opened Declarations
  import opened Resolution

  /** The text an encrypted Ansible Vault file starts with. */
  const VaultMarker: string := "$ANSIBLE_VAULT"

  /**
   * What a run is given besides the file names: the files, the working
   * directory, the `rules.filter` setting and `utils.standards_latest`.
   */
  datatype Environment = Environment(
    fs: FileSystem,
    cwd: string,
    limits: Option<seq<string>>,
    latest: seq<Standard> -> VersionString)

  /** The attributes a built candidate carries. */
  datatype Candidate = Candidate(
    path: string,
    kind: Kind,
    filetype: string,
    binary: bool,
    vault: bool,
    expectedVersion: bool,
    standards: seq<Standard>,
    version: VersionString)

  /** A built candidate and the warning its construction logged, if any. */
  datatype Built = Built(candidate: Candidate, warning: Option<Warning>)

  /** What the constructor's `readline` on the file learns: binary, or vault. */
  datatype Probe = Probe(binary: bool, vault: bool)

  /** The first line starts with the vault marker; an empty file has the empty first line. */
  predicate StartsVault(lines: seq<string>) {
    lines != [] && StartsWith(lines[0], VaultMarker)
  }

  /**
   * Opening the file and reading its first line: a decoding failure marks it
   * binary, a first line starting with the marker marks it vault.
   */
  function ProbeFirstLine(fs: FileSystem, p: Path): (r: Result<Probe, Fault>)
    ensures r.Ok? <==> p in fs && !fs[p].Directory?
    ensures r.Ok? ==> !(r.value.binary && r.value.vault)
    ensures r.Ok? ==> (r.value.binary <==> fs[p].BinaryFile?)
    ensures r.Ok? ==> (r.value.vault <==> fs[p].TextFile? && StartsVault(fs[p].lines))
  {
    if p !in fs then Err(NotFound(p))
    else match fs[p]
      case Directory => Err(IsADirectory(p))
      case BinaryFile => Ok(Probe(true, false))
      case TextFile(lines) => Ok(Probe(false, StartsVault(lines)))
  }

  /**
   * The constructor of the candidate class `kind`: filter the standards,
   * resolve the version while `expected_version` is still true, then probe
   * the first line; only afterwards do unversioned classes clear
   * `expected_version` and do `Task` and `Handler` rename `filetype`.
   */
  function CandidateSpec(env: Environment, filename: string, kind: Kind, catalogue: seq<Standard>): (r: Result<Built, Fault>)
  {
    var standards := Selected(env.limits, catalogue);
    var resolution :- ResolutionSpec(env.fs, env.cwd, filename, kind, standards, env.latest, true);
    var probe :- ProbeFirstLine(env.fs, AbsPath(env.cwd, filename));
    Ok(Built(Candidate(filename, kind, FileType(kind), probe.binary, probe.vault, !Unversioned(kind),
                       standards, resolution.version),
             resolution.warning))
  }

  method NewCandidate(env: Environment, filename: string, kind: Kind, catalogue: seq<Standard>) returns (r: Result<Built, Fault>)
    ensures r == CandidateSpec(env, filename, kind, catalogue)
  {
    var binary := false;
    var vault := false;
    var expectedVersion := true;
    var standards := GetStandards(env.limits, catalogue);
    var resolution := ResolveVersion(env.fs, env.cwd, filename, kind, standards, env.latest, expectedVersion);
    if resolution.Err? {
      return Err(resolution.error);
    }
    var abs := AbsPath(env.cwd, filename);
    if abs !in env.fs {
      return Err(NotFound(abs));
    }
    match env.fs[abs] {
      case Directory =>
        return Err(IsADirectory(abs));
      case BinaryFile =>
        binary := true;
      case TextFile(lines) =>
        if StartsVault(lines) {
          vault := true;
        }
    }
    if Unversioned(kind) {
      expectedVersion := false;
    }
    var c := Candidate(filename, kind, FileType(kind), binary, vault, expectedVersion, standards, resolution.value.version);
    return Ok(Built(c, resolution.value.warning));
  }

  /**
   * A built candidate is binary only when its class is a role file: any
   * other class reads the whole file while resolving its version, and an
   * undecodable file aborts that read.
   */
  lemma BinaryOnlyForRoleFiles(env: Environment, filename: string, kind: Kind, catalogue: seq<Standard>)
    ensures var r := CandidateSpec(env, filename, kind, catalogue);
            r.Ok? && r.value.candidate.binary ==> RoleScoped(kind) && !r.value.candidate.vault
    ensures var abs := AbsPath(env.cwd, filename);
            !RoleScoped(kind) && abs in env.fs && env.fs[abs].BinaryFile? ==>
              CandidateSpec(env, filename, kind, catalogue) == Err(Undecodable(abs))
  {
  }

  /** A built candidate is a vault exactly when its file's first line starts with the marker. */
  lemma VaultIffMarker(env: Environment, filename: string, kind: Kind, catalogue: seq<Standard>)
    ensures var r := CandidateSpec(env, filename, kind, catalogue);
            var abs := AbsPath(env.cwd, filename);
            r.Ok? ==> (r.value.candidate.vault <==> env.fs[abs].TextFile? && StartsVault(env.fs[abs].lines))
  {
  }

  /**
   * Clearing `expected_version` comes too late to silence the warning: an
   * unversioned file that declares no version is still reported, although
   * the built candidate's flag is false.
   */
  lemma UnversionedStillWarns(env: Environment, filename: string, kind: Kind, catalogue: seq<Standard>)
    requires Unversioned(kind)
    ensures var r := CandidateSpec(env, filename, kind, catalogue);
            var abs := AbsPath(env.cwd, filename);
            r.Ok? ==> !r.value.candidate.expectedVersion
                      && (r.value.warning == Some(FileWithoutDeclaration)
                          <==> NoMatchFrom(DeclaredVersion, env.fs[abs].lines, 0))
  {
    TraitsDisjoint(kind);
    var standards := Selected(env.limits, catalogue);
    ResolutionOutcome(env.fs, env.cwd, filename, kind, standards, env.latest, true);
  }

  /**
   * The candidate has the class it was built as, with its `filetype`; its
   * standards are the filtered catalogue, and when no version was declared
   * its version is `env.latest` (`utils.standards_latest`) applied to them.
   */
  lemma CandidateStandardsAndVersion(env: Environment, filename: string, kind: Kind, catalogue: seq<Standard>)
    ensures var r := CandidateSpec(env, filename, kind, catalogue);
            r.Ok? ==> r.value.candidate.kind == kind && r.value.candidate.filetype == FileType(kind)
                      && r.value.candidate.standards == Selected(env.limits, catalogue)
                      && (r.value.warning.Some? ==> r.value.candidate.version == env.latest(r.value.candidate.standards))
  {
    var standards := Selected(env.limits, catalogue);
    ResolutionOutcome(env.fs, env.cwd, filename, kind, standards, env.latest, true);
  }
}
