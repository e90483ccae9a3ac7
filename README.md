# ansible-later candidates, modelled in Dafny

ansible-later reviews the files of an Ansible project against a catalogue of
"standards". This project models the part that decides what each file is and
how it is reviewed:

- **classification** (`classify`): a file name is mapped to a candidate class
  (`Task`, `Handler`, `RoleVars`, `GroupVars`, `HostVars`, `Meta`, `Code`,
  `Inventory`, `Rolesfile`, `Makefile`, `Template`, `File`, `Playbook`,
  `Doc`) by a chain of tests on its parent directory, basename and `/`-split
  segments, or left unclassified;
- **the class traits**: role files (`RoleFile` subclasses) take their standards
  version from the enclosing role's `meta/main.yml`; unversioned classes clear
  `expected_version`; `Task` and `Handler` rename `filetype`;
- **building a candidate** (`Candidate.__init__`): the allow-list filter on
  the catalogue (`_get_standards`), the version resolution (`_get_version`:
  the ancestor walk to `meta/main.yml`, the last `# Standards:` declaration,
  the fallback to the latest standards version with its warning), and the
  binary and vault flags from the first line of the file;
- **reviewing a candidate** (`review`): every applicable standard runs its
  check; a false result aborts the run; violations outside the requested line
  ranges are dropped; each surviving violation is advisory, future or binding
  depending on the standard's version, and only binding ones are counted;
- **the main loop** (`__main__.py`): classify each file, build it, skip binary
  and vault files, and add up the errors of the reviews.

The model is split into modules that follow this structure:

| file | module | what it holds |
|---|---|---|
| `wrappers.dfy` | `Wrappers` | `Option` and `Result` |
| `pystrings.dfy` | `PyStrings` | `startswith`, `endswith`, `in`, `split`, `basename`, `dirname` |
| `looseversions.dfy` | `LooseVersions` | `LooseVersion` on digit-and-dot strings and its ordering |
| `kinds.dfy` | `Kinds` | the candidate classes and their traits |
| `faults.dfy` | `Faults` | the ways building or reviewing aborts the run |
| `filesystem.dfy` | `FileSystem` | files as a map from normalised paths, `abspath`, reading lines |
| `classifier.dfy` | `Classifier` | `classify` |
| `standards.dfy` | `Standards` | standards and `_get_standards` |
| `declarations.dfy` | `Declarations` | the `# Standards:` pattern and the last declaration of a file |
| `resolution.dfy` | `Resolution` | `_get_version` |
| `candidates.dfy` | `Candidates` | `Candidate.__init__` |
| `review.dfy` | `Review` | `review` |
| `driver.dfy` | `Driver` | the loop of `main` |

Where the source works by a loop (the filter of `_get_standards`, the ancestor
walk and the line scan of `_get_version`, the loop of `review`, the loop of
`main`) the model is a method with that loop. Each such method is proved
equal to a function, and the properties are lemmas about the functions. The
Python class hierarchy becomes a closed enumeration `Kind` with the trait
predicates `RoleScoped` and `Unversioned`. A built candidate is never
changed afterwards, so it is a datatype value.

Some behaviour of the code is easy to misread, and the model follows the code:

- An unversioned file with no declaration still gets the "does not present
  standards version" warning. `_get_version` runs inside `Candidate.__init__`
  while `expected_version` is still true. `Unversioned.__init__` clears it
  only afterwards (`Candidates.UnversionedStillWarns`).
- A binary file whose class is not a role file never becomes a binary
  candidate. `_get_version` reads the whole file itself and fails on the
  undecodable bytes before the constructor's first-line probe runs
  (`Candidates.BinaryOnlyForRoleFiles`).
- The parent-directory rules come first. So `roles/x/templates/vars/a.yml` is
  `RoleVars`, not `Template`, and `group_vars/vars/a.yml` is `RoleVars`, not
  `GroupVars` (`Classifier.TemplatesVarsIsRoleVars`,
  `Classifier.GroupVarsVarsIsRoleVars`).
- `review` gates on the lower-cased class name (`task`, `handler`). The
  `filetype` attribute of `Task` and `Handler` is `tasks` and `handlers`, so
  the two differ for those classes. A standard whose `types` name only the
  plural never applies to them (`Review.GateIgnoresFileType`).
- `main` adds up the error total and then discards it. The model's
  `Driver.RunFiles` returns the total so that it can be stated.

## Model

| member | source | states |
|---|---|---|
| Kinds.TraitsDisjoint | ansiblelater/command/candidates.py:155-238 | no class is both a role file and unversioned; exactly Playbook and Vars are neither |
| Kinds.ClassNameInjective | ansiblelater/command/candidates.py:111 | distinct classes have distinct lower-cased names, so gating on the name is gating on the class |
| PyStrings.ContainsAt | ansiblelater/command/candidates.py:261 | the substring test `sub in s` holds exactly when `sub` occurs at some index of `s` |
| PyStrings.Split | ansiblelater/command/candidates.py:252 | `split('/')` yields at least one part, no part holds the separator, and joining the parts gives the string back |
| PyStrings.SplitJoin | ansiblelater/command/candidates.py:252 | splitting the join of separator-free parts gives the parts back |
| PyStrings.Basename | ansiblelater/command/candidates.py:244 | the basename is a slash-free suffix of the name, preceded by a `/` when it is not the whole name |
| PyStrings.ParentDirNameOf | ansiblelater/command/candidates.py:243 | for `d + q + "/" + b`, the basename is `b` and the parent directory name is `q`, whatever `d` holds |
| PyStrings.BareName | ansiblelater/command/candidates.py:243-244 | a name without `/` is its own basename and has the empty parent directory name |
| LooseVersions.ListGreaterIrreflexive | ansiblelater/command/candidates.py:131 | no component list is greater than itself |
| LooseVersions.ListGreaterAsymmetric | ansiblelater/command/candidates.py:131 | of two component lists at most one is greater |
| LooseVersions.ListGreaterTransitive | ansiblelater/command/candidates.py:131 | greater-than on component lists is transitive |
| LooseVersions.ListGreaterTotal | ansiblelater/command/candidates.py:131 | two different component lists are ordered one way or the other |
| LooseVersions.ProperPrefixIsSmaller | ansiblelater/command/candidates.py:131 | a proper prefix of a component list is smaller than it |
| LooseVersions.VersionGreaterIrreflexive | ansiblelater/command/candidates.py:131 | a version is never greater than itself |
| LooseVersions.TenIsGreaterThanNine | ansiblelater/command/candidates.py:131 | versions compare as numbers: `1.10` is greater than `1.9` and not the reverse |
| LooseVersions.TrailingZeroIsGreater | ansiblelater/command/candidates.py:131 | an extra component makes a version greater: `1.0` is greater than `1` |
| LooseVersions.LeadingZerosCompareEqual | ansiblelater/command/candidates.py:131 | `1.01` and `1.1` are neither greater than the other |
| FileSystem.Normalize | ansiblelater/command/candidates.py:56 | normalising keeps every name non-empty, not `.` or `..`, and slash-free, and never lengthens the path |
| FileSystem.AbsPath | ansiblelater/command/candidates.py:56 | `abspath` yields a normalised path |
| FileSystem.NormalizeNormal | ansiblelater/command/candidates.py:56 | normalising names that are already normal appends them unchanged |
| FileSystem.NormalizeDotDot | ansiblelater/command/candidates.py:56 | a `..` right after a name cancels it |
| FileSystem.AbsPathOfRelative | ansiblelater/command/candidates.py:56 | a relative name made of normal names resolves below the working directory |
| FileSystem.AbsPathOfAbsolute | ansiblelater/command/candidates.py:56 | an absolute name made of normal names resolves to itself, whatever the working directory |
| FileSystem.ParentOf | ansiblelater/command/candidates.py:57 | `dirname` of an absolute path drops its last name; the root is its own parent |
| FileSystem.ReadLines | ansiblelater/command/candidates.py:69-70 | reading succeeds exactly on a text file and yields its lines; a missing file, a directory and undecodable bytes each fail with their own fault |
| Classifier.ClassifyResultHolds | ansiblelater/command/candidates.py:242-276 | `classify` never yields Vars, and the test of a kind it yields holds |
| Classifier.ClassifyViewIsFirstHoldingRule | ansiblelater/command/candidates.py:246-276 | the chain yields a kind exactly when that kind's test holds and every earlier rule's test fails |
| Classifier.ClassifyIsFirstHoldingRule | ansiblelater/command/candidates.py:242-276 | `classify` yields a kind exactly when its test holds on the name's parts and no earlier test does |
| Classifier.EarlierRuleFails | ansiblelater/command/candidates.py:246-276 | every rule before the yielded kind, and every rule when nothing is yielded, has a failing test |
| Classifier.ClassifyViewNoneIff | ansiblelater/command/candidates.py:276 | the chain yields nothing exactly when none of the fourteen tests holds |
| Classifier.ClassifyNoneIff | ansiblelater/command/candidates.py:242-276 | `classify` returns `None` exactly when none of the fourteen tests holds on the name |
| Classifier.ParentDirDecides | ansiblelater/command/candidates.py:246-251 | a parent directory `tasks`, `handlers`, `vars` or `defaults` decides the kind before any other test |
| Classifier.TasksDirectoryIsTask | ansiblelater/command/candidates.py:246-247 | any file directly inside a `tasks` directory is a Task |
| Classifier.HandlersDirectoryIsHandler | ansiblelater/command/candidates.py:248-249 | any file directly inside a `handlers` directory is a Handler |
| Classifier.VarsDirectoryIsRoleVars | ansiblelater/command/candidates.py:250-251 | any file directly inside a `vars` directory is RoleVars |
| Classifier.DefaultsDirectoryIsRoleVars | ansiblelater/command/candidates.py:250-251 | any file directly inside a `defaults` directory is RoleVars |
| Classifier.TemplatesVarsIsRoleVars | ansiblelater/command/candidates.py:250-251 | `roles/x/templates/vars/a.yml` is RoleVars, not Template |
| Classifier.GroupVarsVarsIsRoleVars | ansiblelater/command/candidates.py:250-253 | `group_vars/vars/a.yml` is RoleVars, not GroupVars |
| Classifier.RequirementsBareName | ansiblelater/command/candidates.py:264-265 | a top-level name starting with `requirements` that no earlier rule claims is a Rolesfile |
| Classifier.RequirementsIsRolesfile | ansiblelater/command/candidates.py:264-265 | `requirements.yml` is a Rolesfile, not a Playbook |
| Classifier.HostsIsInventory | ansiblelater/command/candidates.py:261-263 | `hosts.yml` is Inventory, not a Playbook |
| Classifier.UnderFilesIsFile | ansiblelater/command/candidates.py:246-271 | any name with a `files` segment is a File when no earlier rule claims it: no parent-directory rule, no `group_vars`, `host_vars` or `templates` segment, no `.py` or `.j2` ending, none of the basename words |
| Classifier.FilesYamlIsFile | ansiblelater/command/candidates.py:270-273 | `roles/r/files/x.yml` is a File, not a Playbook |
| Classifier.UnmatchedBareName | ansiblelater/command/candidates.py:276 | a top-level name that passes none of the tests is left unclassified |
| Classifier.NotesIsUnclassified | ansiblelater/command/candidates.py:276 | `notes.txt` is left unclassified |
| Standards.Selected | ansiblelater/command/candidates.py:93-105 | without an active filter the catalogue is kept as is; with one, exactly the listed standards, as a subsequence of the catalogue |
| Standards.GetStandards | ansiblelater/command/candidates.py:93-105 | the filter loop appends each listed standard in catalogue order and computes `Selected` |
| Standards.KeptIsSubsequence | ansiblelater/command/candidates.py:98-100 | the filter keeps catalogue order |
| Standards.KeptCount | ansiblelater/command/candidates.py:98-100 | each listed standard occurs in the result as often as in the catalogue, and an unlisted one not at all |
| Declarations.SkipSpaces | ansiblelater/command/candidates.py:67 | `\s*` consumes the longest whitespace run at the front |
| Declarations.VersionPrefix | ansiblelater/command/candidates.py:67 | `[\d.]+` consumes the longest run of digits and dots at the front |
| Declarations.CaptureSound | ansiblelater/command/candidates.py:67-73 | a captured group is a match of `\s*([\d.]+)` after the token |
| Declarations.CaptureComplete | ansiblelater/command/candidates.py:67-73 | every match of `\s*([\d.]+)` is the group the capture returns |
| Declarations.DeclaredVersionIff | ansiblelater/command/candidates.py:67-73 | a line declares `v` exactly when the anchored pattern matches with `v` as its group |
| Declarations.IndentedLineDeclaresNothing | ansiblelater/command/candidates.py:67 | the pattern is anchored: a line not starting with the token declares nothing |
| Declarations.DeclarationParses | ansiblelater/command/candidates.py:67-73 | `# Standards:` followed by any whitespace, a version and a non-version character declares that version |
| Declarations.LastMatchMeaning | ansiblelater/command/candidates.py:69-73 | the scan yields nothing exactly when no line matches, and otherwise the result of a line after which no line matches |
| Declarations.ScanDeclaredVersion | ansiblelater/command/candidates.py:69-73 | the line loop, where every match overwrites the last, computes the last declaration |
| Declarations.LastMatchIgnoresTrailing | ansiblelater/command/candidates.py:69-73 | appending lines that declare nothing keeps the result |
| Declarations.LastMatchIsLast | ansiblelater/command/candidates.py:69-73 | a declaring line followed by no declaring line decides the result |
| Declarations.LastDeclarationIff | ansiblelater/command/candidates.py:69-73 | a file declares `v` exactly when some line declares `v` and no later line declares anything |
| Declarations.LastLineDeclarationWins | ansiblelater/command/candidates.py:69-73 | a declaring last line wins over every earlier declaration |
| Resolution.NearestRoleMeta | ansiblelater/command/candidates.py:55-62 | the walk finds nothing exactly when no ancestor below the root has `meta/main.yml`; otherwise it finds the nearest one |
| Resolution.FindRoleMeta | ansiblelater/command/candidates.py:56-62 | the `while parentdir != dirname(parentdir)` loop finds the nearest `meta/main.yml` and never probes the root |
| Resolution.RootMetaIgnored | ansiblelater/command/candidates.py:57 | a `meta/main.yml` directly at the root never changes the walk's result |
| Resolution.ScannedFile | ansiblelater/command/candidates.py:55-64 | a non-role file is scanned itself; a role file fails exactly when no ancestor has metadata, and otherwise scans an existing metadata file that is not the root's |
| Resolution.ResolveVersion | ansiblelater/command/candidates.py:54-91 | the method that walks, reads and scans computes the version resolution, errors included |
| Resolution.ResolutionOutcome | ansiblelater/command/candidates.py:54-91 | resolution succeeds exactly when the scanned file is a text file; it warns exactly when a version is expected and nothing is declared; the version is the latest then, else the last declaration |
| Resolution.RoleWithoutMetadataFails | ansiblelater/command/candidates.py:55-69 | a role file with no metadata above it fails with the unbound-path fault |
| Resolution.OnlyGoverningFileMatters | ansiblelater/command/candidates.py:54-91 | only the scanned file's lines matter: file systems that agree on it give the same resolution |
| Candidates.ProbeFirstLine | ansiblelater/command/candidates.py:47-52 | the probe fails only on a missing file or a directory; binary exactly for undecodable bytes, vault exactly when the first line starts with `$ANSIBLE_VAULT`, never both |
| Candidates.NewCandidate | ansiblelater/command/candidates.py:38-52 | the constructor, in the source's order, computes the candidate and its warning, or the fault it raises |
| Candidates.BinaryOnlyForRoleFiles | ansiblelater/command/candidates.py:45-52 | only a role file can be built binary; a non-role binary file fails with an undecodable-file fault |
| Candidates.VaultIffMarker | ansiblelater/command/candidates.py:47-50 | a built candidate is a vault exactly when its file's first line starts with the marker |
| Candidates.UnversionedStillWarns | ansiblelater/command/candidates.py:43-45 | an unversioned candidate ends with `expected_version` false yet warns exactly when its file declares nothing |
| Candidates.CandidateStandardsAndVersion | ansiblelater/command/candidates.py:44-45 | a built candidate has the class it was built as and that class's `filetype`; it holds the filtered standards, and when it warned, its version is `env.latest` (`standards_latest`) applied to them |
| Review.SurvivingMembers | ansiblelater/command/candidates.py:121-122 | a violation survives exactly when it has no line number or one inside the ranges |
| Review.SurvivingInOrder | ansiblelater/command/candidates.py:121-122 | the survivors keep their reported order |
| Review.TierMonotone | ansiblelater/command/candidates.py:128-137 | tiers are monotone in the candidate's version: binding stays binding for a candidate whose version is not smaller, future stays future for one whose version is not greater, and advisory does not depend on the version |
| Review.GateIgnoresFileType | ansiblelater/command/candidates.py:172-181 | the gate at line 111 uses the class name, not `filetype`: for every other class the two agree, but a Task or Handler is never reviewed against a standard whose `types` name only `tasks` or `handlers` |
| Review.BindingCountFailed | ansiblelater/command/candidates.py:134-137 | failures of one standard count one each when binding and nothing otherwise |
| Review.BindingCountAppend | ansiblelater/command/candidates.py:137 | binding failures add up over concatenated logs |
| Review.StandardReviewOutcome | ansiblelater/command/candidates.py:110-146 | one standard aborts exactly when it applies and its check result is false, with that standard's fault; a non-applicable one logs nothing; errors equal the binding failures logged |
| Review.StandardReviewReported | ansiblelater/command/candidates.py:119-144 | an applicable standard logs one failure per surviving violation plus a "met" entry when none was reported, and counts its binding failures |
| Review.StandardReviewEntries | ansiblelater/command/candidates.py:119-144 | every entry carries the standard's id and tier; a violation is logged exactly when it survives; "met" is logged exactly when no violation was reported |
| Review.FailedEntriesMembers | ansiblelater/command/candidates.py:121-137 | a failure entry is logged for exactly the violations given, under the standard's id and tier |
| Review.LogViolations | ansiblelater/command/candidates.py:121-137 | the logging loop logs each surviving violation in order and counts the binding ones |
| Review.ReviewStandard | ansiblelater/command/candidates.py:110-144 | one pass of the loop computes the standard's review |
| Review.ReviewCandidate | ansiblelater/command/candidates.py:107-146 | the loop over the standards computes the review, stopping at the first abort |
| Review.ReviewOfCounts | ansiblelater/command/candidates.py:107-146 | the count `review` returns is the number of binding failures it logs |
| Review.AbortPersists | ansiblelater/command/candidates.py:115-117 | once a standard aborts, the standards after it change nothing |
| Review.AbortIff | ansiblelater/command/candidates.py:110-117 | the review aborts exactly when some applicable standard's check is false, with the first such standard's fault |
| Review.OnlyApplicableChecked | ansiblelater/command/candidates.py:111-113 | checks of standards that do not name the candidate's class never influence the review |
| Review.ReviewErrorsPositive | ansiblelater/command/candidates.py:110-137 | a review that does not abort counts errors exactly when some standard applies, is binding at the candidate's version and reports a violation that survives the line filter |
| Review.OnlyBindingCounts | ansiblelater/command/candidates.py:128-137 | when no applicable standard is binding, the review counts no errors |
| Review.SameVersionIsBinding | ansiblelater/command/candidates.py:131-137 | a standard of the candidate's own version is binding |
| Review.TierComparesNumbers | ansiblelater/command/candidates.py:131 | a `1.10` standard is future for a `1.9` candidate and a `1.9` standard is binding for a `1.10` candidate |
| Review.TierTrailingComponent | ansiblelater/command/candidates.py:131 | a `1.0` standard is future for a `1` candidate |
| Driver.FileErrorsPositive | ansiblelater/__main__.py:42-56 | a file adds errors exactly when it is classified, built, neither binary nor vault, and one of its standards has a binding violation that survives with `lines` unset |
| Driver.RunFiles | ansiblelater/__main__.py:41-58 | the loop of `main` computes the total over the files, stopping at the first fault |
| Driver.ProcessFile | ansiblelater/__main__.py:43-58 | one pass of the loop computes what the file adds |
| Driver.TotalAbortPersists | ansiblelater/__main__.py:42-56 | once a file aborts the run, the files after it change nothing |
| Driver.TotalConcat | ansiblelater/__main__.py:41-56 | the total over two lists in turn is their totals added, with an abort in the first deciding |
| Driver.ZeroFileIgnored | ansiblelater/__main__.py:41-56 | a file that adds nothing can be removed without changing the total |
| Driver.UnclassifiedIgnored | ansiblelater/__main__.py:44-58 | an unclassified file changes nothing, wherever it appears |
| Driver.SkippedFilesNotReviewed | ansiblelater/__main__.py:46-51 | a binary or vault file adds nothing, whatever the checks do |
| Driver.ReviewedFileAddsBindingFailures | ansiblelater/__main__.py:52-56 | a reviewed file adds the binding failures its review logs with `lines` unset, or aborts with the review's fault |

## Left out

- Logging: the message texts, the log levels and labels, the `LOG.info` lines and the `print` inside the inventory rule are not modelled. The review's log is modelled only as its entries (standard id, tier, violation or "met").
- The `library` walk in `RoleFile.__init__` (`module_loader.add_directory`) registers Ansible plugins and changes no candidate attribute; it is not modelled.
- `codecs` decoding: a file is either all valid UTF-8 text, given by its lines, or binary. A file whose first line decodes but whose later bytes do not is not modelled. Line endings are not modelled.
- `\d` and `\s` are restricted to ASCII digits and ASCII whitespace.
- `LooseVersion` is modelled only on digit-and-dot strings. The version pattern only captures those, but catalogue versions with letters are not modelled.
- `os.path.abspath`: a leading `//` and symbolic links are not modelled. The working directory is a parameter.
- `utils.standards_latest`, `utils.lines_ranges`/`utils.is_line_in_ranges` and each standard's `check` live outside this core. They are parameters. A check's result is modelled as its list of violations, or `None` for a false result object.
- `utils.sysexit_with_message` ends the process. It is modelled as the `EmptyCheckResult` fault, which stops the run.
- The exceptions the constructor lets escape are modelled as faults that stop the run: an unbound `path` when no role metadata exists, a missing file, a directory, undecodable bytes.
- `__repr__` and `__getitem__` are not modelled.
- `settings` is reduced to `rules.filter`. Argument parsing, configuration loading and logger set-up in `main` are not modelled.
- `main` discards the total it computes and returns nothing. `Driver.RunFiles` returns the total.
- `lines` is always `None` in `main`. The review takes it as a parameter, but the line-range parsing it feeds is outside this core.
