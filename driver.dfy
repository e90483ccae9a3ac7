/**
 * The per-file loop of `main`: classify each file, build its candidate,
 * skip binary and vault files, and add up the errors the reviews report.
 */
module Driver {
  import opened Wrappers
  import opened Faults
  import opened Kinds
  import opened Classifier
  import opened Standards
  import opened Candidates
  import opened Review

  /**
   * What one file adds to the error count: nothing when it is not
   * classified, binary or a vault; otherwise what reviewing all its lines
   * reports. Building or reviewing the candidate may abort the run.
   */
  function FileErrors(env: Environment, catalogue: seq<Standard>, check: Check, inRanges: LineTest, filename: string): Result<nat, Fault>
  {
    match Classify(filename)
    case None => Ok(0)
    case Some(kind) =>
      var built :- CandidateSpec(env, filename, kind, catalogue);
      var c := built.candidate;
      if c.binary || c.vault then Ok(0)
      else
        var report :- ReviewOf(c.standards, c, check, None, inRanges);
        Ok(report.errors)
  }

  /** Adds one file's errors to the total so far; an earlier abort stays the outcome. */
  function AddErrors(total: Result<nat, Fault>, more: Result<nat, Fault>): Result<nat, Fault> {
    if total.Err? then total
    else if more.Err? then Err(more.error)
    else Ok(total.value + more.value)
  }

  /** The error total over `files`, processed in order, given what each file adds. */
  function Total(perFile: string -> Result<nat, Fault>, files: seq<string>): Result<nat, Fault>
    decreases |files|
  {
    if files == [] then Ok(0)
    else AddErrors(Total(perFile, files[..|files| - 1]), perFile(files[|files| - 1]))
  }

  /** What each file adds in a run with these settings. */
  function PerFile(env: Environment, catalogue: seq<Standard>, check: Check, inRanges: LineTest): string -> Result<nat, Fault> {
    f => FileErrors(env, catalogue, check, inRanges, f)
  }

  /** The error total `main` accumulates over `files`. */
  function RunSpec(env: Environment, catalogue: seq<Standard>, check: Check, inRanges: LineTest, files: seq<string>): Result<nat, Fault> {
    Total(PerFile(env, catalogue, check, inRanges), files)
  }

  /** What one file adds, case by case, in the order `main` decides them. */
  lemma PerFileCases(env: Environment, catalogue: seq<Standard>, check: Check, inRanges: LineTest, f: string)
    ensures var added := PerFile(env, catalogue, check, inRanges)(f);
            match Classify(f)
            case None => added == Ok(0)
            case Some(kind) =>
              var built := CandidateSpec(env, f, kind, catalogue);
              if built.Err? then added == Err(built.error)
              else
                var c := built.value.candidate;
                if c.binary || c.vault then added == Ok(0)
                else
                  var review := ReviewOf(c.standards, c, check, None, inRanges);
                  added == if review.Err? then Err(review.error) else Ok(review.value.errors)
  {
  }

  /**
   * A file adds errors exactly when it is classified, its candidate is built
   * and is neither binary nor a vault, and one of the candidate's standards
   * has a binding violation, with `lines` unset.
   */
  lemma FileErrorsPositive(env: Environment, catalogue: seq<Standard>, check: Check, inRanges: LineTest, f: string)
    ensures var added := FileErrors(env, catalogue, check, inRanges, f);
            added.Ok? ==>
              (added.value > 0 <==>
                 Classify(f).Some?
                 && var built := CandidateSpec(env, f, Classify(f).value, catalogue);
                    built.Ok? && !built.value.candidate.binary && !built.value.candidate.vault
                    && var c := built.value.candidate;
                       exists i :: 0 <= i < |c.standards| && BindingViolation(c.standards[i], c, check, None, inRanges))
  {
    PerFileCases(env, catalogue, check, inRanges, f);
    if Classify(f).Some? {
      var built := CandidateSpec(env, f, Classify(f).value, catalogue);
      if built.Ok? {
        var c := built.value.candidate;
        ReviewErrorsPositive(c.standards, c, check, None, inRanges);
      }
    }
  }

  /**
   * The per-file function known only by its values, so that reasoning about
   * the running total does not expand every file's outcome. A proof device
   * only: it models nothing of the source and keeps the loop's proof cheap.
   */
  lemma PerFileValues(env: Environment, catalogue: seq<Standard>, check: Check, inRanges: LineTest)
    returns (perFile: string -> Result<nat, Fault>)
    ensures forall f {:trigger FileErrors(env, catalogue, check, inRanges, f)} ::
              perFile(f) == FileErrors(env, catalogue, check, inRanges, f)
  {
    perFile := PerFile(env, catalogue, check, inRanges);
  }

  /**
   * The run's total is the total of any function with the per-file outcomes
   * as values. A proof device only, used where `RunFiles` returns.
   */
  lemma RunSpecByValues(env: Environment, catalogue: seq<Standard>, check: Check, inRanges: LineTest,
                        perFile: string -> Result<nat, Fault>, files: seq<string>)
    requires forall f {:trigger FileErrors(env, catalogue, check, inRanges, f)} ::
               perFile(f) == FileErrors(env, catalogue, check, inRanges, f)
    ensures RunSpec(env, catalogue, check, inRanges, files) == Total(perFile, files)
  {
    TotalExtensional(perFile, PerFile(env, catalogue, check, inRanges), files);
  }

  /** Totals depend only on the values of the per-file function. */
  lemma {:induction false} TotalExtensional(p: string -> Result<nat, Fault>, q: string -> Result<nat, Fault>, files: seq<string>)
    requires forall f :: p(f) == q(f)
    ensures Total(p, files) == Total(q, files)
    decreases |files|
  {
    if files != [] {
      TotalExtensional(p, q, files[..|files| - 1]);
    }
  }

  lemma TotalStep(perFile: string -> Result<nat, Fault>, files: seq<string>, i: nat)
    requires i < |files|
    ensures Total(perFile, files[..i + 1]) == AddErrors(Total(perFile, files[..i]), perFile(files[i]))
  {
    var t := files[..i + 1];
    assert t[..|t| - 1] == files[..i];
    assert t[|t| - 1] == files[i];
  }

  /**
   * The loop of `main` from `errors = 0` on. The total it computes is
   * returned here, though `main` itself discards it.
   */
  method RunFiles(env: Environment, catalogue: seq<Standard>, check: Check, inRanges: LineTest, files: seq<string>)
    returns (r: Result<nat, Fault>)
    ensures r == RunSpec(env, catalogue, check, inRanges, files)
  {
    ghost var perFile := PerFileValues(env, catalogue, check, inRanges);
    var errors: nat := 0;
    for i := 0 to |files|
      invariant Total(perFile, files[..i]) == Ok(errors)
    {
      var added := ProcessFileAs(perFile, env, catalogue, check, inRanges, files[i]);
      TotalAdd(perFile, files, i, errors, added);
      if added.Err? {
        RunSpecByValues(env, catalogue, check, inRanges, perFile, files);
        return Err(added.error);
      }
      errors := errors + added.value;
    }
    TotalWhole(perFile, files);
    RunSpecByValues(env, catalogue, check, inRanges, perFile, files);
    return Ok(errors);
  }

  /**
   * `ProcessFile` seen through `perFile`, the per-file outcome passed by its
   * values, so that the loop of `RunFiles` reasons about `perFile` alone. A
   * proof device only: it does what `ProcessFile` does.
   */
  method ProcessFileAs(ghost perFile: string -> Result<nat, Fault>, env: Environment, catalogue: seq<Standard>,
                       check: Check, inRanges: LineTest, filename: string)
    returns (added: Result<nat, Fault>)
    requires forall f {:trigger FileErrors(env, catalogue, check, inRanges, f)} ::
               perFile(f) == FileErrors(env, catalogue, check, inRanges, f)
    ensures added == perFile(filename)
  {
    added := ProcessFile(env, catalogue, check, inRanges, filename);
  }

  /**
   * One pass of the loop body of `main`: classify, build the candidate,
   * skip binary and vault files, review the rest with `lines` unset.
   */
  method ProcessFile(env: Environment, catalogue: seq<Standard>, check: Check, inRanges: LineTest, filename: string)
    returns (added: Result<nat, Fault>)
    ensures added == FileErrors(env, catalogue, check, inRanges, filename)
  {
    PerFileCases(env, catalogue, check, inRanges, filename);
    var lines: Option<string> := None;
    var kind := Classify(filename);
    if kind.None? {
      return Ok(0);
    }
    var built := NewCandidate(env, filename, kind.value, catalogue);
    if built.Err? {
      return Err(built.error);
    }
    var candidate := built.value.candidate;
    if candidate.binary {
      return Ok(0);
    }
    if candidate.vault {
      return Ok(0);
    }
    var review := ReviewCandidate(candidate, check, lines, inRanges);
    if review.Err? {
      return Err(review.error);
    }
    return Ok(review.value.errors);
  }

  /** One more file either adds its count to the running total or ends the run. */
  lemma TotalAdd(perFile: string -> Result<nat, Fault>, files: seq<string>, i: nat, errors: nat, added: Result<nat, Fault>)
    requires i < |files| && Total(perFile, files[..i]) == Ok(errors) && perFile(files[i]) == added
    ensures added.Ok? ==> Total(perFile, files[..i + 1]) == Ok(errors + added.value)
    ensures added.Err? ==> Total(perFile, files) == Err(added.error)
  {
    TotalStep(perFile, files, i);
    if added.Err? {
      TotalAbortPersists(perFile, files, i + 1);
    }
  }

  lemma TotalWhole(perFile: string -> Result<nat, Fault>, files: seq<string>)
    ensures Total(perFile, files[..|files|]) == Total(perFile, files)
  {
    assert files[..|files|] == files;
  }

  /** An abort ends the run: files after the one that aborted change nothing. */
  lemma {:induction false} TotalAbortPersists(perFile: string -> Result<nat, Fault>, files: seq<string>, k: nat)
    requires k <= |files| && Total(perFile, files[..k]).Err?
    ensures Total(perFile, files) == Total(perFile, files[..k])
    decreases |files| - k
  {
    if k < |files| {
      TotalStep(perFile, files, k);
      TotalAbortPersists(perFile, files, k + 1);
    } else {
      assert files[..k] == files;
    }
  }

  /**
   * Running over two lists one after the other is running over their
   * concatenation: the totals add up, and an abort in the first list is the
   * outcome of the whole.
   */
  lemma {:induction false} TotalConcat(perFile: string -> Result<nat, Fault>, a: seq<string>, b: seq<string>)
    ensures Total(perFile, a + b) == AddErrors(Total(perFile, a), Total(perFile, b))
    decreases |b|
  {
    if b == [] {
      assert a + b == a;
    } else {
      var ab := a + b;
      assert ab[..|ab| - 1] == a + b[..|b| - 1];
      assert ab[|ab| - 1] == b[|b| - 1];
      TotalConcat(perFile, a, b[..|b| - 1]);
    }
  }

  /** A file that adds nothing can be dropped from the list without changing the total. */
  lemma ZeroFileIgnored(perFile: string -> Result<nat, Fault>, a: seq<string>, f: string, b: seq<string>)
    requires perFile(f) == Ok(0)
    ensures Total(perFile, a + [f] + b) == Total(perFile, a + b)
  {
    TotalConcat(perFile, a + [f], b);
    TotalConcat(perFile, a, [f]);
    TotalConcat(perFile, a, b);
    assert [f][..0] == [];
  }

  /** A file the classifier rejects adds nothing and aborts nothing, wherever it appears. */
  lemma UnclassifiedIgnored(env: Environment, catalogue: seq<Standard>, check: Check, inRanges: LineTest,
                            a: seq<string>, f: string, b: seq<string>)
    requires Classify(f).None?
    ensures RunSpec(env, catalogue, check, inRanges, a + [f] + b) == RunSpec(env, catalogue, check, inRanges, a + b)
  {
    PerFileCases(env, catalogue, check, inRanges, f);
    ZeroFileIgnored(PerFile(env, catalogue, check, inRanges), a, f, b);
  }

  /**
   * A binary or vault file is never reviewed: what it adds does not depend
   * on the checks, and is nothing once its candidate is built.
   */
  lemma SkippedFilesNotReviewed(env: Environment, catalogue: seq<Standard>, check1: Check, check2: Check,
                                inRanges: LineTest, filename: string, kind: Kind)
    requires Classify(filename) == Some(kind)
    requires var built := CandidateSpec(env, filename, kind, catalogue);
             built.Ok? && (built.value.candidate.binary || built.value.candidate.vault)
    ensures FileErrors(env, catalogue, check1, inRanges, filename) == Ok(0)
    ensures FileErrors(env, catalogue, check2, inRanges, filename) == Ok(0)
  {
  }

  /**
   * A reviewed file adds the binding failures its review logs, found with
   * `lines` set to `None`.
   */
  lemma ReviewedFileAddsBindingFailures(env: Environment, catalogue: seq<Standard>, check: Check, inRanges: LineTest,
                                        filename: string, kind: Kind)
    requires Classify(filename) == Some(kind)
    requires var built := CandidateSpec(env, filename, kind, catalogue);
             built.Ok? && !built.value.candidate.binary && !built.value.candidate.vault
    ensures var c := CandidateSpec(env, filename, kind, catalogue).value.candidate;
            var review := ReviewOf(c.standards, c, check, None, inRanges);
            FileErrors(env, catalogue, check, inRanges, filename)
              == if review.Err? then Err(review.error) else Ok(BindingCount(review.value.entries))
  {
    var c := CandidateSpec(env, filename, kind, catalogue).value.candidate;
    ReviewOfCounts(c.standards, c, check, None, inRanges);
  }
}
