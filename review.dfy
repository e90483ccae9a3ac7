/**
 * Reviewing a candidate: every standard whose `types` name the candidate's
 * class runs its check; each reported violation that survives the line
 * filter is logged in one of three tiers, and only the binding tier counts
 * as an error.
 */
module Review {
  import opened Wrappers
  import opened LooseVersions
  import opened Faults
  import opened Kinds
  import opened Standards
  import opened Candidates

  /** One violation a check reports; `lineno` is `None` when it has none. */
  datatype Violation = Violation(lineno: Option<int>, message: string)

  /** `not err.lineno`: no line number, or line number 0. */
  predicate FalsyLineno(v: Violation) {
    v.lineno.None? || v.lineno.value == 0
  }

  /**
   * `utils.is_line_in_ranges(n, utils.lines_ranges(lines))`, given as a
   * parameter: whether line `n` lies in the ranges the `lines` argument names.
   */
  type LineTest = (int, Option<string>) -> bool

  /** A standard's check: its violations, or `None` for a false result object. */
  type Check = (Standard, Candidate) -> Option<seq<Violation>>

  /** The violations the line filter keeps, in the order reported. */
  function Surviving(errs: seq<Violation>, lines: Option<string>, inRanges: LineTest): seq<Violation>
    decreases |errs|
  {
    if errs == [] then []
    else
      var last := errs[|errs| - 1];
      Surviving(errs[..|errs| - 1], lines, inRanges) + if PassesLineFilter(last, lines, inRanges) then [last] else []
  }

  /** The line filter keeps `v`: it has no line number, or one inside the ranges. */
  predicate PassesLineFilter(v: Violation, lines: Option<string>, inRanges: LineTest) {
    FalsyLineno(v) || inRanges(v.lineno.value, lines)
  }

  /** A violation survives exactly when it was reported and the line filter keeps it. */
  lemma {:induction false} SurvivingMembers(errs: seq<Violation>, lines: Option<string>, inRanges: LineTest)
    ensures forall v :: v in Surviving(errs, lines, inRanges) <==> v in errs && PassesLineFilter(v, lines, inRanges)
    decreases |errs|
  {
    if errs != [] {
      var init := errs[..|errs| - 1];
      var last := errs[|errs| - 1];
      SurvivingMembers(init, lines, inRanges);
      assert errs == init + [last];
      var tail := if PassesLineFilter(last, lines, inRanges) then [last] else [];
      assert Surviving(errs, lines, inRanges) == Surviving(init, lines, inRanges) + tail;
    }
  }

  /** The survivors keep their reported order: they form a subsequence of the violations. */
  lemma {:induction false} SurvivingInOrder(errs: seq<Violation>, lines: Option<string>, inRanges: LineTest)
    ensures IsSubsequence(Surviving(errs, lines, inRanges), errs)
    decreases |errs|
  {
    if errs == [] {
    } else {
      var init := errs[..|errs| - 1];
      var last := errs[|errs| - 1];
      var prev := Surviving(init, lines, inRanges);
      SurvivingInOrder(init, lines, inRanges);
      assert errs == init + [last];
      if PassesLineFilter(last, lines, inRanges) {
        var r := prev + [last];
        assert Surviving(errs, lines, inRanges) == r;
        assert r[..|r| - 1] == prev;
      } else {
        assert Surviving(errs, lines, inRanges) == prev;
        SubsequenceOfPrefix(prev, init, last);
      }
    }
  }

  /** How a violation of the standard is reported for a candidate at `version`. */
  datatype Tier =
    | Advisory  // "Best practice ... not met": the standard has no version
    | Future    // "Future standard ... not met": the standard is newer than the candidate
    | Binding   // "Standard ... not met": counted as an error

  function TierOf(s: Standard, version: VersionString): Tier {
    if s.version.None? then Advisory
    else if VersionGreater(s.version.value, version) then Future
    else Binding
  }

  /**
   * A violation is advisory exactly when the standard has no version, and
   * future exactly when the standard's version is greater than the
   * candidate's; in every other case it is binding.
   */
  lemma TierOfMeaning(s: Standard, version: VersionString)
    ensures TierOf(s, version) == Advisory <==> s.version.None?
    ensures TierOf(s, version) == Future <==> s.version.Some? && VersionGreater(s.version.value, version)
    ensures TierOf(s, version) == Binding <==> s.version.Some? && !VersionGreater(s.version.value, version)
  {
  }

  /**
   * Tiers are monotone in the candidate's version: a standard binding for a
   * candidate stays binding for any candidate whose version is not smaller,
   * and a standard from the future for a candidate is from the future for
   * any candidate whose version is not greater. Advisory does not depend on
   * the version.
   */
  lemma TierMonotone(s: Standard, v: VersionString, w: VersionString)
    requires !VersionGreater(v, w)
    ensures TierOf(s, v) == Binding ==> TierOf(s, w) == Binding
    ensures TierOf(s, w) == Future ==> TierOf(s, v) == Future
    ensures TierOf(s, v) == Advisory <==> TierOf(s, w) == Advisory
  {
    if s.version.Some? && VersionGreater(s.version.value, w) {
      var cs, cv, cw := Components(s.version.value), Components(v), Components(w);
      ListGreaterTotal(cv, cw);
      if cv != cw {
        ListGreaterTransitive(cs, cw, cv);
      }
    }
  }

  /** One logged review line: a surviving violation, or a standard met. */
  datatype Entry = Failed(standardId: string, tier: Tier, violation: Violation) | Met(standardId: string, tier: Tier)

  /** The returned error count together with the review lines logged. */
  datatype Report = Report(errors: nat, entries: seq<Entry>)

  /** The standard's `types` name the candidate's class. */
  predicate Applies(s: Standard, c: Candidate) {
    ClassName(c.kind) in s.types
  }

  function FailedEntries(id: string, tier: Tier, vs: seq<Violation>): seq<Entry> {
    seq(|vs|, k requires 0 <= k < |vs| => Failed(id, tier, vs[k]))
  }

  /** The number of binding failures among the entries. */
  function BindingCount(es: seq<Entry>): nat
    decreases |es|
  {
    if es == [] then 0
    else BindingCount(es[..|es| - 1]) + (if es[|es| - 1].Failed? && es[|es| - 1].tier == Binding then 1 else 0)
  }

  lemma {:induction false} BindingCountAppend(a: seq<Entry>, b: seq<Entry>)
    ensures BindingCount(a + b) == BindingCount(a) + BindingCount(b)
    decreases |b|
  {
    if b == [] {
      assert a + b == a;
    } else {
      var ab := a + b;
      assert ab[..|ab| - 1] == a + b[..|b| - 1];
      BindingCountAppend(a, b[..|b| - 1]);
    }
  }

  /** Every failure of a binding standard is counted, and no other entry is. */
  lemma {:induction false} BindingCountFailed(id: string, tier: Tier, vs: seq<Violation>)
    ensures BindingCount(FailedEntries(id, tier, vs)) == if tier == Binding then |vs| else 0
    decreases |vs|
  {
    if vs != [] {
      var es := FailedEntries(id, tier, vs);
      assert es[..|es| - 1] == FailedEntries(id, tier, vs[..|vs| - 1]);
      BindingCountFailed(id, tier, vs[..|vs| - 1]);
    }
  }

  /**
   * What reviewing one standard logs, and the errors it adds: nothing when
   * the standard does not apply, an abort when its check gives a false
   * result, otherwise one entry per surviving violation, plus a "met" entry
   * when the check reported no violation at all. The errors added are the
   * binding failures logged.
   */
  function StandardReview(s: Standard, c: Candidate, check: Check, lines: Option<string>, inRanges: LineTest): Result<Report, Fault> {
    if !Applies(s, c) then Ok(Report(0, []))
    else match check(s, c)
      case None => Err(EmptyCheckResult(s.id))
      case Some(errs) =>
        var tier := TierOf(s, c.version);
        var kept := Surviving(errs, lines, inRanges);
        Ok(Report(if tier == Binding then |kept| else 0,
                  FailedEntries(s.id, tier, kept) + (if errs == [] then [Met(s.id, tier)] else [])))
  }

  /**
   * One standard aborts the review exactly when it applies and its check
   * gives a false result; a standard that does not apply logs nothing; and
   * the errors one standard adds are the binding failures it logs.
   */
  lemma StandardReviewOutcome(s: Standard, c: Candidate, check: Check, lines: Option<string>, inRanges: LineTest)
    ensures var r := StandardReview(s, c, check, lines, inRanges);
            (r.Err? <==> Applies(s, c) && check(s, c).None?)
            && (r.Err? ==> r.error == EmptyCheckResult(s.id))
            && (r.Ok? && !Applies(s, c) ==> r.value == Report(0, []))
            && (r.Ok? ==> r.value.errors == BindingCount(r.value.entries))
  {
    if Applies(s, c) && check(s, c).Some? {
      StandardReviewReported(s, c, check, lines, inRanges, check(s, c).value);
    }
  }

  /** The review of an applicable standard whose check reported `errs`. */
  lemma StandardReviewReported(s: Standard, c: Candidate, check: Check, lines: Option<string>, inRanges: LineTest, errs: seq<Violation>)
    requires Applies(s, c) && check(s, c) == Some(errs)
    ensures var tier := TierOf(s, c.version);
            var failed := FailedEntries(s.id, tier, Surviving(errs, lines, inRanges));
            var met := if errs == [] then [Met(s.id, tier)] else [];
            StandardReview(s, c, check, lines, inRanges) == Ok(Report(BindingCount(failed), failed + met))
            && BindingCount(failed + met) == BindingCount(failed)
  {
    var tier := TierOf(s, c.version);
    var kept := Surviving(errs, lines, inRanges);
    var failed := FailedEntries(s.id, tier, kept);
    var met := if errs == [] then [Met(s.id, tier)] else [];
    BindingCountFailed(s.id, tier, kept);
    BindingCountAppend(failed, met);
    assert BindingCount(met) == 0 by {
      if met != [] {
        assert met[..0] == [];
      }
    }
  }

  /**
   * What one applicable standard logs: every entry carries the standard's id
   * and tier, a violation is logged exactly when it survives the line filter,
   * and "met" is logged exactly when the check reported nothing, even if
   * every reported violation was filtered out.
   */
  lemma StandardReviewEntries(s: Standard, c: Candidate, check: Check, lines: Option<string>, inRanges: LineTest, errs: seq<Violation>)
    requires Applies(s, c) && check(s, c) == Some(errs)
    ensures var r := StandardReview(s, c, check, lines, inRanges);
            var tier := TierOf(s, c.version);
            r.Ok?
            && (forall e :: e in r.value.entries ==> e.standardId == s.id && e.tier == tier)
            && (forall v :: Failed(s.id, tier, v) in r.value.entries <==> v in Surviving(errs, lines, inRanges))
            && (Met(s.id, tier) in r.value.entries <==> errs == [])
  {
    var tier := TierOf(s, c.version);
    var kept := Surviving(errs, lines, inRanges);
    StandardReviewReported(s, c, check, lines, inRanges, errs);
    FailedEntriesMembers(s.id, tier, kept);
  }

  /** The failure entries of one standard carry its id and tier, one per violation given. */
  lemma FailedEntriesMembers(id: string, tier: Tier, vs: seq<Violation>)
    ensures forall e :: e in FailedEntries(id, tier, vs) ==> e.Failed? && e.standardId == id && e.tier == tier
    ensures forall v :: Failed(id, tier, v) in FailedEntries(id, tier, vs) <==> v in vs
  {
    var failed := FailedEntries(id, tier, vs);
    forall v | Failed(id, tier, v) in failed
      ensures v in vs
    {
      var k :| 0 <= k < |failed| && failed[k] == Failed(id, tier, v);
    }
    forall v | v in vs
      ensures Failed(id, tier, v) in failed
    {
      var k :| 0 <= k < |vs| && vs[k] == v;
      assert failed[k] == Failed(id, tier, v);
    }
  }

  /** Appends the review of one more standard; an earlier abort stays the outcome. */
  function Extend(prev: Result<Report, Fault>, last: Result<Report, Fault>): Result<Report, Fault> {
    if prev.Err? then prev
    else if last.Err? then Err(last.error)
    else Ok(Report(prev.value.errors + last.value.errors, prev.value.entries + last.value.entries))
  }

  /** Reviews `ss` in order, `one` giving each standard's outcome; the first abort ends it. */
  function ReviewEach(one: Standard -> Result<Report, Fault>, ss: seq<Standard>): Result<Report, Fault>
    decreases |ss|
  {
    if ss == [] then Ok(Report(0, []))
    else Extend(ReviewEach(one, ss[..|ss| - 1]), one(ss[|ss| - 1]))
  }

  /** The outcome of each standard for this candidate, checks and line filter. */
  function StandardReviews(c: Candidate, check: Check, lines: Option<string>, inRanges: LineTest): Standard -> Result<Report, Fault> {
    s => StandardReview(s, c, check, lines, inRanges)
  }

  /** `review` over the standards `ss`, in order; the first abort ends it. */
  function ReviewOf(ss: seq<Standard>, c: Candidate, check: Check, lines: Option<string>, inRanges: LineTest): Result<Report, Fault> {
    ReviewEach(StandardReviews(c, check, lines, inRanges), ss)
  }

  /** `ReviewOf` of a non-empty list: the review of all but the last standard, extended by the last. */
  lemma ReviewOfLast(ss: seq<Standard>, c: Candidate, check: Check, lines: Option<string>, inRanges: LineTest)
    requires ss != []
    ensures ReviewOf(ss, c, check, lines, inRanges)
         == Extend(ReviewOf(ss[..|ss| - 1], c, check, lines, inRanges), StandardReview(ss[|ss| - 1], c, check, lines, inRanges))
  {
  }

  /** The error count `review` returns is the number of binding failures it logs. */
  lemma {:induction false} ReviewOfCounts(ss: seq<Standard>, c: Candidate, check: Check, lines: Option<string>, inRanges: LineTest)
    ensures var r := ReviewOf(ss, c, check, lines, inRanges);
            r.Ok? ==> r.value.errors == BindingCount(r.value.entries)
    decreases |ss|
  {
    if ss != [] {
      var prev := ReviewOf(ss[..|ss| - 1], c, check, lines, inRanges);
      var last := StandardReview(ss[|ss| - 1], c, check, lines, inRanges);
      ReviewOfLast(ss, c, check, lines, inRanges);
      ReviewOfCounts(ss[..|ss| - 1], c, check, lines, inRanges);
      StandardReviewOutcome(ss[|ss| - 1], c, check, lines, inRanges);
      if prev.Ok? && last.Ok? {
        BindingCountAppend(prev.value.entries, last.value.entries);
      }
    }
  }

  /** Reviewing one more standard extends the review of the ones before it. */
  lemma ReviewEachStep(one: Standard -> Result<Report, Fault>, ss: seq<Standard>, i: nat)
    requires i < |ss|
    ensures ReviewEach(one, ss[..i + 1]) == Extend(ReviewEach(one, ss[..i]), one(ss[i]))
  {
    var t := ss[..i + 1];
    assert t[..|t| - 1] == ss[..i];
    assert t[|t| - 1] == ss[i];
  }

  /** An abort ends the review: standards after the one that aborted change nothing. */
  lemma {:induction false} AbortPersists(one: Standard -> Result<Report, Fault>, ss: seq<Standard>, k: nat)
    requires k <= |ss| && ReviewEach(one, ss[..k]).Err?
    ensures ReviewEach(one, ss) == ReviewEach(one, ss[..k])
    decreases |ss| - k
  {
    if k < |ss| {
      ReviewEachStep(one, ss, k);
      AbortPersists(one, ss, k + 1);
    } else {
      assert ss[..k] == ss;
    }
  }

  /** Reviews depend only on the outcome of each standard. */
  lemma {:induction false} ReviewEachExtensional(p: Standard -> Result<Report, Fault>, q: Standard -> Result<Report, Fault>, ss: seq<Standard>)
    requires forall s :: p(s) == q(s)
    ensures ReviewEach(p, ss) == ReviewEach(q, ss)
    decreases |ss|
  {
    if ss != [] {
      ReviewEachExtensional(p, q, ss[..|ss| - 1]);
    }
  }

  /**
   * The per-standard outcome known only by its values, so that reasoning
   * about the review so far does not expand every standard's review. A proof
   * device only: it models nothing of the source and keeps the loop's proof
   * cheap.
   */
  lemma StandardReviewValues(c: Candidate, check: Check, lines: Option<string>, inRanges: LineTest)
    returns (one: Standard -> Result<Report, Fault>)
    ensures forall s {:trigger StandardReview(s, c, check, lines, inRanges)} ::
              one(s) == StandardReview(s, c, check, lines, inRanges)
  {
    one := StandardReviews(c, check, lines, inRanges);
  }

  /**
   * The review is the fold of any function with the per-standard outcomes
   * as values. A proof device only, used where `ReviewCandidate` returns.
   */
  lemma ReviewOfByValues(ss: seq<Standard>, c: Candidate, check: Check, lines: Option<string>, inRanges: LineTest,
                         one: Standard -> Result<Report, Fault>)
    requires forall s {:trigger StandardReview(s, c, check, lines, inRanges)} ::
               one(s) == StandardReview(s, c, check, lines, inRanges)
    ensures ReviewOf(ss, c, check, lines, inRanges) == ReviewEach(one, ss)
  {
    ReviewEachExtensional(one, StandardReviews(c, check, lines, inRanges), ss);
  }

  /** One more standard either extends the review so far or ends it with its abort. */
  lemma ReviewAdd(one: Standard -> Result<Report, Fault>, ss: seq<Standard>, i: nat, sofar: Report, next: Result<Report, Fault>)
    requires i < |ss| && ReviewEach(one, ss[..i]) == Ok(sofar) && one(ss[i]) == next
    ensures next.Ok? ==> ReviewEach(one, ss[..i + 1])
                           == Ok(Report(sofar.errors + next.value.errors, sofar.entries + next.value.entries))
    ensures next.Err? ==> ReviewEach(one, ss) == next
  {
    ReviewEachStep(one, ss, i);
    if next.Err? {
      AbortPersists(one, ss, i + 1);
    }
  }

  lemma ReviewEachWhole(one: Standard -> Result<Report, Fault>, ss: seq<Standard>)
    ensures ReviewEach(one, ss[..|ss|]) == ReviewEach(one, ss)
  {
    assert ss[..|ss|] == ss;
  }

  /**
   * The inner loop of `review`: logs each surviving violation with the tier
   * of its standard and counts the binding ones.
   */
  method LogViolations(standard: Standard, version: VersionString, kept: seq<Violation>) returns (errors: nat, entries: seq<Entry>)
    ensures entries == FailedEntries(standard.id, TierOf(standard, version), kept)
    ensures errors == BindingCount(entries)
  {
    errors := 0;
    entries := [];
    for j := 0 to |kept|
      invariant entries == FailedEntries(standard.id, TierOf(standard, version), kept[..j])
      invariant errors == (if TierOf(standard, version) == Binding then j else 0)
    {
      var err := kept[j];
      var tier: Tier;
      if standard.version.None? {
        tier := Advisory;
      } else if VersionGreater(standard.version.value, version) {
        tier := Future;
      } else {
        tier := Binding;
        errors := errors + 1;
      }
      entries := entries + [Failed(standard.id, tier, err)];
    }
    assert kept[..|kept|] == kept;
    BindingCountFailed(standard.id, TierOf(standard, version), kept);
  }

  /** `Candidate.review`: the error count and the lines logged, or the abort. */
  method ReviewCandidate(c: Candidate, check: Check, lines: Option<string>, inRanges: LineTest) returns (r: Result<Report, Fault>)
    ensures r == ReviewOf(c.standards, c, check, lines, inRanges)
  {
    ghost var one := StandardReviewValues(c, check, lines, inRanges);
    var errors: nat := 0;
    var entries: seq<Entry> := [];
    for i := 0 to |c.standards|
      invariant ReviewEach(one, c.standards[..i]) == Ok(Report(errors, entries))
    {
      var next := ReviewStandardAs(one, c.standards[i], c, check, lines, inRanges);
      ReviewAdd(one, c.standards, i, Report(errors, entries), next);
      if next.Err? {
        ReviewOfByValues(c.standards, c, check, lines, inRanges, one);
        return next;
      }
      errors := errors + next.value.errors;
      entries := entries + next.value.entries;
    }
    ReviewEachWhole(one, c.standards);
    ReviewOfByValues(c.standards, c, check, lines, inRanges, one);
    return Ok(Report(errors, entries));
  }

  /**
   * One pass of the loop of `review`: skip a standard that does not apply,
   * abort on a false check result, otherwise log the surviving violations
   * and, when there were none reported, that the standard is met.
   */
  method ReviewStandard(standard: Standard, c: Candidate, check: Check, lines: Option<string>, inRanges: LineTest)
    returns (r: Result<Report, Fault>)
    ensures r == StandardReview(standard, c, check, lines, inRanges)
  {
    if ClassName(c.kind) !in standard.types {
      return Ok(Report(0, []));
    }
    var result := check(standard, c);
    if result.None? {
      return Err(EmptyCheckResult(standard.id));
    }
    var kept := Surviving(result.value, lines, inRanges);
    var errors, logged := LogViolations(standard, c.version, kept);
    var met: seq<Entry> := [];
    if result.value == [] {
      met := [Met(standard.id, TierOf(standard, c.version))];
    }
    StandardReviewReported(standard, c, check, lines, inRanges, result.value);
    return Ok(Report(errors, logged + met));
  }

  /**
   * `ReviewStandard` seen through `one`, the per-standard review passed by
   * its values, so that the loop of `ReviewCandidate` reasons about `one`
   * alone. A proof device only: it does what `ReviewStandard` does.
   */
  method ReviewStandardAs(ghost one: Standard -> Result<Report, Fault>, standard: Standard, c: Candidate, check: Check,
                          lines: Option<string>, inRanges: LineTest)
    returns (r: Result<Report, Fault>)
    requires forall s {:trigger StandardReview(s, c, check, lines, inRanges)} :: one(s) == StandardReview(s, c, check, lines, inRanges)
    ensures r == one(standard)
  {
    r := ReviewStandard(standard, c, check, lines, inRanges);
  }

  /**
   * `review` gates on the lower-cased class name, not on `filetype`. For
   * every class but Task and Handler the two agree. A Task or Handler
   * candidate, whose `filetype` is the plural directory name, is never
   * reviewed against a standard whose `types` name only that plural.
   */
  lemma GateIgnoresFileType(s: Standard, c: Candidate, check: Check, lines: Option<string>, inRanges: LineTest)
    requires c.filetype == FileType(c.kind)
    ensures c.kind !in {Task, Handler} ==> (Applies(s, c) <==> c.filetype in s.types)
    ensures c.kind in {Task, Handler} && c.filetype in s.types && ClassName(c.kind) !in s.types ==>
              !Applies(s, c) && StandardReview(s, c, check, lines, inRanges) == Ok(Report(0, []))
  {
  }

  /** The standard aborts the review: it applies and its check gives a false result. */
  predicate Aborts(s: Standard, c: Candidate, check: Check) {
    Applies(s, c) && check(s, c).None?
  }

  /**
   * The review aborts exactly when some applicable standard's check gives a
   * false result, and then with the first such standard's id.
   */
  lemma {:induction false} AbortIff(ss: seq<Standard>, c: Candidate, check: Check, lines: Option<string>, inRanges: LineTest)
    ensures var r := ReviewOf(ss, c, check, lines, inRanges);
            (r.Err? <==> exists i :: 0 <= i < |ss| && Aborts(ss[i], c, check))
            && (r.Err? ==> exists i :: 0 <= i < |ss| && Aborts(ss[i], c, check) && r.error == EmptyCheckResult(ss[i].id)
                                       && forall j :: 0 <= j < i ==> !Aborts(ss[j], c, check))
    decreases |ss|
  {
    if ss != [] {
      var init := ss[..|ss| - 1];
      ReviewOfLast(ss, c, check, lines, inRanges);
      StandardReviewOutcome(ss[|ss| - 1], c, check, lines, inRanges);
      AbortIff(init, c, check, lines, inRanges);
      assert forall i :: 0 <= i < |init| ==> init[i] == ss[i];
      if ReviewOf(init, c, check, lines, inRanges).Err? {
        var i :| 0 <= i < |init| && Aborts(init[i], c, check) && ReviewOf(init, c, check, lines, inRanges).error == EmptyCheckResult(init[i].id)
                 && forall j :: 0 <= j < i ==> !Aborts(init[j], c, check);
        assert Aborts(ss[i], c, check);
      } else if Aborts(ss[|ss| - 1], c, check) {
        assert forall j :: 0 <= j < |ss| - 1 ==> !Aborts(ss[j], c, check);
      }
    }
  }

  /** `review` calls a check only for the standards that apply to the candidate. */
  lemma {:induction false} OnlyApplicableChecked(ss: seq<Standard>, c: Candidate, check1: Check, check2: Check,
                                                 lines: Option<string>, inRanges: LineTest)
    requires forall i :: 0 <= i < |ss| && Applies(ss[i], c) ==> check1(ss[i], c) == check2(ss[i], c)
    ensures ReviewOf(ss, c, check1, lines, inRanges) == ReviewOf(ss, c, check2, lines, inRanges)
    decreases |ss|
  {
    if ss != [] {
      var init := ss[..|ss| - 1];
      assert forall i :: 0 <= i < |init| ==> init[i] == ss[i];
      ReviewOfLast(ss, c, check1, lines, inRanges);
      ReviewOfLast(ss, c, check2, lines, inRanges);
      OnlyApplicableChecked(init, c, check1, check2, lines, inRanges);
    }
  }

  /**
   * The standard applies to the candidate, is binding at its version, and at
   * least one violation its check reports survives the line filter.
   */
  predicate BindingViolation(s: Standard, c: Candidate, check: Check, lines: Option<string>, inRanges: LineTest) {
    Applies(s, c) && TierOf(s, c.version) == Binding && check(s, c).Some?
    && Surviving(check(s, c).value, lines, inRanges) != []
  }

  /** One standard adds errors exactly when it has a binding violation. */
  lemma StandardErrorsPositive(s: Standard, c: Candidate, check: Check, lines: Option<string>, inRanges: LineTest)
    ensures var r := StandardReview(s, c, check, lines, inRanges);
            r.Ok? ==> (r.value.errors > 0 <==> BindingViolation(s, c, check, lines, inRanges))
  {
  }

  /**
   * A review that does not abort counts errors exactly when some standard
   * has a binding violation: one that applies, is binding at the
   * candidate's version, and reports a violation that survives the filter.
   */
  lemma ReviewErrorsPositive(ss: seq<Standard>, c: Candidate, check: Check, lines: Option<string>, inRanges: LineTest)
    ensures var r := ReviewOf(ss, c, check, lines, inRanges);
            r.Ok? ==> (r.value.errors > 0 <==> exists i :: 0 <= i < |ss| && BindingViolation(ss[i], c, check, lines, inRanges))
  {
    var one := StandardReviews(c, check, lines, inRanges);
    var counts := s => BindingViolation(s, c, check, lines, inRanges);
    forall s
      ensures one(s).Ok? ==> (one(s).value.errors > 0 <==> counts(s))
    {
      StandardErrorsPositive(s, c, check, lines, inRanges);
    }
    ReviewEachErrorsPositive(one, counts, ss);
  }

  /**
   * In any fold of per-standard outcomes, the total is positive exactly when
   * some standard's own count is, provided `counts` says which ones are.
   */
  lemma {:induction false} ReviewEachErrorsPositive(one: Standard -> Result<Report, Fault>, counts: Standard -> bool, ss: seq<Standard>)
    requires forall s :: one(s).Ok? ==> (one(s).value.errors > 0 <==> counts(s))
    ensures var r := ReviewEach(one, ss);
            r.Ok? ==> (r.value.errors > 0 <==> exists i :: 0 <= i < |ss| && counts(ss[i]))
    decreases |ss|
  {
    if ss != [] {
      var init := ss[..|ss| - 1];
      ReviewEachErrorsPositive(one, counts, init);
      assert forall i :: 0 <= i < |init| ==> init[i] == ss[i];
      if exists i :: 0 <= i < |ss| && counts(ss[i]) {
        var i :| 0 <= i < |ss| && counts(ss[i]);
        if i < |init| {
          assert counts(init[i]);
        }
      }
    }
  }

  /** Violations of advisory and future standards add nothing to the error count. */
  lemma {:induction false} OnlyBindingCounts(ss: seq<Standard>, c: Candidate, check: Check, lines: Option<string>, inRanges: LineTest)
    requires forall i :: 0 <= i < |ss| && Applies(ss[i], c) ==> TierOf(ss[i], c.version) != Binding
    ensures var r := ReviewOf(ss, c, check, lines, inRanges);
            r.Ok? ==> r.value.errors == 0
    decreases |ss|
  {
    if ss != [] {
      var init := ss[..|ss| - 1];
      assert forall i :: 0 <= i < |init| ==> init[i] == ss[i];
      OnlyBindingCounts(init, c, check, lines, inRanges);
      ReviewOfLast(ss, c, check, lines, inRanges);
      var s := ss[|ss| - 1];
      var last := StandardReview(s, c, check, lines, inRanges);
      if Applies(s, c) && last.Ok? {
        StandardReviewReported(s, c, check, lines, inRanges, check(s, c).value);
        BindingCountFailed(s.id, TierOf(s, c.version), Surviving(check(s, c).value, lines, inRanges));
      }
    }
  }

  /** A standard of the candidate's own version is binding. */
  lemma SameVersionIsBinding(s: Standard, version: VersionString)
    requires s.version == Some(version)
    ensures TierOf(s, version) == Binding
  {
    VersionGreaterIrreflexive(version);
  }

  /** Versions compare as numbers: a 1.10 standard is future for a 1.9 candidate, a 1.9 one binding for 1.10. */
  lemma TierComparesNumbers(s: Standard, t: Standard, nine: VersionString, ten: VersionString)
    requires nine == "1.9" && ten == "1.10"
    requires s.version == Some(ten) && t.version == Some(nine)
    ensures TierOf(s, nine) == Future && TierOf(t, ten) == Binding
  {
    TenIsGreaterThanNine(ten, nine);
  }

  /** A trailing component counts: a 1.0 standard is future for a candidate at version 1. */
  lemma TierTrailingComponent(s: Standard, one: VersionString, oneZero: VersionString)
    requires one == "1" && oneZero == "1.0" && s.version == Some(oneZero)
    ensures TierOf(s, one) == Future
  {
    TrailingZeroIsGreater(oneZero, one);
  }
}
