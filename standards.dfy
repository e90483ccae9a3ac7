/**
 * The standards a candidate is reviewed against, and the allow-list filter
 * that the `rules.filter` setting applies to the catalogue when a candidate
 * is built.
 */
module Standards {
  import opened Wrappers
  import opened LooseVersions

  /**
   * One entry of the standards catalogue. `version` is `None` both for a
   * missing and for an empty version (Python treats either as false); the
   * check the standard runs is supplied separately, as a parameter of the
   * review.
   */
  datatype Standard = Standard(id: string, name: string, version: Option<VersionString>, types: seq<string>)

  /** `if limits:` on the filter setting, which is `None` or a list of ids. */
  predicate FilterActive(limits: Option<seq<string>>) {
    limits.Some? && |limits.value| > 0
  }

  /** `a` can be obtained from `b` by deleting elements, keeping the order. */
  predicate IsSubsequence<T(==)>(a: seq<T>, b: seq<T>)
    decreases |b|
  {
    if a == [] then true
    else if b == [] then false
    else if a[|a| - 1] == b[|b| - 1] then IsSubsequence(a[..|a| - 1], b[..|b| - 1])
    else IsSubsequence(a, b[..|b| - 1])
  }

  /** The standards whose id is listed in `lim`, in catalogue order. */
  function Kept(lim: seq<string>, ss: seq<Standard>): seq<Standard>
    decreases |ss|
  {
    if ss == [] then []
    else Kept(lim, ss[..|ss| - 1]) + (if ss[|ss| - 1].id in lim then [ss[|ss| - 1]] else [])
  }

  /**
   * What `_get_standards` returns: with an active filter, exactly the listed
   * standards in catalogue order; otherwise the catalogue itself.
   */
  function Selected(limits: Option<seq<string>>, ss: seq<Standard>): (r: seq<Standard>)
    ensures !FilterActive(limits) ==> r == ss
    ensures IsSubsequence(r, ss)
    ensures forall x :: x in r <==> x in ss && (FilterActive(limits) ==> x.id in limits.value)
  {
    if FilterActive(limits) then
      KeptIsSubsequence(limits.value, ss);
      KeptCount(limits.value, ss);
      Kept(limits.value, ss)
    else
      SubsequenceReflexive(ss);
      ss
  }

  /** `_get_standards`: appends every catalogue entry whose id the filter lists. */
  method GetStandards(limits: Option<seq<string>>, standards: seq<Standard>) returns (target: seq<Standard>)
    ensures target == Selected(limits, standards)
  {
    target := [];
    if FilterActive(limits) {
      for i := 0 to |standards|
        invariant target == Kept(limits.value, standards[..i])
      {
        if standards[i].id in limits.value {
          target := target + [standards[i]];
        }
        assert standards[..i + 1][..i] == standards[..i];
      }
      assert standards[..|standards|] == standards;
    } else {
      target := standards;
    }
  }

  lemma {:induction false} SubsequenceReflexive<T>(a: seq<T>)
    ensures IsSubsequence(a, a)
    decreases |a|
  {
    if a != [] {
      SubsequenceReflexive(a[..|a| - 1]);
    }
  }

  /** A subsequence with its last element removed is still a subsequence. */
  lemma {:induction false} SubsequenceDropLast<T>(a: seq<T>, b: seq<T>)
    requires a != [] && IsSubsequence(a, b)
    ensures IsSubsequence(a[..|a| - 1], b)
    decreases |b|, 0
  {
    assert b[..|b| - 1] + [b[|b| - 1]] == b;
    if a[|a| - 1] == b[|b| - 1] {
      SubsequenceOfPrefix(a[..|a| - 1], b[..|b| - 1], b[|b| - 1]);
    } else {
      SubsequenceDropLast(a, b[..|b| - 1]);
      SubsequenceOfPrefix(a[..|a| - 1], b[..|b| - 1], b[|b| - 1]);
    }
  }

  /** A subsequence of `b` is a subsequence of `b + [x]`. */
  lemma {:induction false} SubsequenceOfPrefix<T>(a: seq<T>, b: seq<T>, x: T)
    requires IsSubsequence(a, b)
    ensures IsSubsequence(a, b + [x])
    decreases |b|, 1
  {
    var bx := b + [x];
    assert bx[..|bx| - 1] == b;
    if a != [] && a[|a| - 1] == x {
      SubsequenceDropLast(a, b);
    }
  }

  /** The filter keeps the catalogue order: its result is a subsequence of the catalogue. */
  lemma {:induction false} KeptIsSubsequence(lim: seq<string>, ss: seq<Standard>)
    ensures IsSubsequence(Kept(lim, ss), ss)
    decreases |ss|
  {
    if ss != [] {
      var init := ss[..|ss| - 1];
      var last := ss[|ss| - 1];
      var prev := Kept(lim, init);
      KeptIsSubsequence(lim, init);
      assert init + [last] == ss;
      if last.id in lim {
        var r := prev + [last];
        assert Kept(lim, ss) == r;
        assert r[..|r| - 1] == prev;
      } else {
        assert Kept(lim, ss) == prev;
        SubsequenceOfPrefix(prev, init, last);
      }
    }
  }

  /**
   * The filter neither drops nor duplicates a listed standard: each entry
   * occurs in the result exactly as often as in the catalogue when its id is
   * listed, and not at all otherwise.
   */
  lemma {:induction false} KeptCount(lim: seq<string>, ss: seq<Standard>)
    ensures forall x :: multiset(Kept(lim, ss))[x] == if x.id in lim then multiset(ss)[x] else 0
    decreases |ss|
  {
    if ss != [] {
      var init := ss[..|ss| - 1];
      KeptCount(lim, init);
      assert ss == init + [ss[|ss| - 1]];
    }
  }
}
