/**
 * `distutils.version.LooseVersion` restricted to the strings the version
 * declaration pattern `[\d.]+` admits: the string is cut at every `.`, empty
 * pieces are dropped, each remaining piece is read as a decimal number, and
 * two versions compare as Python compares the two lists of numbers.
 */
module LooseVersions {
  import opened PyStrings

  predicate IsVersionChar(c: char) {
    '0' <= c <= '9' || c == '.'
  }

  /** What the capture group `([\d.]+)` can hold: one or more digits and dots. */
  predicate IsVersionString(s: string) {
    |s| > 0 && AllVersionChars(s)
  }

  predicate AllVersionChars(s: string) {
    forall k :: 0 <= k < |s| ==> IsVersionChar(s[k])
  }

  type VersionString = s: string | IsVersionString(s) witness "0"

  function DigitValue(c: char): nat {
    if '0' <= c <= '9' then (c - '0') as nat else 0
  }

  /** The number a run of decimal digits denotes (`int(piece)`). */
  function DecimalValue(ds: string): nat
    decreases |ds|
  {
    if ds == "" then 0 else DecimalValue(ds[..|ds| - 1]) * 10 + DigitValue(ds[|ds| - 1])
  }

  /** The numbers of the non-empty pieces, in order. */
  function PieceValues(pieces: seq<string>): (r: seq<nat>)
    ensures |r| <= |pieces|
    decreases |pieces|
  {
    if pieces == [] then []
    else (if pieces[0] == "" then [] else [DecimalValue(pieces[0])]) + PieceValues(pieces[1..])
  }

  /** The component list `LooseVersion(v).version`. */
  function Components(v: string): seq<nat> {
    PieceValues(Split(v, '.'))
  }

  /**
   * Python's `>` on two lists of numbers: the first differing position
   * decides, and when one list is a proper prefix of the other the longer one
   * is greater.
   */
  predicate ListGreater(a: seq<nat>, b: seq<nat>)
    decreases |a|
  {
    if a == [] then false
    else if b == [] then true
    else if a[0] != b[0] then a[0] > b[0]
    else ListGreater(a[1..], b[1..])
  }

  /** `LooseVersion(a) > LooseVersion(b)` */
  predicate VersionGreater(a: string, b: string) {
    ListGreater(Components(a), Components(b))
  }

  /** No list is greater than itself. */
  lemma {:induction false} ListGreaterIrreflexive(a: seq<nat>)
    ensures !ListGreater(a, a)
    decreases |a|
  {
    if a != [] {
      ListGreaterIrreflexive(a[1..]);
    }
  }

  /** Of two lists at most one is greater than the other. */
  lemma {:induction false} ListGreaterAsymmetric(a: seq<nat>, b: seq<nat>)
    ensures !(ListGreater(a, b) && ListGreater(b, a))
    decreases |a|
  {
    if a != [] && b != [] && a[0] == b[0] {
      ListGreaterAsymmetric(a[1..], b[1..]);
    }
  }

  /** Greater-than on lists is transitive. */
  lemma {:induction false} ListGreaterTransitive(a: seq<nat>, b: seq<nat>, c: seq<nat>)
    requires ListGreater(a, b) && ListGreater(b, c)
    ensures ListGreater(a, c)
    decreases |a|
  {
    if c != [] && a[0] == b[0] && b[0] == c[0] {
      ListGreaterTransitive(a[1..], b[1..], c[1..]);
    }
  }

  /** Two different lists are always ordered one way or the other. */
  lemma {:induction false} ListGreaterTotal(a: seq<nat>, b: seq<nat>)
    ensures a == b || ListGreater(a, b) || ListGreater(b, a)
    decreases |a|
  {
    if a != [] && b != [] && a[0] == b[0] {
      ListGreaterTotal(a[1..], b[1..]);
      if a[1..] == b[1..] {
        assert a == [a[0]] + a[1..] && b == [b[0]] + b[1..];
      }
    }
  }

  /** A proper prefix is smaller than the list it starts. */
  lemma {:induction false} ProperPrefixIsSmaller(a: seq<nat>, b: seq<nat>)
    requires |a| < |b| && b[..|a|] == a
    ensures ListGreater(b, a) && !ListGreater(a, b)
    decreases |a|
  {
    if a != [] {
      assert a[0] == b[0];
      assert b[1..][..|a[1..]|] == a[1..];
      ProperPrefixIsSmaller(a[1..], b[1..]);
    }
  }

  /** A version compares equal to itself: it is never greater than itself. */
  lemma VersionGreaterIrreflexive(v: string)
    ensures !VersionGreater(v, v)
  {
    ListGreaterIrreflexive(Components(v));
  }

  /** The components of a dotted version made of two numbers. */
  lemma TwoPieceComponents(v: string, x: string, y: string)
    requires x != "" && y != "" && '.' !in x && '.' !in y
    requires v == x + "." + y
    ensures Components(v) == [DecimalValue(x), DecimalValue(y)]
  {
    assert Join([x, y], '.') == v;
    SplitJoin([x, y], '.');
    assert [x, y][1..] == [y];
    assert PieceValues([y]) == [DecimalValue(y)];
  }

  /** The components of a version without dots. */
  lemma OnePieceComponents(v: string)
    requires v != "" && '.' !in v
    ensures Components(v) == [DecimalValue(v)]
  {
    SplitWithoutSeparator(v, '.');
  }

  lemma SingleDigit(c: char)
    ensures DecimalValue([c]) == DigitValue(c)
  {
    assert [c][..0] == "";
  }

  /** Numbers, not text: "1.10" is greater than "1.9". */
  lemma TenIsGreaterThanNine(a: string, b: string)
    requires a == "1.10" && b == "1.9"
    ensures VersionGreater(a, b) && !VersionGreater(b, a)
  {
    TwoPieceComponents(a, a[..1], a[2..]);
    TwoPieceComponents(b, b[..1], b[2..]);
    SingleDigit(a[0]);
    SingleDigit(b[2]);
    assert a[..1] == [a[0]] && b[..1] == [a[0]] && b[2..] == [b[2]];
    assert DigitValue(a[0]) == 1 && DigitValue(b[2]) == 9;
    assert DecimalValue(a[2..]) == 10 by {
      assert a[2..][..1] == [a[0]];
      assert DigitValue(a[3]) == 0;
    }
    assert Components(a) == [1, 10];
    assert Components(b) == [1, 9];
    assert ListGreater([1, 10], [1, 9]) by {
      assert [1, 10][1..] == [10] && [1, 9][1..] == [9];
    }
    ListGreaterAsymmetric([1, 10], [1, 9]);
  }

  /** A trailing component makes a version greater: "1.0" is greater than "1". */
  lemma TrailingZeroIsGreater(a: string, b: string)
    requires a == "1.0" && b == "1"
    ensures VersionGreater(a, b) && !VersionGreater(b, a)
  {
    TwoPieceComponents(a, a[..1], a[2..]);
    OnePieceComponents(b);
    ProperPrefixIsSmaller([1], [1, 0]);
  }

  /** Leading zeros vanish in the numbers: "1.01" and "1.1" compare equal. */
  lemma LeadingZerosCompareEqual(a: string, b: string)
    requires a == "1.01" && b == "1.1"
    ensures !VersionGreater(a, b) && !VersionGreater(b, a)
  {
    TwoPieceComponents(a, a[..1], a[2..]);
    TwoPieceComponents(b, b[..1], b[2..]);
    assert a[2..][..1] == "0";
    ListGreaterIrreflexive([1, 1]);
  }
}
