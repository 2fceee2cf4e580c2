/** Scanning primitives shared by the pattern matchers: character runs, word
    boundaries, case-insensitive literals and decimal numbers. */
module Scan {
  import opened Wrappers
  import opened Chars

  /** A half-open range [start, end) of a text: a capture group's extent. */
  datatype Span = Span(start: nat, end: nat)

  /** Every character of t[i..j] is in class k. */
  ghost predicate AllIn(t: string, i: nat, j: nat, k: CharClass) {
    i <= j <= |t| && forall p :: i <= p < j ==> InClass(t[p], k)
  }

  /** A run of class-k characters, cut out of the text, is all class k. */
  lemma AllInSlice(t: string, i: nat, j: nat, k: CharClass)
    requires AllIn(t, i, j, k)
    ensures AllIn(t[i..j], 0, j - i, k)
  {
    forall p | 0 <= p < j - i
      ensures InClass(t[i..j][p], k)
    {
      assert t[i..j][p] == t[i + p];
    }
  }

  /** Two strings all of class k concatenate to one. */
  lemma AllInConcat(a: string, b: string, k: CharClass)
    requires AllIn(a, 0, |a|, k) && AllIn(b, 0, |b|, k)
    ensures AllIn(a + b, 0, |a + b|, k)
  {
    forall p | 0 <= p < |a + b|
      ensures InClass((a + b)[p], k)
    {
      if p < |a| {
        assert (a + b)[p] == a[p];
      } else {
        assert (a + b)[p] == b[p - |a|];
      }
    }
  }

  /** The end of the longest run of class-k characters starting at i. */
  function RunEnd(t: string, i: nat, k: CharClass): (j: nat)
    requires i <= |t|
    ensures i <= j <= |t|
    ensures AllIn(t, i, j, k)
    ensures j == |t| || !InClass(t[j], k)
    decreases |t| - i
  {
    if i < |t| && InClass(t[i], k) then RunEnd(t, i + 1, k) else i
  }

  /** Any run of class-k characters from i ends at or before RunEnd, and a run that
      stops at a character outside the class ends exactly there. */
  lemma RunEndMaximal(t: string, i: nat, j: nat, k: CharClass)
    requires AllIn(t, i, j, k)
    ensures j <= RunEnd(t, i, k)
    ensures (j == |t| || !InClass(t[j], k)) ==> j == RunEnd(t, i, k)
  {
  }

  /** `\b` at position p: exactly one of the characters around p is a word character. */
  predicate Boundary(t: string, p: nat) {
    p <= |t| && ((p > 0 && IsWordChar(t[p - 1])) != (p < |t| && IsWordChar(t[p])))
  }

  /** t[i..] starts with `lit` compared case-insensitively (lit is lower-case ASCII). */
  predicate CiLitAt(t: string, i: nat, lit: string) {
    i + |lit| <= |t| && forall p :: 0 <= p < |lit| ==> CiEq(t[i + p], lit[p])
  }

  /** t[q..e] is a word of `[0-9]+(?:\.[0-9]+)?` whose fraction, if any, starts at the
      dot position m (m == e when there is no fraction). */
  ghost predicate NumberShape(t: string, q: nat, m: nat, e: nat) {
    && q < m <= e <= |t|
    && AllIn(t, q, m, Digit)
    && (m == e || (m + 1 < e && t[m] == '.' && AllIn(t, m + 1, e, Digit)))
  }

  /** t[q..e] is a word of `[0-9]+(?:\.[0-9]+)?`. */
  ghost predicate IsNumber(t: string, q: nat, e: nat) {
    exists m: nat :: NumberShape(t, q, m, e)
  }

  /** The end of the number the greedy pattern `[0-9]+(?:\.[0-9]+)?` captures at q. */
  function NumberEnd(t: string, q: nat): (r: Option<nat>)
    requires q <= |t|
    ensures r.Some? ==> q < r.value <= |t|
  {
    var d := RunEnd(t, q, Digit);
    if d == q then None
    else if d + 1 < |t| && t[d] == '.' && IsDigit(t[d + 1]) then Some(RunEnd(t, d + 1, Digit))
    else Some(d)
  }

  /** NumberEnd finds a number exactly when the pattern matches at q, and its end is
      the end of the longest match, which is the one the greedy quantifiers pick. */
  lemma NumberEndCorrect(t: string, q: nat)
    requires q <= |t|
    ensures NumberEnd(t, q).Some? ==> IsNumber(t, q, NumberEnd(t, q).value)
    ensures NumberEnd(t, q).Some? ==> forall e: nat :: IsNumber(t, q, e) ==> e <= NumberEnd(t, q).value
    ensures NumberEnd(t, q).None? ==> forall e: nat :: !IsNumber(t, q, e)
  {
    var d := RunEnd(t, q, Digit);
    if d != q {
      var e := NumberEnd(t, q).value;
      if e == d {
        assert NumberShape(t, q, d, d);
      } else {
        assert AllIn(t, d + 1, e, Digit);
        assert NumberShape(t, q, d, e);
      }
    }
    forall e: nat | IsNumber(t, q, e)
      ensures NumberEnd(t, q).Some? && e <= NumberEnd(t, q).value
    {
      var m: nat :| NumberShape(t, q, m, e);
      RunEndMaximal(t, q, m, Digit);
      if m < e {
        assert !IsDigit(t[m]);
        assert m == d;
        assert IsDigit(t[m + 1]);
        RunEndMaximal(t, d + 1, e, Digit);
      }
    }
  }

  function DigitValue(c: char): nat {
    if IsDigit(c) then c as int - '0' as int else 0
  }

  /** The value of a string of decimal digits, as `Number` reads it. */
  function DigitsValue(s: string): nat
    decreases |s|
  {
    if |s| == 0 then 0 else DigitsValue(s[..|s| - 1]) * 10 + DigitValue(s[|s| - 1])
  }

  function Pow10(n: nat): (p: nat)
    ensures p > 0
  {
    if n == 0 then 1 else 10 * Pow10(n - 1)
  }

  /** The position of the first '.' in s at or after i, if any. */
  function IndexOfDot(s: string, i: nat): (r: Option<nat>)
    ensures r.Some? ==> i <= r.value < |s| && s[r.value] == '.'
    ensures r.Some? ==> forall p :: i <= p < r.value ==> s[p] != '.'
    ensures r.None? ==> forall p :: i <= p < |s| ==> s[p] != '.'
    decreases |s| - i
  {
    if i >= |s| then None
    else if s[i] == '.' then Some(i)
    else IndexOfDot(s, i + 1)
  }

  /** The exact value of a captured `digits(.digits)?` text. */
  function DecimalValue(s: string): (v: real)
    ensures v >= 0.0
  {
    match IndexOfDot(s, 0)
    case None => DigitsValue(s) as real
    case Some(m) => DigitsValue(s[..m]) as real + DigitsValue(s[m + 1..]) as real / Pow10(|s| - m - 1) as real
  }
  /** `Number` reads "2350.50" as 2350.5 and "7" as 7. */
  lemma DecimalValueExample()
    ensures DecimalValue("2350.50") == 2350.5
    ensures DecimalValue("7") == 7.0
  {
    assert IndexOfDot("2350.50", 0) == Some(4);
    assert "2350.50"[..4] == "2350";
    assert "2350.50"[5..] == "50";
    assert DigitsValue("2350") == 2350 by {
      assert "2350"[..3] == "235";
      assert "235"[..2] == "23";
      assert "23"[..1] == "2";
    }
    assert DigitsValue("50") == 50 by {
      assert "50"[..1] == "5";
    }
  }

  /** The first position at or after `from` whose entry in `hits` is present: with
      hits[j] the outcome of trying a pattern at position j, this is the leftmost match. */
  function FirstSome<T>(hits: seq<Option<T>>, from: nat): (r: Option<(nat, T)>)
    ensures r.Some? ==> from <= r.value.0 < |hits| && hits[r.value.0] == Some(r.value.1)
    ensures r.Some? ==> forall j :: from <= j < r.value.0 ==> hits[j].None?
    ensures r.None? ==> forall j :: from <= j < |hits| ==> hits[j].None?
    decreases |hits| - from
  {
    if from >= |hits| then None
    else if hits[from].Some? then Some((from, hits[from].value))
    else FirstSome(hits, from + 1)
  }
}
