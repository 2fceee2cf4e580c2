/** The regular expressions of `parseSignal` (app.js:62-76), each as an explicit
    scanner that tries one start position, next to a declarative predicate saying
    which decompositions of the text the pattern admits there.

    A JavaScript regex tries its alternatives in priority order and keeps the first
    that succeeds. In every pattern here all quantifiers are greedy and only the last
    capture (a number or a currency code) can vary between the decompositions the
    pattern admits at one position; the first decomposition the engine finds is then
    the one whose last capture is longest. Each correctness lemma says: the scanner
    finds a capture exactly when some decomposition exists, every decomposition agrees
    with it on the forced captures, and none has a longer last capture. */
module Patterns {
  import opened Wrappers
  import opened Chars
  import opened Scan

  lemma NumberStartsWithDigit(t: string, q: nat, e: nat)
    requires IsNumber(t, q, e)
    ensures q < |t| && IsDigit(t[q])
  {
    var m: nat :| NumberShape(t, q, m, e);
    assert InClass(t[q], Digit);
  }

  /** A literal made of lower-case letters starts with a letter, so never with whitespace. */
  lemma CiLitAtStart(t: string, i: nat, lit: string)
    requires CiLitAt(t, i, lit) && |lit| > 0 && IsLower(lit[0])
    ensures i < |t| && IsWordChar(t[i]) && !IsSpace(t[i]) && !IsDigit(t[i])
    ensures t[i] == lit[0] || t[i] == ToUpper(lit[0])
  {
    assert CiEq(t[i + 0], lit[0]);
  }

  /* ---------------- `\s*` then a number ---------------- */

  ghost predicate SpacedNumber(t: string, p: nat, q: nat, e: nat) {
    p <= q && AllIn(t, p, q, Space) && IsNumber(t, q, e)
  }

  function SpacedNumberAt(t: string, p: nat): (r: Option<Span>)
    requires p <= |t|
    ensures r.Some? ==> p <= r.value.start < r.value.end <= |t|
  {
    var q := RunEnd(t, p, Space);
    match NumberEnd(t, q)
    case None => None
    case Some(e) => Some(Span(q, e))
  }

  /** Any decomposition of `\s*(number)` at p is found by the scanner, with the same
      number start and an end no further. */
  lemma SpacedNumberForced(t: string, p: nat, q: nat, e: nat)
    requires p <= |t| && SpacedNumber(t, p, q, e)
    ensures SpacedNumberAt(t, p).Some?
    ensures q == SpacedNumberAt(t, p).value.start && e <= SpacedNumberAt(t, p).value.end
  {
    NumberStartsWithDigit(t, q, e);
    RunEndMaximal(t, p, q, Space);
    NumberEndCorrect(t, q);
  }

  lemma SpacedNumberAtCorrect(t: string, p: nat)
    requires p <= |t|
    ensures match SpacedNumberAt(t, p)
      case Some(c) =>
        && SpacedNumber(t, p, c.start, c.end)
        && forall q: nat, e: nat :: SpacedNumber(t, p, q, e) ==> q == c.start && e <= c.end
      case None => forall q: nat, e: nat :: !SpacedNumber(t, p, q, e)
  {
    NumberEndCorrect(t, RunEnd(t, p, Space));
    forall q: nat, e: nat | SpacedNumber(t, p, q, e)
      ensures SpacedNumberAt(t, p).Some?
      ensures q == SpacedNumberAt(t, p).value.start && e <= SpacedNumberAt(t, p).value.end
    {
      SpacedNumberForced(t, p, q, e);
    }
  }

  /* ---------------- `\s*[: ]\s*` then a number ---------------- */

  /** a is the position of the character matched by `[: ]`. */
  ghost predicate SepNumber(t: string, p: nat, a: nat, q: nat, e: nat) {
    && p <= a < |t| && AllIn(t, p, a, Space) && (t[a] == ':' || t[a] == ' ')
    && SpacedNumber(t, a + 1, q, e)
  }

  function SepNumberAt(t: string, p: nat): (r: Option<Span>)
    requires p <= |t|
    ensures r.Some? ==> p < r.value.start < r.value.end <= |t|
  {
    var w := RunEnd(t, p, Space);
    if w < |t| && t[w] == ':' && SpacedNumberAt(t, w + 1).Some? then
      // the greedy `\s*` stops at a colon
      SpacedNumberAt(t, w + 1)
    else if exists a: nat | p <= a < w :: t[a] == ' ' then
      // backtracking: `[: ]` takes a space inside the run, the number follows the run
      match NumberEnd(t, w)
      case None => None
      case Some(e) => Some(Span(w, e))
    else None
  }

  lemma SepNumberSound(t: string, p: nat)
    requires p <= |t| && SepNumberAt(t, p).Some?
    ensures exists a: nat :: SepNumber(t, p, a, SepNumberAt(t, p).value.start, SepNumberAt(t, p).value.end)
  {
    var w := RunEnd(t, p, Space);
    var c := SepNumberAt(t, p).value;
    if w < |t| && t[w] == ':' && SpacedNumberAt(t, w + 1).Some? {
      SpacedNumberAtCorrect(t, w + 1);
      assert SepNumber(t, p, w, c.start, c.end);
    } else {
      var a: nat :| p <= a < w && t[a] == ' ';
      NumberEndCorrect(t, w);
      assert AllIn(t, a + 1, w, Space);
      assert SpacedNumber(t, a + 1, c.start, c.end);
      assert SepNumber(t, p, a, c.start, c.end);
    }
  }

  lemma SepNumberForced(t: string, p: nat, a: nat, q: nat, e: nat)
    requires p <= |t| && SepNumber(t, p, a, q, e)
    ensures SepNumberAt(t, p).Some?
    ensures q == SepNumberAt(t, p).value.start && e <= SepNumberAt(t, p).value.end
  {
    if t[a] == ':' {
      SepNumberColonForced(t, p, a, q, e);
    } else {
      SepNumberSpaceForced(t, p, a, q, e);
    }
  }

  /** A colon separator is where the greedy `\s*` stops. */
  lemma SepNumberColonForced(t: string, p: nat, a: nat, q: nat, e: nat)
    requires p <= |t| && SepNumber(t, p, a, q, e) && t[a] == ':'
    ensures SepNumberAt(t, p).Some?
    ensures q == SepNumberAt(t, p).value.start && e <= SepNumberAt(t, p).value.end
  {
    assert a == RunEnd(t, p, Space) by {
      RunEndMaximal(t, p, a, Space);
    }
    assert SpacedNumber(t, a + 1, q, e);
    SpacedNumberForced(t, a + 1, q, e);
  }

  /** A space separator lies inside the whitespace run, and the number follows the run. */
  lemma SepNumberSpaceForced(t: string, p: nat, a: nat, q: nat, e: nat)
    requires p <= |t| && SepNumber(t, p, a, q, e) && t[a] == ' '
    ensures SepNumberAt(t, p).Some?
    ensures q == SepNumberAt(t, p).value.start && e <= SepNumberAt(t, p).value.end
  {
    var w := RunEnd(t, p, Space);
    assert a < w by {
      RunEndMaximal(t, p, a + 1, Space);
    }
    assert q == w by {
      NumberStartsWithDigit(t, q, e);
      assert AllIn(t, a + 1, w, Space);
      RunEndMaximal(t, a + 1, w, Space);
      RunEndMaximal(t, a + 1, q, Space);
    }
    assert !(w < |t| && t[w] == ':') by {
      NumberStartsWithDigit(t, q, e);
    }
    assert IsNumber(t, q, e);
    NumberEndCorrect(t, w);
  }

  lemma SepNumberAtCorrect(t: string, p: nat)
    requires p <= |t|
    ensures match SepNumberAt(t, p)
      case Some(c) =>
        && (exists a: nat :: SepNumber(t, p, a, c.start, c.end))
        && forall a: nat, q: nat, e: nat :: SepNumber(t, p, a, q, e) ==> q == c.start && e <= c.end
      case None => forall a: nat, q: nat, e: nat :: !SepNumber(t, p, a, q, e)
  {
    if SepNumberAt(t, p).Some? {
      SepNumberSound(t, p);
    }
    forall a: nat, q: nat, e: nat | SepNumber(t, p, a, q, e)
      ensures SepNumberAt(t, p).Some?
      ensures q == SepNumberAt(t, p).value.start && e <= SepNumberAt(t, p).value.end
    {
      SepNumberForced(t, p, a, q, e);
    }
  }

  /* ---------------- symbol: `([A-Z]{3,6})\s*\/\s*([A-Z]{3,6})` ---------------- */

  /** The two currency-code captures. */
  datatype SymbolSpan = SymbolSpan(base: Span, quote: Span)

  /** Base code t[i..m], slash at s, quote code t[q..e]. Case-sensitive. */
  ghost predicate SymbolMatch(t: string, i: nat, m: nat, s: nat, q: nat, e: nat) {
    && i + 3 <= m <= i + 6 && AllIn(t, i, m, Upper)
    && m <= s < |t| && AllIn(t, m, s, Space) && t[s] == '/'
    && s + 1 <= q && AllIn(t, s + 1, q, Space)
    && q + 3 <= e <= q + 6 && AllIn(t, q, e, Upper)
  }

  /** A symbol match at i with base code t[i..m] and quote code t[q..e]. */
  ghost predicate SymbolHit(t: string, i: nat, m: nat, q: nat, e: nat) {
    exists s: nat :: SymbolMatch(t, i, m, s, q, e)
  }

  function SymbolAt(t: string, i: nat): (r: Option<SymbolSpan>)
    ensures r.Some? ==> r.value.base.start == i < r.value.base.end <= r.value.quote.start < r.value.quote.end <= |t|
    ensures r.Some? ==> i + 3 <= r.value.base.end <= i + 6 && AllIn(t, i, r.value.base.end, Upper)
    ensures r.Some? ==> r.value.quote.start + 3 <= r.value.quote.end <= r.value.quote.start + 6
    ensures r.Some? ==> AllIn(t, r.value.quote.start, r.value.quote.end, Upper)
  {
    if i > |t| then None
    else
      var m := RunEnd(t, i, Upper);
      if m < i + 3 || m > i + 6 then None
      else
        var s := RunEnd(t, m, Space);
        if s == |t| || t[s] != '/' then None
        else
          var q := RunEnd(t, s + 1, Space);
          var u := RunEnd(t, q, Upper);
          if u < q + 3 then None
          else Some(SymbolSpan(Span(i, m), Span(q, if u < q + 6 then u else q + 6)))
  }

  lemma SymbolAtCorrect(t: string, i: nat)
    ensures match SymbolAt(t, i)
      case Some(c) =>
        && SymbolHit(t, i, c.base.end, c.quote.start, c.quote.end)
        && forall m: nat, q: nat, e: nat :: SymbolHit(t, i, m, q, e) ==>
             m == c.base.end && q == c.quote.start && e <= c.quote.end
      case None => forall m: nat, q: nat, e: nat :: !SymbolHit(t, i, m, q, e)
  {
    if SymbolAt(t, i).Some? {
      SymbolSound(t, i);
    }
    forall m: nat, q: nat, e: nat, s: nat | SymbolMatch(t, i, m, s, q, e)
      ensures SymbolAt(t, i).Some? && m == SymbolAt(t, i).value.base.end
      ensures q == SymbolAt(t, i).value.quote.start && e <= SymbolAt(t, i).value.quote.end
    {
      SymbolForced(t, i, m, s, q, e);
    }
  }

  /** What the scanner finds is a match. */
  lemma SymbolSound(t: string, i: nat)
    requires SymbolAt(t, i).Some?
    ensures var c := SymbolAt(t, i).value; SymbolHit(t, i, c.base.end, c.quote.start, c.quote.end)
  {
    var c := SymbolAt(t, i).value;
    var s := RunEnd(t, c.base.end, Space);
    assert SymbolMatch(t, i, c.base.end, s, c.quote.start, c.quote.end);
  }

  /** Every match agrees with the scanner on the base code and the quote start, and its
      quote code ends no further. */
  lemma SymbolForced(t: string, i: nat, m: nat, s: nat, q: nat, e: nat)
    requires SymbolMatch(t, i, m, s, q, e)
    ensures SymbolAt(t, i).Some? && m == SymbolAt(t, i).value.base.end
    ensures q == SymbolAt(t, i).value.quote.start && e <= SymbolAt(t, i).value.quote.end
  {
    assert !IsUpper(t[m]);
    RunEndMaximal(t, i, m, Upper);
    assert !IsSpace(t[s]);
    RunEndMaximal(t, m, s, Space);
    assert !IsSpace(t[q]);
    RunEndMaximal(t, s + 1, q, Space);
    RunEndMaximal(t, q, e, Upper);
  }

  /* ---------------- direction ---------------- */

  datatype Side = Buy | Sell {
    /** The word as `toUpperCase` leaves it. */
    function Name(): string {
      match this
      case Buy => "BUY"
      case Sell => "SELL"
    }
  }

  /** The alternation `(BUY|SELL)` under the `i` flag, taking side d, at q. */
  predicate SideWordAt(t: string, q: nat, d: Side) {
    match d
    case Buy => CiLitAt(t, q, "buy")
    case Sell => CiLitAt(t, q, "sell")
  }

  lemma SideWordStart(t: string, q: nat, d: Side)
    requires SideWordAt(t, q, d)
    ensures q < |t| && IsWordChar(t[q]) && !IsSpace(t[q])
    ensures d == Buy <==> (t[q] == 'b' || t[q] == 'B')
  {
    match d
    case Buy => CiLitAtStart(t, q, "buy");
    case Sell => CiLitAtStart(t, q, "sell");
  }

  /** `Direction\s*:\s*(BUY|SELL)` with flag `i`: colon at c, side word at q. */
  ghost predicate DirLabelMatch(t: string, i: nat, c: nat, q: nat, d: Side) {
    && CiLitAt(t, i, "direction")
    && i + 9 <= c < |t| && AllIn(t, i + 9, c, Space) && t[c] == ':'
    && c + 1 <= q && AllIn(t, c + 1, q, Space) && SideWordAt(t, q, d)
  }

  /** A labelled direction match at i taking side d. */
  ghost predicate DirLabelHit(t: string, i: nat, d: Side) {
    exists c: nat, q: nat :: DirLabelMatch(t, i, c, q, d)
  }

  function DirLabelAt(t: string, i: nat): (r: Option<Side>)
    ensures r.Some? ==> i + 9 < |t|
  {
    if !CiLitAt(t, i, "direction") then None
    else
      var c := RunEnd(t, i + 9, Space);
      if c == |t| || t[c] != ':' then None
      else
        var q := RunEnd(t, c + 1, Space);
        if CiLitAt(t, q, "buy") then Some(Buy)
        else if CiLitAt(t, q, "sell") then Some(Sell)
        else None
  }

  lemma DirLabelForced(t: string, i: nat, c: nat, q: nat, d: Side)
    requires DirLabelMatch(t, i, c, q, d)
    ensures DirLabelAt(t, i) == Some(d)
  {
    RunEndMaximal(t, i + 9, c, Space);
    SideWordStart(t, q, d);
    RunEndMaximal(t, c + 1, q, Space);
    if d == Sell && CiLitAt(t, q, "buy") {
      CiLitAtStart(t, q, "buy");
    }
  }

  lemma DirLabelAtCorrect(t: string, i: nat)
    ensures forall d: Side :: DirLabelAt(t, i) == Some(d) <==> DirLabelHit(t, i, d)
  {
    if DirLabelAt(t, i).Some? {
      var c := RunEnd(t, i + 9, Space);
      var q := RunEnd(t, c + 1, Space);
      assert DirLabelMatch(t, i, c, q, DirLabelAt(t, i).value);
    }
    forall d: Side, c: nat, q: nat | DirLabelMatch(t, i, c, q, d)
      ensures DirLabelAt(t, i) == Some(d)
    {
      DirLabelForced(t, i, c, q, d);
    }
  }

  /** `\b(BUY|SELL)\b` with flag `i`. */
  predicate DirWordMatch(t: string, i: nat, d: Side) {
    Boundary(t, i) && SideWordAt(t, i, d) && Boundary(t, i + |d.Name()|)
  }

  function DirWordAt(t: string, i: nat): (r: Option<Side>)
    ensures forall d: Side :: r == Some(d) <==> DirWordMatch(t, i, d)
  {
    if DirWordMatch(t, i, Buy) then
      SideWordStart(t, i, Buy);
      assert !SideWordAt(t, i, Sell) by {
        if SideWordAt(t, i, Sell) { SideWordStart(t, i, Sell); }
      }
      Some(Buy)
    else if DirWordMatch(t, i, Sell) then Some(Sell)
    else None
  }

  /* ---------------- entry: `Entry\s*Price\s*:\s*(number)` ---------------- */

  /** `Entry\s*Price\s*:` at i, with "Price" at b and the colon at c. */
  ghost predicate EntryLabel(t: string, i: nat, b: nat, c: nat) {
    && CiLitAt(t, i, "entry") && i + 5 <= b && AllIn(t, i + 5, b, Space)
    && CiLitAt(t, b, "price") && b + 5 <= c < |t| && AllIn(t, b + 5, c, Space) && t[c] == ':'
  }

  ghost predicate EntryMatch(t: string, i: nat, b: nat, c: nat, q: nat, e: nat) {
    EntryLabel(t, i, b, c) && SpacedNumber(t, c + 1, q, e)
  }

  /** An entry-price match at i whose number is t[q..e]. */
  ghost predicate EntryHit(t: string, i: nat, q: nat, e: nat) {
    exists b: nat, c: nat :: EntryMatch(t, i, b, c, q, e)
  }

  function EntryAt(t: string, i: nat): (r: Option<Span>)
    ensures r.Some? ==> i < r.value.start < r.value.end <= |t|
  {
    match EntryLabelEnd(t, i)
    case None => None
    case Some(p) => SpacedNumberAt(t, p)
  }

  /** The position just after the colon of `Entry\s*Price\s*:` at i, if the label is there. */
  function EntryLabelEnd(t: string, i: nat): (r: Option<nat>)
    ensures r.Some? ==> i < r.value <= |t|
  {
    if !CiLitAt(t, i, "entry") then None
    else
      var b := RunEnd(t, i + 5, Space);
      if !CiLitAt(t, b, "price") then None
      else
        var c := RunEnd(t, b + 5, Space);
        if c == |t| || t[c] != ':' then None
        else Some(c + 1)
  }

  lemma EntrySound(t: string, i: nat)
    requires EntryAt(t, i).Some?
    ensures exists b: nat, c: nat :: EntryMatch(t, i, b, c, EntryAt(t, i).value.start, EntryAt(t, i).value.end)
  {
    var p := EntryLabelEnd(t, i).value;
    var n := SpacedNumberAt(t, p).value;
    EntryLabelSound(t, i);
    SpacedNumberAtCorrect(t, p);
    var b := RunEnd(t, i + 5, Space);
    assert EntryMatch(t, i, b, p - 1, n.start, n.end);
  }

  /** Where the scanner finds the label, the label is there. */
  lemma EntryLabelSound(t: string, i: nat)
    requires EntryLabelEnd(t, i).Some?
    ensures var b := RunEnd(t, i + 5, Space); var c := RunEnd(t, b + 5, Space);
      EntryLabel(t, i, b, c) && EntryLabelEnd(t, i) == Some(c + 1)
  {
  }

  lemma EntryForced(t: string, i: nat, b: nat, c: nat, q: nat, e: nat)
    requires EntryMatch(t, i, b, c, q, e)
    ensures EntryAt(t, i).Some? && q == EntryAt(t, i).value.start && e <= EntryAt(t, i).value.end
  {
    EntryLabelForced(t, i, b, c);
    SpacedNumberForced(t, c + 1, q, e);
  }

  /** The label `Entry\s*Price\s*:` at i can only end where the scanner ends it. */
  lemma EntryLabelForced(t: string, i: nat, b: nat, c: nat)
    requires EntryLabel(t, i, b, c)
    ensures EntryLabelEnd(t, i) == Some(c + 1)
  {
    CiLitAtStart(t, b, "price");
    RunEndMaximal(t, i + 5, b, Space);
    RunEndMaximal(t, b + 5, c, Space);
  }

  lemma EntryAtCorrect(t: string, i: nat)
    ensures match EntryAt(t, i)
      case Some(n) =>
        && EntryHit(t, i, n.start, n.end)
        && forall q: nat, e: nat :: EntryHit(t, i, q, e) ==> q == n.start && e <= n.end
      case None => forall q: nat, e: nat :: !EntryHit(t, i, q, e)
  {
    if EntryAt(t, i).Some? {
      EntrySound(t, i);
    }
    forall q: nat, e: nat | EntryHit(t, i, q, e)
      ensures EntryAt(t, i).Some? && q == EntryAt(t, i).value.start && e <= EntryAt(t, i).value.end
    {
      var b: nat, c: nat :| EntryMatch(t, i, b, c, q, e);
      EntryForced(t, i, b, c, q, e);
    }
  }

  /* ---------------- stop-loss: `\bSL\b\s*[: ]\s*(number)`, then `\bSL\b\s*(number)` ---------------- */

  /** `\bSL\b` with flag `i`. */
  predicate SlLabel(t: string, i: nat) {
    Boundary(t, i) && CiLitAt(t, i, "sl") && Boundary(t, i + 2)
  }

  ghost predicate SlSepMatch(t: string, i: nat, a: nat, q: nat, e: nat) {
    SlLabel(t, i) && SepNumber(t, i + 2, a, q, e)
  }

  ghost predicate SlBareMatch(t: string, i: nat, q: nat, e: nat) {
    SlLabel(t, i) && SpacedNumber(t, i + 2, q, e)
  }

  /** A `SL[: ]number` match at i whose number is t[q..e]. */
  ghost predicate SlSepHit(t: string, i: nat, q: nat, e: nat) {
    exists a: nat :: SlSepMatch(t, i, a, q, e)
  }

  function SlSepAt(t: string, i: nat): (r: Option<Span>)
    ensures r.Some? ==> i < r.value.start < r.value.end <= |t|
  {
    if SlLabel(t, i) then SepNumberAt(t, i + 2) else None
  }

  function SlBareAt(t: string, i: nat): (r: Option<Span>)
    ensures r.Some? ==> i < r.value.start < r.value.end <= |t|
  {
    if SlLabel(t, i) then SpacedNumberAt(t, i + 2) else None
  }

  lemma SlSepAtCorrect(t: string, i: nat)
    ensures match SlSepAt(t, i)
      case Some(n) =>
        && SlSepHit(t, i, n.start, n.end)
        && forall q: nat, e: nat :: SlSepHit(t, i, q, e) ==> q == n.start && e <= n.end
      case None => forall q: nat, e: nat :: !SlSepHit(t, i, q, e)
  {
    if SlLabel(t, i) {
      SepNumberAtCorrect(t, i + 2);
      if SlSepAt(t, i).Some? {
        var n := SlSepAt(t, i).value;
        var a: nat :| SepNumber(t, i + 2, a, n.start, n.end);
        assert SlSepMatch(t, i, a, n.start, n.end);
      }
    }
  }

  lemma SlBareAtCorrect(t: string, i: nat)
    ensures match SlBareAt(t, i)
      case Some(n) =>
        && SlBareMatch(t, i, n.start, n.end)
        && forall q: nat, e: nat :: SlBareMatch(t, i, q, e) ==> q == n.start && e <= n.end
      case None => forall q: nat, e: nat :: !SlBareMatch(t, i, q, e)
  {
    if SlLabel(t, i) {
      SpacedNumberAtCorrect(t, i + 2);
    }
  }

  /* ---------------- take-profit: `\bTP\s*([0-9]+)\b\s*[: ]\s*(number)` ---------------- */

  /** The level-number and price captures. */
  datatype TpSpan = TpSpan(index: Span, price: Span)

  ghost predicate TpMatch(t: string, i: nat, ns: nat, ne: nat, a: nat, q: nat, e: nat) {
    && Boundary(t, i) && CiLitAt(t, i, "tp")
    && i + 2 <= ns < ne && AllIn(t, i + 2, ns, Space) && AllIn(t, ns, ne, Digit) && Boundary(t, ne)
    && SepNumber(t, ne, a, q, e)
  }

  /** A take-profit match at i with level number t[ns..ne] and price t[q..e]. */
  ghost predicate TpHit(t: string, i: nat, ns: nat, ne: nat, q: nat, e: nat) {
    exists a: nat :: TpMatch(t, i, ns, ne, a, q, e)
  }

  function TpAt(t: string, i: nat): (r: Option<TpSpan>)
    ensures r.Some? ==> && i + 2 <= r.value.index.start < r.value.index.end < r.value.price.start
                        && r.value.price.start < r.value.price.end <= |t|
  {
    if !(Boundary(t, i) && CiLitAt(t, i, "tp")) then None
    else
      var ns := RunEnd(t, i + 2, Space);
      var ne := RunEnd(t, ns, Digit);
      if ne == ns || !Boundary(t, ne) then None
      else
        match SepNumberAt(t, ne)
        case None => None
        case Some(p) => Some(TpSpan(Span(ns, ne), p))
  }

  lemma TpSound(t: string, i: nat)
    requires TpAt(t, i).Some?
    ensures TpHit(t, i, TpAt(t, i).value.index.start, TpAt(t, i).value.index.end,
                  TpAt(t, i).value.price.start, TpAt(t, i).value.price.end)
  {
    var ns := RunEnd(t, i + 2, Space);
    var ne := RunEnd(t, ns, Digit);
    var p := SepNumberAt(t, ne).value;
    SepNumberSound(t, ne);
    var a: nat :| SepNumber(t, ne, a, p.start, p.end);
    assert TpMatch(t, i, ns, ne, a, p.start, p.end);
  }

  lemma TpForced(t: string, i: nat, ns: nat, ne: nat, a: nat, q: nat, e: nat)
    requires TpMatch(t, i, ns, ne, a, q, e)
    ensures TpAt(t, i).Some? && ns == TpAt(t, i).value.index.start && ne == TpAt(t, i).value.index.end
    ensures q == TpAt(t, i).value.price.start && e <= TpAt(t, i).value.price.end
  {
    assert InClass(t[ns], Digit);
    RunEndMaximal(t, i + 2, ns, Space);
    assert InClass(t[ne - 1], Digit);
    assert ne < |t| ==> !IsDigit(t[ne]);
    RunEndMaximal(t, ns, ne, Digit);
    SepNumberForced(t, ne, a, q, e);
  }

  lemma TpAtCorrect(t: string, i: nat)
    ensures match TpAt(t, i)
      case Some(c) =>
        && TpHit(t, i, c.index.start, c.index.end, c.price.start, c.price.end)
        && forall ns: nat, ne: nat, q: nat, e: nat :: TpHit(t, i, ns, ne, q, e) ==>
             ns == c.index.start && ne == c.index.end && q == c.price.start && e <= c.price.end
      case None => forall ns: nat, ne: nat, q: nat, e: nat :: !TpHit(t, i, ns, ne, q, e)
  {
    if TpAt(t, i).Some? {
      TpSound(t, i);
    }
    forall ns: nat, ne: nat, q: nat, e: nat | TpHit(t, i, ns, ne, q, e)
      ensures TpAt(t, i).Some? && ns == TpAt(t, i).value.index.start && ne == TpAt(t, i).value.index.end
      ensures q == TpAt(t, i).value.price.start && e <= TpAt(t, i).value.price.end
    {
      var a: nat :| TpMatch(t, i, ns, ne, a, q, e);
      TpForced(t, i, ns, ne, a, q, e);
    }
  }
}
