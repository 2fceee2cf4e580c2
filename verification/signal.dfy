/** `parseSignal` (app.js:59-85): the normalised text is searched with each pattern
    independently; the first match of a non-global pattern is its leftmost one, and the
    global take-profit pattern is applied repeatedly from the end of the last match. */
module Signal {
  import opened Wrappers
  import opened Chars
  import opened Scan
  import opened Clean
  import opened Patterns

  /** One take-profit level: the number after `TP` and its price. */
  datatype TakeProfit = TakeProfit(n: nat, price: real)

  /** The parsed signal. An absent entry or stop-loss (`NaN` in the source) is None;
      an absent direction (the empty string in the source) is None. */
  datatype ParsedSignal = ParsedSignal(
    symbol: string,
    direction: Option<Side>,
    entry: Option<real>,
    sl: Option<real>,
    tps: seq<TakeProfit>)

  /* ---------------- leftmost matches ---------------- */

  /** The outcome of trying the symbol pattern at every position of t. */
  function SymbolTable(t: string): (h: seq<Option<SymbolSpan>>)
    ensures |h| == |t| + 1
    ensures forall j :: 0 <= j <= |t| ==> h[j] == SymbolAt(t, j)
  {
    seq(|t| + 1, j requires 0 <= j <= |t| => SymbolAt(t, j))
  }

  /** The outcome of trying the labelled direction pattern at every position of t. */
  function DirLabelTable(t: string): (h: seq<Option<Side>>)
    ensures |h| == |t| + 1
    ensures forall j :: 0 <= j <= |t| ==> h[j] == DirLabelAt(t, j)
  {
    seq(|t| + 1, j requires 0 <= j <= |t| => DirLabelAt(t, j))
  }

  /** The outcome of trying the bare BUY/SELL pattern at every position of t. */
  function DirWordTable(t: string): (h: seq<Option<Side>>)
    ensures |h| == |t| + 1
    ensures forall j :: 0 <= j <= |t| ==> h[j] == DirWordAt(t, j)
  {
    seq(|t| + 1, j requires 0 <= j <= |t| => DirWordAt(t, j))
  }

  /** The outcome of trying the entry-price pattern at every position of t. */
  function EntryTable(t: string): (h: seq<Option<Span>>)
    ensures |h| == |t| + 1
    ensures forall j :: 0 <= j <= |t| ==> h[j] == EntryAt(t, j)
  {
    seq(|t| + 1, j requires 0 <= j <= |t| => EntryAt(t, j))
  }

  /** The outcome of trying the `SL[: ]number` pattern at every position of t. */
  function SlSepTable(t: string): (h: seq<Option<Span>>)
    ensures |h| == |t| + 1
    ensures forall j :: 0 <= j <= |t| ==> h[j] == SlSepAt(t, j)
  {
    seq(|t| + 1, j requires 0 <= j <= |t| => SlSepAt(t, j))
  }

  /** The outcome of trying the `SL number` pattern at every position of t. */
  function SlBareTable(t: string): (h: seq<Option<Span>>)
    ensures |h| == |t| + 1
    ensures forall j :: 0 <= j <= |t| ==> h[j] == SlBareAt(t, j)
  {
    seq(|t| + 1, j requires 0 <= j <= |t| => SlBareAt(t, j))
  }

  /** `symMatch[1] + symMatch[2]`, or "" without a match. */
  function SymbolOf(t: string): string {
    match FirstSome(SymbolTable(t), 0)
    case None => ""
    case Some((_, c)) => t[c.base.start..c.base.end] + t[c.quote.start..c.quote.end]
  }

  /** The labelled form first, the bare word only when no labelled form matches. */
  function DirectionOf(t: string): Option<Side> {
    match FirstSome(DirLabelTable(t), 0)
    case Some((_, d)) => Some(d)
    case None =>
      match FirstSome(DirWordTable(t), 0)
      case Some((_, d)) => Some(d)
      case None => None
  }

  function EntryOf(t: string): Option<real> {
    match FirstSome(EntryTable(t), 0)
    case None => None
    case Some((_, n)) => Some(DecimalValue(t[n.start..n.end]))
  }

  /** The `[: ]` form first, the bare form only when the first has no match. */
  function StopOf(t: string): Option<real> {
    match FirstSome(SlSepTable(t), 0)
    case Some((_, n)) => Some(DecimalValue(t[n.start..n.end]))
    case None =>
      match FirstSome(SlBareTable(t), 0)
      case Some((_, n)) => Some(DecimalValue(t[n.start..n.end]))
      case None => None
  }

  /* ---------------- take-profits ---------------- */

  /** One `exec` result: where the match starts, its captures and their values. */
  datatype TpExec = TpExec(at: nat, span: TpSpan, tp: TakeProfit)

  /** The outcome of trying the take-profit pattern at every position of t. */
  function TpTable(t: string): (h: seq<Option<TpSpan>>)
    ensures |h| == |t| + 1
    ensures forall j :: 0 <= j <= |t| ==> h[j] == TpAt(t, j)
  {
    seq(|t| + 1, j requires 0 <= j <= |t| => TpAt(t, j))
  }

  /** `exec` with `lastIndex == from`: the leftmost take-profit match at or after `from`. */
  function FindTp(t: string, from: nat): Option<(nat, TpSpan)> {
    FirstSome(TpTable(t), from)
  }

  /** The `while ((m = tpRegex.exec(text)) !== null)` loop: each search starts at the
      end of the previous match. */
  function TpScan(t: string, from: nat): seq<TpExec>
    decreases |t| + 1 - from
  {
    match FindTp(t, from)
    case None => []
    case Some((i, c)) => [TpExec(i, c, CaptureValues(t, c))] + TpScan(t, c.price.end)
  }

  /** `{ n: Number(m[1]), price: Number(m[2]) }` for the captures c. */
  function CaptureValues(t: string, c: TpSpan): TakeProfit
    requires c.index.start <= c.index.end <= |t| && c.price.start <= c.price.end <= |t|
  {
    TakeProfit(DigitsValue(t[c.index.start..c.index.end]), DecimalValue(t[c.price.start..c.price.end]))
  }

  function TpsOf(hits: seq<TpExec>): (tps: seq<TakeProfit>)
    ensures |tps| == |hits|
    ensures forall k :: 0 <= k < |hits| ==> tps[k] == hits[k].tp
  {
    seq(|hits|, k requires 0 <= k < |hits| => hits[k].tp)
  }

  /** A take-profit match contains no `t` or `T` after its first character. */
  lemma TpAtStart(t: string, j: nat)
    requires TpAt(t, j).Some?
    ensures j < |t| && (t[j] == 't' || t[j] == 'T')
  {
    CiLitAtStart(t, j, "tp");
  }

  /** Take-profit matches never overlap: none starts inside another. */
  lemma TpNoOverlap(t: string, i: nat, j: nat)
    requires TpAt(t, i).Some? && i < j < TpAt(t, i).value.price.end
    ensures TpAt(t, j).None?
  {
    var c := TpAt(t, i).value;
    TpSound(t, i);
    var a: nat :| TpMatch(t, i, c.index.start, c.index.end, a, c.price.start, c.price.end);
    TpMatchNoT(t, i, c.index.start, c.index.end, a, c.price.start, c.price.end, j);
    if TpAt(t, j).Some? {
      TpAtStart(t, j);
    }
  }

  /** After its first character, a take-profit match holds no `t` or `T`. */
  lemma TpMatchNoT(t: string, i: nat, ns: nat, ne: nat, a: nat, q: nat, e: nat, j: nat)
    requires TpMatch(t, i, ns, ne, a, q, e) && i < j < e
    ensures t[j] != 't' && t[j] != 'T'
  {
    if j == i + 1 {
      assert CiEq(t[i + 1], "tp"[1]);
    } else if j < ns {
      assert InClass(t[j], Space);
    } else if j < ne {
      assert InClass(t[j], Digit);
    } else {
      SepNumberNoT(t, ne, a, q, e, j);
    }
  }

  /** A `\s*[: ]\s*(number)` match holds no `t` or `T`. */
  lemma SepNumberNoT(t: string, p: nat, a: nat, q: nat, e: nat, j: nat)
    requires SepNumber(t, p, a, q, e) && p <= j < e
    ensures t[j] != 't' && t[j] != 'T'
  {
    if j < a {
      assert InClass(t[j], Space);
    } else if a < j < q {
      assert InClass(t[j], Space);
    } else if q <= j {
      var m: nat :| NumberShape(t, q, m, e);
      if j < m {
        assert InClass(t[j], Digit);
      } else if j > m {
        assert InClass(t[j], Digit);
      }
    }
  }

  /** Every hit of the scan is a take-profit match at or after `from`, the hits come
      in text order, and each carries the values of its own captures. */
  lemma TpScanSound(t: string, from: nat)
    ensures var hits := TpScan(t, from);
      && (forall k :: 0 <= k < |hits| ==> from <= hits[k].at && ExecAt(t, hits[k]))
      && (forall k :: 0 < k < |hits| ==> hits[k - 1].at < hits[k].at)
  {
    var hits := TpScan(t, from);
    forall k | 0 <= k < |hits|
      ensures from <= hits[k].at && ExecAt(t, hits[k])
    {
      TpScanHit(t, from, k);
    }
    forall k | 0 < k < |hits|
      ensures hits[k - 1].at < hits[k].at
    {
      TpScanAscends(t, from, k);
    }
  }

  /** The k-th hit of the scan from `from` is an `exec` result at or after `from`. */
  lemma {:induction false} TpScanHit(t: string, from: nat, k: nat)
    requires k < |TpScan(t, from)|
    ensures from <= TpScan(t, from)[k].at && ExecAt(t, TpScan(t, from)[k])
    decreases |t| + 1 - from
  {
    var hits := TpScan(t, from);
    assert FindTp(t, from).Some?;
    var i, c := FindTp(t, from).value.0, FindTp(t, from).value.1;
    assert hits == [TpExec(i, c, CaptureValues(t, c))] + TpScan(t, c.price.end);
    FindTpExec(t, from);
    if k > 0 {
      TpScanHit(t, c.price.end, k - 1);
      assert hits[k] == TpScan(t, c.price.end)[k - 1];
    }
  }

  /** What `exec` returns is a match at or after `from`. */
  lemma FindTpExec(t: string, from: nat)
    requires FindTp(t, from).Some?
    ensures var (i, c) := FindTp(t, from).value;
      from <= i < c.price.end && ExecAt(t, TpExec(i, c, CaptureValues(t, c)))
  {
    var (i, c) := FindTp(t, from).value;
    assert TpTable(t)[i] == Some(c);
  }

  /** Consecutive hits of the scan come in text order. */
  lemma {:induction false} TpScanAscends(t: string, from: nat, k: nat)
    requires 0 < k < |TpScan(t, from)|
    ensures TpScan(t, from)[k - 1].at < TpScan(t, from)[k].at
    decreases |t| + 1 - from
  {
    var hits := TpScan(t, from);
    assert FindTp(t, from).Some?;
    var i, c := FindTp(t, from).value.0, FindTp(t, from).value.1;
    var rest := TpScan(t, c.price.end);
    assert hits == [TpExec(i, c, CaptureValues(t, c))] + rest;
    if k == 1 {
      TpScanAtLeast(t, c.price.end);
      assert TpTable(t)[i] == Some(c);
    } else {
      TpScanAscends(t, c.price.end, k - 1);
      assert hits[k - 1] == rest[k - 2] && hits[k] == rest[k - 1];
    }
  }

  /** The first hit of a scan lies at or after where the scan starts. */
  lemma TpScanAtLeast(t: string, from: nat)
    ensures |TpScan(t, from)| > 0 ==> from <= TpScan(t, from)[0].at
  {
  }

  /** h is an `exec` result at h.at: the pattern matches there with h's captures, and
      h carries the values of those captures. */
  predicate ExecAt(t: string, h: TpExec) {
    TpAt(t, h.at) == Some(h.span) && h.tp == CaptureValues(t, h.span)
  }

  /** A match other than the one `exec` returned, at or after `from`, lies after it. */
  lemma TpLaterMatch(t: string, from: nat, j: nat)
    requires FindTp(t, from).Some? && from <= j && TpAt(t, j).Some? && j != FindTp(t, from).value.0
    ensures FindTp(t, from).value.1.price.end <= j
  {
    var i := FindTp(t, from).value.0;
    if j < TpAt(t, i).value.price.end {
      TpNoOverlap(t, i, j);
    }
  }

  /** A match at or after `from` means `exec` finds one, no later than that match. */
  lemma FindTpSome(t: string, from: nat, j: nat)
    requires from <= j && TpAt(t, j).Some?
    ensures FindTp(t, from).Some? && FindTp(t, from).value.0 <= j
  {
    var h := TpTable(t);
    assert j <= |t| && h[j].Some?;
  }

  /** Some hit of the scan is at position j. */
  ghost predicate HitAt(hits: seq<TpExec>, j: nat) {
    exists k :: 0 <= k < |hits| && hits[k].at == j
  }

  lemma {:induction false} TpScanFinds(t: string, from: nat, j: nat)
    requires from <= j && TpAt(t, j).Some?
    ensures HitAt(TpScan(t, from), j)
    decreases |t| + 1 - from
  {
    FindTpSome(t, from, j);
    var i := FindTp(t, from).value.0;
    var c := FindTp(t, from).value.1;
    var hits := TpScan(t, from);
    var rest := TpScan(t, c.price.end);
    assert hits == [hits[0]] + rest;
    if j == i {
      assert hits[0].at == j;
      assert HitAt(hits, j);
    } else {
      TpLaterMatch(t, from, j);
      TpScanFinds(t, c.price.end, j);
      var k :| 0 <= k < |rest| && rest[k].at == j;
      assert hits[k + 1].at == j;
      assert HitAt(hits, j);
    }
  }

  /** The scan misses no take-profit match at or after `from`. */
  lemma TpScanComplete(t: string, from: nat)
    ensures var hits := TpScan(t, from);
      forall j: nat :: from <= j && TpAt(t, j).Some? ==> HitAt(hits, j)
  {
    forall j: nat | from <= j && TpAt(t, j).Some?
      ensures HitAt(TpScan(t, from), j)
    {
      TpScanFinds(t, from, j);
    }
  }

  /* ---------------- stable sort by level number ---------------- */

  ghost predicate SortedByIndex(s: seq<TakeProfit>) {
    forall j, k :: 0 <= j < k < |s| ==> s[j].n <= s[k].n
  }

  /** The take-profits with level number n, in their order in s. */
  function WithIndex(s: seq<TakeProfit>, n: nat): seq<TakeProfit>
    decreases |s|
  {
    if |s| == 0 then [] else (if s[0].n == n then [s[0]] else []) + WithIndex(s[1..], n)
  }

  lemma {:induction false} WithIndexAppend(a: seq<TakeProfit>, b: seq<TakeProfit>, n: nat)
    ensures WithIndex(a + b, n) == WithIndex(a, n) + WithIndex(b, n)
    decreases |a|
  {
    if |a| == 0 {
      assert a + b == b;
    } else {
      assert (a + b)[1..] == a[1..] + b;
      WithIndexAppend(a[1..], b, n);
    }
  }

  /** Insert x, which came before every element of s, in front of the first element
      whose level number is not smaller. */
  function Insert(x: TakeProfit, s: seq<TakeProfit>): (r: seq<TakeProfit>)
    requires SortedByIndex(s)
    ensures SortedByIndex(r)
    ensures |r| == |s| + 1
    ensures r[0] == (if |s| == 0 || x.n <= s[0].n then x else s[0])
    ensures multiset(r) == multiset([x] + s)
    ensures forall n: nat :: WithIndex(r, n) == WithIndex([x] + s, n)
    decreases |s|
  {
    if |s| == 0 || x.n <= s[0].n then [x] + s
    else
      var r' := Insert(x, s[1..]);
      InsertBehind(x, s, r');
      [s[0]] + r'
  }

  /** x goes behind s[0] when its level number is larger: s[0] followed by x inserted
      into the rest is sorted, a permutation of x and s, and keeps the order within
      every level number. */
  lemma InsertBehind(x: TakeProfit, s: seq<TakeProfit>, r': seq<TakeProfit>)
    requires |s| > 0 && x.n > s[0].n && SortedByIndex(s)
    requires SortedByIndex(r') && multiset(r') == multiset([x] + s[1..])
    requires forall n: nat :: WithIndex(r', n) == WithIndex([x] + s[1..], n)
    ensures SortedByIndex([s[0]] + r')
    ensures multiset([s[0]] + r') == multiset([x] + s)
    ensures forall n: nat :: WithIndex([s[0]] + r', n) == WithIndex([x] + s, n)
  {
    InsertBehindBound(x, s, r');
    PrependSorted(s[0], r');
    InsertBehindMultiset(x, s, r');
    forall n: nat
      ensures WithIndex([s[0]] + r', n) == WithIndex([x] + s, n)
    {
      InsertBehindLevel(x, s, r', n);
    }
  }

  lemma InsertBehindBound(x: TakeProfit, s: seq<TakeProfit>, r': seq<TakeProfit>)
    requires |s| > 0 && x.n > s[0].n && SortedByIndex(s)
    requires multiset(r') == multiset([x] + s[1..])
    ensures forall z :: z in multiset(r') ==> s[0].n <= z.n
  {
    forall z | z in multiset(r')
      ensures s[0].n <= z.n
    {
      assert z in multiset([x] + s[1..]);
      assert z == x || z in s[1..];
      if z in s[1..] {
        var k :| 0 <= k < |s[1..]| && s[1..][k] == z;
        assert z == s[k + 1];
      }
    }
  }

  lemma InsertBehindMultiset(x: TakeProfit, s: seq<TakeProfit>, r': seq<TakeProfit>)
    requires |s| > 0 && multiset(r') == multiset([x] + s[1..])
    ensures multiset([s[0]] + r') == multiset([x] + s)
  {
    assert s == [s[0]] + s[1..];
    calc {
      multiset([s[0]] + r');
      multiset([s[0]]) + multiset([x] + s[1..]);
      multiset([x]) + multiset([s[0]] + s[1..]);
    }
  }

  lemma InsertBehindLevel(x: TakeProfit, s: seq<TakeProfit>, r': seq<TakeProfit>, n: nat)
    requires |s| > 0 && x.n > s[0].n
    requires WithIndex(r', n) == WithIndex([x] + s[1..], n)
    ensures WithIndex([s[0]] + r', n) == WithIndex([x] + s, n)
  {
    assert s == [s[0]] + s[1..];
    WithIndexAppend([s[0]], r', n);
    WithIndexAppend([x], s[1..], n);
    WithIndexAppend([s[0]], s[1..], n);
    WithIndexAppend([x], s, n);
  }

  /** y in front of a sorted sequence whose level numbers are all at least y's. */
  lemma PrependSorted(y: TakeProfit, r: seq<TakeProfit>)
    requires SortedByIndex(r) && forall z :: z in multiset(r) ==> y.n <= z.n
    ensures SortedByIndex([y] + r)
  {
    forall j, k | 0 <= j < k < |[y] + r|
      ensures ([y] + r)[j].n <= ([y] + r)[k].n
    {
      assert ([y] + r)[k] == r[k - 1];
      assert r[k - 1] in multiset(r);
      if j > 0 {
        assert ([y] + r)[j] == r[j - 1];
      }
    }
  }

  /** `tps.sort((a,b) => a.n - b.n)`: a stable sort by level number. */
  function SortByIndex(s: seq<TakeProfit>): (r: seq<TakeProfit>)
    ensures SortedByIndex(r)
    ensures multiset(r) == multiset(s)
    ensures forall n: nat :: WithIndex(r, n) == WithIndex(s, n)
    decreases |s|
  {
    if |s| == 0 then []
    else
      var r := Insert(s[0], SortByIndex(s[1..]));
      assert s == [s[0]] + s[1..];
      assert forall n: nat :: WithIndex(r, n) == WithIndex(s, n) by {
        forall n: nat
          ensures WithIndex(r, n) == WithIndex(s, n)
        {
          WithIndexAppend([s[0]], SortByIndex(s[1..]), n);
          WithIndexAppend([s[0]], s[1..], n);
        }
      }
      r
  }

  /* ---------------- the whole parse ---------------- */

  /** The take-profits in text order, before sorting. */
  function TakeProfitsInOrder(t: string): seq<TakeProfit> {
    TpsOf(TpScan(t, 0))
  }

  function ParseCleaned(t: string): ParsedSignal {
    ParsedSignal(SymbolOf(t), DirectionOf(t), EntryOf(t), StopOf(t), SortByIndex(TakeProfitsInOrder(t)))
  }

  /** `parseSignal(raw)`. */
  function ParseSignal(raw: string): ParsedSignal {
    ParseCleaned(CleanText(raw))
  }
  /* ---------------- what each field means ---------------- */

  /** The symbol field is the two codes of the leftmost symbol match, the quote code
      as long as the pattern allows there, or "" when the pattern matches nowhere. */
  lemma SymbolOfMeaning(t: string)
    ensures SymbolOf(t) == "" <==> forall i: nat, m: nat, q: nat, e: nat :: !SymbolHit(t, i, m, q, e)
    ensures SymbolOf(t) != "" ==> exists i: nat, m: nat, q: nat, e: nat ::
      && SymbolHit(t, i, m, q, e) && i <= m <= q <= e <= |t|
      && (forall i': nat, m': nat, q': nat, e': nat :: i' < i ==> !SymbolHit(t, i', m', q', e'))
      && (forall m': nat, q': nat, e': nat :: SymbolHit(t, i, m', q', e') ==> e' <= e)
      && SymbolOf(t) == t[i..m] + t[q..e]
  {
    var h := SymbolTable(t);
    match FirstSome(h, 0) {
      case Some((i, c)) =>
        SymbolAtCorrect(t, i);
        forall i': nat, m': nat, q': nat, e': nat | i' < i
          ensures !SymbolHit(t, i', m', q', e')
        {
          SymbolAtCorrect(t, i');
        }
        assert |SymbolOf(t)| >= 6;
      case None =>
        forall i: nat, m: nat, q: nat, e: nat | SymbolHit(t, i, m, q, e)
          ensures false
        {
          var s: nat :| SymbolMatch(t, i, m, s, q, e);
          SymbolAtCorrect(t, i);
        }
    }
  }

  /** The symbol field is empty or six to twelve capital letters. */
  lemma SymbolOfShape(t: string)
    ensures var s := SymbolOf(t);
      s == "" || (6 <= |s| <= 12 && forall k :: 0 <= k < |s| ==> IsUpper(s[k]))
  {
    match FirstSome(SymbolTable(t), 0) {
      case None =>
      case Some((i, c)) =>
        AllInSlice(t, c.base.start, c.base.end, Upper);
        AllInSlice(t, c.quote.start, c.quote.end, Upper);
        AllInConcat(t[c.base.start..c.base.end], t[c.quote.start..c.quote.end], Upper);
    }
  }

  /** Side d at the leftmost position where the labelled direction pattern matches. */
  ghost predicate FirstDirLabel(t: string, d: Side) {
    exists i: nat :: DirLabelHit(t, i, d) && forall i': nat, d': Side :: i' < i ==> !DirLabelHit(t, i', d')
  }

  /** Side d at the leftmost position where the bare BUY/SELL pattern matches. */
  ghost predicate FirstDirWord(t: string, d: Side) {
    exists i: nat :: DirWordMatch(t, i, d) && forall i': nat, d': Side :: i' < i ==> !DirWordMatch(t, i', d')
  }

  lemma DirLabelOfMeaning(t: string)
    ensures match FirstSome(DirLabelTable(t), 0)
      case Some((_, d)) => FirstDirLabel(t, d)
      case None => forall i: nat, d: Side :: !DirLabelHit(t, i, d)
  {
    var h := DirLabelTable(t);
    match FirstSome(h, 0) {
      case Some((i, d)) =>
        DirLabelAtCorrect(t, i);
        forall i': nat, d': Side | i' < i
          ensures !DirLabelHit(t, i', d')
        {
          DirLabelAtCorrect(t, i');
        }
      case None =>
        forall i: nat, d: Side | DirLabelHit(t, i, d)
          ensures false
        {
          DirLabelAtCorrect(t, i);
        }
    }
  }

  lemma DirWordOfMeaning(t: string)
    ensures match FirstSome(DirWordTable(t), 0)
      case Some((_, d)) => FirstDirWord(t, d)
      case None => forall i: nat, d: Side :: !DirWordMatch(t, i, d)
  {
    var h := DirWordTable(t);
    match FirstSome(h, 0) {
      case Some((i, d)) =>
        assert DirWordAt(t, i) == Some(d);
        forall i': nat, d': Side | i' < i
          ensures !DirWordMatch(t, i', d')
        {
          assert DirWordAt(t, i').None?;
        }
      case None =>
        forall i: nat, d: Side
          ensures !DirWordMatch(t, i, d)
        {
          if i <= |t| {
            assert h[i] == DirWordAt(t, i);
          }
        }
    }
  }

  /** The labelled form decides the direction whenever it matches anywhere; the bare
      word decides it otherwise; with neither, there is no direction. */
  lemma DirectionOfMeaning(t: string)
    ensures DirectionOf(t).None? <==> forall i: nat, d: Side :: !DirLabelHit(t, i, d) && !DirWordMatch(t, i, d)
    ensures DirectionOf(t).Some? ==>
      || FirstDirLabel(t, DirectionOf(t).value)
      || ((forall i: nat, d: Side :: !DirLabelHit(t, i, d)) && FirstDirWord(t, DirectionOf(t).value))
  {
    DirLabelOfMeaning(t);
    DirWordOfMeaning(t);
  }

  /** t[q..e] is the number of the leftmost entry-price match, as long as the pattern
      allows at that position. */
  ghost predicate FirstEntry(t: string, q: nat, e: nat) {
    exists i: nat ::
      && EntryHit(t, i, q, e)
      && (forall i': nat, q': nat, e': nat :: i' < i ==> !EntryHit(t, i', q', e'))
      && (forall q': nat, e': nat :: EntryHit(t, i, q', e') ==> e' <= e)
  }

  lemma EntryOfMeaning(t: string)
    ensures EntryOf(t).None? <==> forall i: nat, q: nat, e: nat :: !EntryHit(t, i, q, e)
    ensures EntryOf(t).Some? ==> exists q: nat, e: nat ::
      q <= e <= |t| && FirstEntry(t, q, e) && EntryOf(t).value == DecimalValue(t[q..e])
  {
    var h := EntryTable(t);
    match FirstSome(h, 0) {
      case Some((i, n)) =>
        EntryAtCorrect(t, i);
        forall i': nat, q': nat, e': nat | i' < i
          ensures !EntryHit(t, i', q', e')
        {
          EntryAtCorrect(t, i');
        }
        assert FirstEntry(t, n.start, n.end);
      case None =>
        forall i: nat, q: nat, e: nat | EntryHit(t, i, q, e)
          ensures false
        {
          var b: nat, c: nat :| EntryMatch(t, i, b, c, q, e);
          EntryAtCorrect(t, i);
        }
    }
  }

  /** t[q..e] is the number of the leftmost `SL[: ]number` match. */
  ghost predicate FirstSlSep(t: string, q: nat, e: nat) {
    exists i: nat ::
      && SlSepHit(t, i, q, e)
      && (forall i': nat, q': nat, e': nat :: i' < i ==> !SlSepHit(t, i', q', e'))
      && (forall q': nat, e': nat :: SlSepHit(t, i, q', e') ==> e' <= e)
  }

  /** t[q..e] is the number of the leftmost `SL number` match. */
  ghost predicate FirstSlBare(t: string, q: nat, e: nat) {
    exists i: nat ::
      && SlBareMatch(t, i, q, e)
      && (forall i': nat, q': nat, e': nat :: i' < i ==> !SlBareMatch(t, i', q', e'))
      && (forall q': nat, e': nat :: SlBareMatch(t, i, q', e') ==> e' <= e)
  }

  lemma SlSepOfMeaning(t: string)
    ensures match FirstSome(SlSepTable(t), 0)
      case Some((_, n)) => n.start <= n.end <= |t| && FirstSlSep(t, n.start, n.end)
      case None => forall i: nat, q: nat, e: nat :: !SlSepHit(t, i, q, e)
  {
    var h := SlSepTable(t);
    match FirstSome(h, 0) {
      case Some((i, n)) =>
        SlSepAtCorrect(t, i);
        forall i': nat, q': nat, e': nat | i' < i
          ensures !SlSepHit(t, i', q', e')
        {
          SlSepAtCorrect(t, i');
        }
      case None =>
        forall i: nat, q: nat, e: nat | SlSepHit(t, i, q, e)
          ensures false
        {
          var a: nat :| SlSepMatch(t, i, a, q, e);
          SlSepAtCorrect(t, i);
        }
    }
  }

  lemma SlBareOfMeaning(t: string)
    ensures match FirstSome(SlBareTable(t), 0)
      case Some((_, n)) => n.start <= n.end <= |t| && FirstSlBare(t, n.start, n.end)
      case None => forall i: nat, q: nat, e: nat :: !SlBareMatch(t, i, q, e)
  {
    var h := SlBareTable(t);
    match FirstSome(h, 0) {
      case Some((i, n)) =>
        SlBareAtCorrect(t, i);
        forall i': nat, q': nat, e': nat | i' < i
          ensures !SlBareMatch(t, i', q', e')
        {
          SlBareAtCorrect(t, i');
        }
      case None =>
        forall i: nat, q: nat, e: nat | SlBareMatch(t, i, q, e)
          ensures false
        {
          SlBareAtCorrect(t, i);
        }
    }
  }

  /** The stop-loss comes from the leftmost `SL[: ]number` match when there is one and
      from the leftmost `SL number` match otherwise. */
  lemma StopOfMeaning(t: string)
    ensures StopOf(t).None? <==>
      forall i: nat, q: nat, e: nat :: !SlSepHit(t, i, q, e) && !SlBareMatch(t, i, q, e)
    ensures StopOf(t).Some? ==> exists q: nat, e: nat ::
      && q <= e <= |t|
      && (|| FirstSlSep(t, q, e)
          || ((forall i: nat, q': nat, e': nat :: !SlSepHit(t, i, q', e')) && FirstSlBare(t, q, e)))
      && StopOf(t).value == DecimalValue(t[q..e])
  {
    SlSepOfMeaning(t);
    SlBareOfMeaning(t);
    match FirstSome(SlSepTable(t), 0) {
      case Some((_, n)) =>
        assert FirstSlSep(t, n.start, n.end);
      case None =>
        match FirstSome(SlBareTable(t), 0) {
          case Some((_, n)) =>
            assert FirstSlBare(t, n.start, n.end);
          case None =>
        }
    }
  }
  /** The take-profit scan returns exactly the positions where the pattern matches, in
      text order, each with the captures the pattern forces there and the longest price. */
  lemma TakeProfitsMeaning(t: string)
    ensures var hits := TpScan(t, 0);
      && (forall k :: 0 < k < |hits| ==> hits[k - 1].at < hits[k].at)
      && (forall k :: 0 <= k < |hits| ==>
            var c := hits[k].span;
            && TpHit(t, hits[k].at, c.index.start, c.index.end, c.price.start, c.price.end)
            && (forall ns: nat, ne: nat, q: nat, e: nat :: TpHit(t, hits[k].at, ns, ne, q, e) ==> e <= c.price.end))
      && (forall j: nat, ns: nat, ne: nat, q: nat, e: nat :: TpHit(t, j, ns, ne, q, e) ==>
            HitAt(hits, j))
      && TakeProfitsInOrder(t) == TpsOf(hits)
  {
    var hits := TpScan(t, 0);
    TpScanSound(t, 0);
    TpScanComplete(t, 0);
    forall k | 0 <= k < |hits|
      ensures var c := hits[k].span;
        && TpHit(t, hits[k].at, c.index.start, c.index.end, c.price.start, c.price.end)
        && (forall ns: nat, ne: nat, q: nat, e: nat :: TpHit(t, hits[k].at, ns, ne, q, e) ==> e <= c.price.end)
    {
      TpAtCorrect(t, hits[k].at);
    }
    forall j: nat, ns: nat, ne: nat, q: nat, e: nat | TpHit(t, j, ns, ne, q, e)
      ensures HitAt(hits, j)
    {
      TpAtCorrect(t, j);
    }
  }

  /** Parsing already-cleaned text gives the same signal: `cleanText` is idempotent. */
  lemma ParseSignalOfCleanText(raw: string)
    ensures ParseSignal(CleanText(raw)) == ParseSignal(raw)
  {
    CleanTextIdempotent(raw);
  }
}
