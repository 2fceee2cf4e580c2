/** `cleanText` (app.js:51-57): the normalisation applied to a signal before any
    pattern is matched. It is three global replacements in sequence, then `trim`. */
module Clean {
  import opened Chars
  import opened Scan

  /** No two consecutive asterisks. */
  ghost predicate NoDoubleStar(s: string) {
    forall k :: 0 <= k < |s| - 1 ==> !(s[k] == '*' && s[k + 1] == '*')
  }

  /** No two consecutive horizontal whitespace characters. */
  ghost predicate NoAdjacentHSpace(s: string) {
    forall k :: 0 <= k < |s| - 1 ==> !(IsHSpace(s[k]) && IsHSpace(s[k + 1]))
  }

  /** Every horizontal whitespace character is a plain space (so, in particular, no U+00A0). */
  ghost predicate PlainHSpace(s: string) {
    forall k :: 0 <= k < |s| && IsHSpace(s[k]) ==> s[k] == ' '
  }

  /** Neither end is whitespace. */
  ghost predicate Trimmed(s: string) {
    |s| > 0 ==> !IsSpace(s[0]) && !IsSpace(s[|s| - 1])
  }

  /** The characters normalisation never touches: everything but asterisks and whitespace. */
  predicate IsVisible(c: char) {
    c != '*' && !IsSpace(c)
  }

  function Visible(s: string): string
    decreases |s|
  {
    if |s| == 0 then [] else (if IsVisible(s[0]) then [s[0]] else []) + Visible(s[1..])
  }

  lemma {:induction false} VisibleAppend(a: string, b: string)
    ensures Visible(a + b) == Visible(a) + Visible(b)
    decreases |a|
  {
    if |a| > 0 {
      assert (a + b)[1..] == a[1..] + b;
      VisibleAppend(a[1..], b);
    } else {
      assert a + b == b;
    }
  }

  lemma {:induction false} VisibleOfSpaces(s: string)
    requires forall k :: 0 <= k < |s| ==> IsSpace(s[k])
    ensures Visible(s) == []
    decreases |s|
  {
    if |s| > 0 {
      VisibleOfSpaces(s[1..]);
    }
  }

  // The first replacement removes every pair of asterisks: scanning left to right,
  // each `**` found is deleted and the scan resumes after it.
  function StripBold(s: string): (r: string)
    ensures NoDoubleStar(r)
    ensures |s| > 0 && s[0] != '*' ==> |r| > 0 && r[0] == s[0]
    ensures NoDoubleStar(s) ==> r == s
    decreases |s|
  {
    if |s| == 0 then []
    else if |s| >= 2 && s[0] == '*' && s[1] == '*' then StripBold(s[2..])
    else [s[0]] + StripBold(s[1..])
  }

  lemma {:induction false} StripBoldVisible(s: string)
    ensures Visible(StripBold(s)) == Visible(s)
    decreases |s|
  {
    if |s| >= 2 && s[0] == '*' && s[1] == '*' {
      StripBoldVisible(s[2..]);
      assert s[1..][1..] == s[2..];
    } else if |s| > 0 {
      StripBoldVisible(s[1..]);
      VisibleAppend([s[0]], StripBold(s[1..]));
    }
  }

  /** The text with every asterisk removed. */
  function NonStar(s: string): string
    decreases |s|
  {
    if |s| == 0 then [] else (if s[0] == '*' then [] else [s[0]]) + NonStar(s[1..])
  }

  lemma {:induction false} NonStarAppend(a: string, b: string)
    ensures NonStar(a + b) == NonStar(a) + NonStar(b)
    decreases |a|
  {
    if |a| > 0 {
      assert (a + b)[1..] == a[1..] + b;
      NonStarAppend(a[1..], b);
    } else {
      assert a + b == b;
    }
  }

  /** Removing `**` pairs keeps every other character, whitespace included, in order. */
  lemma {:induction false} StripBoldKeepsNonStar(s: string)
    ensures NonStar(StripBold(s)) == NonStar(s)
    decreases |s|
  {
    if |s| >= 2 && s[0] == '*' && s[1] == '*' {
      StripBoldKeepsNonStar(s[2..]);
      assert s[1..][1..] == s[2..];
    } else if |s| > 0 {
      StripBoldKeepsNonStar(s[1..]);
      NonStarAppend([s[0]], StripBold(s[1..]));
    }
  }

  /** k asterisks in a row. */
  function Stars(k: nat): string {
    if k == 0 then [] else "*" + Stars(k - 1)
  }

  /** A maximal run of k asterisks loses its pairs: an even run vanishes and an odd
      run leaves one asterisk; what follows is stripped on its own. */
  lemma {:induction false} StripBoldStarRun(k: nat, y: string)
    requires |y| == 0 || y[0] != '*'
    ensures StripBold(Stars(k) + y) == Stars(k % 2) + StripBold(y)
    decreases k
  {
    if k >= 2 {
      StripBoldStarRun(k - 2, y);
      StarRunStep(k, y);
      assert (k - 2) % 2 == k % 2;
    } else if k == 1 {
      StarRunOne(y);
    } else {
      assert Stars(k) + y == y;
    }
  }

  lemma StarRunOne(y: string)
    requires |y| == 0 || y[0] != '*'
    ensures StripBold(Stars(1) + y) == Stars(1) + StripBold(y)
  {
    assert Stars(1) == "*";
    StripBoldLoneStar(y);
  }

  /** Two more asterisks in front of a run strip to the same text. */
  lemma StarRunStep(k: nat, y: string)
    requires k >= 2
    ensures StripBold(Stars(k) + y) == StripBold(Stars(k - 2) + y)
  {
    assert Stars(k) == "**" + Stars(k - 2);
    AppendAssoc("**", Stars(k - 2), y);
    StripBoldPair(Stars(k - 2) + y);
  }

  /** One step of the scan: a leading `**` is deleted. */
  lemma StripBoldPair(t: string)
    ensures StripBold("**" + t) == StripBold(t)
  {
    assert ("**" + t)[2..] == t;
  }

  /** An asterisk not followed by another one is kept. */
  lemma StripBoldLoneStar(y: string)
    requires |y| == 0 || y[0] != '*'
    ensures StripBold("*" + y) == "*" + StripBold(y)
  {
    assert ("*" + y)[1..] == y;
  }

  /** One step of the scan: any other leading character is kept. */
  lemma StripBoldHead(s: string)
    requires |s| > 0 && !(|s| >= 2 && s[0] == '*' && s[1] == '*')
    ensures StripBold(s) == [s[0]] + StripBold(s[1..])
  {
  }

  /** Text that does not end in an asterisk is stripped the same whatever follows it:
      no `**` pair reaches across the seam. */
  lemma {:induction false} StripBoldAppend(x: string, z: string)
    requires |x| == 0 || x[|x| - 1] != '*'
    ensures StripBold(x + z) == StripBold(x) + StripBold(z)
    decreases |x|
  {
    if |x| == 0 {
      assert x + z == z;
    } else if |x| >= 2 && x[0] == '*' && x[1] == '*' {
      StripBoldAppend(x[2..], z);
      StripBoldAppendPair(x, z);
    } else {
      StripBoldAppend(x[1..], z);
      StripBoldAppendHead(x, z);
    }
  }

  /** StripBoldAppend's step when x starts with `**`. */
  lemma StripBoldAppendPair(x: string, z: string)
    requires |x| >= 2 && x[0] == '*' && x[1] == '*'
    requires StripBold(x[2..] + z) == StripBold(x[2..]) + StripBold(z)
    ensures StripBold(x + z) == StripBold(x) + StripBold(z)
  {
    assert x == "**" + x[2..];
    StripBoldPair(x[2..]);
    AppendAssoc("**", x[2..], z);
    StripBoldPair(x[2..] + z);
  }

  /** StripBoldAppend's step when x's first character is kept. */
  lemma StripBoldAppendHead(x: string, z: string)
    requires |x| > 0 && !(|x| >= 2 && x[0] == '*' && x[1] == '*') && x[|x| - 1] != '*'
    requires StripBold(x[1..] + z) == StripBold(x[1..]) + StripBold(z)
    ensures StripBold(x + z) == StripBold(x) + StripBold(z)
  {
    StripBoldHead(x);
    assert (x + z)[0] == x[0] && (|x| >= 2 ==> (x + z)[1] == x[1]);
    StripBoldHead(x + z);
    assert (x + z)[1..] == x[1..] + z;
    AppendAssoc([x[0]], StripBold(x[1..]), StripBold(z));
  }

  /** The second replacement turns every no-break space into a plain space. */
  function ReplaceNbsp(s: string): (r: string)
    ensures |r| == |s|
    ensures forall k :: 0 <= k < |s| ==> r[k] == (if s[k] == Nbsp then ' ' else s[k])
    decreases |s|
  {
    if |s| == 0 then [] else [if s[0] == Nbsp then ' ' else s[0]] + ReplaceNbsp(s[1..])
  }

  lemma {:induction false} ReplaceNbspVisible(s: string)
    ensures Visible(ReplaceNbsp(s)) == Visible(s)
    decreases |s|
  {
    if |s| > 0 {
      ReplaceNbspVisible(s[1..]);
      var c := if s[0] == Nbsp then ' ' else s[0];
      assert ReplaceNbsp(s) == [c] + ReplaceNbsp(s[1..]);
      VisibleAppend([c], ReplaceNbsp(s[1..]));
    }
  }

  /** The third replacement turns every maximal run of horizontal whitespace
      (whitespace other than CR and LF) into one plain space. */
  function CollapseSpaces(s: string): (r: string)
    ensures |s| > 0 ==> |r| > 0 && r[0] == (if IsHSpace(s[0]) then ' ' else s[0])
    ensures NoAdjacentHSpace(r)
    ensures PlainHSpace(r)
    ensures NoDoubleStar(s) ==> NoDoubleStar(r)
    ensures PlainHSpace(s) && NoAdjacentHSpace(s) ==> r == s
    decreases |s|
  {
    if |s| == 0 then []
    else if IsHSpace(s[0]) then
      var j := RunEnd(s, 0, HSpace);
      assert j > 1 ==> IsHSpace(s[1]);
      [' '] + CollapseSpaces(s[j..])
    else [s[0]] + CollapseSpaces(s[1..])
  }

  /** A maximal run w of horizontal whitespace becomes exactly one plain space, and
      the text on either side of it is collapsed on its own. */
  lemma CollapseSpacesRun(x: string, w: string, y: string)
    requires |w| > 0 && forall k :: 0 <= k < |w| ==> IsHSpace(w[k])
    requires |x| == 0 || !IsHSpace(x[|x| - 1])
    requires |y| == 0 || !IsHSpace(y[0])
    ensures CollapseSpaces(x + w + y) == CollapseSpaces(x) + " " + CollapseSpaces(y)
  {
    AppendAssoc(x, w, y);
    CollapseAppend(x, w + y);
    CollapseRunFirst(w, y);
    AppendAssoc(CollapseSpaces(x), " ", CollapseSpaces(y));
  }

  /** Text that does not end in horizontal whitespace is collapsed the same whatever
      follows it: no run reaches across the seam. */
  lemma {:induction false} CollapseAppend(x: string, z: string)
    requires |x| == 0 || !IsHSpace(x[|x| - 1])
    ensures CollapseSpaces(x + z) == CollapseSpaces(x) + CollapseSpaces(z)
    decreases |x|
  {
    if |x| == 0 {
      assert x + z == z;
    } else if IsHSpace(x[0]) {
      var j := CollapseLeadingRun(x, z);
      CollapseAppend(x[j..], z);
      AppendAssoc(" ", CollapseSpaces(x[j..]), CollapseSpaces(z));
    } else {
      CollapseLeadingChar(x, z);
      CollapseAppend(x[1..], z);
      AppendAssoc([x[0]], CollapseSpaces(x[1..]), CollapseSpaces(z));
    }
  }

  /** Concatenation regroups freely; stated once so the proofs above need not rebuild it
      element by element. */
  lemma AppendAssoc(h: string, a: string, b: string)
    ensures h + (a + b) == (h + a) + b
  {
  }

  /** A text that starts with a maximal run of horizontal whitespace collapses to one
      space followed by the rest collapsed. */
  lemma CollapseRunFirst(w: string, y: string)
    requires |w| > 0 && forall k :: 0 <= k < |w| ==> IsHSpace(w[k])
    requires |y| == 0 || !IsHSpace(y[0])
    ensures CollapseSpaces(w + y) == " " + CollapseSpaces(y)
  {
    var s := w + y;
    assert AllIn(s, 0, |w|, HSpace) by {
      forall p | 0 <= p < |w|
        ensures InClass(s[p], HSpace)
      {
        assert s[p] == w[p];
      }
    }
    assert |w| < |s| ==> s[|w|] == y[0];
    RunEndMaximal(s, 0, |w|, HSpace);
    assert s[|w|..] == y;
    assert IsHSpace(s[0]);
  }

  /** The leading run of x, which does not end in horizontal whitespace, is collapsed
      the same whatever follows x; what is left of x still does not end in one. */
  lemma CollapseLeadingRun(x: string, z: string) returns (j: nat)
    requires |x| > 0 && IsHSpace(x[0]) && !IsHSpace(x[|x| - 1])
    ensures 0 < j < |x| && !IsHSpace(x[j..][|x| - j - 1])
    ensures CollapseSpaces(x) == " " + CollapseSpaces(x[j..])
    ensures CollapseSpaces(x + z) == " " + CollapseSpaces(x[j..] + z)
  {
    j := RunEnd(x, 0, HSpace);
    assert j == |x| ==> InClass(x[|x| - 1], HSpace);
    var s := x + z;
    assert AllIn(s, 0, j, HSpace) by {
      forall p | 0 <= p < j
        ensures InClass(s[p], HSpace)
      {
        assert s[p] == x[p];
      }
    }
    assert s[j] == x[j];
    RunEndMaximal(s, 0, j, HSpace);
    assert s[j..] == x[j..] + z;
    assert IsHSpace(s[0]);
  }

  /** A leading character other than horizontal whitespace is kept the same whatever
      follows. */
  lemma CollapseLeadingChar(x: string, z: string)
    requires |x| > 0 && !IsHSpace(x[0])
    ensures CollapseSpaces(x) == [x[0]] + CollapseSpaces(x[1..])
    ensures CollapseSpaces(x + z) == [x[0]] + CollapseSpaces(x[1..] + z)
  {
    assert (x + z)[1..] == x[1..] + z;
    assert (x + z)[0] == x[0];
  }

  lemma {:induction false} CollapseSpacesVisible(s: string)
    ensures Visible(CollapseSpaces(s)) == Visible(s)
    decreases |s|
  {
    if |s| > 0 {
      if IsHSpace(s[0]) {
        var j := RunEnd(s, 0, HSpace);
        CollapseSpacesVisible(s[j..]);
        VisibleAppend([' '], CollapseSpaces(s[j..]));
        HSpaceRunInvisible(s, j);
        VisibleSplit(s, j);
      } else {
        CollapseSpacesVisible(s[1..]);
        VisibleAppend([s[0]], CollapseSpaces(s[1..]));
      }
    }
  }

  lemma HSpaceRunInvisible(s: string, j: nat)
    requires AllIn(s, 0, j, HSpace)
    ensures Visible(s[..j]) == []
  {
    AllInSlice(s, 0, j, HSpace);
    forall k | 0 <= k < j
      ensures IsSpace(s[..j][k])
    {
      assert InClass(s[..j][k], HSpace);
    }
    VisibleOfSpaces(s[..j]);
  }

  lemma VisibleSplit(s: string, j: nat)
    requires j <= |s|
    ensures Visible(s) == Visible(s[..j]) + Visible(s[j..])
  {
    assert s == s[..j] + s[j..];
    VisibleAppend(s[..j], s[j..]);
  }

  /** The start of what `trim` keeps: the end of the leading whitespace. */
  function TrimStart(s: string): (a: nat)
    ensures a <= |s|
    ensures forall k :: 0 <= k < a ==> IsSpace(s[k])
    ensures a < |s| ==> !IsSpace(s[a])
  {
    RunEnd(s, 0, Space)
  }

  /** The end of what `trim` keeps: the start of the trailing whitespace, not before a. */
  function TrimEnd(s: string, a: nat): (b: nat)
    requires a <= |s|
    ensures a <= b <= |s|
    ensures forall k :: b <= k < |s| ==> IsSpace(s[k])
    ensures b > a ==> !IsSpace(s[b - 1])
    decreases |s|
  {
    if |s| > a && IsSpace(s[|s| - 1]) then TrimEnd(s[..|s| - 1], a) else |s|
  }

  /** `.trim()`: leading and trailing whitespace and line terminators removed. */
  function Trim(s: string): (r: string)
    ensures Trimmed(r)
    ensures exists a, b ::
      && 0 <= a <= b <= |s| && r == s[a..b]
      && (forall k :: 0 <= k < a ==> IsSpace(s[k]))
      && (forall k :: b <= k < |s| ==> IsSpace(s[k]))
  {
    s[TrimStart(s)..TrimEnd(s, TrimStart(s))]
  }

  lemma TrimVisible(s: string)
    ensures Visible(Trim(s)) == Visible(s)
  {
    var a := TrimStart(s);
    var b := TrimEnd(s, a);
    LeadingSpacesInvisible(s, a);
    TrailingSpacesInvisible(s, b);
    VisibleMiddle(s, a, b);
  }

  /** Cutting an invisible head and an invisible tail off keeps every visible character. */
  lemma VisibleMiddle(s: string, a: nat, b: nat)
    requires a <= b <= |s|
    requires Visible(s[..a]) == [] && Visible(s[b..]) == []
    ensures Visible(s[a..b]) == Visible(s)
  {
    var p, m, q := s[..a], s[a..b], s[b..];
    SplitThree(s, a, b);
    VisibleAppend(p + m, q);
    VisibleAppend(p, m);
  }

  lemma SplitThree(s: string, a: nat, b: nat)
    requires a <= b <= |s|
    ensures s == s[..a] + s[a..b] + s[b..]
  {
  }

  lemma LeadingSpacesInvisible(s: string, a: nat)
    requires a <= |s| && forall k :: 0 <= k < a ==> IsSpace(s[k])
    ensures Visible(s[..a]) == []
  {
    VisibleOfSpaces(s[..a]);
  }

  lemma TrailingSpacesInvisible(s: string, b: nat)
    requires b <= |s| && forall k :: b <= k < |s| ==> IsSpace(s[k])
    ensures Visible(s[b..]) == []
  {
    VisibleOfSpaces(s[b..]);
  }

  /** `cleanText(s)`. */
  function CleanText(s: string): string {
    Trim(CollapseSpaces(ReplaceNbsp(StripBold(s))))
  }

  /** What the normalised text looks like: no `**`, no U+00A0 and every horizontal
      space a plain one, never two horizontal spaces in a row, and no whitespace at
      either end. */
  lemma CleanTextShape(s: string)
    ensures var c := CleanText(s);
      && NoDoubleStar(c)
      && (forall k :: 0 <= k < |c| ==> c[k] != Nbsp)
      && PlainHSpace(c)
      && NoAdjacentHSpace(c)
      && Trimmed(c)
  {
    var b := StripBold(s);
    var n := ReplaceNbsp(b);
    assert NoDoubleStar(n) by {
      forall k | 0 <= k < |n| - 1
        ensures !(n[k] == '*' && n[k + 1] == '*')
      {
        assert n[k] == '*' ==> b[k] == '*';
        assert n[k + 1] == '*' ==> b[k + 1] == '*';
      }
    }
    var w := CollapseSpaces(n);
    var lo := TrimStart(w);
    var hi := TrimEnd(w, lo);
    SliceKeepsShape(w, lo, hi);
    assert CleanText(s) == w[lo..hi];
    NoNbsp(w[lo..hi]);
  }

  /** A piece of a text keeps the text's shape properties. */
  lemma SliceKeepsShape(w: string, lo: nat, hi: nat)
    requires lo <= hi <= |w|
    requires NoDoubleStar(w) && PlainHSpace(w) && NoAdjacentHSpace(w)
    ensures NoDoubleStar(w[lo..hi]) && PlainHSpace(w[lo..hi]) && NoAdjacentHSpace(w[lo..hi])
  {
    var c := w[lo..hi];
    assert forall k :: 0 <= k < |c| ==> c[k] == w[lo + k];
  }

  /** With every horizontal space a plain one there is no U+00A0 left. */
  lemma NoNbsp(c: string)
    requires PlainHSpace(c)
    ensures forall k :: 0 <= k < |c| ==> c[k] != Nbsp
  {
    assert IsHSpace(Nbsp);
  }

  /** Normalisation keeps every character that is neither an asterisk nor whitespace,
      in order: it only ever deletes `**`, and rewrites or deletes whitespace. */
  lemma CleanTextKeepsVisible(s: string)
    ensures Visible(CleanText(s)) == Visible(s)
  {
    StripBoldVisible(s);
    ReplaceNbspVisible(StripBold(s));
    CollapseSpacesVisible(ReplaceNbsp(StripBold(s)));
    TrimVisible(CollapseSpaces(ReplaceNbsp(StripBold(s))));
  }

  /** Normalising an already normalised text changes nothing. */
  lemma CleanTextIdempotent(s: string)
    ensures CleanText(CleanText(s)) == CleanText(s)
  {
    var c := CleanText(s);
    CleanTextShape(s);
    assert StripBold(c) == c;
    assert ReplaceNbsp(c) == c;
    assert CollapseSpaces(c) == c;
    var lo := TrimStart(c);
    assert lo == 0;
    var hi := TrimEnd(c, 0);
    assert hi == |c|;
  }
}
