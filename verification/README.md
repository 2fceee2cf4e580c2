# XAU signal sizing, modelled in Dafny

This project models the core of the XAU signal tool (`app.js`): a trader pastes a free-text
trading signal, the tool normalises it, extracts the symbol, direction, entry, stop-loss
and take-profits with regular expressions, checks the form inputs, and sizes the position
twice. Risk sizing finds the largest slice per take-profit whose loss at the stop stays
within a percentage of the account. Margin sizing finds the largest total the free margin
allows and splits it evenly over the take-profits. Both round down to the broker's lot
step. The display then shows the risk or the margin lots, depending on the mode. On a
netting account it also lists one opposing limit order per take-profit except the last.

Modules, one file each:

- `Wrappers`: `Option`.
- `Chars`: the character classes the regular expressions see. This is the ECMAScript
  `\s` set, `\w`, and ASCII-only case folding under the `i` flag without `u`.
- `Scan`: character runs, word boundaries, case-insensitive literals, decimal numbers
  and their exact values, and the leftmost-hit search `FirstSome`.
- `Clean`: `cleanText`.
- `Patterns`: one explicit scanner per regular expression, trying one start position.
  Next to each scanner is a declarative predicate that says which decompositions of the
  text the pattern admits there. A correctness lemma ties the two together.
- `Signal`: `parseSignal`, made of:
  - the leftmost match of each non-global pattern;
  - the repeated `exec` of the global take-profit pattern;
  - the stable sort by level number.
- `Lots`: `floorToStep`, in exact real arithmetic.
- `Sizing`: the body of `calculate` as a pure function. Form inputs and the parsed
  signal go in; the errors, the warnings and the `LAST` record come out.
- `Display`: the non-DOM part of `render`. It covers the lot selection by mode, the
  closing side, the take-profit rows and the opposing orders.

## Model

| member | source | states |
|---|---|---|
| Clean.StripBold | app.js:53 | the result has no `**`; text without `**` is unchanged |
| Clean.StripBoldKeepsNonStar | app.js:53 | removing `**` pairs keeps every character other than `*`, whitespace included, in order |
| Clean.StripBoldStarRun | app.js:53 | a maximal run of k asterisks loses its pairs, leaving one asterisk when k is odd and none when it is even; the text after it is stripped on its own |
| Clean.StripBoldAppend | app.js:53 | text that does not end in `*` is stripped the same whatever follows it |
| Clean.ReplaceNbsp | app.js:54 | the result has the input's length; every U+00A0 becomes a plain space and every other character stays where it was |
| Clean.CollapseSpaces | app.js:55 | the result never has two horizontal whitespace characters in a row, and each one is a plain space; text already of that shape is unchanged |
| Clean.CollapseAppend | app.js:55 | text that does not end in horizontal whitespace collapses the same whatever follows it |
| Clean.CollapseSpacesRun | app.js:55 | a maximal run of horizontal whitespace becomes exactly one plain space, and the text on either side of it is collapsed independently |
| Clean.Trim | app.js:56 | the result is the input with only leading and trailing whitespace removed, and neither end of it is whitespace |
| Clean.CleanTextShape | app.js:51-57 | normalised text has no `**`, no U+00A0, only plain horizontal spaces, no two of them adjacent, and no whitespace at either end |
| Clean.CleanTextKeepsVisible | app.js:51-57 | normalisation keeps every character that is neither `*` nor whitespace, in order |
| Clean.CleanTextIdempotent | app.js:51-57 | normalising normalised text changes nothing |
| Scan.NumberEndCorrect | app.js:68 | the greedy scan of `[0-9]+(?:\.[0-9]+)?` finds a number exactly when the pattern matches, and it ends at the longest match |
| Scan.DecimalValueExample | app.js:69 | `Number` reads "2350.50" as 2350.5 and "7" as 7 |
| Scan.FirstSome | app.js:62 | the leftmost position with a hit: every earlier position has none, and without a result no position has one |
| Patterns.SymbolAtCorrect | app.js:62 | the symbol scanner finds codes exactly when `([A-Z]{3,6})\s*\/\s*([A-Z]{3,6})` matches at the position; every match has the same base code and quote start, and none has a longer quote code |
| Patterns.DirLabelAtCorrect | app.js:65 | the scanner yields side d exactly when `Direction\s*:\s*(BUY\|SELL)` (any case) matches with side d |
| Patterns.DirWordAt | app.js:65 | the scanner yields side d exactly when `\b(BUY\|SELL)\b` (any case) matches with side d |
| Patterns.EntryAtCorrect | app.js:68 | the scanner finds a number exactly when `Entry\s*Price\s*:\s*(number)` matches; all matches agree on where it starts, and none has a longer number |
| Patterns.SepNumberAtCorrect | app.js:72 | the same for `\s*[: ]\s*(number)`, including the backtracking case where `[: ]` takes a space inside the whitespace run |
| Patterns.SlSepAtCorrect | app.js:72 | the same for `\bSL\b\s*[: ]\s*(number)` |
| Patterns.SlBareAtCorrect | app.js:73 | the same for `\bSL\b\s*(number)` |
| Patterns.TpAtCorrect | app.js:76 | the same for the take-profit pattern: level number and price start are forced, and the price is the longest |
| Signal.SymbolOfMeaning | app.js:62-63 | the symbol is "" exactly when no match exists; otherwise it is the base plus quote code of the leftmost match |
| Signal.SymbolOfShape | app.js:62-63 | the symbol is "" or 6 to 12 upper-case ASCII letters |
| Signal.DirectionOfMeaning | app.js:65-66 | no direction exactly when neither form matches anywhere; otherwise the side of the leftmost labelled match, or, when there is none, of the leftmost bare word |
| Signal.EntryOfMeaning | app.js:68-69 | no entry exactly when the pattern matches nowhere; otherwise the value of the leftmost match's number |
| Signal.StopOfMeaning | app.js:71-74 | the `[: ]` form is used when it matches anywhere, the bare form only otherwise; no stop exactly when neither matches |
| Signal.TpNoOverlap | app.js:76-81 | two take-profit matches never overlap, so resuming `exec` at the end of a match loses none |
| Signal.TpScanSound | app.js:78-81 | every hit of the `exec` loop is a match that starts at or after the search start, hits come in text order, and each hit carries the values of its own captures |
| Signal.TpScanComplete | app.js:78-81 | every position where the take-profit pattern matches is a hit of the loop |
| Signal.TakeProfitsMeaning | app.js:76-81 | the take-profits before sorting are the matches in text order, one per matching position, each with its longest price |
| Signal.Insert | app.js:82 | inserting into a sorted list keeps it sorted, is a permutation, and keeps the order among equal level numbers |
| Signal.SortByIndex | app.js:82 | the result is sorted by level number, is a permutation of the input, and keeps the input order among equal level numbers (a stable sort) |
| Signal.ParseSignalOfCleanText | app.js:59-60 | parsing normalised text gives the same signal as parsing the raw text |
| Lots.FloorToStep | app.js:87-90 | the result is a whole number of steps, at most the value, and less than one step below it |
| Lots.FloorToStepGreatest | app.js:87-90 | no whole number of steps at or below the value is above the result |
| Lots.FloorToStepIdempotent | app.js:87-90 | rounding twice is rounding once |
| Lots.FloorToStepMonotonic | app.js:87-90 | rounding down keeps the order of its arguments |
| Sizing.InputErrors | app.js:289-296 | the errors are exactly the failing input checks, in source order; there are none exactly when all inputs are valid |
| Sizing.InputWarnings | app.js:298-301 | each of the first three warnings is raised exactly when its condition holds, in source order |
| Sizing.SliceRisk | app.js:316-320 | the risk slice is a whole number of steps, n slices lose at most the risk target at the stop, no larger such slice exists, and it is positive exactly when one step per take-profit fits the target |
| Sizing.RiskLots | app.js:316-321 | the risk total is the slice times the take-profit count |
| Sizing.MarginLotsFor | app.js:336-338 | the margin total is the capacity rounded down; the slice is the largest whole number of steps that fits n times into the total; it is positive exactly when the capacity holds one step per take-profit |
| Sizing.MarginWarnings | app.js:340-341 | a zero margin slice warns; a positive one warns exactly when the risk total exceeds the margin total |
| Sizing.MarginSizing | app.js:329-344 | margin lots exist exactly when both margin inputs are positive; the free-margin warning appears exactly when they are not and the field was filled in |
| Sizing.Calculate | app.js:275-358 | a result exists exactly when there is no error. Invalid inputs give exactly the failing checks. Valid inputs fail only on a zero stop or on a risk slice that rounds to zero. A result holds the risk lots of SliceRisk and RiskLots and the margin lots of MarginSizing |
| Sizing.CalculateAccepts | app.js:303-326 | sizing succeeds exactly when the inputs are valid, the entry differs from the stop, and one step per take-profit fits the risk target |
| Sizing.CalculateWarnings | app.js:298-344 | each of the first three warnings appears exactly when its condition holds, whether or not sizing succeeds; the margin warnings appear only with a result, and then exactly when their conditions hold |
| Sizing.WarningsDoNotBlock | app.js:298-344 | changing only what warnings are about leaves the errors and the risk lots unchanged |
| Sizing.RiskSizingExample | app.js:316-321 | 1% of 10000 over two take-profits, 10-point stop, contract value 100, step 0.01: slice 0.05, total 0.10 |
| Sizing.MarginSizingExample | app.js:336-337 | 9000 free margin at 90000 per lot over three take-profits, step 0.01: total 0.10, slice 0.03 |
| Display.SelectLots | app.js:377-388 | the margin lots are shown exactly when the mode is "margin" and `marginOk`; otherwise the risk lots |
| Display.SelectionWithinLimits | app.js:377-410 | in either mode the shown slice is positive and fits once per take-profit into the shown total. Risk lots lose at most the target at the stop; margin lots stay within the capacity |
| Display.CloseSide | app.js:373-375 | "OPPOSITE" exactly when the direction is unknown |
| Display.CloseSideOpposes | app.js:373-375 | the closing side of a known direction is the other side |
| Display.TpRows | app.js:416-442 | one row per take-profit, each closing one shown slice at its price, with the profit of the move in the trade's direction |
| Display.TpProfitSign | app.js:421-427 | a row shows a profit exactly when its price lies beyond the entry in the trade's direction (an unknown direction counts as a buy) |
| Display.OpposingOrders | app.js:445-466 | with netting, one closing order per take-profit but the last, each for one shown slice at that take-profit's price; none without netting |
| Display.NettingPlanFits | app.js:445-466 | the opposing orders plus the final slice never exceed the shown total, and they use it up exactly when the total is one slice per take-profit |
| Display.Render | app.js:367-410 | the mode label is "MARGIN" when margin lots are shown and "RISK" otherwise, the margin total shown only when `marginOk`, "-" for a missing symbol or direction, one row per take-profit, and opposing orders of one slice each |

## Rounding and blocking conditions

- `Math.floor` (app.js:88) rounds toward minus infinity. Every value `calculate` rounds
  this way is non-negative, so this is the same as rounding toward zero there.
  `Lots.FloorToStep` uses `.Floor`.
- The failing input checks are reported together (app.js:289-306). The zero stop and
  the zero risk slice are checked only after all input checks pass, and each is then
  reported alone (app.js:310-326). `Sizing.Calculate` states exactly that.

## Left out

- The DOM, the clipboard, settings in `localStorage`, the mode buttons, the boot code and
  `showMessages`. `MODE`, the netting checkbox and `LAST` are parameters and return values.
- `Number(...)` conversion of the form fields. A field arrives as `Option<real>`: None
  stands for a non-finite value, so `isFinite(x) && x > 0` becomes `Positive`.
- `freeMarginProvided` (app.js:333) is an input next to the free-margin value. The
  model does not derive it from the raw field text.
- Exact message strings. Errors and warnings are constructors, kept in source order.
- Floating point. All arithmetic is exact real arithmetic, so there is no Infinity and
  no NaN.
- Lots.FloorToStep: the `toFixed(8)` rounding of the result (app.js:89) is left out. On
  the exact result it changes nothing when the step has at most 8 decimal places. With a
  finer step it can differ: for step 7e-9 and value 7e-9 it gives 1e-8, which is above
  the value.
- Lots.FloorToStep: requires a positive step. `calculate` calls it only after the step
  check has passed.
- `fmt2`, `fmtMoney`, `toFixed(2)`, the entry/stop/final take-profit display fields, the
  execution plan text and the copy-all output (app.js:472-528): formatting only.
- Scan.DecimalValue is not proved against a general `Number` reading. Its only evidence
  is the concrete example and its non-negativity.
- Display.Render: does not restate the lots and money fields; SelectLots,
  StopLossMoney and TpRows state them.
