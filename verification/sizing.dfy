/** The validation and sizing body of `calculate` (app.js:286-358) as a pure function:
    the form fields arrive as values, and the record the source keeps in `LAST` is
    returned inside the outcome together with the error and warning lists. */
module Sizing {
  import opened Wrappers
  import opened Patterns
  import opened Signal
  import opened Lots

  /** The numeric form fields after `Number(...)`: None where the source sees a
      non-finite value. `freeMarginProvided` says whether the free-margin field was
      non-blank. */
  datatype Inputs = Inputs(
    acct: Option<real>,
    riskPct: Option<real>,
    freeMargin: Option<real>,
    step: Option<real>,
    xauValue: Option<real>,
    marginPerLot: Option<real>,
    freeMarginProvided: bool)

  /** Blocking conditions, in the order the source reports them. */
  datatype Error =
    | NoTakeProfits
    | EntryNotFound
    | SlNotFound
    | BadAccount
    | BadRisk
    | BadStep
    | BadXauValue
    | ZeroStop
    | SliceRoundsToZero

  /** Advisory conditions, in the order the source reports them. */
  datatype Warning =
    | MarginPerLotInvalid
    | DirectionNotFound
    | SymbolNotFound
    | MarginSliceRoundsToZero
    | RiskExceedsMargin
    | FreeMarginWithoutMarginPerLot

  /** The margin-based lots: total capacity first, slice derived from it. */
  datatype MarginLots = MarginLots(slice: real, total: real)

  /** The fields of `LAST`. `margin` is None where the source leaves both margin lots NaN. */
  datatype Sizes = Sizes(
    signal: ParsedSignal,
    tpCount: nat,
    stop: real,
    xauValue: real,
    sliceRisk: real,
    totalRisk: real,
    margin: Option<MarginLots>)
  {
    /** `marginOk`: margin sizing ran and its slice is positive. */
    predicate MarginOk() {
      margin.Some? && margin.value.slice > 0.0
    }
  }

  datatype Outcome = Outcome(errors: seq<Error>, warnings: seq<Warning>, result: Option<Sizes>)

  /** `isFinite(x) && x > 0`. */
  predicate Positive(x: Option<real>) {
    x.Some? && x.value > 0.0
  }

  function ErrorRank(e: Error): nat {
    match e
    case NoTakeProfits => 0
    case EntryNotFound => 1
    case SlNotFound => 2
    case BadAccount => 3
    case BadRisk => 4
    case BadStep => 5
    case BadXauValue => 6
    case ZeroStop => 7
    case SliceRoundsToZero => 8
  }

  function WarningRank(w: Warning): nat {
    match w
    case MarginPerLotInvalid => 0
    case DirectionNotFound => 1
    case SymbolNotFound => 2
    case MarginSliceRoundsToZero => 3
    case RiskExceedsMargin => 4
    case FreeMarginWithoutMarginPerLot => 5
  }

  /** Each condition at most once, in the source's order. */
  predicate ErrorsOrdered(es: seq<Error>) {
    forall i, j :: 0 <= i < j < |es| ==> ErrorRank(es[i]) < ErrorRank(es[j])
  }

  predicate WarningsOrdered(ws: seq<Warning>) {
    forall i, j :: 0 <= i < j < |ws| ==> WarningRank(ws[i]) < WarningRank(ws[j])
  }

  /* ---------------- what each check rejects ---------------- */

  /** The input check behind each of the first seven errors fails. The last two are
      not input checks and are never raised by this phase. */
  predicate InputCheckFails(e: Error, p: ParsedSignal, inp: Inputs) {
    match e
    case NoTakeProfits => |p.tps| == 0
    case EntryNotFound => p.entry.None?
    case SlNotFound => p.sl.None?
    case BadAccount => !Positive(inp.acct)
    case BadRisk => !Positive(inp.riskPct)
    case BadStep => !Positive(inp.step)
    case BadXauValue => !Positive(inp.xauValue)
    case ZeroStop => false
    case SliceRoundsToZero => false
  }

  /** Every input check passes. */
  predicate InputsValid(p: ParsedSignal, inp: Inputs) {
    && |p.tps| > 0 && p.entry.Some? && p.sl.Some?
    && Positive(inp.acct) && Positive(inp.riskPct) && Positive(inp.step) && Positive(inp.xauValue)
  }

  /** Margin sizing runs: both margin inputs are positive. */
  predicate MarginInputs(inp: Inputs) {
    Positive(inp.marginPerLot) && Positive(inp.freeMargin)
  }

  function Abs(x: real): real {
    if x < 0.0 then -x else x
  }

  /** `acct * (riskPct / 100)`: the money the whole position may lose at SL. */
  function RiskTarget(inp: Inputs): real
    requires Positive(inp.acct) && Positive(inp.riskPct)
  {
    inp.acct.value * (inp.riskPct.value / 100.0)
  }

  /** The money lost at SL by n slices of `lots` each. */
  function LossAtStop(lots: real, n: nat, stop: real, xau: real): real {
    lots * n as real * stop * xau
  }

  /* ---------------- the phases of `calculate` ---------------- */

  /** The input checks in the order the source makes them. */
  const InputChecks: seq<Error> := [NoTakeProfits, EntryNotFound, SlNotFound, BadAccount, BadRisk, BadStep, BadXauValue]

  /** The checks of `checks` that fail, in their order: one `errors.push` per failing check. */
  function FailingChecks(checks: seq<Error>, p: ParsedSignal, inp: Inputs): (es: seq<Error>)
    requires ErrorsOrdered(checks)
    ensures ErrorsOrdered(es)
    ensures forall e :: e in es <==> e in checks && InputCheckFails(e, p, inp)
  {
    if |checks| == 0 then []
    else
      var rest := FailingChecks(checks[1..], p, inp);
      assert forall e :: e in checks[1..] ==> ErrorRank(checks[0]) < ErrorRank(e);
      if InputCheckFails(checks[0], p, inp) then [checks[0]] + rest else rest
  }

  /** The input errors (app.js:289-296): every failing check, in order. */
  function InputErrors(p: ParsedSignal, inp: Inputs): (es: seq<Error>)
    ensures ErrorsOrdered(es)
    ensures forall e :: e in es <==> InputCheckFails(e, p, inp)
    ensures |es| == 0 <==> InputsValid(p, inp)
  {
    InputChecksOrdered();
    var es := FailingChecks(InputChecks, p, inp);
    assert forall e :: e in es <==> InputCheckFails(e, p, inp) by {
      InputChecksCover(p, inp);
    }
    assert |es| == 0 <==> InputsValid(p, inp) by {
      assert |es| == 0 || es[0] in es;
      if !InputsValid(p, inp) {
        assert FirstFailingCheck(p, inp) in es;
      }
    }
    es
  }

  lemma InputChecksOrdered()
    ensures ErrorsOrdered(InputChecks)
  {
    forall i, j | 0 <= i < j < |InputChecks|
      ensures ErrorRank(InputChecks[i]) < ErrorRank(InputChecks[j])
    {
      assert forall k :: 0 <= k < |InputChecks| ==> ErrorRank(InputChecks[k]) == k;
    }
  }

  /** Only the listed checks can fail. */
  lemma InputChecksCover(p: ParsedSignal, inp: Inputs)
    ensures forall e :: InputCheckFails(e, p, inp) ==> e in InputChecks
  {
    forall e | InputCheckFails(e, p, inp)
      ensures e in InputChecks
    {
      assert InputChecks[ErrorRank(e)] == e;
    }
  }

  /** The first input check that fails, when one does. */
  function FirstFailingCheck(p: ParsedSignal, inp: Inputs): (e: Error)
    requires !InputsValid(p, inp)
    ensures InputCheckFails(e, p, inp) && ErrorRank(e) < 7
  {
    if |p.tps| == 0 then NoTakeProfits
    else if p.entry.None? then EntryNotFound
    else if p.sl.None? then SlNotFound
    else if !Positive(inp.acct) then BadAccount
    else if !Positive(inp.riskPct) then BadRisk
    else if !Positive(inp.step) then BadStep
    else BadXauValue
  }

  /** The first three warnings, each raised exactly when its condition holds. */
  predicate InputWarningRaised(w: Warning, p: ParsedSignal, inp: Inputs) {
    match w
    case MarginPerLotInvalid => !Positive(inp.marginPerLot)
    case DirectionNotFound => p.direction.None?
    case SymbolNotFound => p.symbol == ""
    case _ => false
  }

  /** The warnings raised before the error check (app.js:298-301). */
  function InputWarnings(p: ParsedSignal, inp: Inputs): (ws: seq<Warning>)
    ensures WarningsOrdered(ws)
    ensures forall w :: w in ws ==> WarningRank(w) < 3
    ensures forall w :: w in ws <==> InputWarningRaised(w, p, inp)
  {
    var a := if !Positive(inp.marginPerLot) then [MarginPerLotInvalid] else [];
    var b := if p.direction.None? then [DirectionNotFound] else [];
    var c := if p.symbol == "" then [SymbolNotFound] else [];
    assert forall w :: w in a + b + c <==> w in a || w in b || w in c;
    a + b + c
  }

  /** Margin sizing and its warnings (app.js:329-344), given the risk total. */
  function MarginSizing(inp: Inputs, n: nat, step: real, totalRisk: real): (r: (Option<MarginLots>, seq<Warning>))
    requires n > 0 && Positive(inp.step) && step == inp.step.value
    ensures r.0.Some? <==> MarginInputs(inp)
    ensures r.0.Some? ==> MarginLotsSized(r.0.value, inp, n)
    ensures WarningsOrdered(r.1)
    ensures forall w :: w in r.1 ==> WarningRank(w) >= 3
    ensures MarginSliceRoundsToZero in r.1 <==> r.0.Some? && r.0.value.slice <= 0.0
    ensures RiskExceedsMargin in r.1 <==> r.0.Some? && r.0.value.slice > 0.0 && totalRisk > r.0.value.total
    ensures FreeMarginWithoutMarginPerLot in r.1 <==> !MarginInputs(inp) && inp.freeMarginProvided
  {
    if MarginInputs(inp) then
      var m := MarginLotsFor(inp.freeMargin.value / inp.marginPerLot.value, n, step);
      MarginLotsForSized(inp, n);
      (Some(m), MarginWarnings(m, totalRisk))
    else if inp.freeMarginProvided then
      (None, [FreeMarginWithoutMarginPerLot])
    else
      (None, [])
  }

  /** The lots of MarginLotsFor are the margin lots a result promises. */
  lemma MarginLotsForSized(inp: Inputs, n: nat)
    requires n > 0 && Positive(inp.step) && MarginInputs(inp)
    ensures MarginLotsSized(MarginLotsFor(inp.freeMargin.value / inp.marginPerLot.value, n, inp.step.value), inp, n)
  {
  }

  /** The warning margin lots raise (app.js:340-341): a slice that rounds to zero, or
      else a risk total above the margin total. */
  function MarginWarnings(m: MarginLots, totalRisk: real): (ws: seq<Warning>)
    ensures WarningsOrdered(ws) && |ws| <= 1
    ensures forall w :: w in ws ==> WarningRank(w) >= 3
    ensures MarginSliceRoundsToZero in ws <==> m.slice <= 0.0
    ensures RiskExceedsMargin in ws <==> m.slice > 0.0 && totalRisk > m.total
    ensures FreeMarginWithoutMarginPerLot !in ws
  {
    if m.slice <= 0.0 then [MarginSliceRoundsToZero]
    else if totalRisk > m.total then [RiskExceedsMargin]
    else []
  }

  /** The margin lots for a capacity (free margin over margin per lot) of `capacity`
      lots: the total is the capacity rounded down, the slice the total's n-th part
      rounded down (app.js:336-337). */
  function MarginLotsFor(capacity: real, n: nat, step: real): (m: MarginLots)
    requires n > 0 && step > 0.0
    ensures OnStep(m.total, step) && m.total <= capacity < m.total + step
    ensures OnStep(m.slice, step) && m.slice * n as real <= m.total
    ensures forall x :: OnStep(x, step) && x * n as real <= m.total ==> x <= m.slice
    ensures m.slice > 0.0 <==> capacity >= step * n as real
  {
    var total := FloorToStep(capacity, step);
    MarginSliceBounds(capacity, step, n);
    MarginSliceGreatest(total, step, n);
    MarginLots(FloorToStep(total / n as real, step), total)
  }

  /** The margin slice fits n times into the margin total, and it is positive exactly
      when the capacity holds n lot steps. */
  lemma MarginSliceBounds(capacity: real, step: real, n: nat)
    requires step > 0.0 && n > 0
    ensures var total := FloorToStep(capacity, step);
      var slice := FloorToStep(total / n as real, step);
      && slice * n as real <= total
      && (slice > 0.0 <==> capacity >= step * n as real)
  {
    var total := FloorToStep(capacity, step);
    var slice := FloorToStep(total / n as real, step);
    DivBound(slice, total, n as real);
    if slice > 0.0 {
      MarginSliceNeedsCapacity(capacity, step, n, total, slice);
    }
    if capacity >= step * n as real {
      CapacityGivesMarginSlice(capacity, step, n, total, slice);
    }
  }

  /** No whole number of steps that fits n times into the total exceeds the slice. */
  lemma MarginSliceGreatest(total: real, step: real, n: nat)
    requires step > 0.0 && n > 0
    ensures forall x :: OnStep(x, step) && x * n as real <= total ==> x <= FloorToStep(total / n as real, step)
  {
    forall x | OnStep(x, step) && x * n as real <= total
      ensures x <= FloorToStep(total / n as real, step)
    {
      DivBound(x, total, n as real);
      FloorToStepGreatest(total / n as real, step, x);
    }
  }

  lemma MarginSliceNeedsCapacity(capacity: real, step: real, n: nat, total: real, slice: real)
    requires step > 0.0 && n > 0
    requires total == FloorToStep(capacity, step) && slice == FloorToStep(total / n as real, step)
    requires slice > 0.0
    ensures capacity >= step * n as real
  {
    OnStepPositive(slice, step);
    assert step <= total / n as real;
    DivBound(step, total, n as real);
  }

  lemma CapacityGivesMarginSlice(capacity: real, step: real, n: nat, total: real, slice: real)
    requires step > 0.0 && n > 0
    requires total == FloorToStep(capacity, step) && slice == FloorToStep(total / n as real, step)
    requires capacity >= step * n as real
    ensures slice > 0.0
  {
    StepsOnStep(step, n);
    FloorToStepAtLeast(capacity, step, step * n as real);
    assert step * n as real <= total;
    DivBound(step, total, n as real);
    assert OnStep(step, step) by {
      assert step == Steps(1, step);
    }
    FloorToStepAtLeast(total / n as real, step, step);
  }

  /** x <= a / b gives x * b <= a for b > 0. */
  lemma DivBound(x: real, a: real, b: real)
    requires b > 0.0
    ensures x <= a / b <==> x * b <= a
  {
    if x <= a / b {
      assert x * b <= (a / b) * b;
    } else {
      assert x * b > (a / b) * b;
    }
  }

  /** The risk slice: the per-slice share of the target, as lots at the stop distance,
      rounded down to the step (app.js:315-320). */
  function SliceRisk(target: real, n: nat, stop: real, xau: real, step: real): (slice: real)
    requires n > 0 && stop > 0.0 && xau > 0.0 && step > 0.0
    ensures OnStep(slice, step)
    ensures LossAtStop(slice, n, stop, xau) <= target
    ensures forall x :: OnStep(x, step) && LossAtStop(x, n, stop, xau) <= target ==> x <= slice
    ensures slice > 0.0 <==> LossAtStop(step, n, stop, xau) <= target
  {
    RoundedSliceFacts(target, n, stop, xau, step);
    FloorToStep(target / n as real / (stop * xau), step)
  }

  lemma RoundedSliceFacts(target: real, n: nat, stop: real, xau: real, step: real)
    requires n > 0 && stop > 0.0 && xau > 0.0 && step > 0.0
    ensures var slice := FloorToStep(target / n as real / (stop * xau), step);
      && LossAtStop(slice, n, stop, xau) <= target
      && (forall x :: OnStep(x, step) && LossAtStop(x, n, stop, xau) <= target ==> x <= slice)
      && (slice > 0.0 <==> LossAtStop(step, n, stop, xau) <= target)
  {
    var raw := target / n as real / (stop * xau);
    RawSliceBound(target, n, stop, xau);
    forall x | OnStep(x, step) && LossAtStop(x, n, stop, xau) <= target
      ensures x <= FloorToStep(raw, step)
    {
      FloorToStepGreatest(raw, step, x);
    }
    assert OnStep(step, step) by {
      assert step == Steps(1, step);
    }
    FloorToStepAtLeast(raw, step, step);
    if FloorToStep(raw, step) > 0.0 {
      OnStepPositive(FloorToStep(raw, step), step);
    }
  }

  /** The risk lots (app.js:315-321): the slice first, then the total as the slice
      times the take-profit count, rounded down again. */
  function RiskLots(target: real, n: nat, stop: real, xau: real, step: real): (r: (real, real))
    requires n > 0 && stop > 0.0 && xau > 0.0 && step > 0.0
    ensures r.0 == SliceRisk(target, n, stop, xau, step)
    ensures r.1 == r.0 * n as real
  {
    var slice := SliceRisk(target, n, stop, xau, step);
    OnStepScale(slice, step, n);
    FloorToStepOnStep(slice * n as real, step);
    (slice, FloorToStep(slice * n as real, step))
  }

  /** x is at most the unrounded slice exactly when n slices of x lose at most the
      target at the stop. */
  lemma RawSliceBound(target: real, n: nat, stop: real, xau: real)
    requires n > 0 && stop > 0.0 && xau > 0.0
    ensures forall x :: x <= target / n as real / (stop * xau) <==> LossAtStop(x, n, stop, xau) <= target
  {
    forall x
      ensures x <= target / n as real / (stop * xau) <==> LossAtStop(x, n, stop, xau) <= target
    {
      DivBound(x, target / n as real, stop * xau);
      DivBound(x * (stop * xau), target, n as real);
      assert x * (stop * xau) * n as real == LossAtStop(x, n, stop, xau);
    }
  }

  /* ---------------- `calculate` ---------------- */

  /** The risk lots of a result: the slice is the largest whole number of steps whose
      n-fold loss at the stop stays within the target, and the total is n slices. */
  ghost predicate RiskSized(r: Sizes, p: ParsedSignal, inp: Inputs)
    requires InputsValid(p, inp)
  {
    var step := inp.step.value;
    && r.signal == p && r.tpCount == |p.tps|
    && r.stop == Abs(p.entry.value - p.sl.value) && r.stop > 0.0
    && r.xauValue == inp.xauValue.value
    && r.sliceRisk > 0.0 && OnStep(r.sliceRisk, step)
    && r.totalRisk == r.sliceRisk * r.tpCount as real
    && LossAtStop(r.sliceRisk, r.tpCount, r.stop, r.xauValue) <= RiskTarget(inp)
    && (forall x :: OnStep(x, step) && LossAtStop(x, r.tpCount, r.stop, r.xauValue) <= RiskTarget(inp) ==>
          x <= r.sliceRisk)
  }

  /** Margin lots m sized for n take-profits: the total is the capacity (free margin
      over margin per lot) rounded down, the slice fits n times into the total, and the
      slice is positive exactly when the capacity covers one lot step per take-profit. */
  ghost predicate MarginLotsSized(m: MarginLots, inp: Inputs, n: nat)
    requires Positive(inp.step) && MarginInputs(inp)
  {
    var step := inp.step.value;
    var capacity := inp.freeMargin.value / inp.marginPerLot.value;
    && OnStep(m.total, step)
    && m.total <= capacity < m.total + step
    && OnStep(m.slice, step)
    && m.slice * n as real <= m.total
    && (forall x :: OnStep(x, step) && x * n as real <= m.total ==> x <= m.slice)
    && (m.slice > 0.0 <==> capacity >= step * n as real)
  }

  /** The margin lots of a result are present exactly when both margin inputs are
      positive, and are then sized for its take-profit count. */
  ghost predicate MarginSized(r: Sizes, inp: Inputs)
    requires Positive(inp.step)
  {
    && (r.margin.Some? <==> MarginInputs(inp))
    && (r.margin.Some? ==> MarginLotsSized(r.margin.value, inp, r.tpCount))
  }

  /** r is the result `calculate` promises for p and the inputs. */
  ghost predicate Sized(r: Sizes, p: ParsedSignal, inp: Inputs) {
    && InputsValid(p, inp) && p.entry != p.sl
    && RiskSized(r, p, inp) && MarginSized(r, inp)
  }

  /** The outcome of `calculate` for parsed signal p and the form inputs. */
  function Calculate(p: ParsedSignal, inp: Inputs): (o: Outcome)
    ensures o.result.Some? <==> |o.errors| == 0
    ensures ErrorsOrdered(o.errors) && WarningsOrdered(o.warnings)
    ensures !InputsValid(p, inp) ==> forall e :: e in o.errors <==> InputCheckFails(e, p, inp)
    ensures InputsValid(p, inp) ==> (o.errors == [ZeroStop] <==> p.entry == p.sl)
    ensures InputsValid(p, inp) && p.entry != p.sl ==>
      (o.errors == [SliceRoundsToZero] <==> !SliceFits(p, inp))
    ensures o.result.Some? ==> Sized(o.result.value, p, inp)
  {
    var errors := InputErrors(p, inp);
    var warnings := InputWarnings(p, inp);
    if |errors| > 0 then
      Outcome(errors, warnings, None)
    else
      var n := |p.tps|;
      var stop := Abs(p.entry.value - p.sl.value);
      if stop <= 0.0 then
        Outcome([ZeroStop], warnings, None)
      else
        var step := inp.step.value;
        var xau := inp.xauValue.value;
        var (sliceRisk, totalRisk) := RiskLots(RiskTarget(inp), n, stop, xau, step);
        if sliceRisk <= 0.0 then
          Outcome([SliceRoundsToZero], warnings, None)
        else
          var (margin, more) := MarginSizing(inp, n, step, totalRisk);
          OrderedConcat(warnings, more);
          var r := Sizes(p, n, stop, xau, sliceRisk, totalRisk, margin);
          AcceptedSized(p, inp, r);
          Outcome([], warnings + more, Some(r))
  }

  /** The lots `calculate` builds once every check has passed are sized as promised. */
  lemma AcceptedSized(p: ParsedSignal, inp: Inputs, r: Sizes)
    requires InputsValid(p, inp) && r.signal == p && r.tpCount == |p.tps|
    requires r.stop == Abs(p.entry.value - p.sl.value) && r.stop > 0.0
    requires r.xauValue == inp.xauValue.value
    requires (r.sliceRisk, r.totalRisk) == RiskLots(RiskTarget(inp), r.tpCount, r.stop, r.xauValue, inp.step.value)
    requires r.sliceRisk > 0.0
    requires r.margin == MarginSizing(inp, r.tpCount, inp.step.value, r.totalRisk).0
    ensures Sized(r, p, inp)
  {
    assert p.entry != p.sl;
    AcceptedRiskSized(p, inp, r);
    AcceptedMarginSized(inp, r);
  }

  lemma AcceptedRiskSized(p: ParsedSignal, inp: Inputs, r: Sizes)
    requires InputsValid(p, inp) && r.signal == p && r.tpCount == |p.tps|
    requires r.stop == Abs(p.entry.value - p.sl.value) && r.stop > 0.0
    requires r.xauValue == inp.xauValue.value
    requires (r.sliceRisk, r.totalRisk) == RiskLots(RiskTarget(inp), r.tpCount, r.stop, r.xauValue, inp.step.value)
    requires r.sliceRisk > 0.0
    ensures RiskSized(r, p, inp)
  {
    var target, step := RiskTarget(inp), inp.step.value;
    assert r.sliceRisk == SliceRisk(target, r.tpCount, r.stop, r.xauValue, step);
    assert r.totalRisk == r.sliceRisk * r.tpCount as real;
  }

  lemma AcceptedMarginSized(inp: Inputs, r: Sizes)
    requires Positive(inp.step) && r.tpCount > 0
    requires r.margin == MarginSizing(inp, r.tpCount, inp.step.value, r.totalRisk).0
    ensures MarginSized(r, inp)
  {
  }

  /** With valid inputs and a non-zero stop: one lot step per take-profit loses no more
      than the risk target at the stop. */
  predicate SliceFits(p: ParsedSignal, inp: Inputs)
    requires InputsValid(p, inp) && p.entry != p.sl
  {
    LossAtStop(inp.step.value, |p.tps|, Abs(p.entry.value - p.sl.value), inp.xauValue.value) <= RiskTarget(inp)
  }

  /** Sizing succeeds exactly when the inputs are valid, the stop is not zero and one
      step per take-profit fits the risk target. */
  lemma CalculateAccepts(p: ParsedSignal, inp: Inputs)
    ensures Calculate(p, inp).result.Some? <==> InputsValid(p, inp) && p.entry != p.sl && SliceFits(p, inp)
  {
  }

  /** Each warning is raised exactly when its condition holds; the margin warnings only
      come with a result. */
  lemma CalculateWarnings(p: ParsedSignal, inp: Inputs)
    ensures var o := Calculate(p, inp);
      && (forall w :: WarningRank(w) < 3 ==> (w in o.warnings <==> InputWarningRaised(w, p, inp)))
      && (MarginSliceRoundsToZero in o.warnings <==>
            o.result.Some? && o.result.value.margin.Some? && !o.result.value.MarginOk())
      && (RiskExceedsMargin in o.warnings <==>
            o.result.Some? && o.result.value.MarginOk() && o.result.value.totalRisk > o.result.value.margin.value.total)
      && (FreeMarginWithoutMarginPerLot in o.warnings <==>
            o.result.Some? && !MarginInputs(inp) && inp.freeMarginProvided)
  {
  }

  lemma OrderedConcat(a: seq<Warning>, b: seq<Warning>)
    requires WarningsOrdered(a) && WarningsOrdered(b)
    requires forall w :: w in a ==> WarningRank(w) < 3
    requires forall w :: w in b ==> WarningRank(w) >= 3
    ensures WarningsOrdered(a + b)
  {
    forall i, j | 0 <= i < j < |a + b|
      ensures WarningRank((a + b)[i]) < WarningRank((a + b)[j])
    {
      if j >= |a| && i < |a| {
        assert (a + b)[i] in a;
        assert (a + b)[j] in b;
      }
    }
  }
  /** Warnings never block: changing only what warnings are about (direction,
      symbol and the margin inputs) changes neither the errors nor the risk lots. */
  lemma WarningsDoNotBlock(p: ParsedSignal, inp: Inputs, direction: Option<Side>, symbol: string,
                           marginPerLot: Option<real>, freeMargin: Option<real>, provided: bool)
    ensures var o := Calculate(p, inp);
      var o' := Calculate(p.(direction := direction, symbol := symbol),
                          inp.(marginPerLot := marginPerLot, freeMargin := freeMargin, freeMarginProvided := provided));
      && o'.errors == o.errors
      && (o.result.Some? ==> o'.result.value.sliceRisk == o.result.value.sliceRisk
                             && o'.result.value.totalRisk == o.result.value.totalRisk)
  {
    var p' := p.(direction := direction, symbol := symbol);
    var inp' := inp.(marginPerLot := marginPerLot, freeMargin := freeMargin, freeMarginProvided := provided);
    SameRiskOutcome(p, inp, p', inp');
    CalculateRiskOutcome(p, inp);
    CalculateRiskOutcome(p', inp');
  }

  /** The errors `calculate` reports and, when it succeeds, the risk lots. */
  ghost function RiskOutcome(p: ParsedSignal, inp: Inputs): (seq<Error>, Option<(real, real)>) {
    var errors := InputErrors(p, inp);
    if |errors| > 0 then (errors, None)
    else
      var stop := Abs(p.entry.value - p.sl.value);
      if stop <= 0.0 then ([ZeroStop], None)
      else
        var lots := RiskLots(RiskTarget(inp), |p.tps|, stop, inp.xauValue.value, inp.step.value);
        if lots.0 <= 0.0 then ([SliceRoundsToZero], None) else ([], Some(lots))
  }

  /** `calculate` reports the errors of RiskOutcome and returns its risk lots. */
  lemma CalculateRiskOutcome(p: ParsedSignal, inp: Inputs)
    ensures var o, (errors, lots) := Calculate(p, inp), RiskOutcome(p, inp);
      && o.errors == errors
      && (o.result.Some? <==> lots.Some?)
      && (o.result.Some? ==> (o.result.value.sliceRisk, o.result.value.totalRisk) == lots.value)
  {
  }

  /** Changing only the direction, the symbol and the margin inputs leaves the errors
      and the risk lots unchanged. */
  lemma SameRiskOutcome(p: ParsedSignal, inp: Inputs, p': ParsedSignal, inp': Inputs)
    requires p'.tps == p.tps && p'.entry == p.entry && p'.sl == p.sl
    requires inp'.acct == inp.acct && inp'.riskPct == inp.riskPct
    requires inp'.step == inp.step && inp'.xauValue == inp.xauValue
    ensures RiskOutcome(p', inp') == RiskOutcome(p, inp)
  {
    SameInputErrors(p, inp, p', inp');
    if |InputErrors(p, inp)| == 0 {
      var stop := Abs(p.entry.value - p.sl.value);
      if stop > 0.0 {
        assert RiskTarget(inp') == RiskTarget(inp);
      }
    }
  }

  /** Changing only the direction, the symbol and the margin inputs leaves the input
      errors unchanged. */
  lemma SameInputErrors(p: ParsedSignal, inp: Inputs, p': ParsedSignal, inp': Inputs)
    requires p'.tps == p.tps && p'.entry == p.entry && p'.sl == p.sl
    requires inp'.acct == inp.acct && inp'.riskPct == inp.riskPct
    requires inp'.step == inp.step && inp'.xauValue == inp.xauValue
    ensures InputErrors(p', inp') == InputErrors(p, inp)
  {
    assert forall e :: InputCheckFails(e, p, inp) == InputCheckFails(e, p', inp');
    SameChecksSameErrors(InputChecks, p, inp, p', inp');
  }

  /** Inputs that fail the same checks get the same errors. */
  lemma {:induction false} SameChecksSameErrors(checks: seq<Error>, p: ParsedSignal, inp: Inputs,
                                                p': ParsedSignal, inp': Inputs)
    requires ErrorsOrdered(checks)
    requires forall e :: InputCheckFails(e, p, inp) == InputCheckFails(e, p', inp')
    ensures FailingChecks(checks, p, inp) == FailingChecks(checks, p', inp')
    decreases |checks|
  {
    if |checks| > 0 {
      SameChecksSameErrors(checks[1..], p, inp, p', inp');
    }
  }

  /** Risk sizing of 1% of 10000 over two take-profits with a 10-point stop and a
      contract value of 100, at step 0.01: 0.05 lots per slice, 0.10 in total. */
  lemma RiskSizingExample()
    ensures RiskLots(10000.0 * (1.0 / 100.0), 2, 10.0, 100.0, 0.01) == (0.05, 0.10)
  {
    assert 10000.0 * (1.0 / 100.0) / 2 as real / (10.0 * 100.0) == 0.05;
    assert (0.05 / 0.01).Floor == 5;
  }

  /** Margin sizing of 9000 free margin at 90000 per lot over three take-profits, at
      step 0.01: 0.10 lots in total, 0.03 per slice. */
  lemma MarginSizingExample()
    ensures FloorToStep(9000.0 / 90000.0, 0.01) == 0.10
    ensures FloorToStep(0.10 / 3 as real, 0.01) == 0.03
  {
    assert (9000.0 / 90000.0 / 0.01).Floor == 10;
    assert (0.10 / 3 as real / 0.01).Floor == 3;
  }
}
