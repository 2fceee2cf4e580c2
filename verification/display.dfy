/** The non-DOM part of `render` (app.js:367-470): which lots are shown for the current
    mode, the closing side, the per-take-profit rows and the opposing orders of a
    netting account. `MODE` and the netting checkbox are parameters. */
module Display {
  import opened Wrappers
  import opened Patterns
  import opened Signal
  import opened Lots
  import opened Sizing

  /** Which pair of lots is shown (`using` in the source). */
  datatype Basis = RiskBasis | MarginBasis {
    /** `using.toUpperCase()`. */
    function Label(): string {
      match this
      case RiskBasis => "RISK"
      case MarginBasis => "MARGIN"
    }
  }

  /** `totalDisplay` and `sliceDisplay` with the basis they come from. */
  datatype Selection = Selection(basis: Basis, total: real, slice: real)

  /** The lots shown for `mode` (app.js:378-388): the margin pair exactly when margin
      mode is on and `marginOk`, the risk pair otherwise. */
  function SelectLots(mode: string, r: Sizes): (sel: Selection)
    ensures sel.basis == MarginBasis <==> mode == "margin" && r.MarginOk()
    ensures sel.basis == MarginBasis ==> sel == Selection(MarginBasis, r.margin.value.total, r.margin.value.slice)
    ensures sel.basis == RiskBasis ==> sel == Selection(RiskBasis, r.totalRisk, r.sliceRisk)
  {
    if mode == "margin" && r.MarginOk() then Selection(MarginBasis, r.margin.value.total, r.margin.value.slice)
    else Selection(RiskBasis, r.totalRisk, r.sliceRisk)
  }

  /** The money lost at SL by the whole displayed position (`slLossTotal`). */
  function StopLossMoney(r: Sizes, sel: Selection): real {
    r.stop * r.xauValue * sel.total
  }

  /** Whatever the mode, the shown slice is positive and fits tpCount times into the
      shown total; risk lots lose at most the risk target at SL, and margin lots stay
      within the free-margin capacity. */
  lemma SelectionWithinLimits(p: ParsedSignal, inp: Inputs, r: Sizes, mode: string)
    requires Sized(r, p, inp)
    ensures var sel := SelectLots(mode, r);
      && sel.slice > 0.0
      && sel.slice * r.tpCount as real <= sel.total
      && (sel.basis == RiskBasis ==>
            sel.total == sel.slice * r.tpCount as real && StopLossMoney(r, sel) <= RiskTarget(inp))
      && (sel.basis == MarginBasis ==>
            sel.total <= inp.freeMargin.value / inp.marginPerLot.value)
  {
    var sel := SelectLots(mode, r);
    if sel.basis == RiskBasis {
      assert StopLossMoney(r, sel) == LossAtStop(r.sliceRisk, r.tpCount, r.stop, r.xauValue);
    }
  }

  /** The side of the closing orders. */
  function Opposite(d: Side): (o: Side)
    ensures o != d
  {
    match d
    case Buy => Sell
    case Sell => Buy
  }

  /** `closeSide` (app.js:373-375). */
  function CloseSide(direction: Option<Side>): (s: string)
    ensures direction.None? <==> s == "OPPOSITE"
  {
    match direction
    case Some(Buy) => "SELL"
    case Some(Sell) => "BUY"
    case None => "OPPOSITE"
  }

  /** The closing side of a known direction is the name of the other side, never the
      direction itself. */
  lemma CloseSideOpposes(d: Side)
    ensures CloseSide(Some(d)) == Opposite(d).Name()
    ensures CloseSide(Some(d)) != d.Name()
  {
  }

  /** The price move in the trade's favour when the price reaches `price`
      (app.js:422-425): an unknown direction is treated as a buy. */
  function FavourableMove(direction: Option<Side>, entry: real, price: real): real {
    match direction
    case Some(Sell) => entry - price
    case _ => price - entry
  }

  /** One row of the take-profit table. */
  datatype TpRow = TpRow(n: nat, price: real, lots: real, profit: real)

  /** The take-profit table (app.js:416-442): every take-profit closes one shown slice. */
  function TpRows(s: ParsedSignal, xau: real, slice: real): (rows: seq<TpRow>)
    requires s.entry.Some?
    ensures |rows| == |s.tps|
    ensures forall k :: 0 <= k < |rows| ==>
      && rows[k].n == s.tps[k].n && rows[k].price == s.tps[k].price && rows[k].lots == slice
      && rows[k].profit == FavourableMove(s.direction, s.entry.value, s.tps[k].price) * xau * slice
  {
    seq(|s.tps|, k requires 0 <= k < |s.tps| =>
      TpRow(s.tps[k].n, s.tps[k].price, slice,
            FavourableMove(s.direction, s.entry.value, s.tps[k].price) * xau * slice))
  }

  /** With positive lots and contract value, a row shows a profit exactly when its
      take-profit lies beyond the entry in the trade's direction: above it for a buy
      (or an unknown direction), below it for a sell. */
  lemma TpProfitSign(s: ParsedSignal, xau: real, slice: real, k: nat)
    requires s.entry.Some? && xau > 0.0 && slice > 0.0 && k < |s.tps|
    ensures var row := TpRows(s, xau, slice)[k];
      && (s.direction != Some(Sell) ==> (row.profit > 0.0 <==> s.tps[k].price > s.entry.value))
      && (s.direction == Some(Sell) ==> (row.profit > 0.0 <==> s.tps[k].price < s.entry.value))
  {
    var m := FavourableMove(s.direction, s.entry.value, s.tps[k].price);
    PositiveProduct(m, xau, slice);
  }

  lemma PositiveProduct(m: real, a: real, b: real)
    requires a > 0.0 && b > 0.0
    ensures m * a * b > 0.0 <==> m > 0.0
  {
    if m > 0.0 {
      assert m * a > 0.0;
    } else {
      assert m * a <= 0.0;
    }
  }

  /** A limit order in the opposing-orders table. */
  datatype Order = Order(side: string, price: real, lots: real)

  /** The opposing orders (app.js:445-466): with netting, one closing order of one
      slice at each take-profit but the last; none otherwise. */
  function OpposingOrders(s: ParsedSignal, slice: real, netting: bool): (orders: seq<Order>)
    ensures |orders| == if netting && |s.tps| > 0 then |s.tps| - 1 else 0
    ensures forall k :: 0 <= k < |orders| ==> orders[k] == Order(CloseSide(s.direction), s.tps[k].price, slice)
  {
    if !netting || |s.tps| == 0 then []
    else seq(|s.tps| - 1, k requires 0 <= k < |s.tps| - 1 => Order(CloseSide(s.direction), s.tps[k].price, slice))
  }

  /** The lots of a sequence of orders. */
  function SumLots(orders: seq<Order>): real
    decreases |orders|
  {
    if |orders| == 0 then 0.0 else orders[0].lots + SumLots(orders[1..])
  }

  /** Orders that all carry the same lots sum to that many times the lots. */
  lemma {:induction false} SumLotsUniform(orders: seq<Order>, lots: real)
    requires forall k :: 0 <= k < |orders| ==> orders[k].lots == lots
    ensures SumLots(orders) == |orders| as real * lots
    decreases |orders|
  {
    if |orders| > 0 {
      SumLotsUniform(orders[1..], lots);
    }
  }

  /** The netting plan never closes more than the position opened: when the shown
      slice fits once per take-profit into the shown total (as every selection does),
      the opposing orders plus the slice left for the final take-profit fit into the
      total, and they use it up exactly when the total is one slice per take-profit
      (as in risk mode). */
  lemma NettingPlanFits(s: ParsedSignal, sel: Selection)
    requires |s.tps| > 0 && sel.slice * |s.tps| as real <= sel.total
    ensures var closing := SumLots(OpposingOrders(s, sel.slice, true));
      && closing + sel.slice <= sel.total
      && (closing + sel.slice == sel.total <==> sel.total == sel.slice * |s.tps| as real)
  {
    var orders := OpposingOrders(s, sel.slice, true);
    SumLotsUniform(orders, sel.slice);
    assert |orders| as real * sel.slice + sel.slice == sel.slice * |s.tps| as real;
  }

  /** What `render` writes, minus the markup. Empty symbol or direction show as "-";
      the margin total shows only when `marginOk`. */
  datatype View = View(
    symbol: string,
    side: string,
    mode: string,
    lotTotal: real,
    lotSlice: real,
    totalRisk: real,
    totalMargin: Option<real>,
    stopLoss: real,
    tpRows: seq<TpRow>,
    opposing: seq<Order>)

  /** `render()` for the current `MODE` and netting flag (app.js:367-470). */
  function Render(mode: string, netting: bool, r: Sizes): (v: View)
    requires r.signal.entry.Some?
    ensures v.mode == (if mode == "margin" && r.MarginOk() then "MARGIN" else "RISK")
    ensures v.totalMargin.Some? <==> r.MarginOk()
    ensures v.symbol == (if r.signal.symbol == "" then "-" else r.signal.symbol)
    ensures v.side == (if r.signal.direction.None? then "-" else r.signal.direction.value.Name())
    ensures |v.tpRows| == |r.signal.tps|
    ensures |v.opposing| == if netting && |r.signal.tps| > 0 then |r.signal.tps| - 1 else 0
    ensures forall k :: 0 <= k < |v.opposing| ==> v.opposing[k].lots == v.lotSlice
  {
    var sel := SelectLots(mode, r);
    View(
      if r.signal.symbol == "" then "-" else r.signal.symbol,
      if r.signal.direction.None? then "-" else r.signal.direction.value.Name(),
      sel.basis.Label(),
      sel.total,
      sel.slice,
      r.totalRisk,
      if r.MarginOk() then Some(r.margin.value.total) else None,
      StopLossMoney(r, sel),
      TpRows(r.signal, r.xauValue, sel.slice),
      OpposingOrders(r.signal, sel.slice, netting))
  }
}
