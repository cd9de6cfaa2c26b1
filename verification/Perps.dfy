/** The arithmetic of perpetual positions. */
module Perps {
  import opened Decimals
  import opened RealArithmetic

  datatype PositionSide = Long | Short

  function Notional(size: real, mark: real): real { size * mark }

  function InitialMargin(notional: real, leverage: int): real {
    Div(notional, (if leverage < 1 then 1 else leverage) as real)
  }

  function MaintenanceMargin(notional: real, maintRate: real): real { notional * maintRate }

  function UnrealizedPnL(side: PositionSide, size: real, entry: real, mark: real): real {
    if side == Short then (entry - mark) * size else (mark - entry) * size
  }

  function Equity(margin: real, pnl: real): real { margin + pnl }

  function MarginRatio(equity: real, maint: real): real {
    if maint == 0.0 then 999.0 else Div(equity, maint)
  }

  /** A positive rate makes longs pay. */
  function FundingPayment(side: PositionSide, size: real, mark: real, rate: real): real {
    var payment := Notional(size, mark) * rate;
    if side == Long then -payment else payment
  }

  function WeightedEntryPrice(oldSize: real, oldEntry: real, addSize: real, addPrice: real): real {
    var total := oldSize + addSize;
    if total == 0.0 then addPrice else Div(oldSize * oldEntry + addSize * addPrice, total)
  }

  // ----- adding to a position ----------------------------------------------------------------

  datatype Fill = Fill(size: real, mark: real)

  /** Size and entry price after a sequence of fills, the first of which opens the position. */
  function SizeOf(fills: seq<Fill>): real {
    if fills == [] then 0.0 else SizeOf(fills[..|fills| - 1]) + fills[|fills| - 1].size
  }

  function EntryOf(fills: seq<Fill>): real
    requires fills != []
    decreases |fills|
  {
    var n := |fills| - 1;
    if n == 0 then fills[0].mark
    else WeightedEntryPrice(SizeOf(fills[..n]), EntryOf(fills[..n]), fills[n].size, fills[n].mark)
  }

  predicate Proper(fills: seq<Fill>, lo: real, hi: real) {
    forall f :: f in fills ==> f.size > 0.0 && OnGrid(f.mark) && lo <= f.mark <= hi
  }

  lemma {:induction false} SizePositive(fills: seq<Fill>, lo: real, hi: real)
    requires Proper(fills, lo, hi)
    ensures SizeOf(fills) >= 0.0 && (fills != [] ==> SizeOf(fills) > 0.0)
    decreases |fills|
  {
    if fills != [] {
      assert fills[|fills| - 1] in fills;
      assert forall f :: f in fills[..|fills| - 1] ==> f in fills;
      SizePositive(fills[..|fills| - 1], lo, hi);
    }
  }

  /** One add: the new entry is on the grid, lies between the two prices whenever they do, and is
      at most half a step away from the exact blend. */
  lemma BlendEntry(s: real, e: real, t: real, m: real, lo: real, hi: real)
    requires s > 0.0 && t > 0.0
    requires OnGrid(lo) && OnGrid(hi) && lo <= e <= hi && lo <= m <= hi
    ensures lo <= WeightedEntryPrice(s, e, t, m) <= hi && OnGrid(WeightedEntryPrice(s, e, t, m))
  {
    var exact := (s * e + t * m) / (s + t);
    BlendBetween(s, e, t, m, lo, hi);
    RoundBetween(lo, exact, hi);
    RoundOnGrid(exact);
  }

  lemma BlendBetween(s: real, e: real, t: real, m: real, lo: real, hi: real)
    requires s > 0.0 && t > 0.0 && lo <= e <= hi && lo <= m <= hi
    ensures lo <= (s * e + t * m) / (s + t) <= hi
  {
    var x, y := s * e, t * m;
    ScaleBounds(lo, e, hi, s, x);
    ScaleBounds(lo, m, hi, t, y);
    SumsBetween(s, t, lo, hi, x, y);
  }

  lemma ScaleBounds(lo: real, x: real, hi: real, f: real, scaled: real)
    requires f > 0.0 && lo <= x <= hi && scaled == f * x
    ensures lo * f <= scaled && scaled <= hi * f
  {
    ScaleOrder(lo, x, f);
    ScaleOrder(x, hi, f);
  }

  lemma SumsBetween(s: real, t: real, lo: real, hi: real, x: real, y: real)
    requires s + t > 0.0
    requires lo * s <= x && x <= hi * s
    requires lo * t <= y && y <= hi * t
    ensures lo <= (x + y) / (s + t) <= hi
  {
    Distribute(s, t, lo);
    Distribute(s, t, hi);
    QuotientBetween(x + y, s + t, lo, hi);
  }

  /** Over any number of adds the entry price stays within the fill marks, in spite of rounding. */
  lemma {:induction false} EntryWithinMarks(fills: seq<Fill>, lo: real, hi: real)
    requires fills != [] && Proper(fills, lo, hi) && OnGrid(lo) && OnGrid(hi)
    ensures lo <= EntryOf(fills) <= hi && OnGrid(EntryOf(fills))
    decreases |fills|
  {
    var n := |fills| - 1;
    assert fills[n] in fills;
    if n > 0 {
      var before := fills[..n];
      assert forall f :: f in before ==> f in fills;
      EntryWithinMarks(before, lo, hi);
      SizePositive(before, lo, hi);
      BlendEntry(SizeOf(before), EntryOf(before), fills[n].size, fills[n].mark, lo, hi);
    }
  }

  /** Profit counted fill by fill. */
  function PnLByFill(side: PositionSide, fills: seq<Fill>, mark: real): real {
    if fills == [] then 0.0
    else
      var f := fills[|fills| - 1];
      PnLByFill(side, fills[..|fills| - 1], mark) + UnrealizedPnL(side, f.size, f.mark, mark)
  }

  /** The position's size after each add beyond the first, summed up. */
  function RunningSizes(fills: seq<Fill>): real {
    if |fills| <= 1 then 0.0 else RunningSizes(fills[..|fills| - 1]) + SizeOf(fills)
  }

  /** How far the position's profit is from the profit of its single fills. */
  function Gap(side: PositionSide, fills: seq<Fill>, mark: real): real
    requires fills != []
  {
    UnrealizedPnL(side, SizeOf(fills), EntryOf(fills), mark) - PnLByFill(side, fills, mark)
  }

  /** Half a step of the sixteenth decimal for each unit of size. */
  function Slack(size: real): real { HALF_STEP * size }

  lemma SlackAdds(a: real, b: real)
    ensures Slack(a + b) == Slack(a) + Slack(b)
  {
  }

  /** The blended entry price reproduces the profit of the single fills up to half a step of the
      sixteenth decimal per unit of running size. */
  lemma {:induction false} PnLOfBlend(side: PositionSide, fills: seq<Fill>, mark: real, lo: real, hi: real)
    requires fills != [] && Proper(fills, lo, hi)
    ensures -Slack(RunningSizes(fills)) <= Gap(side, fills, mark) <= Slack(RunningSizes(fills))
    decreases |fills|
  {
    var n := |fills| - 1;
    var before, f := fills[..n], fills[n];
    if n == 0 {
      OneFill(side, fills, mark);
    } else {
      assert f in fills;
      assert forall g :: g in before ==> g in fills;
      PnLOfBlend(side, before, mark, lo, hi);
      SizePositive(before, lo, hi);
      GapStep(side, fills, mark);
      SlackAdds(RunningSizes(before), SizeOf(fills));
    }
  }

  lemma OneFill(side: PositionSide, fills: seq<Fill>, mark: real)
    requires |fills| == 1
    ensures Gap(side, fills, mark) == 0.0
  {
    assert fills[..0] == [];
    assert SizeOf(fills[..0]) == 0.0 && PnLByFill(side, fills[..0], mark) == 0.0;
    assert SizeOf(fills) == fills[0].size;
  }

  lemma GapStep(side: PositionSide, fills: seq<Fill>, mark: real)
    requires |fills| > 1 && SizeOf(fills[..|fills| - 1]) > 0.0 && fills[|fills| - 1].size > 0.0
    ensures var step := Gap(side, fills, mark) - Gap(side, fills[..|fills| - 1], mark);
            -Slack(SizeOf(fills)) <= step <= Slack(SizeOf(fills))
  {
    var before, f := fills[..|fills| - 1], fills[|fills| - 1];
    AddPnL(side, SizeOf(before), EntryOf(before), f.size, f.mark, mark);
  }

  /** One add: the blended position earns what its parts earn, up to the rounding of the entry. */
  lemma AddPnL(side: PositionSide, s: real, e: real, t: real, m: real, mark: real)
    requires s > 0.0 && t > 0.0
    ensures var gap := UnrealizedPnL(side, s + t, WeightedEntryPrice(s, e, t, m), mark)
                       - (UnrealizedPnL(side, s, e, mark) + UnrealizedPnL(side, t, m, mark));
            -Slack(s + t) <= gap <= Slack(s + t)
  {
    BlendError(s, e, t, m);
    PnLGap(side, s, e, t, m, mark, WeightedEntryPrice(s, e, t, m), Slack(s + t));
  }

  lemma PnLGap(side: PositionSide, s: real, e: real, t: real, m: real, mark: real, entry: real, slack: real)
    requires -slack <= entry * (s + t) - (s * e + t * m) <= slack
    ensures var gap := UnrealizedPnL(side, s + t, entry, mark)
                       - (UnrealizedPnL(side, s, e, mark) + UnrealizedPnL(side, t, m, mark));
            -slack <= gap <= slack
  {
    assert (mark - entry) * (s + t) == mark * s + mark * t - entry * (s + t);
    assert (entry - mark) * (s + t) == entry * (s + t) - mark * s - mark * t;
    assert (mark - e) * s == mark * s - e * s && (mark - m) * t == mark * t - m * t;
  }

  lemma BlendError(s: real, e: real, t: real, m: real)
    requires s > 0.0 && t > 0.0
    ensures -Slack(s + t) <= WeightedEntryPrice(s, e, t, m) * (s + t) - (s * e + t * m) <= Slack(s + t)
  {
    var exact := (s * e + t * m) / (s + t);
    RoundError(exact);
    QuotientTimes(s * e + t * m, s + t);
    ScaledError(WeightedEntryPrice(s, e, t, m), exact, HALF_STEP, s + t, s * e + t * m);
  }

  // ----- liquidation -----------------------------------------------------------------------

  function RatioAt(side: PositionSide, size: real, entry: real, margin: real, rate: real, mark: real): real {
    MarginRatio(Equity(margin, UnrealizedPnL(side, size, entry, mark)), MaintenanceMargin(Notional(size, mark), rate))
  }

  /** The scanner's test: skip a ratio of at least one, liquidate otherwise. */
  predicate Liquidates(side: PositionSide, size: real, entry: real, margin: real, rate: real, mark: real) {
    !(RatioAt(side, size, entry, margin, rate, mark) >= 1.0)
  }

  /** Where liquidation starts, exactly: the maintenance margin has to exceed the equity by more
      than half a step of the ratio, so a ratio that rounds up to one is spared. */
  lemma LiquidationThreshold(side: PositionSide, size: real, entry: real, margin: real, rate: real, mark: real)
    requires size > 0.0 && rate > 0.0 && mark > 0.0
    ensures var maint := MaintenanceMargin(Notional(size, mark), rate);
            && maint > 0.0
            && (Liquidates(side, size, entry, margin, rate, mark) <==>
                  Equity(margin, UnrealizedPnL(side, size, entry, mark)) / maint < 1.0 - HALF_STEP)
  {
    assert size * mark > 0.0;
    assert size * mark * rate > 0.0;
    RoundBelowOne(Equity(margin, UnrealizedPnL(side, size, entry, mark))
                  / MaintenanceMargin(Notional(size, mark), rate));
  }

  /** A long of 800 at an entry of 1, with one step less than its maintenance margin of 4: its exact
      ratio is below one, yet it is spared. */
  lemma JustBelowOneSpared()
    ensures var margin := 4.0 - 1.0 / GRID;
            && OnGrid(margin)
            && Equity(margin, UnrealizedPnL(Long, 800.0, 1.0, 1.0))
               / MaintenanceMargin(Notional(800.0, 1.0), 0.005) < 1.0
            && !Liquidates(Long, 800.0, 1.0, margin, 0.005, 1.0)
  {
    var margin := 4.0 - 1.0 / GRID;
    WholeOnGrid(margin, 39999999999999999);
    assert Equity(margin, UnrealizedPnL(Long, 800.0, 1.0, 1.0)) == margin;
    assert MaintenanceMargin(Notional(800.0, 1.0), 0.005) == 4.0;
    assert margin / 4.0 == 1.0 - 0.25 / GRID;
    LiquidationThreshold(Long, 800.0, 1.0, margin, 0.005, 1.0);
  }

  /** The exact ratio of a position whose equity is `a` plus `k` times its notional `n`: `k` is one
      for longs and minus one for shorts. */
  function ExactRatio(a: real, k: real, n: real, rate: real): real
    requires n * rate != 0.0
  {
    (a + k * n) / (n * rate)
  }

  lemma RatioRises(a: real, k: real, n1: real, n2: real, rate: real)
    requires a <= 0.0 && 0.0 < n1 <= n2 && rate > 0.0 && n1 * rate > 0.0 && n2 * rate > 0.0
    ensures ExactRatio(a, k, n1, rate) <= ExactRatio(a, k, n2, rate)
  {
    CrossDifference(a, k, n1, n2, rate);
    ProductNonNegative(-a * rate, n2 - n1);
    QuotientsOrdered(a + k * n1, n1 * rate, a + k * n2, n2 * rate);
  }

  lemma RatioFalls(a: real, k: real, n1: real, n2: real, rate: real)
    requires a >= 0.0 && 0.0 < n1 <= n2 && rate > 0.0 && n1 * rate > 0.0 && n2 * rate > 0.0
    ensures ExactRatio(a, k, n2, rate) <= ExactRatio(a, k, n1, rate)
  {
    CrossDifference(a, k, n1, n2, rate);
    ProductNonNegative(a * rate, n2 - n1);
    QuotientsOrdered(a + k * n2, n2 * rate, a + k * n1, n1 * rate);
  }

  lemma CrossDifference(a: real, k: real, n1: real, n2: real, rate: real)
    ensures (a + k * n2) * (n1 * rate) - (a + k * n1) * (n2 * rate) == (-a * rate) * (n2 - n1)
    ensures (a + k * n1) * (n2 * rate) - (a + k * n2) * (n1 * rate) == (a * rate) * (n2 - n1)
  {
  }

  /** With collateral beyond the whole entry notional the ratio of a long is at least one. */
  lemma AboveOne(a: real, n: real, rate: real)
    requires n > 0.0 && 0.0 < rate < 1.0 && n * rate > 0.0
    ensures a > 0.0 ==> ExactRatio(a, 1.0, n, rate) >= 1.0
  {
    ScaleOrder(rate, 1.0, n);
    if a > 0.0 {
      QuotientsOrdered(1.0, 1.0, a + 1.0 * n, n * rate);
    }
  }

  /** What the equity of a position is made of. */
  function FixedPart(side: PositionSide, size: real, entry: real, margin: real): real {
    if side == Short then margin + entry * size else margin - entry * size
  }

  function Slope(side: PositionSide): real { if side == Short then -1.0 else 1.0 }

  lemma EquityParts(side: PositionSide, size: real, entry: real, margin: real, mark: real)
    ensures Equity(margin, UnrealizedPnL(side, size, entry, mark)) ==
            FixedPart(side, size, entry, margin) + Slope(side) * (size * mark)
  {
    assert (mark - entry) * size == mark * size - entry * size;
    assert (entry - mark) * size == entry * size - mark * size;
  }

  lemma SameQuotient(a: real, b: real, c: real, d: real)
    requires a == b && c == d && c != 0.0
    ensures a / c == b / d
  {
  }

  /** Liquidation in terms of the exact ratio. */
  lemma LiquidatesByRatio(side: PositionSide, size: real, entry: real, margin: real, rate: real, mark: real)
    requires size > 0.0 && rate > 0.0 && mark > 0.0
    ensures size * mark > 0.0 && (size * mark) * rate > 0.0
    ensures Liquidates(side, size, entry, margin, rate, mark)
            <==> ExactRatio(FixedPart(side, size, entry, margin), Slope(side), size * mark, rate) < 1.0 - HALF_STEP
  {
    LiquidationThreshold(side, size, entry, margin, rate, mark);
    EquityParts(side, size, entry, margin, mark);
    var equity := Equity(margin, UnrealizedPnL(side, size, entry, mark));
    var parts := FixedPart(side, size, entry, margin) + Slope(side) * (size * mark);
    var maint := MaintenanceMargin(Notional(size, mark), rate);
    SameQuotient(equity, parts, maint, (size * mark) * rate);
  }

  lemma LongRatios(a: real, size: real, rate: real, lower: real, mark: real)
    requires size > 0.0 && 0.0 < rate < 1.0 && 0.0 < lower <= mark
    requires (size * lower) * rate > 0.0 && (size * mark) * rate > 0.0
    ensures ExactRatio(a, 1.0, size * mark, rate) < 1.0
            ==> ExactRatio(a, 1.0, size * lower, rate) <= ExactRatio(a, 1.0, size * mark, rate)
  {
    ScaleOrder(lower, mark, size);
    assert size * lower > 0.0;
    AboveOne(a, size * mark, rate);
    if a <= 0.0 {
      RatioRises(a, 1.0, size * lower, size * mark, rate);
    }
  }

  lemma ShortRatios(a: real, size: real, rate: real, mark: real, higher: real)
    requires a >= 0.0 && size > 0.0 && rate > 0.0 && 0.0 < mark <= higher
    requires (size * mark) * rate > 0.0 && (size * higher) * rate > 0.0
    ensures ExactRatio(a, -1.0, size * higher, rate) <= ExactRatio(a, -1.0, size * mark, rate)
  {
    ScaleOrder(mark, higher, size);
    assert size * mark > 0.0;
    RatioFalls(a, -1.0, size * mark, size * higher, rate);
  }

  /** For a long, lower positive marks stay liquidated: the liquidated marks are downward closed. */
  lemma LongDownwardClosed(size: real, entry: real, margin: real, rate: real, lower: real, mark: real)
    requires size > 0.0 && 0.0 < rate < 1.0 && 0.0 < lower <= mark
    requires Liquidates(Long, size, entry, margin, rate, mark)
    ensures Liquidates(Long, size, entry, margin, rate, lower)
  {
    LiquidatesByRatio(Long, size, entry, margin, rate, mark);
    LiquidatesByRatio(Long, size, entry, margin, rate, lower);
    LongRatios(FixedPart(Long, size, entry, margin), size, rate, lower, mark);
  }

  /** For a short, higher marks stay liquidated: the liquidated marks are upward closed. */
  lemma ShortUpwardClosed(size: real, entry: real, margin: real, rate: real, mark: real, higher: real)
    requires size > 0.0 && rate > 0.0 && 0.0 < mark <= higher && entry >= 0.0 && margin >= 0.0
    requires Liquidates(Short, size, entry, margin, rate, mark)
    ensures Liquidates(Short, size, entry, margin, rate, higher)
  {
    LiquidatesByRatio(Short, size, entry, margin, rate, mark);
    LiquidatesByRatio(Short, size, entry, margin, rate, higher);
    ShortFixedPart(size, entry, margin);
    ShortRatios(FixedPart(Short, size, entry, margin), size, rate, mark, higher);
  }

  lemma ShortFixedPart(size: real, entry: real, margin: real)
    requires size > 0.0 && entry >= 0.0 && margin >= 0.0
    ensures FixedPart(Short, size, entry, margin) >= 0.0
  {
    ProductNonNegative(entry, size);
  }

  // ----- releasing margin --------------------------------------------------------------------

  /** Margin returned when `closeSize` of `size` is closed. */
  function MarginRelease(margin: real, closeSize: real, size: real): real
    requires size != 0.0
  {
    Div(margin * closeSize, size)
  }

  /** A close returns between nothing and all of the margin, stays on the grid, and a full close
      returns exactly all of it. */
  lemma MarginReleaseBounds(margin: real, closeSize: real, size: real)
    requires margin >= 0.0 && OnGrid(margin) && 0.0 < closeSize <= size
    ensures var release := MarginRelease(margin, closeSize, size);
            && 0.0 <= release <= margin && OnGrid(release) && OnGrid(margin - release)
            && (closeSize == size ==> release == margin)
  {
    var exact := (margin * closeSize) / size;
    assert OnGrid(0.0);
    ExactShare(margin, closeSize, size);
    RoundBetween(0.0, exact, margin);
    RoundOnGrid(exact);
    GridDifference(margin, Round16(exact));
    RoundOnGrid(margin);
  }

  lemma ExactShare(margin: real, closeSize: real, size: real)
    requires margin >= 0.0 && 0.0 < closeSize <= size
    ensures 0.0 <= (margin * closeSize) / size <= margin
    ensures closeSize == size ==> (margin * closeSize) / size == margin
  {
    ProductNonNegative(margin, closeSize);
    ScaleOrder(closeSize, size, margin);
    QuotientBetween(margin * closeSize, size, 0.0, margin);
    QuotientBetween(margin * size, size, margin, margin);
  }
}
