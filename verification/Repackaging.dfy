/**
 Rebuilding a table on a price grid around its adjusted average, and the exact
 amount by which the rebuilt lots differ from the average.
 */
module Repackaging {
  import opened Ledger
  import opened CloseOutcome
  import opened PriceOrder
  import opened Matching

  function CeilDiv(n: nat, d: nat): nat
    requires d > 0
  {
    (n + d - 1) / d
  }

  lemma CeilDivBounds(n: nat, d: nat)
    requires d > 0
    ensures var q := CeilDiv(n, d);
            n <= q * d && (0 < n ==> (q - 1) * d < n) && (q == 0 <==> n == 0) && q <= n
  {
    var q, m := CeilDiv(n, d), n + d - 1;
    DivMod(m, d);
    assert (q - 1) * d == q * d - d;
    if q > n {
      MulMonotone(n + 1, q, d);
      assert (n + 1) * d == n * d + d;
      MulMonotone(1, d, n);
    }
    if q == 0 {
      assert q * d == 0;
    }
  }

  lemma DivMod(m: nat, d: nat)
    requires d > 0
    ensures m == m / d * d + m % d && 0 <= m % d < d
  {
  }

  /** The number of lots, and how many of them are built first; the others are the low orders. */
  function Lots(openSize: nat, baseQty: nat): nat
    requires baseQty > 0
  {
    CeilDiv(openSize, baseQty)
  }

  function High(openSize: nat, baseQty: nat): (h: nat)
    requires baseQty > 0
    ensures 2 * h - 1 <= Lots(openSize, baseQty) <= 2 * h
  {
    CeilDiv(Lots(openSize, baseQty), 2)
  }

  function Low(openSize: nat, baseQty: nat): nat
    requires baseQty > 0
  {
    Lots(openSize, baseQty) - High(openSize, baseQty)
  }

  /**
   Grid steps between the average and the k-th lot: the high orders climb to the average, the low
   ones leave it again.
   */
  function Steps(high: nat, k: nat): nat {
    if k < high then high - 1 - k else k - high + 1
  }

  function GridPrice(average: real, steps: nat, mpv: real, sign: int): real {
    average - steps as real * mpv * sign as real
  }

  /** What is left of `n` shares after k lots of the base quantity. */
  function Left(n: nat, baseQty: nat, k: nat): nat {
    if n <= k * baseQty then 0 else n - k * baseQty
  }

  function LotSize(n: nat, baseQty: nat, k: nat): nat {
    Min(Left(n, baseQty, k), baseQty)
  }

  function GridLot(n: uint32, baseQty: uint32, mpv: real, average: real, sign: int, k: nat): PositionRecord
    requires 0 < baseQty && k < Lots(n, baseQty)
  {
    CeilDivBounds(n, baseQty);
    OpenRecord(k + 1, LotSize(n, baseQty, k), GridPrice(average, Steps(High(n, baseQty), k), mpv, sign), average, sign)
  }

  function Grid(n: uint32, baseQty: uint32, mpv: real, average: real, sign: int): seq<PositionRecord>
    requires baseQty > 0
  {
    seq(Lots(n, baseQty), k requires 0 <= k < Lots(n, baseQty) => GridLot(n, baseQty, mpv, average, sign, k))
  }

  /** The table rebuilt around its adjusted average. */
  function Repackage(t: Table, baseQty: uint32, mpv: real, adjustment: real): Table
    requires baseQty > 0
  {
    var average := t.average - adjustment * t.Sign() as real;
    t.(records := Grid(t.openSize, baseQty, mpv, average, t.Sign()), pnl := 0.0, average := average)
  }

  /** The two loops that lay out the grid, high orders first. */
  method LayOutGrid(n: uint32, baseQty: uint32, mpv: real, average: real, sign: int)
    returns (records: seq<PositionRecord>)
    requires baseQty > 0
    ensures records == Grid(n, baseQty, mpv, average, sign)
  {
    hide *;
    var orders := CeilDiv(n, baseQty);
    var high := CeilDiv(orders, 2);
    GridShape(n, baseQty, mpv, average, sign);
    var low := orders - high;
    var remainder := n;
    var orderId := 1;
    records := [];
    for i := 1 to high + 1
      invariant orderId == i && remainder == Left(n, baseQty, i - 1)
      invariant records == Grid(n, baseQty, mpv, average, sign)[..i - 1]
    {
      var size := if remainder >= baseQty then baseQty else remainder;
      var price := GridPrice(average, high - i, mpv, sign);
      GridStep(n, baseQty, mpv, average, sign, i - 1);
      records := records + [OpenRecord(orderId, size, price, average, sign)];
      orderId := orderId + 1;
      remainder := remainder - size;
    }
    for i := 1 to low + 1
      invariant orderId == high + i && remainder == Left(n, baseQty, high + i - 1)
      invariant records == Grid(n, baseQty, mpv, average, sign)[..high + i - 1]
    {
      var size := if remainder >= baseQty then baseQty else remainder;
      var price := GridPrice(average, i, mpv, sign);
      GridStep(n, baseQty, mpv, average, sign, high + i - 1);
      records := records + [OpenRecord(orderId, size, price, average, sign)];
      orderId := orderId + 1;
      remainder := remainder - size;
    }
  }

  lemma GridShape(n: uint32, baseQty: uint32, mpv: real, average: real, sign: int)
    requires baseQty > 0
    ensures var orders, high := CeilDiv(n, baseQty), CeilDiv(CeilDiv(n, baseQty), 2);
            && |Grid(n, baseQty, mpv, average, sign)| == orders && high <= orders < TWO_TO_32
            && Left(n, baseQty, 0) == n
  {
    CeilDivBounds(n, baseQty);
    CeilDivBounds(CeilDiv(n, baseQty), 2);
  }

  lemma GridStep(n: uint32, baseQty: uint32, mpv: real, average: real, sign: int, k: nat)
    requires 0 < baseQty && k < CeilDiv(n, baseQty) < TWO_TO_32
    ensures var left, high := Left(n, baseQty, k), CeilDiv(CeilDiv(n, baseQty), 2);
            var grid := Grid(n, baseQty, mpv, average, sign);
            var size := if left >= baseQty then baseQty else left;
            && |grid| == CeilDiv(n, baseQty) && 0 <= left < TWO_TO_32 && 0 <= size < TWO_TO_32
            && Left(n, baseQty, k + 1) == left - size
            && grid[..k + 1] == grid[..k] + [grid[k]]
            && (k < high ==>
                  grid[k] == OpenRecord(k + 1, size, GridPrice(average, high - 1 - k, mpv, sign), average, sign))
            && (high <= k ==>
                  grid[k] == OpenRecord(k + 1, size, GridPrice(average, k - high + 1, mpv, sign), average, sign))
  {
    hide GridPrice, CeilDiv;
    assert (k + 1) * baseQty == k * baseQty + baseQty;
    assert k * baseQty >= 0;
  }

  lemma LotSizes(n: nat, baseQty: nat, k: nat)
    requires 0 < baseQty && k < Lots(n, baseQty)
    ensures k * baseQty < n && 0 < LotSize(n, baseQty, k) <= baseQty
    ensures k < Lots(n, baseQty) - 1 ==> LotSize(n, baseQty, k) == baseQty && (k + 1) * baseQty < n
    ensures k == Lots(n, baseQty) - 1 ==> LotSize(n, baseQty, k) == n - k * baseQty
  {
    CeilDivBounds(n, baseQty);
    var last := Lots(n, baseQty) - 1;
    assert (last + 1) * baseQty == last * baseQty + baseQty;
    assert (k + 1) * baseQty == k * baseQty + baseQty;
    MulMonotone(k, last, baseQty);
    if k < last {
      MulMonotone(k + 1, last, baseQty);
    }
  }

  lemma MulMonotone(a: nat, b: nat, c: nat)
    requires a <= b
    ensures a * c <= b * c
  {
    assert b * c == a * c + (b - a) * c;
  }

  // ------------------------------------------------- what the grid adds up to

  /** Shares times grid steps, over the first k lots. */
  function StepSum(n: nat, baseQty: nat, k: nat): nat
    requires baseQty > 0
  {
    if k == 0 then 0
    else StepSum(n, baseQty, k - 1) + LotSize(n, baseQty, k - 1) * Steps(High(n, baseQty), k - 1)
  }

  /** Twice the number of grid steps of the first k lots. */
  function TwiceSteps(high: nat, k: nat): int {
    if k <= high then k * (2 * high - 1 - k) else high * (high - 1) + (k - high) * (k - high + 1)
  }

  lemma TwiceStepsNext(high: nat, k: nat)
    ensures TwiceSteps(high, k + 1) == TwiceSteps(high, k) + 2 * Steps(high, k)
  {
    if k < high {
      var h2 := 2 * high - 1;
      assert (k + 1) * (h2 - (k + 1)) == k * (h2 - k) - k + h2 - k - 1;
    } else {
      var j := k - high;
      assert (j + 1) * (j + 2) == j * (j + 1) + 2 * (j + 1);
      if k == high {
        assert k * (2 * high - 1 - k) == high * (high - 1);
      }
    }
  }

  lemma {:induction false} StepSumOfFullLots(n: nat, baseQty: nat, k: nat)
    requires baseQty > 0 && k < Lots(n, baseQty)
    ensures 2 * StepSum(n, baseQty, k) == baseQty * TwiceSteps(High(n, baseQty), k)
  {
    hide TwiceSteps, Steps, LotSize, Lots, High;
    var high := High(n, baseQty);
    if k == 0 {
      TwiceStepsAtZero(high);
    } else {
      StepSumOfFullLots(n, baseQty, k - 1);
      LotSizes(n, baseQty, k - 1);
      TwiceStepsNext(high, k - 1);
      var before, steps := TwiceSteps(high, k - 1), Steps(high, k - 1);
      assert baseQty * (before + 2 * steps) == baseQty * before + 2 * (baseQty * steps);
    }
  }

  lemma TwiceStepsAtZero(high: nat)
    ensures TwiceSteps(high, 0) == 0
  {
  }

  lemma StepIdentity(base: int, n: int, high: int, low: int)
    requires high == low || high == low + 1
    ensures base * (high * (high - 1) + (low - 1) * low) + 2 * ((n - (high + low - 1) * base) * low)
            == 2 * (low * (n - base * low))
  {
    var d := high - low;
    assert d * (d - 1) == 0;
    assert high == low + d;
    assert high * (high - 1) == low * low + 2 * (low * d) + d * d - low - d;
    assert (high + low - 1) * base * low == base * (2 * (low * low) + d * low - low);
    assert d * d == d;
    assert base * (high * (high - 1) + (low - 1) * low) == base * (2 * (low * low) - 2 * low + 2 * (low * d));
  }

  lemma FullSteps(high: nat, low: nat)
    requires low > 0
    ensures TwiceSteps(high, high + low - 1) == high * (high - 1) + (low - 1) * low
  {
  }

  /** From twice the sum over the full lots, and the last lot, to the closed form. */
  lemma LastStepAdds(sum: int, full: int, base: int, n: int, high: int, low: int)
    requires high == low || high == low + 1
    requires 2 * full == base * (high * (high - 1) + (low - 1) * low)
    requires sum == full + (n - (high + low - 1) * base) * low
    ensures sum == low * (n - base * low)
  {
    StepIdentity(base, n, high, low);
  }

  /** In all, the lots stand away from the average by this many share-steps. */
  lemma StepSumClosedForm(n: nat, baseQty: nat)
    requires baseQty > 0
    ensures var low := Low(n, baseQty);
            StepSum(n, baseQty, Lots(n, baseQty)) == low * (n - baseQty * low)
  {
    hide LotSize, Lots, TwiceSteps;
    CeilDivBounds(n, baseQty);
    var orders, high, low := Lots(n, baseQty), High(n, baseQty), Low(n, baseQty);
    if orders > 0 {
      var last := orders - 1;
      StepSumOfFullLots(n, baseQty, last);
      LotSizes(n, baseQty, last);
      if low > 0 {
        FullSteps(high, low);
        assert last == high + low - 1 && Steps(high, last) == low;
        LastStepAdds(StepSum(n, baseQty, orders), StepSum(n, baseQty, last), baseQty, n, high, low);
      }
    }
  }

  /** The money in a number of share-steps, with the sign of the table. */
  function Offset(shareSteps: nat, mpv: real, sign: int): real {
    shareSteps as real * (mpv * sign as real)
  }

  lemma OffsetAdds(a: nat, b: nat, mpv: real, sign: int)
    ensures Offset(a + b, mpv, sign) == Offset(a, mpv, sign) + Offset(b, mpv, sign)
    ensures Offset(0, mpv, sign) == 0.0
  {
    var z := mpv * sign as real;
    assert (a + b) as real == a as real + b as real;
    assert (a as real + b as real) * z == a as real * z + b as real * z;
  }

  lemma GridCost(size: uint32, average: real, steps: nat, mpv: real, sign: int)
    ensures Cost(size, GridPrice(average, steps, mpv, sign))
            == Cost(size, average) - Offset(size * steps, mpv, sign)
  {
    var x, y, z := size as real, steps as real, mpv * sign as real;
    assert (size * steps) as real == x * y;
    assert steps as real * mpv * sign as real == y * z;
    assert x * (average - y * z) == x * average - x * y * z;
  }

  lemma {:induction false} GridPrefixSums(n: uint32, baseQty: uint32, mpv: real, average: real, sign: int, k: nat)
    requires 0 < baseQty && k <= Lots(n, baseQty)
    ensures var grid := Grid(n, baseQty, mpv, average, sign);
            && |grid| == Lots(n, baseQty) && Qty(OpenLots, grid[..k]) == n - Left(n, baseQty, k)
            && Value(OpenLots, grid[..k])
               == Cost(n - Left(n, baseQty, k), average) - Offset(StepSum(n, baseQty, k), mpv, sign)
  {
    hide Cost, Qty, Total, GridPrice, Left, LotSize, Steps, Lots, High, Grid, Offset;
    var grid := Grid(n, baseQty, mpv, average, sign);
    GridShape(n, baseQty, mpv, average, sign);
    GridHasLots(n, baseQty);
    if k == 0 {
      CostAdds(0, 0, average);
      EmptySums(grid[..0]);
      OffsetAdds(0, 0, mpv, sign);
    } else {
      var r := grid[k - 1];
      GridPrefixSums(n, baseQty, mpv, average, sign, k - 1);
      GridStep(n, baseQty, mpv, average, sign, k - 1);
      GridElement(n, baseQty, mpv, average, sign, k - 1);
      QtyAppend(OpenLots, grid[..k - 1], [r]);
      TotalAppend(CostIn(OpenLots), grid[..k - 1], [r]);
      QtyOfTwo(OpenLots, r, r);
      TotalOfTwo(CostIn(OpenLots), r, r);
      var steps := Steps(High(n, baseQty), k - 1);
      GridCost(r.openSize, average, steps, mpv, sign);
      CostAdds(n - Left(n, baseQty, k - 1), r.openSize, average);
      OffsetAdds(StepSum(n, baseQty, k - 1), r.openSize * steps, mpv, sign);
    }
  }

  lemma GridHasLots(n: nat, baseQty: nat)
    requires baseQty > 0
    ensures Lots(n, baseQty) == CeilDiv(n, baseQty)
  {
  }

  lemma EmptySums(rs: seq<PositionRecord>)
    requires rs == []
    ensures Qty(OpenLots, rs) == 0 && Value(OpenLots, rs) == 0.0
  {
  }

  lemma GridElement(n: uint32, baseQty: uint32, mpv: real, average: real, sign: int, k: nat)
    requires 0 < baseQty && k < Lots(n, baseQty) == |Grid(n, baseQty, mpv, average, sign)|
    ensures var r := Grid(n, baseQty, mpv, average, sign)[k];
            && r.openSize == LotSize(n, baseQty, k) && !r.isComplete
            && r.openOrderId == k + 1 && r.averageAtOpen == average && r.pnl == 0.0
            && r.openPrice == GridPrice(average, Steps(High(n, baseQty), k), mpv, sign)
  {
  }

  /**
   Repackaging yields ceil(open size / base quantity) lots, none of them empty,
   all but the last of the base quantity, and together the open size.
   */
  lemma RepackagedLots(t: Table, baseQty: uint32, mpv: real, adjustment: real)
    requires baseQty > 0
    ensures var lots, n := Repackage(t, baseQty, mpv, adjustment).records, t.openSize;
            && n <= |lots| * baseQty && (n > 0 ==> (|lots| - 1) * baseQty < n)
            && (forall k :: 0 <= k < |lots| ==> !lots[k].isComplete && 0 < lots[k].openSize <= baseQty)
            && (forall k :: 0 <= k < |lots| - 1 ==> lots[k].openSize == baseQty)
            && Qty(OpenLots, lots) == n
  {
    hide GridPrice, CeilDiv, LotSize, Left;
    var average := Repackage(t, baseQty, mpv, adjustment).average;
    var lots, n := Repackage(t, baseQty, mpv, adjustment).records, t.openSize;
    CeilDivBounds(n, baseQty);
    forall k | 0 <= k < |lots|
      ensures !lots[k].isComplete && 0 < lots[k].openSize <= baseQty && (k < |lots| - 1 ==> lots[k].openSize == baseQty)
    {
      GridElement(n, baseQty, mpv, average, t.Sign(), k);
      LotSizes(n, baseQty, k);
    }
    GridPrefixSums(n, baseQty, mpv, average, t.Sign(), |lots|);
    assert lots[..|lots|] == lots;
    NothingLeft(n, baseQty, |lots|);
  }

  /**
   The lots of the first half, rounded up, climb from below (for long) to the average in
   steps of the grid; the others stand one step, two steps and so on below it.
   */
  lemma RepackagedPrices(t: Table, baseQty: uint32, mpv: real, adjustment: real, k: nat)
    requires baseQty > 0 && k < |Repackage(t, baseQty, mpv, adjustment).records|
    ensures var t' := Repackage(t, baseQty, mpv, adjustment);
            var r, half := t'.records[k], (|t'.records| + 1) / 2;
            var distance := (if k < half then half - 1 - k else k - half + 1) as real * mpv;
            && t'.average == (if t.isLong then t.average - adjustment else t.average + adjustment)
            && t'.pnl == 0.0 && t'.openSize == t.openSize
            && r.openOrderId == k + 1 && r.averageAtOpen == t'.average && r.pnl == 0.0
            && r.openPrice == if t.isLong then t'.average - distance else t'.average + distance
  {
    hide LotSize, GridPrice, Grid, CeilDiv;
    var t', n := Repackage(t, baseQty, mpv, adjustment), t.openSize;
    GridSize(n, baseQty, mpv, t'.average, t.Sign());
    GridElement(n, baseQty, mpv, t'.average, t.Sign(), k);
    HalfOf(n, baseQty);
    PriceOnGrid(t'.average, Steps(High(n, baseQty), k), mpv, t.isLong);
  }

  lemma GridSize(n: uint32, baseQty: uint32, mpv: real, average: real, sign: int)
    requires baseQty > 0
    ensures |Grid(n, baseQty, mpv, average, sign)| == Lots(n, baseQty)
  {
  }

  lemma HalfOf(n: nat, baseQty: nat)
    requires baseQty > 0
    ensures High(n, baseQty) == (Lots(n, baseQty) + 1) / 2
  {
  }

  lemma PriceOnGrid(average: real, steps: nat, mpv: real, isLong: bool)
    ensures GridPrice(average, steps, mpv, if isLong then 1 else -1)
            == if isLong then average - steps as real * mpv else average + steps as real * mpv
  {
  }

  lemma NothingLeft(n: nat, baseQty: nat, k: nat)
    requires n <= k * baseQty
    ensures Left(n, baseQty, k) == 0
  {
  }

  /**
   The rebuilt lots cost less than their average says by exactly the signed
   amount mpv * low * (open size - base quantity * low), where low is the number
   of low orders.
   */
  lemma RepackagedCost(t: Table, baseQty: uint32, mpv: real, adjustment: real)
    requires baseQty > 0
    ensures var t', low := Repackage(t, baseQty, mpv, adjustment), Low(t.openSize, baseQty);
            Cost(t'.openSize, t'.average) - Value(OpenLots, t'.records)
            == (low * (t.openSize - baseQty * low)) as real * (mpv * t.Sign() as real)
  {
    hide GridPrice, CeilDiv, LotSize, Cost, Total, Left, Low, StepSum;
    var t', n := Repackage(t, baseQty, mpv, adjustment), t.openSize;
    CeilDivBounds(n, baseQty);
    GridPrefixSums(n, baseQty, mpv, t'.average, t.Sign(), |t'.records|);
    assert t'.records[..|t'.records|] == t'.records;
    NothingLeft(n, baseQty, |t'.records|);
    StepSumClosedForm(n, baseQty);
  }

  lemma LowOrders(n: nat, baseQty: nat)
    requires baseQty > 0
    ensures var low := Low(n, baseQty);
            && (low == 0 <==> Lots(n, baseQty) <= 1)
            && (low > 0 ==> n - baseQty * low > 0)
  {
    var orders, low := Lots(n, baseQty), Low(n, baseQty);
    CeilDivBounds(n, baseQty);
    if low > 0 {
      MulMonotone(low, orders - 1, baseQty);
    }
  }

  /**
   The two ways of accounting survive repackaging if and only if at most one lot is built or the
   grid step is zero.
   */
  lemma RepackagingKeepsAgreement(t: Table, baseQty: uint32, mpv: real, adjustment: real)
    requires baseQty > 0
    ensures var t' := Repackage(t, baseQty, mpv, adjustment);
            Value(OpenLots, t'.records) - Cost(t'.openSize, t'.average) == Signed(t'.Sign(), t'.pnl)
            <==> |t'.records| <= 1 || mpv == 0.0
  {
    hide GridPrice, CeilDiv, LotSize, Cost, Total, Left, Low, StepSum;
    RepackagedCost(t, baseQty, mpv, adjustment);
    LowOrders(t.openSize, baseQty);
    var low := Low(t.openSize, baseQty);
    if low > 0 {
      assert low * (t.openSize - baseQty * low) > 0;
      ProductZero(low * (t.openSize - baseQty * low), mpv, t.Sign());
    } else {
      assert low * (t.openSize - baseQty * low) == 0;
    }
    if mpv == 0.0 || low == 0 {
      ZeroProduct(low * (t.openSize - baseQty * low), mpv, t.Sign());
    }
  }

  lemma ProductZero(n: int, mpv: real, sign: int)
    requires n > 0 && IsSign(sign)
    ensures n as real * (mpv * sign as real) == 0.0 <==> mpv == 0.0
  {
    var z := mpv * sign as real;
    assert z == mpv || z == -mpv;
    if z != 0.0 {
      assert n as real * z != 0.0;
    }
  }

  lemma ZeroProduct(n: int, mpv: real, sign: int)
    requires n == 0 || mpv == 0.0
    ensures n as real * (mpv * sign as real) == 0.0
  {
  }

  /** For a positive grid step the rebuilt table is in price order if and only if there is no low order. */
  lemma RepackagedOrder(t: Table, baseQty: uint32, mpv: real, adjustment: real)
    requires baseQty > 0 && mpv > 0.0
    ensures var t' := Repackage(t, baseQty, mpv, adjustment);
            InPriceOrder(t') <==> |t'.records| <= 1
  {
    hide GridPrice, CeilDiv, LotSize;
    var t', n := Repackage(t, baseQty, mpv, adjustment), t.openSize;
    CeilDivBounds(n, baseQty);
    LowOrders(n, baseQty);
    if |t'.records| > 1 {
      var high := High(n, baseQty);
      GridElement(n, baseQty, mpv, t'.average, t.Sign(), high - 1);
      GridElement(n, baseQty, mpv, t'.average, t.Sign(), high);
      OneStepBack(t'.average, mpv, t.Sign());
      var x, y := t'.records[high - 1], t'.records[high];
      var m := |t'.records|;
      assert t.isLong ==> t'.Scan()[m - 1 - high] == y && t'.Scan()[m - high] == x;
      assert !t.isLong ==> t'.Scan()[high - 1] == x && t'.Scan()[high] == y;
    }
  }

  lemma OneStepBack(average: real, mpv: real, sign: int)
    requires mpv > 0.0 && IsSign(sign)
    ensures GridPrice(average, 0, mpv, sign) == average
    ensures if sign == 1 then GridPrice(average, 1, mpv, sign) < average else average < GridPrice(average, 1, mpv, sign)
  {
  }
}
