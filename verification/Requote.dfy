/**
 Splitting what is missing from the target position into a ladder of orders.
 */
module Requote {
  import opened Ledger
  import opened Repackaging

  datatype Order = Order(price: real, size: nat)

  function LadderPrice(start: real, mpv: real, sign: int, step: nat): real {
    start - sign as real * mpv * step as real
  }

  /** The k-th order of the ladder, which starts `first` steps from the start price. */
  function LadderOrder(residual: nat, baseQty: nat, start: real, mpv: real, sign: int, first: nat, k: nat): Order {
    Order(LadderPrice(start, mpv, sign, first + k), LotSize(residual, baseQty, k))
  }

  function Ladder(residual: nat, baseQty: nat, start: real, mpv: real, sign: int, first: nat): seq<Order>
    requires baseQty > 0
  {
    seq(Lots(residual, baseQty), k requires 0 <= k < Lots(residual, baseQty) =>
        LadderOrder(residual, baseQty, start, mpv, sign, first, k))
  }

  function TotalSize(orders: seq<Order>): nat {
    if orders == [] then 0 else TotalSize(orders[..|orders| - 1]) + orders[|orders| - 1].size
  }

  /** The traded units of the orders: opening divides each size by the divisor and drops the remainder. */
  function TotalUnits(orders: seq<Order>, divisor: nat): nat
    requires divisor > 0
  {
    if orders == [] then 0 else TotalUnits(orders[..|orders| - 1], divisor) + orders[|orders| - 1].size / divisor
  }

  function TotalDropped(orders: seq<Order>, divisor: nat): nat
    requires divisor > 0
  {
    if orders == [] then 0 else TotalDropped(orders[..|orders| - 1], divisor) + orders[|orders| - 1].size % divisor
  }

  /**
   The loop of sendRequoteOrders (first = 0) and of case 6C (first = 1): while
   something remains, an order of the base quantity or of the remainder, one
   price step further each time.
   */
  method SplitOrders(residual: int, baseQty: int, start: real, mpv: real, sign: int, first: nat)
    returns (orders: seq<Order>)
    requires baseQty > 0
    ensures residual <= 0 ==> orders == []
    ensures residual > 0 ==> orders == Ladder(residual, baseQty, start, mpv, sign, first)
  {
    hide *;
    orders := [];
    var remainder, i := residual, first;
    ghost var n: nat := if residual > 0 then residual else 0;
    ghost var ladder := Ladder(n, baseQty, start, mpv, sign, first);
    LadderShape(n, baseQty, start, mpv, sign, first);
    while remainder > 0
      invariant |orders| == i - first && |orders| <= |ladder| && orders == ladder[..|orders|]
      invariant remainder > 0 ==> |orders| < |ladder| && remainder == Left(n, baseQty, |orders|)
      invariant remainder <= 0 ==> |orders| == |ladder|
      decreases remainder
    {
      var orderSize := if remainder > baseQty then baseQty else remainder;
      LadderStep(n, baseQty, start, mpv, sign, first, |orders|);
      orders := orders + [Order(LadderPrice(start, mpv, sign, i), orderSize)];
      remainder := remainder - orderSize;
      i := i + 1;
    }
  }

  lemma LadderShape(n: nat, baseQty: nat, start: real, mpv: real, sign: int, first: nat)
    requires baseQty > 0
    ensures var ladder := Ladder(n, baseQty, start, mpv, sign, first);
            |ladder| == Lots(n, baseQty) && (n > 0 <==> |ladder| > 0) && Left(n, baseQty, 0) == n
  {
    CeilDivBounds(n, baseQty);
  }

  lemma LadderStep(n: nat, baseQty: nat, start: real, mpv: real, sign: int, first: nat, k: nat)
    requires 0 < baseQty && k < |Ladder(n, baseQty, start, mpv, sign, first)|
    ensures var ladder, left := Ladder(n, baseQty, start, mpv, sign, first), Left(n, baseQty, k);
            var size := if left > baseQty then baseQty else left;
            && ladder[k] == Order(LadderPrice(start, mpv, sign, first + k), size) && size > 0
            && ladder[..k + 1] == ladder[..k] + [ladder[k]]
            && Left(n, baseQty, k + 1) == left - size
            && (left - size > 0 <==> k + 1 < |ladder|)
  {
    LotSizes(n, baseQty, k);
    CeilDivBounds(n, baseQty);
    assert (k + 1) * baseQty == k * baseQty + baseQty;
    if k + 1 < Lots(n, baseQty) {
      LotSizes(n, baseQty, k + 1);
    }
  }

  /**
   The ladder has ceil(residual / base quantity) orders of at least one share
   and at most the base quantity, all but the last of the base quantity, which
   together make up the residual, on prices one grid step apart.
   */
  lemma LadderCoversResidual(residual: nat, baseQty: nat, start: real, mpv: real, sign: int, first: nat)
    requires baseQty > 0
    ensures var orders := Ladder(residual, baseQty, start, mpv, sign, first);
            && residual <= |orders| * baseQty && (residual > 0 ==> (|orders| - 1) * baseQty < residual)
            && (forall k :: 0 <= k < |orders| ==> 1 <= orders[k].size <= baseQty)
            && (forall k :: 0 <= k < |orders| - 1 ==> orders[k].size == baseQty)
            && TotalSize(orders) == residual
            && (residual > 0 ==> orders[0].price == start - sign as real * mpv * first as real)
            && (forall k :: 0 <= k < |orders| - 1 ==> orders[k].price - orders[k + 1].price == sign as real * mpv)
  {
    hide LadderPrice, CeilDiv, TotalSize, Left;
    var orders := Ladder(residual, baseQty, start, mpv, sign, first);
    CeilDivBounds(residual, baseQty);
    forall k | 0 <= k < |orders|
      ensures 1 <= orders[k].size <= baseQty && (k < |orders| - 1 ==> orders[k].size == baseQty)
    {
      LotSizes(residual, baseQty, k);
    }
    forall k | 0 <= k < |orders| - 1 ensures orders[k].price - orders[k + 1].price == sign as real * mpv {
      OneStepOn(start, mpv, sign, first + k);
    }
    FirstPrice(start, mpv, sign, first);
    LadderTotal(residual, baseQty, start, mpv, sign, first, |orders|);
    assert orders[..|orders|] == orders;
    NothingLeft(residual, baseQty, |orders|);
  }

  lemma OneStepOn(start: real, mpv: real, sign: int, step: nat)
    ensures LadderPrice(start, mpv, sign, step) - LadderPrice(start, mpv, sign, step + 1) == sign as real * mpv
  {
    var d, k := sign as real * mpv, step as real;
    assert (step + 1) as real == k + 1.0;
    assert d * (k + 1.0) == d * k + d;
  }

  lemma FirstPrice(start: real, mpv: real, sign: int, first: nat)
    ensures LadderPrice(start, mpv, sign, first) == start - sign as real * mpv * first as real
  {
  }

  lemma {:induction false} LadderTotal(n: nat, baseQty: nat, start: real, mpv: real, sign: int, first: nat, k: nat)
    requires 0 < baseQty && k <= |Ladder(n, baseQty, start, mpv, sign, first)|
    ensures TotalSize(Ladder(n, baseQty, start, mpv, sign, first)[..k]) == n - Left(n, baseQty, k)
  {
    hide Ladder, Left, LadderPrice;
    var ladder := Ladder(n, baseQty, start, mpv, sign, first);
    LadderShape(n, baseQty, start, mpv, sign, first);
    if k == 0 {
    } else {
      LadderTotal(n, baseQty, start, mpv, sign, first, k - 1);
      LadderStep(n, baseQty, start, mpv, sign, first, k - 1);
      assert ladder[..k][..k - 1] == ladder[..k - 1];
    }
  }

  lemma {:induction false} UnitsAndDropped(orders: seq<Order>, divisor: nat)
    requires divisor > 0
    ensures TotalSize(orders) == TotalUnits(orders, divisor) * divisor + TotalDropped(orders, divisor)
  {
    if orders == [] {
    } else {
      var size := orders[|orders| - 1].size;
      UnitsAndDropped(orders[..|orders| - 1], divisor);
      DivMod(size, divisor);
      assert (TotalUnits(orders[..|orders| - 1], divisor) + size / divisor) * divisor
             == TotalUnits(orders[..|orders| - 1], divisor) * divisor + size / divisor * divisor;
    }
  }

  lemma MultipleGrows(x: int, d: nat)
    requires d > 0
    ensures x >= 1 ==> x * d >= d
    ensures x <= -1 ==> x * d <= 0 - d
  {
    if x >= 1 {
      MulMonotone(1, x, d);
    }
    if x <= -1 {
      MulMonotone(1, -x, d);
      assert -x * d == 0 - x * d;
    }
  }

  lemma Quotient(n: nat, q: nat, r: nat, d: nat)
    requires d > 0 && n == q * d + r
    ensures n / d == q <==> r < d
  {
    DivMod(n, d);
    MultipleGrows(q - n / d, d);
    assert (q - n / d) * d == q * d - n / d * d;
  }

  /** What the division drops from full orders and from the last one. */
  function Dropped(residual: nat, baseQty: nat, divisor: nat): nat
    requires baseQty > 0 && divisor > 0
  {
    var n := Lots(residual, baseQty);
    if n == 0 then 0 else (n - 1) * (baseQty % divisor) + LotSize(residual, baseQty, n - 1) % divisor
  }

  lemma {:induction false} DroppedFull(n: nat, baseQty: nat, start: real, mpv: real, sign: int, first: nat,
                                       divisor: nat, k: nat)
    requires 0 < baseQty && 0 < divisor && k < Lots(n, baseQty)
    ensures TotalDropped(Ladder(n, baseQty, start, mpv, sign, first)[..k], divisor) == k * (baseQty % divisor)
  {
    hide LadderPrice, CeilDiv, Lots, LotSize;
    if k == 0 {
    } else {
      var ladder := Ladder(n, baseQty, start, mpv, sign, first);
      DroppedFull(n, baseQty, start, mpv, sign, first, divisor, k - 1);
      LotSizes(n, baseQty, k - 1);
      assert ladder[..k][..k - 1] == ladder[..k - 1];
      assert k * (baseQty % divisor) == (k - 1) * (baseQty % divisor) + baseQty % divisor;
    }
  }

  lemma DroppedInAll(residual: nat, baseQty: nat, start: real, mpv: real, sign: int, first: nat, divisor: nat)
    requires baseQty > 0 && divisor > 0
    ensures TotalDropped(Ladder(residual, baseQty, start, mpv, sign, first), divisor)
            == Dropped(residual, baseQty, divisor)
  {
    hide LadderPrice, CeilDiv, Lots, LotSize;
    var n := Lots(residual, baseQty);
    if n > 0 {
      DroppedFull(residual, baseQty, start, mpv, sign, first, divisor, n - 1);
    }
  }

  /**
   The units after the division add up to the residual divided by the divisor if and only if
   the remainders of the full orders and of the last one make less than one unit.
   */
  lemma UnitsAddUpExactly(residual: nat, baseQty: nat, start: real, mpv: real, sign: int, first: nat, divisor: nat)
    requires baseQty > 0 && divisor > 0
    ensures var orders := Ladder(residual, baseQty, start, mpv, sign, first);
            residual / divisor == TotalUnits(orders, divisor) <==> Dropped(residual, baseQty, divisor) < divisor
  {
    hide Ladder, TotalSize, TotalUnits, TotalDropped, Dropped;
    var orders := Ladder(residual, baseQty, start, mpv, sign, first);
    LadderCoversResidual(residual, baseQty, start, mpv, sign, first);
    UnitsAndDropped(orders, divisor);
    DroppedInAll(residual, baseQty, start, mpv, sign, first, divisor);
    Quotient(residual, TotalUnits(orders, divisor), TotalDropped(orders, divisor), divisor);
  }

  lemma {:induction false} NothingDropped(orders: seq<Order>, divisor: nat)
    requires divisor > 0 && forall k :: 0 <= k < |orders| ==> orders[k].size % divisor == 0
    ensures TotalDropped(orders, divisor) == 0
  {
    if orders == [] {
    } else {
      NothingDropped(orders[..|orders| - 1], divisor);
    }
  }

  /** With base quantity and residual multiples of the divisor nothing is lost to the division. */
  lemma MultiplesAddUp(base: nat, residual: nat, start: real, mpv: real, sign: int, first: nat, divisor: nat)
    requires divisor > 0 && base > 0
    ensures var orders := Ladder(residual * divisor, base * divisor, start, mpv, sign, first);
            TotalUnits(orders, divisor) == residual
  {
    hide LadderPrice, CeilDiv, TotalUnits, TotalDropped, TotalSize, Dropped;
    MulMonotone(1, base, divisor);
    var r, b := residual * divisor, base * divisor;
    var orders := Ladder(r, b, start, mpv, sign, first);
    forall k | 0 <= k < |orders| ensures orders[k].size % divisor == 0 {
      LotSizes(r, b, k);
      if k == |orders| - 1 {
        assert r - k * b == (residual - k * base) * divisor;
        MultipleOf(residual - k * base, divisor);
      } else {
        MultipleOf(base, divisor);
      }
    }
    NothingDropped(orders, divisor);
    DroppedInAll(r, b, start, mpv, sign, first, divisor);
    UnitsAddUpExactly(r, b, start, mpv, sign, first, divisor);
    Quotient(r, residual, 0, divisor);
  }

  lemma MultipleOf(m: int, d: nat)
    requires d > 0 && m * d >= 0
    ensures m * d % d == 0
  {
    DivMod(m * d, d);
    MultipleGrows(m - m * d / d, d);
    assert (m - m * d / d) * d == m * d - m * d / d * d;
  }
}
