/**
 The requote ladder together with the account that takes its orders: exactly
 when all of it is placed, and what the counter of opening orders gains by it.
 */
module RequotePlacing {
  import opened Ledger
  import opened OrderAccounts
  import opened LiveOrders
  import opened TerminalOnce
  import opened Requote
  import LiveCounters
  import PanicRefusal
  import Repackaging

  /** Whether the order's price can be set, whether it is posted, and whether the exchange accepts it. */
  datatype Reception = Reception(priceOk: bool, postOk: bool, accepted: bool)
  {
    predicate Good() {
      priceOk && postOk && accepted
    }
  }

  type SmallOrder = o: Order | o.size < TWO_TO_32 witness Order(0.0, 0)

  /** The orders are opened one after the other; an id of 0 says that an order was not placed. */
  function PlaceAll(d: Desk, orders: seq<SmallOrder>, receptions: seq<Reception>): (r: (Desk, seq<uint32>))
    requires |receptions| == |orders|
    ensures |r.1| == |orders|
  {
    if orders == [] then (d, [])
    else
      var n := |orders| - 1;
      var (before, ids) := PlaceAll(d, orders[..n], receptions[..n]);
      var (o, a) := (orders[n], receptions[n]);
      var (after, id) := Place(before, true, o.price, o.size, a.priceOk, a.postOk, a.accepted);
      (after, ids + [id])
  }

  predicate Placeable(o: SmallOrder, divisor: Divisor, a: Reception) {
    o.price > 0.0 && o.size / divisor <= MAXIMUM_SIZE && a.Good()
  }

  predicate AllPlaceable(orders: seq<SmallOrder>, divisor: Divisor, receptions: seq<Reception>)
    requires |receptions| == |orders|
  {
    forall k :: 0 <= k < |orders| ==> Placeable(orders[k], divisor, receptions[k])
  }

  /** An acknowledgement, good or bad, changes nothing but the book. */
  lemma AcknowledgedBook(d: Desk, id: uint32, accepted: bool, openSize: uint32)
    requires Known(d.book, id) && d.Info()[id].onAcknowledgement
    ensures var condition := if accepted then New else OtherCondition;
            Report(d, id, condition, openSize) == d.(book := OnOrder(d.book, id, condition, openSize).0)
  {
    hide React;
    var (book, calls) := OnOrder(d.book, id, if accepted then New else OtherCondition, openSize);
    LiveCounters.ReactToOne(d.(book := book), calls);
    LiveCounters.ReactToAck(d.(book := book), calls[0]);
  }

  /** One order: what it does to ids and counter. */
  lemma PlacingOne(d: Desk, o: SmallOrder, a: Reception)
    requires Orderly(d.book) && d.book.generator + 1 < TWO_TO_32
    ensures var (d', id) := Place(d, true, o.price, o.size, a.priceOk, a.postOk, a.accepted);
            && Orderly(d'.book) && d'.book.generator <= d.book.generator + 1 && d'.divisor == d.divisor
            && (id != 0 <==> Placeable(o, d.divisor, a))
            && d'.totalOpen == d.totalOpen + if id != 0 then o.size / d.divisor else 0
  {
    hide Report, Enter, OnOrder, Orderly;
    PanicRefusal.PlacedExactly(d, true, o.price, o.size, a.priceOk, a.postOk, a.accepted);
    var shares: uint32 := o.size / d.divisor;
    var order := Requested(shares, o.price).(side := SideOf(d.book.isLong, true));
    var d1 := d.(book := Enter(d.book, order));
    EnterIsOrderly(d.book, order);
    PanicRefusal.EnteredOrder(d.book, order);
    AcknowledgedBook(d1, d1.book.generator, a.accepted, shares);
    EventIsOrderly(d1.book, d1.book.generator, if a.accepted then New else OtherCondition, shares);
  }

  /**
   Each order is placed exactly on its own conditions, and if all are, their sizes after the
   division are all counted.
   */
  lemma {:induction false} PlacedOneByOne(d: Desk, orders: seq<SmallOrder>, receptions: seq<Reception>)
    requires Orderly(d.book) && d.book.generator + |orders| < TWO_TO_32 && |receptions| == |orders|
    ensures var (d', ids) := PlaceAll(d, orders, receptions);
            && Orderly(d'.book) && d'.book.generator <= d.book.generator + |orders| && d'.divisor == d.divisor
            && (forall k :: 0 <= k < |orders| ==> (ids[k] != 0 <==> Placeable(orders[k], d.divisor, receptions[k])))
            && (AllPlaceable(orders, d.divisor, receptions) ==>
                 d'.totalOpen == d.totalOpen + TotalUnits(orders, d.divisor))
  {
    hide Place, Placeable, Orderly;
    if orders == [] {
    } else {
      var n := |orders| - 1;
      PlacedOneByOne(d, orders[..n], receptions[..n]);
      PlacingOne(PlaceAll(d, orders[..n], receptions[..n]).0, orders[n], receptions[n]);
      assert AllPlaceable(orders, d.divisor, receptions)
        ==> AllPlaceable(orders[..n], d.divisor, receptions[..n]) && Placeable(orders[n], d.divisor, receptions[n]);
    }
  }

  /** Between two positive prices of the ladder all prices are positive. */
  lemma PriceBetween(start: real, step: real, k: nat, last: nat)
    requires k <= last && start > 0.0 && start - step * last as real > 0.0
    ensures start - step * k as real > 0.0
  {
    if step >= 0.0 {
      Times(step, k as real, last as real);
    } else {
      Times(-step, 0.0, k as real);
      assert -step * k as real == -(step * k as real);
    }
  }

  lemma Times(x: real, a: real, b: real)
    requires x >= 0.0 && a <= b
    ensures x * a <= x * b
  {
    assert x * (b - a) >= 0.0;
    assert x * (b - a) == x * b - x * a;
  }

  /** The price of the k-th order, counted from the first. */
  lemma PriceFromFirst(start: real, mpv: real, sign: int, first: nat, k: nat)
    ensures LadderPrice(start, mpv, sign, first + k)
            == LadderPrice(start, mpv, sign, first) - sign as real * mpv * k as real
  {
    var c := sign as real * mpv;
    assert (first + k) as real == first as real + k as real;
    assert c * (first as real + k as real) == c * first as real + c * k as real;
  }

  lemma DivisionGrows(a: nat, b: nat, d: nat)
    requires d > 0 && a <= b
    ensures a / d <= b / d
  {
    Repackaging.DivMod(a, d);
    Repackaging.DivMod(b, d);
    if a / d > b / d {
      Repackaging.MulMonotone(b / d + 1, a / d, d);
    }
  }

  /** The ladder as the loop passes it to open. */
  function SmallLadder(residual: uint32, baseQty: uint32, start: real, mpv: real, sign: int,
                       first: nat): seq<SmallOrder>
    requires baseQty > 0
  {
    LadderCoversResidual(residual, baseQty, start, mpv, sign, first);
    Ladder(residual, baseQty, start, mpv, sign, first)
  }

  /**
   A ladder can be placed if and only if its first and last prices are positive, and its first order
   is small enough.
   */
  lemma LadderPlaceable(residual: uint32, baseQty: uint32, start: real, mpv: real, sign: int, first: nat,
                        divisor: Divisor, receptions: seq<Reception>)
    requires baseQty > 0 && |receptions| == |Ladder(residual, baseQty, start, mpv, sign, first)|
    ensures var orders := SmallLadder(residual, baseQty, start, mpv, sign, first);
            AllPlaceable(orders, divisor, receptions)
            <==> (forall a :: a in receptions ==> a.Good())
                 && (orders != [] ==> orders[0].price > 0.0 && orders[|orders| - 1].price > 0.0
                                      && orders[0].size / divisor <= MAXIMUM_SIZE)
  {
    hide SmallLadder, Ladder, Reception.Good;
    var orders := SmallLadder(residual, baseQty, start, mpv, sign, first);
    SameLadder(residual, baseQty, start, mpv, sign, first);
    forall k | 0 <= k < |orders| && orders[0].price > 0.0 && orders[|orders| - 1].price > 0.0
      ensures orders[k].price > 0.0 && orders[k].size / divisor <= orders[0].size / divisor
    {
      BetweenTheEnds(residual, baseQty, start, mpv, sign, first, divisor, k);
    }
    ByIndex(receptions);
    if orders != [] && AllPlaceable(orders, divisor, receptions) {
      assert Placeable(orders[0], divisor, receptions[0]);
      assert Placeable(orders[|orders| - 1], divisor, receptions[|orders| - 1]);
    }
  }

  lemma SameLadder(residual: uint32, baseQty: uint32, start: real, mpv: real, sign: int, first: nat)
    requires baseQty > 0
    ensures SmallLadder(residual, baseQty, start, mpv, sign, first)
            == Ladder(residual, baseQty, start, mpv, sign, first)
  {
  }

  lemma ByIndex(receptions: seq<Reception>)
    ensures (forall a :: a in receptions ==> a.Good()) <==> forall k :: 0 <= k < |receptions| ==> receptions[k].Good()
  {
    hide Reception.Good;
    assert forall k :: 0 <= k < |receptions| ==> receptions[k] in receptions;
  }

  lemma BetweenTheEnds(residual: uint32, baseQty: uint32, start: real, mpv: real, sign: int, first: nat,
                       divisor: Divisor, k: nat)
    requires baseQty > 0
    requires var orders := Ladder(residual, baseQty, start, mpv, sign, first);
             k < |orders| && orders[0].price > 0.0 && orders[|orders| - 1].price > 0.0
    ensures var orders := Ladder(residual, baseQty, start, mpv, sign, first);
            orders[k].price > 0.0 && orders[k].size / divisor <= orders[0].size / divisor
  {
    hide Ladder;
    var orders := Ladder(residual, baseQty, start, mpv, sign, first);
    LadderPrices(residual, baseQty, start, mpv, sign, first, k);
    LadderPrices(residual, baseQty, start, mpv, sign, first, |orders| - 1);
    PriceBetween(orders[0].price, sign as real * mpv, k, |orders| - 1);
    FirstIsLargest(residual, baseQty, start, mpv, sign, first, k);
    DivisionGrows(orders[k].size, orders[0].size, divisor);
  }

  lemma LadderPrices(residual: uint32, baseQty: uint32, start: real, mpv: real, sign: int, first: nat, k: nat)
    requires baseQty > 0 && k < |Ladder(residual, baseQty, start, mpv, sign, first)|
    ensures var orders := Ladder(residual, baseQty, start, mpv, sign, first);
            orders[k].price == orders[0].price - sign as real * mpv * k as real
  {
    hide LadderPrice;
    PriceFromFirst(start, mpv, sign, first, k);
  }

  lemma FirstIsLargest(residual: uint32, baseQty: uint32, start: real, mpv: real, sign: int, first: nat, k: nat)
    requires baseQty > 0 && k < |Ladder(residual, baseQty, start, mpv, sign, first)|
    ensures var orders := Ladder(residual, baseQty, start, mpv, sign, first); orders[k].size <= orders[0].size
  {
    hide LadderPrice;
    LadderCoversResidual(residual, baseQty, start, mpv, sign, first);
  }

  /**
   The whole ladder is placed if and only if its first and last prices are positive,
   its first order is of at most 30 traded units, and all orders are received well;
   the counter of opening orders then grows by the sizes after the division.
   */
  lemma LadderPlacedExactly(d: Desk, residual: uint32, baseQty: uint32, start: real, mpv: real, sign: int, first: nat,
                            receptions: seq<Reception>)
    requires Orderly(d.book) && baseQty > 0
    requires |receptions| == |Ladder(residual, baseQty, start, mpv, sign, first)|
    requires d.book.generator + |receptions| < TWO_TO_32
    ensures var orders := SmallLadder(residual, baseQty, start, mpv, sign, first);
            var (d', ids) := PlaceAll(d, orders, receptions);
            var placed := forall k :: 0 <= k < |ids| ==> ids[k] != 0;
            && (placed <==> (forall a :: a in receptions ==> a.Good())
                            && (orders != [] ==> orders[0].price > 0.0 && orders[|orders| - 1].price > 0.0
                                                 && orders[0].size / d.divisor <= MAXIMUM_SIZE))
            && (placed ==> d'.totalOpen == d.totalOpen + TotalUnits(orders, d.divisor))
  {
    hide Place, Placeable, Orderly, LadderOrder, PlaceAll, Reception.Good;
    var orders := SmallLadder(residual, baseQty, start, mpv, sign, first);
    PlacedOneByOne(d, orders, receptions);
    LadderPlaceable(residual, baseQty, start, mpv, sign, first, d.divisor, receptions);
  }
}
