/**
 The price bar of a symbol: opening, lowest, highest and closing price of the
 current interval and of the one before it.
 */
module PriceBar {
  datatype Bar = Bar(open: real, min: real, max: real, close: real)

  datatype SymbolState = SymbolState(startInterval: bool, bar: Bar, previous: Bar, estimate1: real, estimate2: real)

  datatype Event = Price(price: real) | Reset(estimate: real, index: int)

  function PriceUpdated(s: SymbolState, price: real): SymbolState {
    if s.startInterval then s.(startInterval := false, previous := s.bar, bar := Bar(price, price, price, price))
    else s.(bar := Bar(s.bar.open, if price < s.bar.min then price else s.bar.min,
                       if price > s.bar.max then price else s.bar.max, price))
  }

  /** The end of an interval, with the new estimate the callback has computed for it. */
  function IntervalReset(s: SymbolState, estimate: real, index: int): SymbolState {
    var e1 := estimate > 0.0 && index == 0 && estimate != s.estimate1;
    s.(startInterval := true,
       estimate1 := if e1 then estimate else s.estimate1,
       estimate2 := if estimate > 0.0 && !e1 && estimate != s.estimate2 then estimate else s.estimate2)
  }

  /** The state of a new symbol; what stands in the previous bar at first is anything. */
  function NewSymbol(previous: Bar): SymbolState {
    SymbolState(true, Bar(-1.0, -1.0, -1.0, -1.0), previous, -1.0, -1.0)
  }

  class Symbol {
    var startInterval: bool
    var openPrice: real
    var minPrice: real
    var maxPrice: real
    var closePrice: real
    var openPricePrev: real
    var minPricePrev: real
    var maxPricePrev: real
    var closePricePrev: real
    var priceEstimate1: real
    var priceEstimate2: real

    ghost function State(): SymbolState
      reads this
    {
      SymbolState(startInterval, Bar(openPrice, minPrice, maxPrice, closePrice),
                  Bar(openPricePrev, minPricePrev, maxPricePrev, closePricePrev), priceEstimate1, priceEstimate2)
    }

    constructor ()
      ensures exists previous :: State() == NewSymbol(previous)
    {
      startInterval := true;
      openPrice, minPrice, maxPrice, closePrice := -1.0, -1.0, -1.0, -1.0;
      priceEstimate1, priceEstimate2 := -1.0, -1.0;
      new;
      assert State() == NewSymbol(State().previous);
    }

    method UpdatePrice(price: real)
      modifies this
      ensures State() == PriceUpdated(old(State()), price)
    {
      if startInterval {
        startInterval := false;
        closePricePrev := closePrice;
        openPricePrev := openPrice;
        maxPricePrev := maxPrice;
        minPricePrev := minPrice;
        closePrice, openPrice, maxPrice, minPrice := price, price, price, price;
      } else {
        if price > maxPrice {
          maxPrice := price;
        }
        if price < minPrice {
          minPrice := price;
        }
        closePrice := price;
      }
    }

    method ResetInterval(estimate: real, index: int)
      modifies this
      ensures State() == IntervalReset(old(State()), estimate, index)
    {
      if estimate > 0.0 {
        if 0 == index && estimate != priceEstimate1 {
          priceEstimate1 := estimate;
        } else if estimate != priceEstimate2 {
          priceEstimate2 := estimate;
        }
      }
      startInterval := true;
    }
  }

  // --------------------------------------------------- what the bar should be

  function After(previous: Bar, es: seq<Event>): SymbolState {
    if es == [] then NewSymbol(previous)
    else
      var s := After(previous, es[..|es| - 1]);
      match es[|es| - 1]
      case Price(p) => PriceUpdated(s, p)
      case Reset(estimate, index) => IntervalReset(s, estimate, index)
  }

  /** The prices of each interval: a reset ends an interval, whether or not it has seen a price. */
  function Intervals(es: seq<Event>): (cs: seq<seq<real>>)
    ensures cs != []
  {
    if es == [] then [[]]
    else
      var cs := Intervals(es[..|es| - 1]);
      match es[|es| - 1]
      case Price(p) => cs[..|cs| - 1] + [cs[|cs| - 1] + [p]]
      case Reset(_, _) => cs + [[]]
  }

  /** The intervals that saw a price. */
  function Traded(cs: seq<seq<real>>): seq<seq<real>> {
    if cs == [] then []
    else Traded(cs[..|cs| - 1]) + if cs[|cs| - 1] == [] then [] else [cs[|cs| - 1]]
  }

  /** First, least, greatest and last of the prices. */
  predicate IsBarOf(b: Bar, prices: seq<real>) {
    && prices != []
    && b.open == prices[0] && b.close == prices[|prices| - 1]
    && b.min in prices && b.max in prices
    && forall p :: p in prices ==> b.min <= p <= b.max
  }

  lemma TradedNext(cs: seq<seq<real>>, last: seq<real>)
    ensures Traded(cs + [last]) == Traded(cs) + if last == [] then [] else [last]
  {
    assert (cs + [last])[..|cs|] == cs;
  }

  lemma BarOfMore(b: Bar, prices: seq<real>, p: real)
    requires prices == [] || IsBarOf(b, prices)
    ensures var b' := if prices == [] then Bar(p, p, p, p)
                      else Bar(b.open, if p < b.min then p else b.min, if p > b.max then p else b.max, p);
            IsBarOf(b', prices + [p])
  {
    var more := prices + [p];
    assert more[|prices|] == p;
    assert forall x :: x in more <==> x in prices || x == p;
  }

  /** The bars of s are those of the last two intervals of cs that saw a price. */
  predicate Shows(s: SymbolState, cs: seq<seq<real>>)
    requires cs != []
  {
    var traded := Traded(cs);
    && (s.startInterval <==> cs[|cs| - 1] == [])
    && (traded != [] ==> IsBarOf(s.bar, traded[|traded| - 1]))
    && (|traded| >= 2 ==> IsBarOf(s.previous, traded[|traded| - 2]))
  }

  lemma PriceShown(s: SymbolState, open: seq<seq<real>>, last: seq<real>, p: real)
    requires Shows(s, open + [last])
    ensures Shows(PriceUpdated(s, p), open + [last + [p]])
  {
    hide IsBarOf, Traded;
    TradedNext(open, last);
    TradedNext(open, last + [p]);
    BarOfMore(s.bar, last, p);
  }

  lemma ResetShown(s: SymbolState, cs: seq<seq<real>>, estimate: real, index: int)
    requires cs != [] && Shows(s, cs)
    ensures Shows(IntervalReset(s, estimate, index), cs + [[]])
  {
    hide IsBarOf, Traded;
    TradedNext(cs, []);
    assert Traded(cs) + [] == Traded(cs);
  }

  /**
   For every interleaving of prices and resets the bar is first, minimum,
   maximum and last of the prices of the latest interval that saw a trade, and
   from the second such interval on the previous bar is that of the one before.
   */
  lemma {:induction false} BarIsOfLatestInterval(previous: Bar, es: seq<Event>)
    ensures Shows(After(previous, es), Intervals(es))
    decreases |es|
  {
    if es == [] {
      assert Traded([[]]) == [] by { TradedNext([], []); }
    } else {
      hide Shows, Traded, PriceUpdated, IntervalReset;
      var before := es[..|es| - 1];
      var s, cs := After(previous, before), Intervals(before);
      var open, last := cs[..|cs| - 1], cs[|cs| - 1];
      BarIsOfLatestInterval(previous, before);
      assert cs == open + [last];
      match es[|es| - 1] {
        case Price(p) => PriceShown(s, open, last, p);
        case Reset(estimate, index) => ResetShown(s, cs, estimate, index);
      }
    }
  }

  // ------------------------------------------------------------- the estimates

  /** The last positive estimate delivered with index 0. */
  function FirstEstimate(es: seq<Event>): real {
    if es == [] then -1.0
    else match es[|es| - 1]
      case Reset(estimate, 0) => if estimate > 0.0 then estimate else FirstEstimate(es[..|es| - 1])
      case _ => FirstEstimate(es[..|es| - 1])
  }

  /** The last positive estimate with another index, or with index 0 when it was the first estimate already. */
  function SecondEstimate(es: seq<Event>): real {
    if es == [] then -1.0
    else
      var before := es[..|es| - 1];
      match es[|es| - 1]
      case Reset(estimate, index) =>
        if estimate > 0.0 && (index == 0 ==> estimate == FirstEstimate(before)) then estimate
        else SecondEstimate(before)
      case Price(_) => SecondEstimate(before)
  }

  /**
   After any events the first estimate is the last one delivered for it. The
   second is the last one delivered for it only if no first estimate came
   again unchanged since: such a one takes the place of the second.
   */
  lemma {:induction false} EstimatesAreTheLatest(previous: Bar, es: seq<Event>)
    ensures After(previous, es).estimate1 == FirstEstimate(es)
    ensures After(previous, es).estimate2 == SecondEstimate(es)
    decreases |es|
  {
    if es != [] {
      EstimatesAreTheLatest(previous, es[..|es| - 1]);
    }
  }

  /** The same first estimate twice in a row overwrites the second. */
  lemma RepeatedEstimateMoves(previous: Bar)
    ensures var s := After(previous, [Reset(7.0, 1), Reset(5.0, 0), Reset(5.0, 0)]);
            s.estimate1 == 5.0 && s.estimate2 == 5.0
  {
    var es := [Reset(7.0, 1), Reset(5.0, 0), Reset(5.0, 0)];
    assert es[..2] == [Reset(7.0, 1), Reset(5.0, 0)];
    assert es[..2][..1] == [Reset(7.0, 1)];
  }
}
