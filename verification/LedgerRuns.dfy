/**
 Whole runs of a position table: opens, closes and deletions of completed
 records, starting from an empty table.
 */
module LedgerRuns {
  import opened Ledger
  import opened Matching
  import opened CloseOutcome
  import opened PriceOrder

  datatype Event = Opening(id: uint32, size: uint32, price: real)
                 | Closing(id: uint32, size: uint32, price: real)
                 | Deleting

  function Step(t: Table, e: Event): Table {
    match e
    case Opening(id, size, price) => RecordOpen(t, id, size, price)
    case Closing(id, size, price) => RecordClose(t, id, size, price)
    case Deleting => DeleteComplete(t)
  }

  function Run(isLong: bool, es: seq<Event>): Table {
    if es == [] then EmptyTable(isLong) else Step(Run(isLong, es[..|es| - 1]), es[|es| - 1])
  }

  /** Fills keep the size within 32 bits, close no more than is open, and each close is exact. */
  predicate StepAllowed(t: Table, e: Event) {
    match e
    case Opening(_, size, _) => t.openSize + size < TWO_TO_32
    case Closing(_, size, price) => size <= t.openSize && CloseExact(t, size, price)
    case Deleting => true
  }

  predicate Allowed(isLong: bool, es: seq<Event>) {
    es == [] ||
    (var before := es[..|es| - 1];
     Allowed(isLong, before) && StepAllowed(Run(isLong, before), es[|es| - 1]))
  }

  // ---------------------------------------------- what the fills of a run cost

  function CostOpened(e: Event): real {
    if e.Opening? then Cost(e.size, e.price) else 0.0
  }

  function CostClosed(e: Event): real {
    if e.Closing? then Cost(e.size, e.price) else 0.0
  }

  function OpenedValue(es: seq<Event>): real {
    if es == [] then 0.0 else OpenedValue(es[..|es| - 1]) + CostOpened(es[|es| - 1])
  }

  function ClosedValue(es: seq<Event>): real {
    if es == [] then 0.0 else ClosedValue(es[..|es| - 1]) + CostClosed(es[|es| - 1])
  }

  /** Value opened less value closed since the table was last flat. */
  function NetSinceFlat(isLong: bool, es: seq<Event>): real {
    if es == [] || Run(isLong, es).openSize == 0 then 0.0
    else NetSinceFlat(isLong, es[..|es| - 1]) + CostOpened(es[|es| - 1]) - CostClosed(es[|es| - 1])
  }

  /** The booked profit when the table was last flat. */
  function PnlWhenFlat(isLong: bool, es: seq<Event>): real {
    if es == [] || Run(isLong, es).openSize == 0 then Run(isLong, es).pnl
    else PnlWhenFlat(isLong, es[..|es| - 1])
  }

  // ------------------------------------------------------- the average as money

  lemma OpenMoney(average: real, price: real, n: uint32, o: uint32)
    requires o + n < TWO_TO_32
    ensures Cost(o + n, AverageAfterOpen(average, price, n, o + n)) == Cost(o, average) + Cost(n, price)
  {
    if o + n == 0 {
      CostAdds(0, 0, average);
      CostAdds(0, 0, price);
      CostAdds(0, 0, AverageAfterOpen(average, price, n, o + n));
    } else {
      var d, x, m := price - average, (o + n) as real, n as real;
      assert x == o as real + m;
      assert d * m / x * x == d * m;
      assert x * (average + d * m / x) == x * average + d * m / x * x;
      assert x * average == o as real * average + m * average;
      assert d * m == m * price - m * average;
    }
  }

  lemma CloseMoney(average: real, price: real, n: uint32, left: uint32)
    requires 0 < left && left + n < TWO_TO_32
    ensures Cost(left, AverageAfterClose(average, price, n, left)) == Cost(left + n, average) - Cost(n, price)
  {
    var d, x, m := average - price, left as real, n as real;
    assert (left + n) as real == x + m;
    assert d * m / x * x == d * m;
    assert x * (average + d * m / x) == x * average + d * m / x * x;
    assert (x + m) * average == x * average + m * average;
    assert d * m == m * average - m * price;
  }

  lemma {:induction false} NothingOpenCostsNothing(rs: seq<PositionRecord>)
    requires Qty(OpenLots, rs) == 0
    ensures Value(OpenLots, rs) == 0.0
  {
    hide Cost;
    if rs == [] {
    } else {
      CostAdds(0, 0, rs[0].openPrice);
      NothingOpenCostsNothing(rs[1..]);
    }
  }

  // ---------------------------------------------------------------- one step

  /** What every allowed step keeps. */
  predicate Consistent(t: Table) {
    && t.openSize == Qty(OpenLots, t.records)
    && SameSign(t.records, t.Sign())
    && InPriceOrder(t)
  }

  lemma OpenStep(t: Table, id: uint32, size: uint32, price: real)
    requires Consistent(t) && t.openSize + size < TWO_TO_32
    ensures var t' := RecordOpen(t, id, size, price);
            && Consistent(t') && t'.openSize == t.openSize + size && t'.pnl == t.pnl
            && Value(OpenLots, t'.records) == Value(OpenLots, t.records) + Cost(size, price)
            && Cost(t'.openSize, t'.average) == Cost(t.openSize, t.average) + Cost(size, price)
  {
    hide AverageAfterOpen, Cost, Qty, Total, InPriceOrder;
    var t' := RecordOpen(t, id, size, price);
    var k := InsertionPoint(t.records, price, t.Sign());
    var x := t'.records[k];
    assert t.records[..k] + t.records[k..] == t.records;
    assert t'.records == t.records[..k] + [x] + t.records[k..];
    QtyAppend(OpenLots, t.records[..k], t.records[k..]);
    QtyAppend(OpenLots, t.records[..k] + [x], t.records[k..]);
    QtyAppend(OpenLots, t.records[..k], [x]);
    TotalAppend(CostIn(OpenLots), t.records[..k], t.records[k..]);
    TotalAppend(CostIn(OpenLots), t.records[..k] + [x], t.records[k..]);
    TotalAppend(CostIn(OpenLots), t.records[..k], [x]);
    QtyOfTwo(OpenLots, x, x);
    TotalOfTwo(CostIn(OpenLots), x, x);
    OpenKeepsOrder(t, id, size, price);
    OpenMoney(t.average, price, size, t.openSize);
  }

  lemma CloseStep(t: Table, id: uint32, size: uint32, price: real)
    requires Consistent(t) && size <= t.openSize && CloseExact(t, size, price)
    ensures var t' := RecordClose(t, id, size, price);
            && Consistent(t') && t'.openSize == t.openSize - size
            && Value(OpenLots, t'.records)
               == Value(OpenLots, t.records) - Cost(size, price) + Signed(t.Sign(), t'.pnl - t.pnl)
            && (t'.openSize > 0 ==> Cost(t'.openSize, t'.average) == Cost(t.openSize, t.average) - Cost(size, price))
  {
    hide Match, AverageAfterClose, Cost, Qty, Total, InPriceOrder, CloseExact;
    CloseConservesExactly(t, id, size, price);
    CloseValues(t, id, size, price);
    CloseKeepsOrder(t, id, size, price);
    if size < t.openSize {
      CloseMoney(t.average, price, size, t.openSize - size);
    }
  }

  lemma DeleteStep(t: Table)
    requires Consistent(t)
    ensures Consistent(DeleteComplete(t))
    ensures Value(OpenLots, DeleteComplete(t).records) == Value(OpenLots, t.records)
  {
    OpenOnlySums(t.records);
    DeleteKeepsOrder(t);
  }

  lemma StartIsConsistent(isLong: bool)
    ensures var t := EmptyTable(isLong);
            Consistent(t) && Value(OpenLots, t.records) == 0.0 && Cost(t.openSize, t.average) == 0.0
  {
    CostAdds(0, 0, 0.0);
    assert EmptyTable(isLong).Scan() == [];
  }

  lemma KindKept(t: Table, e: Event)
    ensures Step(t, e).isLong == t.isLong
    ensures e.Deleting? ==> Step(t, e) == t.(records := OpenOnly(t.records))
  {
  }

  // --------------------------------------------------------------- whole runs

  /**
   In every allowed run the open size is the sum of the open lots, the lots
   stand in price order, and money is accounted for in two ways that agree:
   the open lots cost what was opened less what was closed plus the signed
   profit, and the average is worth what was opened less what was closed since
   the table was last flat.
   */
  lemma {:induction false} RunInvariant(isLong: bool, es: seq<Event>)
    requires Allowed(isLong, es)
    ensures var t := Run(isLong, es);
            && t.isLong == isLong && Consistent(t)
            && Value(OpenLots, t.records) == OpenedValue(es) - ClosedValue(es) + Signed(t.Sign(), t.pnl)
            && Cost(t.openSize, t.average) == NetSinceFlat(isLong, es)
            && Value(OpenLots, t.records) - Cost(t.openSize, t.average)
               == Signed(t.Sign(), t.pnl - PnlWhenFlat(isLong, es))
    decreases |es|
  {
    hide Qty, Total, Cost, InPriceOrder, RecordOpen, RecordClose, DeleteComplete, SameSign;
    if es == [] {
      StartIsConsistent(isLong);
    } else {
      var before, e := es[..|es| - 1], es[|es| - 1];
      var t := Run(isLong, before);
      RunInvariant(isLong, before);
      match e {
        case Opening(id, size, price) =>
          OpenStep(t, id, size, price);
          KindKept(t, e);
        case Closing(id, size, price) =>
          CloseStep(t, id, size, price);
          KindKept(t, e);
        case Deleting =>
          DeleteStep(t);
          KindKept(t, e);
      }
      if Run(isLong, es).openSize == 0 {
        NothingOpenCostsNothing(Run(isLong, es).records);
        CostAdds(0, 0, Run(isLong, es).average);
      }
    }
  }

  /** Whenever a run is flat, the profit booked is all that closing fetched less all that opening cost. */
  lemma FlatProfit(isLong: bool, es: seq<Event>)
    requires Allowed(isLong, es) && Run(isLong, es).openSize == 0
    ensures var t := Run(isLong, es); t.pnl == Signed(t.Sign(), ClosedValue(es) - OpenedValue(es))
  {
    hide Qty, Total, Cost, InPriceOrder, Run, Allowed, OpenedValue, ClosedValue, SameSign, PnlWhenFlat, NetSinceFlat;
    RunInvariant(isLong, es);
    NothingOpenCostsNothing(Run(isLong, es).records);
  }

  predicate NoCloses(es: seq<Event>) {
    forall e :: e in es ==> !e.Closing?
  }

  /** Since its first close the run has not been flat. */
  predicate FirstCycle(isLong: bool, es: seq<Event>) {
    es == [] || (FirstCycle(isLong, es[..|es| - 1]) && (Run(isLong, es).openSize > 0 || NoCloses(es)))
  }

  lemma {:induction false} NoProfitWithoutCloses(isLong: bool, es: seq<Event>)
    requires NoCloses(es)
    ensures Run(isLong, es).pnl == 0.0
    decreases |es|
  {
    hide AverageAfterOpen;
    if es == [] {
    } else {
      NoProfitWithoutCloses(isLong, es[..|es| - 1]);
      assert es[|es| - 1] in es;
    }
  }

  lemma {:induction false} FirstCycleBase(isLong: bool, es: seq<Event>)
    requires FirstCycle(isLong, es)
    ensures PnlWhenFlat(isLong, es) == 0.0
    decreases |es|
  {
    hide Step;
    if es == [] {
    } else {
      FirstCycleBase(isLong, es[..|es| - 1]);
      if NoCloses(es) {
        NoProfitWithoutCloses(isLong, es);
      }
    }
  }

  /** Until the first return to flat, lot by lot and average accounting differ by exactly the signed profit. */
  lemma AccountingMethodsAgree(isLong: bool, es: seq<Event>)
    requires Allowed(isLong, es) && FirstCycle(isLong, es)
    ensures var t := Run(isLong, es);
            Value(OpenLots, t.records) - Cost(t.openSize, t.average) == Signed(t.Sign(), t.pnl)
  {
    RunInvariant(isLong, es);
    FirstCycleBase(isLong, es);
  }

  // ------------------------------------------------------- arrivals in a run

  /** The opening orders at one price in the order in which their fills arrived. */
  function ArrivalsAt(price: real, es: seq<Event>): seq<uint32> {
    if es == [] then []
    else
      var e := es[|es| - 1];
      ArrivalsAt(price, es[..|es| - 1]) + if e.Opening? && e.price == price then [e.id] else []
  }

  /** At every price the open lots stand in the order in which they arrived. */
  lemma {:induction false} LotsKeepArrivalOrder(isLong: bool, es: seq<Event>, at: real)
    requires Allowed(isLong, es)
    ensures Subsequence(IdsAt(at, Run(isLong, es).records), ArrivalsAt(at, es))
    decreases |es|
  {
    hide Subsequence, IdsAt, RecordOpen, RecordClose, InPriceOrder, CloseExact, Qty;
    if es == [] {
      assert IdsAt(at, []) == [] by { NoIdsAt(at, []); }
      EmptySubsequence<uint32>([]);
    } else {
      var before, e := es[..|es| - 1], es[|es| - 1];
      var t := Run(isLong, before);
      var ids, arrivals := IdsAt(at, t.records), ArrivalsAt(at, before);
      LotsKeepArrivalOrder(isLong, before, at);
      RunInvariant(isLong, before);
      match e {
        case Opening(id, size, price) =>
          OpenArrivesLast(t, id, size, price, at);
          var arrived := if at == price then [id] else [];
          SubsequenceRefl(arrived);
          SubsequenceAppend(ids, arrivals, arrived, arrived);
        case Closing(id, size, price) =>
          CloseKeepsArrivals(t, id, size, price, at);
          SubsequenceTrans(IdsAt(at, Run(isLong, es).records), ids, arrivals);
          assert arrivals + [] == arrivals;
        case Deleting =>
          IdsOpenOnly(at, t.records);
          assert arrivals + [] == arrivals;
      }
    }
  }

  // ------------------------------------------ runs that delete between closes

  /** No completed record can be in the table: none was closed since the last deletion. */
  predicate Cleaned(es: seq<Event>) {
    es == [] || es[|es| - 1].Deleting? || (es[|es| - 1].Opening? && Cleaned(es[..|es| - 1]))
  }

  /**
   The caller's discipline: completed records are deleted between closes, and
   a short close stays within the profitable lots unless there are none.
   */
  predicate StepTidy(t: Table, cleaned: bool, e: Event) {
    match e
    case Opening(_, size, _) => t.openSize + size < TWO_TO_32
    case Closing(_, size, price) =>
      && cleaned && size <= t.openSize
      && (t.isLong || size <= ClosableWithProfit(t, price).0 || ClosableWithProfit(t, price).0 == 0)
    case Deleting => true
  }

  predicate Tidy(isLong: bool, es: seq<Event>) {
    es == [] ||
    (var before := es[..|es| - 1];
     Tidy(isLong, before) && StepTidy(Run(isLong, before), Cleaned(before), es[|es| - 1]))
  }

  lemma OpenKeepsAllOpen(t: Table, id: uint32, size: uint32, price: real)
    requires AllOpen(t.records)
    ensures AllOpen(RecordOpen(t, id, size, price).records)
  {
    hide AverageAfterOpen;
  }

  /** With that discipline every close of a run is exact, so that all the results about runs apply. */
  lemma {:induction false} TidyRunsAreAllowed(isLong: bool, es: seq<Event>)
    requires Tidy(isLong, es)
    ensures Allowed(isLong, es)
    ensures Cleaned(es) ==> AllOpen(Run(isLong, es).records)
    decreases |es|
  {
    hide Qty, RecordOpen, RecordClose, CloseExact, InPriceOrder, ClosableWithProfit;
    if es == [] {
    } else {
      var before, e := es[..|es| - 1], es[|es| - 1];
      var t := Run(isLong, before);
      TidyRunsAreAllowed(isLong, before);
      RunInvariant(isLong, before);
      match e {
        case Opening(id, size, price) =>
          if Cleaned(before) {
            OpenKeepsAllOpen(t, id, size, price);
          }
        case Closing(id, size, price) =>
          if isLong {
            LongCloseIsExact(t, size, price);
          } else {
            ShortCloseIsExact(t, size, price);
          }
        case Deleting =>
          OpenOnlySums(t.records);
      }
    }
  }

  // ---------------------------------------------------- closes that go wrong

  /**
   A short table with lots of one share at 10 and at 8, flat again by its own
   count after a close of both at 9, while the lot at 8 is still open.
   */
  lemma MixedClose(a: PositionRecord, b: PositionRecord, average: real)
    requires a == OpenRecord(1, 1, 10.0, a.averageAtOpen, -1) && b == OpenRecord(2, 1, 8.0, b.averageAtOpen, -1)
    ensures var t := Table(false, [a, b], 2, 0.0, average);
            var t' := RecordClose(t, 3, 2, 9.0);
            Consistent(t) && AllOpen(t.records) && t'.openSize == 0 && Qty(OpenLots, t'.records) > 0
  {
    hide AverageAfterClose, Match;
    var t := Table(false, [a, b], 2, 0.0, average);
    var s := ProfitableShort(9.0);
    assert [a, b][1..] == [b];
    QtyOfTwo(OpenLots, a, b);
    assert Reach(s, [b]) == 0 && Reach(s, [a, b]) == 1 && Lead(s, [a, b]) == 0;
    CloseConservesExactly(t, 3, 2, 9.0);
  }

  /**
   Two fills of one close, with no deletion between them: the second fill finds
   the record completed by the first and books it again, in tables of either kind.
   */
  lemma SecondClose(isLong: bool, a: PositionRecord, b: PositionRecord, pnl: real, average: real)
    requires var sign := if isLong then 1 else -1;
             a.isComplete && a.openSize == 1 && a.openPrice == 12.0 && a.sign == sign
             && b == OpenRecord(2, 1, 10.0, b.averageAtOpen, sign)
    ensures var t := Table(isLong, ScanOrder(isLong, [a, b]), 1, pnl, average);
            var t' := RecordClose(t, 3, 1, 9.0);
            Consistent(t) && t'.openSize == 0 && Qty(OpenLots, t'.records) > 0
  {
    hide AverageAfterClose, Match;
    var t := Table(isLong, ScanOrder(isLong, [a, b]), 1, pnl, average);
    var s := FirstPass(isLong, 9.0);
    ReverseTwice([a, b]);
    ReverseMembers([a, b]);
    assert [a, b][1..] == [b];
    QtyOfTwo(OpenLots, a, b);
    SumsScan(OpenLots, isLong, [a, b]);
    assert Spent(s, [a, b][0]) && Lead(s, [a, b]) == 0;
    assert [b][1..] == [] && Reach(s, [b]) == if isLong then 0 else 1;
    assert Reach(s, [a, b]) == 0;
    CloseConservesExactly(t, 3, 1, 9.0);
  }

  /** Two opening fills of one share each, the second at a lower price. */
  lemma TwoOpened(isLong: bool, high: real, low: real)
    requires high > low
    ensures var es := [Opening(1, 1, high), Opening(2, 1, low)];
            var t, sign := Run(isLong, es), if isLong then 1 else -1;
            && |t.Scan()| == 2 && t == Table(isLong, ScanOrder(isLong, t.Scan()), 2, 0.0, t.average)
            && t.Scan()[0] == OpenRecord(1, 1, high, t.Scan()[0].averageAtOpen, sign)
            && t.Scan()[1] == OpenRecord(2, 1, low, t.Scan()[1].averageAtOpen, sign)
            && Allowed(isLong, es)
  {
    hide AverageAfterOpen, CloseExact;
    var es := [Opening(1, 1, high), Opening(2, 1, low)];
    assert es[..1] == [Opening(1, 1, high)] && es[..1][..0] == [];
    assert Run(isLong, []) == EmptyTable(isLong) && Allowed(isLong, []);
    var t1 := RecordOpen(EmptyTable(isLong), 1, 1, high);
    assert Run(isLong, es[..1]) == t1 && Allowed(isLong, es[..1]);
    assert t1.records == [OpenRecord(1, 1, high, t1.average, t1.Sign())];
    TwoInOrder(t1, low);
  }

  lemma TwoInOrder(t: Table, price: real)
    requires |t.records| == 1 && t.records[0].openPrice > price && t.openSize == 1
    ensures var t' := RecordOpen(t, 2, 1, price);
            var x := OpenRecord(2, 1, price, t'.average, t.Sign());
            && t'.records == (if t.isLong then [x] + t.records else t.records + [x]) && t'.openSize == 2
            && t'.pnl == t.pnl && t'.isLong == t.isLong
            && t'.Scan() == [t.records[0], x] && ScanOrder(t.isLong, t'.Scan()) == t'.records
  {
    hide AverageAfterOpen;
    var t' := RecordOpen(t, 2, 1, price);
    assert t.records[1..] == [];
    ReverseTwice(t'.records);
  }

  /**
   From the empty table: a short close that mixes a profitable and a losing lot
   makes the table flat by its own count while a lot is still open.
   */
  lemma ShortMixedCloseFails()
    ensures var opens := [Opening(1, 1, 10.0), Opening(2, 1, 8.0)];
            var t := Run(false, opens + [Closing(3, 2, 9.0)]);
            Allowed(false, opens) && t.openSize == 0 && Qty(OpenLots, t.records) > 0
  {
    hide RecordClose, RecordOpen, Allowed, Qty;
    var opens := [Opening(1, 1, 10.0), Opening(2, 1, 8.0)];
    TwoOpened(false, 10.0, 8.0);
    var t := Run(false, opens);
    assert t.records == [t.records[0], t.records[1]];
    MixedClose(t.records[0], t.records[1], t.average);
    assert (opens + [Closing(3, 2, 9.0)])[..2] == opens;
  }

  lemma FirstClose(t: Table)
    requires |t.Scan()| == 2 && t.records == ScanOrder(t.isLong, t.Scan()) && t.openSize == 2
    requires t.Scan()[0].openSize == 1 && !t.Scan()[0].isComplete && t.Scan()[0].openPrice == 12.0
    requires t.Scan()[1].openSize == 1 && !t.Scan()[1].isComplete && t.Scan()[1].openPrice == 10.0
    ensures var t' := RecordClose(t, 3, 1, 9.0);
            var f := CloseFill(3, 9.0, t'.average);
            && t'.isLong == t.isLong && t'.openSize == 1
            && t'.records == ScanOrder(t.isLong, [t.Scan()[0].Closed(f), t.Scan()[1]])
  {
    hide AverageAfterClose, Gain, Reverse;
    var rs, s := t.Scan(), FirstPass(t.isLong, 9.0);
    var f := CloseFill(3, 9.0, RecordClose(t, 3, 1, 9.0).average);
    assert rs == [rs[0], rs[1]] && rs[1..] == [rs[1]] && rs[1..][1..] == [];
    if t.isLong {
      assert Match(s, f, [rs[1]], 1).records == [rs[1]] && Match(s, f, [rs[1]], 1).left == 1;
      assert Match(s, f, rs, 1).records == rs && Match(s, f, rs, 1).left == 1;
      assert Match(AllLots, f, rs, 1).records == [rs[0].Closed(f), rs[1]];
    } else {
      assert Match(s, f, rs, 1).records == [rs[0].Closed(f), rs[1]] && Match(s, f, rs, 1).left == 0;
    }
  }

  /**
   From the empty table: two closing fills with no deletion between them.  The
   second books the record completed by the first again, in tables of either kind.
   */
  lemma RepeatedCloseFails(isLong: bool)
    ensures var opens := [Opening(1, 1, 12.0), Opening(2, 1, 10.0)];
            var t := Run(isLong, opens + [Closing(3, 1, 9.0)] + [Closing(3, 1, 9.0)]);
            Allowed(isLong, opens) && t.openSize == 0 && Qty(OpenLots, t.records) > 0
  {
    hide RecordClose, RecordOpen, Allowed, Qty, ScanOrder;
    var opens, close := [Opening(1, 1, 12.0), Opening(2, 1, 10.0)], Closing(3, 1, 9.0);
    TwoOpened(isLong, 12.0, 10.0);
    var t := Run(isLong, opens);
    var once := opens + [close];
    assert once[..2] == opens && (once + [close])[..3] == once;
    FirstClose(t);
    var t1 := RecordClose(t, 3, 1, 9.0);
    var f := CloseFill(3, 9.0, t1.average);
    SecondClose(isLong, t.Scan()[0].Closed(f), t.Scan()[1], t1.pnl, t1.average);
  }
}
