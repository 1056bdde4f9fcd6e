/**
 What a close leaves behind when it is exact: the lots, the booked profit and
 the average, and with them that splitting a close does not matter and that a
 predicted profit is realised.
 */
module CloseOutcome {
  import opened Ledger
  import opened Matching

  // ---------------------------------------------------------- money, one pass

  function Signed(sign: int, x: real): real {
    if sign > 0 then x else -x
  }

  predicate IsSign(sign: int) {
    sign == 1 || sign == -1
  }

  lemma GainIsCostDifference(openPrice: real, price: real, size: uint32, sign: int)
    requires IsSign(sign)
    ensures Signed(sign, Gain(openPrice, price, size, sign)) == Cost(size, price) - Cost(size, openPrice)
  {
    assert (price - openPrice) * size as real == size as real * price - size as real * openPrice;
    var g := (price - openPrice) * size as real;
    assert g * 1.0 == g && g * -1.0 == -g;
  }

  lemma CostAdds(a: uint32, b: uint32, price: real)
    requires a + b < TWO_TO_32
    ensures Cost(a + b, price) == Cost(a, price) + Cost(b, price)
    ensures Cost(0, price) == 0.0
  {
    assert (a + b) as real == a as real + b as real;
    assert (a as real + b as real) * price == a as real * price + b as real * price;
  }

  /** The cost taken out of the open lots is what the closed shares fetched, less the signed gain. */
  lemma OneValues(s: Selector, f: CloseFill, r: PositionRecord, n: uint32)
    requires n > 0 && !Stale(s, r) && IsSign(r.sign)
    ensures var m := MatchOne(s, f, r, n);
            Value(OpenLots, [r]) - Value(OpenLots, m.records) == Cost(n - m.left, f.price) - Signed(r.sign, m.gain)
  {
    hide Gain, Cost, Total, Signed;
    var m := MatchOne(s, f, r, n);
    var other := if n <= r.openSize then r.PartlyClosed(f, n) else r;
    TotalOfTwo(CostIn(OpenLots), r, r);
    TotalOfTwo(CostIn(OpenLots), m.records[0], other);
    CostAdds(0, 0, f.price);
    CostAdds(0, 0, r.openPrice);
    SignedZero(r.sign);
    if s.Picks(r) {
      var closed := n - m.left;
      GainIsCostDifference(r.openPrice, f.price, closed, r.sign);
      CostAdds(closed, r.openSize - closed, r.openPrice);
    }
  }

  lemma SignedZero(sign: int)
    ensures Signed(sign, 0.0) == 0.0
  {
  }

  lemma {:induction false} MatchValues(s: Selector, f: CloseFill, rs: seq<PositionRecord>, n: uint32, sign: int)
    requires PassExact(s, rs, n) && SameSign(rs, sign) && IsSign(sign)
    ensures var m := Match(s, f, rs, n);
            && m.left <= n && SameSign(m.records, sign)
            && Value(OpenLots, rs) - Value(OpenLots, m.records) == Cost(n - m.left, f.price) - Signed(sign, m.gain)
    decreases |rs|
  {
    hide MatchOne, Total, Cost, AnyStale, Reach, PassExact, Stale, Qty;
    CostAdds(0, 0, f.price);
    MatchLeft(s, f, rs, n);
    if n == 0 || rs == [] {
    } else {
      var one := MatchOne(s, f, rs[0], n);
      OneConserves(s, f, rs[0], n);
      NotStaleFirst(s, rs, n);
      OneValues(s, f, rs[0], n);
      OneSign(s, f, rs[0], n);
      var rest := Match(s, f, rs[1..], one.left);
      MatchValues(s, f, rs[1..], one.left, sign);
      CostAdds(n - one.left, one.left - rest.left, f.price);
      assert rs == [rs[0]] + rs[1..];
      TotalAppend(CostIn(OpenLots), one.records, rest.records);
      TotalAppend(CostIn(OpenLots), [rs[0]], rs[1..]);
    }
  }

  lemma NotStaleFirst(s: Selector, rs: seq<PositionRecord>, n: uint32)
    requires PassExact(s, rs, n) && n > 0 && rs != []
    ensures !Stale(s, rs[0]) && PassExact(s, rs[1..], n - Min(n, s.Size(rs[0])))
  {
  }

  lemma OneSign(s: Selector, f: CloseFill, r: PositionRecord, n: uint32)
    ensures forall x :: x in MatchOne(s, f, r, n).records ==> x.sign == r.sign && x.openPrice == r.openPrice
  {
    hide Gain;
  }

  /** An exact close takes the closed lots' cost out of the table and books the difference as profit. */
  lemma CloseValues(t: Table, id: uint32, size: uint32, price: real)
    requires SameSign(t.records, t.Sign()) && CloseExact(t, size, price)
    ensures var t' := RecordClose(t, id, size, price);
            && SameSign(t'.records, t.Sign())
            && Value(OpenLots, t.records) - Value(OpenLots, t'.records)
               == Cost(size, price) - Signed(t.Sign(), t'.pnl - t.pnl)
  {
    hide Match, Cost, Total, AverageAfterClose, AnyStale, Reach, Lead;
    var f := CloseFill(id, price, RecordClose(t, id, size, price).average);
    var s := FirstPass(t.isLong, price);
    var first := Match(s, f, t.Scan(), size);
    var second := Match(AllLots, f, first.records, first.left);
    PassesExact(s, f, t.Scan(), size);
    MatchValues(s, f, t.Scan(), size, t.Sign());
    MatchValues(AllLots, f, first.records, first.left, t.Sign());
    CostAdds(size - first.left, first.left, price);
    SumsScan(OpenLots, t.isLong, t.records);
    SumsScan(OpenLots, t.isLong, second.records);
  }

  // ------------------------------------------- the lots left, by a reference

  /** The lots left after `n` shares have been taken from the picked ones, in visiting order. */
  function Take(s: Selector, lots: seq<PositionRecord>, n: uint32): seq<PositionRecord> {
    if n == 0 || lots == [] then lots
    else if !s.Picks(lots[0]) then [lots[0]] + Take(s, lots[1..], n)
    else if lots[0].openSize <= n then Take(s, lots[1..], n - lots[0].openSize)
    else [lots[0].Remainder(n)] + lots[1..]
  }

  /** A close, as it should be: the profitable lots first, then, for the rest, the others. */
  function LotsAfterClose(s: Selector, lots: seq<PositionRecord>, n: uint32): seq<PositionRecord> {
    Take(AllLots, Take(s, lots, n), n - Min(n, Qty(s, lots)))
  }

  /** What one record contributes to the lots that are left. */
  lemma TakeFirst(s: Selector, f: CloseFill, r: PositionRecord, lots: seq<PositionRecord>, n: uint32)
    requires n > 0 && !Stale(s, r)
    ensures var one := MatchOne(s, f, r, n);
            OpenOnly(one.records) + Take(s, lots, one.left) == Take(s, if r.isComplete then lots else [r] + lots, n)
  {
    hide MatchOne, OpenOnly;
    OneOpen(s, f, r, n);
    assert ([r] + lots)[1..] == lots;
  }

  lemma {:induction false} MatchTakes(s: Selector, f: CloseFill, rs: seq<PositionRecord>, n: uint32)
    requires PassExact(s, rs, n)
    ensures OpenOnly(Match(s, f, rs, n).records) == Take(s, OpenOnly(rs), n)
    decreases |rs|
  {
    if n == 0 || rs == [] {
    } else {
      hide PassExact, MatchOne, Take;
      var one := MatchOne(s, f, rs[0], n);
      NotStaleFirst(s, rs, n);
      OneOpen(s, f, rs[0], n);
      MatchTakes(s, f, rs[1..], one.left);
      OpenOnlyAppend(one.records, Match(s, f, rs[1..], one.left).records);
      TakeFirst(s, f, rs[0], OpenOnly(rs[1..]), n);
    }
  }

  lemma OneOpen(s: Selector, f: CloseFill, r: PositionRecord, n: uint32)
    requires n > 0 && !Stale(s, r)
    ensures var m := MatchOne(s, f, r, n);
            && m.left == n - Min(n, s.Size(r))
            && OpenOnly(m.records)
               == if r.isComplete || (s.Picks(r) && r.openSize <= n) then []
                  else if s.Picks(r) then [r.Remainder(n)] else [r]
  {
    hide Gain;
    var m := MatchOne(s, f, r, n);
    assert OpenOnly(m.records[1..]) == [] by {
      if |m.records| == 2 {
        assert m.records[1..] == [r.PartlyClosed(f, n)];
      }
    }
  }

  /** Completed records do not count towards what can be reached, and only shorten the lead. */
  lemma {:induction false} OpenReach(s: Selector, rs: seq<PositionRecord>)
    ensures Reach(s, rs) <= Qty(s, OpenOnly(rs)) <= Qty(s, rs)
    ensures Lead(s, rs) <= Lead(s, OpenOnly(rs))
  {
    if rs == [] {
    } else {
      hide Selector.Picks;
      OpenReach(s, rs[1..]);
      if !rs[0].isComplete {
        assert OpenOnly(rs)[0] == rs[0] && OpenOnly(rs)[1..] == OpenOnly(rs[1..]);
      }
    }
  }

  /** An exact close leaves exactly the lots the reference leaves. */
  lemma CloseLeavesLots(t: Table, id: uint32, size: uint32, price: real)
    requires CloseExact(t, size, price)
    ensures var s := FirstPass(t.isLong, price);
            OpenOnly(RecordClose(t, id, size, price).Scan()) == LotsAfterClose(s, OpenOnly(t.Scan()), size)
  {
    hide Match, AverageAfterClose, AnyStale, Reach, Lead, Qty, OpenOnly;
    var f := CloseFill(id, price, RecordClose(t, id, size, price).average);
    var s, rs := FirstPass(t.isLong, price), t.Scan();
    var first := Match(s, f, rs, size);
    PassesExact(s, f, rs, size);
    MatchTakes(s, f, rs, size);
    MatchTakes(AllLots, f, first.records, first.left);
    MatchLeft(s, f, rs, size);
    OpenReach(s, rs);
    ReachBounds(s, rs);
    ReverseTwice(Match(AllLots, f, first.records, first.left).records);
  }

  predicate AllOpen(lots: seq<PositionRecord>) {
    forall r :: r in lots ==> !r.isComplete
  }

  predicate NonePicked(s: Selector, lots: seq<PositionRecord>) {
    forall r :: r in lots ==> !s.Picks(r)
  }

  lemma {:induction false} TakeTwice(s: Selector, lots: seq<PositionRecord>, a: uint32, b: uint32)
    requires AllOpen(lots) && a + b < TWO_TO_32
    ensures Take(s, Take(s, lots, a), b) == Take(s, lots, a + b)
    decreases |lots|
  {
    if a == 0 || lots == [] {
    } else {
      var r := lots[0];
      if !s.Picks(r) {
        TakeTwice(s, lots[1..], a, b);
        assert ([r] + Take(s, lots[1..], a))[1..] == Take(s, lots[1..], a);
      } else if r.openSize <= a {
        TakeTwice(s, lots[1..], a - r.openSize, b);
      } else {
        assert ([r.Remainder(a)] + lots[1..])[1..] == lots[1..];
      }
    }
  }

  lemma {:induction false} TakeShrinks(s: Selector, lots: seq<PositionRecord>, n: uint32)
    requires AllOpen(lots)
    ensures var rest := Take(s, lots, n);
            && AllOpen(rest)
            && Qty(s, rest) == Qty(s, lots) - Min(n, Qty(s, lots))
            && Lead(s, rest) >= Lead(s, lots)
    decreases |lots|
  {
    if n == 0 || lots == [] {
    } else {
      var r := lots[0];
      if !s.Picks(r) {
        TakeShrinks(s, lots[1..], n);
        assert Take(s, lots, n)[1..] == Take(s, lots[1..], n);
      } else if r.openSize <= n {
        TakeShrinks(s, lots[1..], n - r.openSize);
      } else {
        assert Take(s, lots, n)[1..] == lots[1..];
      }
    }
  }

  lemma {:induction false} TakeMoreThanAll(s: Selector, lots: seq<PositionRecord>, n: uint32)
    requires n > Qty(s, lots)
    ensures NonePicked(s, Take(s, lots, n))
    decreases |lots|
  {
    if lots == [] {
    } else {
      if !s.Picks(lots[0]) {
        TakeMoreThanAll(s, lots[1..], n);
      } else {
        TakeMoreThanAll(s, lots[1..], n - lots[0].openSize);
      }
    }
  }

  lemma {:induction false} TakeWhenNonePicked(s: Selector, lots: seq<PositionRecord>, n: uint32)
    requires AllOpen(lots) && NonePicked(s, lots)
    ensures Take(s, lots, n) == lots && Qty(s, lots) == 0 && Lead(s, lots) == Qty(AllLots, lots)
    ensures NonePicked(s, Take(AllLots, lots, n))
    decreases |lots|
  {
    if lots == [] {
    } else {
      TakeWhenNonePicked(s, lots[1..], n);
      if 0 < n && lots[0].openSize <= n {
        TakeWhenNonePicked(s, lots[1..], n - lots[0].openSize);
      }
    }
  }

  /** When `a` takes every picked lot, the rest of it and all of `b` come from the others. */
  lemma SplitLotsBeyond(s: Selector, lots: seq<PositionRecord>, a: uint32, b: uint32)
    requires AllOpen(lots) && a + b < TWO_TO_32 && a > Qty(s, lots)
    ensures LotsAfterClose(s, LotsAfterClose(s, lots, a), b) == LotsAfterClose(s, lots, a + b)
  {
    hide Qty, Take, NonePicked, AllOpen;
    var q, u := Qty(s, lots), Take(s, lots, a);
    TakeTwice(s, lots, a, b);
    TakeShrinks(s, lots, a);
    TakeMoreThanAll(s, lots, a);
    var x := Take(AllLots, u, a - q);
    TakeShrinks(AllLots, u, a - q);
    TakeWhenNonePicked(s, u, a - q);
    TakeWhenNonePicked(s, u, b);
    TakeWhenNonePicked(s, x, b);
    TakeTwice(AllLots, u, a - q, b);
  }

  /** Closing `a` and then `b` leaves the lots that closing `a + b` leaves. */
  lemma SplitLots(s: Selector, lots: seq<PositionRecord>, a: uint32, b: uint32)
    requires AllOpen(lots) && a + b < TWO_TO_32
    ensures LotsAfterClose(s, LotsAfterClose(s, lots, a), b) == LotsAfterClose(s, lots, a + b)
  {
    hide Qty, Take, AllOpen;
    if a > Qty(s, lots) {
      SplitLotsBeyond(s, lots, a, b);
    } else {
      TakeTwice(s, lots, a, b);
      TakeShrinks(s, lots, a);
      TakeNothing(Take(s, lots, a));
    }
  }

  // -------------------------------------------------------- splitting a close

  lemma MoneyKept(average: real, price: real, m: real, o: real)
    requires o > 0.0
    ensures (average + (average - price) * m / o - price) * o == (average - price) * (o + m)
  {
    var d := average - price;
    var q := d * m / o;
    assert q * o == d * m;
    assert (d + q) * o == d * o + q * o;
    assert d * (o + m) == d * o + d * m;
  }

  /** What remains open keeps its distance from the close price, in money. */
  lemma AverageKeepsMoney(average: real, price: real, n: uint32, left: uint32, o: real, all: real)
    requires left > 0 && o == left as real && all == o + n as real
    ensures (AverageAfterClose(average, price, n, left) - price) * o == (average - price) * all
  {
    MoneyKept(average, price, n as real, left as real);
  }

  lemma Cancel(x: real, y: real, o: real)
    requires x * o == y * o && o != 0.0
    ensures x == y
  {
    assert (x - y) * o == 0.0;
  }

  lemma SplitAverage(average: real, price: real, a: uint32, b: uint32, left: uint32)
    requires left + a + b < TWO_TO_32
    ensures AverageAfterClose(AverageAfterClose(average, price, a, left + b), price, b, left)
            == AverageAfterClose(average, price, a + b, left)
  {
    if left > 0 {
      hide AverageAfterClose;
      var once := AverageAfterClose(average, price, a, left + b);
      var twice := AverageAfterClose(once, price, b, left);
      var direct := AverageAfterClose(average, price, a + b, left);
      var o, o1, all := left as real, (left + b) as real, (left + b + a) as real;
      AverageKeepsMoney(average, price, a, left + b, o1, all);
      AverageKeepsMoney(once, price, b, left, o, o1);
      AverageKeepsMoney(average, price, a + b, left, o, all);
      calc {
        (twice - price) * o;
        (once - price) * o1;
        (average - price) * all;
        (direct - price) * o;
      }
      Cancel(twice - price, direct - price, o);
    }
  }

  lemma SplitReach(s: Selector, lots: seq<PositionRecord>, a: uint32, b: uint32)
    requires AllOpen(lots) && a + b <= Qty(AllLots, lots) && a + b < TWO_TO_32
    requires a + b <= Qty(s, lots) || a + b - Qty(s, lots) <= Lead(s, lots)
    ensures var x := LotsAfterClose(s, lots, a);
            AllOpen(x) && (b <= Qty(s, x) || b - Qty(s, x) <= Lead(s, x))
  {
    hide Take, Qty, Lead;
    var u := Take(s, lots, a);
    TakeShrinks(s, lots, a);
    var c: uint32 := a - Min(a, Qty(s, lots));
    TakeShrinks(AllLots, u, c);
    if a > Qty(s, lots) {
      TakeMoreThanAll(s, lots, a);
      TakeWhenNonePicked(s, u, c);
      TakeWhenNonePicked(s, Take(AllLots, u, c), 0);
      LeadWithin(s, lots);
    } else {
      TakeNothing(u);
    }
  }

  lemma TakeNothing(lots: seq<PositionRecord>)
    ensures Take(AllLots, lots, 0) == lots
  {
  }

  /** Before a positive profitable lot stand only unpicked ones. */
  lemma {:induction false} LeadWithin(s: Selector, lots: seq<PositionRecord>)
    ensures Lead(s, lots) + Qty(s, lots) <= Qty(AllLots, lots)
  {
    if lots == [] {
    } else {
      LeadWithin(s, lots[1..]);
      QtyWithin(s, lots);
    }
  }

  lemma {:induction false} QtyWithin(s: Selector, lots: seq<PositionRecord>)
    ensures Qty(s, lots) <= Qty(AllLots, lots)
  {
    if lots == [] {
    } else {
      QtyWithin(s, lots[1..]);
    }
  }

  /** Exactness of a close carries over to its two parts. */
  lemma SplitExact(t: Table, id: uint32, a: uint32, b: uint32, price: real)
    requires t.openSize == Qty(OpenLots, t.records) && a + b <= t.openSize && CloseExact(t, a + b, price)
    ensures CloseExact(t, a, price)
    ensures var s := FirstPass(t.isLong, price);
            DeleteComplete(RecordClose(t, id, a, price)).Scan() == LotsAfterClose(s, OpenOnly(t.Scan()), a)
    ensures CloseExact(DeleteComplete(RecordClose(t, id, a, price)), b, price)
  {
    hide Match, AverageAfterClose, Take, Qty, Reach, Lead, AnyStale, OpenOnly, LotsAfterClose;
    var s, lots := FirstPass(t.isLong, price), OpenOnly(t.Scan());
    var x := LotsAfterClose(s, lots, a);
    CloseLeavesLots(t, id, a, price);
    OpenOnlyReverse(RecordClose(t, id, a, price).records);
    OpenOnlySums(t.Scan());
    SumsScan(OpenLots, t.isLong, t.records);
    OpenReach(s, t.Scan());
    ReachBounds(s, t.Scan());
    OpenIsAll(lots);
    SplitReach(s, lots, a, b);
    NoneStale(s, x);
    ReachBounds(s, x);
  }

  lemma {:induction false} OpenIsAll(lots: seq<PositionRecord>)
    requires AllOpen(lots)
    ensures Qty(OpenLots, lots) == Qty(AllLots, lots) && OpenOnly(lots) == lots
  {
    if lots == [] {
    } else {
      OpenIsAll(lots[1..]);
    }
  }

  lemma {:induction false} NoneStale(s: Selector, lots: seq<PositionRecord>)
    requires AllOpen(lots)
    ensures !AnyStale(s, lots)
  {
    if lots == [] {
    } else {
      NoneStale(s, lots[1..]);
    }
  }

  lemma ScanInjective(isLong: bool, a: seq<PositionRecord>, b: seq<PositionRecord>)
    requires ScanOrder(isLong, a) == ScanOrder(isLong, b)
    ensures a == b
  {
    ReverseTwice(a);
    ReverseTwice(b);
  }

  /**
   Splitting a close does not matter: closing `a` and then `b` at one price,
   with the completed records deleted, gives the very table, with its lots,
   profit, open size and average, that closing `a + b` gives.
   */
  lemma SplitClose(t: Table, ida: uint32, a: uint32, idb: uint32, b: uint32, id: uint32, price: real)
    requires t.openSize == Qty(OpenLots, t.records) && SameSign(t.records, t.Sign())
    requires a + b <= t.openSize && CloseExact(t, a + b, price)
    ensures CloseExact(t, a, price)
    ensures CloseExact(DeleteComplete(RecordClose(t, ida, a, price)), b, price)
    ensures DeleteComplete(RecordClose(DeleteComplete(RecordClose(t, ida, a, price)), idb, b, price))
            == DeleteComplete(RecordClose(t, id, a + b, price))
  {
    hide Match, AverageAfterClose, Qty, OpenOnly, LotsAfterClose, CloseExact, Total, Cost;
    var s, lots := FirstPass(t.isLong, price), OpenOnly(t.Scan());
    var c1, c := RecordClose(t, ida, a, price), RecordClose(t, id, a + b, price);
    var t1 := DeleteComplete(c1);
    var c2 := RecordClose(t1, idb, b, price);
    SplitExact(t, ida, a, b, price);
    SplitLots(s, lots, a, b) by { OpenOnlySums(t.Scan()); }
    CloseLeavesLots(t, id, a + b, price);
    CloseLeavesLots(t1, idb, b, price);
    assert OpenOnly(t1.Scan()) == t1.Scan() by {
      OpenOnlySums(c1.Scan());
      OpenOnlyReverse(c1.records);
      OpenIsAll(t1.Scan());
    }
    OpenOnlyReverse(c.records);
    OpenOnlyReverse(c2.records);
    ScanInjective(t.isLong, OpenOnly(c2.records), OpenOnly(c.records));
    SplitAverage(t.average, price, a, b, t.openSize - a - b);
    SplitProfit(t, ida, a, idb, b, id, price);
  }

  lemma SplitProfit(t: Table, ida: uint32, a: uint32, idb: uint32, b: uint32, id: uint32, price: real)
    requires SameSign(t.records, t.Sign()) && a + b < TWO_TO_32
    requires CloseExact(t, a, price) && CloseExact(t, a + b, price)
    requires CloseExact(DeleteComplete(RecordClose(t, ida, a, price)), b, price)
    requires var t1 := DeleteComplete(RecordClose(t, ida, a, price));
             OpenOnly(RecordClose(t1, idb, b, price).records) == OpenOnly(RecordClose(t, id, a + b, price).records)
    ensures var t1 := DeleteComplete(RecordClose(t, ida, a, price));
            RecordClose(t1, idb, b, price).pnl == RecordClose(t, id, a + b, price).pnl
  {
    hide RecordClose, OpenOnly, CloseExact, Total, Cost;
    var c1, c := RecordClose(t, ida, a, price), RecordClose(t, id, a + b, price);
    var t1 := DeleteComplete(c1);
    CloseValues(t, ida, a, price);
    OpenOnlySums(c1.records);
    ClosedKind(t, ida, a, price);
    CloseValues(t1, idb, b, price);
    CloseValues(t, id, a + b, price);
    OpenOnlySums(c.records);
    OpenOnlySums(RecordClose(t1, idb, b, price).records);
    CostAdds(a, b, price);
  }

  lemma ClosedKind(t: Table, id: uint32, size: uint32, price: real)
    ensures RecordClose(t, id, size, price).isLong == t.isLong
  {
  }

  // ------------------------------------------------ prediction and realisation

  /** Open lots that would not make a profit. */
  function Losing(s: Selector, rs: seq<PositionRecord>): seq<PositionRecord> {
    if rs == [] then []
    else if rs[0].isComplete || s.Picks(rs[0]) then Losing(s, rs[1..])
    else [rs[0]] + Losing(s, rs[1..])
  }

  lemma {:induction false} LosingAppend(s: Selector, a: seq<PositionRecord>, b: seq<PositionRecord>)
    ensures Losing(s, a + b) == Losing(s, a) + Losing(s, b)
  {
    if a == [] {
      assert a + b == b;
    } else {
      assert (a + b)[1..] == a[1..] + b;
      LosingAppend(s, a[1..], b);
    }
  }

  lemma {:induction false} MatchKeepsLosing(s: Selector, f: CloseFill, rs: seq<PositionRecord>, n: uint32)
    requires s.ProfitableLong? || s.ProfitableShort?
    ensures Losing(s, Match(s, f, rs, n).records) == Losing(s, rs)
    decreases |rs|
  {
    hide Gain;
    if n == 0 || rs == [] {
    } else {
      var one := MatchOne(s, f, rs[0], n);
      MatchKeepsLosing(s, f, rs[1..], one.left);
      LosingAppend(s, one.records, Match(s, f, rs[1..], one.left).records);
      assert Losing(s, one.records[1..]) == [] by {
        if |one.records| == 2 {
          assert one.records[1..] == [rs[0].PartlyClosed(f, n)];
        }
      }
    }
  }

  lemma {:induction false} MatchGains(s: Selector, f: CloseFill, rs: seq<PositionRecord>, n: uint32, sign: int)
    requires n == Qty(s, rs) && SameSign(rs, sign)
    ensures Match(s, f, rs, n).gain == Total(GainIn(s, f.price, sign), rs)
    decreases |rs|
  {
    hide Gain;
    if rs == [] {
    } else {
      GainOfNothing(rs[0].openPrice, f.price, sign);
      MatchGains(s, f, rs[1..], n - s.Size(rs[0]), sign);
      if n > 0 {
        var one := MatchOne(s, f, rs[0], n);
        assert one.gain == GainIn(s, f.price, sign)(rs[0]);
      }
    }
  }

  lemma GainOfNothing(openPrice: real, price: real, sign: int)
    ensures Gain(openPrice, price, 0, sign) == 0.0
  {
  }

  lemma {:induction false} SelectorsAgree(a: Selector, b: Selector, price: real, sign: int, rs: seq<PositionRecord>)
    requires forall r :: r in rs ==> (a.Picks(r) <==> b.Picks(r))
    ensures Qty(a, rs) == Qty(b, rs) && Total(GainIn(a, price, sign), rs) == Total(GainIn(b, price, sign), rs)
  {
    hide Gain, Selector.Picks;
    if rs == [] {
    } else {
      SelectorsAgree(a, b, price, sign, rs[1..]);
    }
  }

  /** The first pass picks the profitable lots: in a long table always, in a short one if no record is complete. */
  lemma FirstPassIsProfitable(t: Table, price: real)
    requires t.isLong || AllOpen(t.records)
    ensures forall r :: r in t.records ==> (FirstPass(t.isLong, price).Picks(r) <==> t.Profitable(price).Picks(r))
    ensures !AnyStale(FirstPass(t.isLong, price), t.Scan())
  {
    if t.isLong {
      LongNeverStale(price, t.Scan());
    } else {
      NoneStale(FirstPass(false, price), t.Scan());
    }
  }

  lemma {:induction false} LongNeverStale(price: real, rs: seq<PositionRecord>)
    ensures !AnyStale(ProfitableLong(price), rs)
  {
    if rs == [] {
    } else {
      LongNeverStale(price, rs[1..]);
    }
  }

  /**
   Prediction equals realisation: closing at `price` no more than the size
   predicted for it touches no losing lot, and closing exactly that size
   raises the profit by the predicted gain and leaves nothing profitable open.
   */
  lemma PredictionIsRealised(t: Table, id: uint32, m: uint32, price: real)
    requires t.openSize == Qty(OpenLots, t.records) && SameSign(t.records, t.Sign())
    requires t.isLong || AllOpen(t.records)
    requires m <= ClosableWithProfit(t, price).0
    ensures var s, (n, gain) := FirstPass(t.isLong, price), ClosableWithProfit(t, price);
            var t' := RecordClose(t, id, m, price);
            && CloseExact(t, m, price)
            && n == Qty(t.Profitable(price), t.records)
            && Losing(s, t'.Scan()) == Losing(s, t.Scan())
            && (m == n ==> t'.pnl == t.pnl + gain && Qty(s, OpenOnly(t'.Scan())) == 0)
  {
    hide Match, AverageAfterClose, Beyond, Gain, Take, Reach, Lead, AnyStale, Qty, Total, OpenOnly, Selector.Picks,
         Losing;
    var s, u := FirstPass(t.isLong, price), t.Profitable(price);
    var (n, gain) := ClosableWithProfit(t, price);
    var t' := RecordClose(t, id, m, price);
    var f := CloseFill(id, price, t'.average);
    var first := Match(s, f, t.Scan(), m);
    FirstPassIsProfitable(t, price);
    SelectorsAgree(s, u, price, t.Sign(), t.records);
    ProfitableWithinOpen(u, t.records) by { ProfitableIsOpen(t, price); }
    SumsScan(s, t.isLong, t.records);
    ReachBounds(s, t.Scan());
    MatchLeft(s, f, t.Scan(), m);
    MatchNothing(f, first.records);
    ReverseTwice(first.records);
    MatchKeepsLosing(s, f, t.Scan(), m);
    if m == n {
      MatchGains(s, f, t.Scan(), m, t.Sign());
      TotalReverse(GainIn(s, price, t.Sign()), t.records);
      CloseLeavesLots(t, id, m, price);
      AllTaken(t, m, price);
    }
  }

  lemma MatchNothing(f: CloseFill, rs: seq<PositionRecord>)
    ensures Match(AllLots, f, rs, 0) == Matched(rs, 0, 0.0)
  {
  }

  lemma ProfitableIsOpen(t: Table, price: real)
    ensures forall r: PositionRecord :: t.Profitable(price).Picks(r) ==> !r.isComplete
  {
  }

  lemma {:induction false} ProfitableWithinOpen(u: Selector, rs: seq<PositionRecord>)
    requires forall r: PositionRecord :: u.Picks(r) ==> !r.isComplete
    ensures Qty(u, rs) <= Qty(OpenLots, rs)
  {
    if rs == [] {
    } else {
      ProfitableWithinOpen(u, rs[1..]);
    }
  }

  /** Taking all that is picked leaves nothing picked among the open lots. */
  lemma AllTaken(t: Table, m: uint32, price: real)
    requires var s := FirstPass(t.isLong, price); m == Qty(s, t.Scan()) && !AnyStale(s, t.Scan())
    ensures var s := FirstPass(t.isLong, price); Qty(s, LotsAfterClose(s, OpenOnly(t.Scan()), m)) == 0
  {
    hide Take, Qty, Reach, AnyStale, OpenOnly;
    var s, lots := FirstPass(t.isLong, price), OpenOnly(t.Scan());
    OpenReach(s, t.Scan());
    ReachBounds(s, t.Scan());
    OpenOnlySums(t.Scan());
    TakeShrinks(s, lots, m);
    TakeNothing(Take(s, lots, m));
  }
}
