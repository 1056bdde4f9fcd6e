/**
 The table of lots, edited in place.  Each method is proved to leave exactly
 the state the corresponding function of module Ledger describes.
 */
module PositionTable {
  import opened Ledger
  import opened PriceOrder
  import Grid = Repackaging

  class PositionRecordTable {
    const isLong: bool
    var records: seq<PositionRecord>
    var openSize: uint32
    var pnl: real
    var average: real

    ghost function State(): Table
      reads this
    {
      Table(isLong, records, openSize, pnl, average)
    }

    constructor (isLong: bool)
      ensures State() == EmptyTable(isLong)
    {
      this.isLong := isLong;
      records, openSize, pnl, average := [], 0, 0.0, 0.0;
    }

    function Sign(): (s: int)
      ensures s == State().Sign()
    {
      if isLong then 1 else -1
    }

    method RecordOpenPosition(id: uint32, size: uint32, price: real)
      modifies this
      ensures State() == RecordOpen(old(State()), id, size, price)
    {
      hide AverageAfterOpen, Beyond;
      openSize := Wrap32(openSize + size);
      average := AverageAfterOpen(average, price, size, openSize);
      var record := OpenRecord(id, size, price, average, Sign());
      var k := 0;
      while k < |records| && !Beyond(records[k].openPrice, price, Sign())
        invariant k <= |records|
        invariant InsertionPoint(records, price, Sign()) == k + InsertionPoint(records[k..], price, Sign())
      {
        assert records[k..][1..] == records[k + 1..];
        k := k + 1;
      }
      records := records[..k] + [record] + records[k..];
    }

    method RecordClosePosition(id: uint32, size: uint32, price: real)
      modifies this
      ensures State() == RecordClose(old(State()), id, size, price)
    {
      hide AverageAfterClose, Match, Reverse;
      var deletedSize := size;
      openSize := Wrap32(openSize - size);
      average := AverageAfterClose(average, price, size, openSize);
      var f := CloseFill(id, price, average);
      var gain1, gain2;
      if isLong {
        records, deletedSize, gain1 := PassFromBack(ProfitableLong(price), f, records, deletedSize);
        records, deletedSize, gain2 := PassFromBack(AllLots, f, records, deletedSize);
        ReverseTwice(records);
      } else {
        records, deletedSize, gain1 := PassFromFront(ProfitableShort(price), f, records, deletedSize);
        records, deletedSize, gain2 := PassFromFront(AllLots, f, records, deletedSize);
      }
      pnl := pnl + gain1 + gain2;
    }

    method DeleteCompletePosition()
      modifies this`records
      ensures State() == DeleteComplete(old(State()))
    {
      hide OpenOnly;
      var k := 0;
      while k < |records|
        invariant k <= |records|
        invariant OpenOnly(old(records)) == records[..k] + OpenOnly(records[k..])
        decreases |records| - k
      {
        ghost var was := records;
        OpenOnlyFrom(was, k);
        if records[k].isComplete {
          records := records[..k] + records[k + 1..];
          assert records[..k] == was[..k] && records[k..] == was[k + 1..];
        } else {
          assert was[..k] + ([was[k]] + OpenOnly(was[k + 1..])) == was[..k + 1] + OpenOnly(was[k + 1..]);
          k := k + 1;
        }
      }
      OpenOnlyAtEnd(records, k);
    }

    /** Size and profit of everything that could be closed with profit at `sendPrice`. */
    method SizeofOrderWithPnl(sendPrice: real) returns (sum: uint32, gain: real)
      ensures (sum, gain) == ClosableWithProfit(State(), sendPrice)
    {
      hide Gain, Beyond;
      sum, gain := 0, 0.0;
      var rest := records;
      ghost var s, seen := State().Profitable(sendPrice), 0;
      while rest != []
        invariant sum == Wrap32(seen) && Qty(s, records) == seen + Qty(s, rest)
        invariant Total(GainIn(s, sendPrice, Sign()), records) == gain + Total(GainIn(s, sendPrice, Sign()), rest)
        decreases |rest|
      {
        var r := rest[0];
        if !r.isComplete && Beyond(sendPrice, r.openPrice, Sign()) {
          sum := Wrap32(sum + r.openSize);
          gain := gain + Gain(r.openPrice, sendPrice, r.openSize, Sign());
          seen := seen + r.openSize;
        }
        rest := rest[1..];
      }
    }

    method Repackaging(baseQty: uint32, mpv: real, adjustment: real)
      requires baseQty > 0
      modifies this
      ensures State() == Grid.Repackage(old(State()), baseQty, mpv, adjustment)
    {
      average := average - adjustment * Sign() as real;
      pnl := 0.0;
      records := Grid.LayOutGrid(openSize, baseQty, mpv, average, Sign());
    }

    /** In price order, the minimum price of a long and the maximum of a short table. */
    method StartingPrice() returns (price: real)
      ensures price == if records == [] then 0.0 else records[0].openPrice
      ensures InPriceOrder(State()) && records != [] ==> IsExtreme(price, records, isLong)
    {
      hide InPriceOrder;
      EndsBound(State());
      price := 0.0;
      if |records| != 0 {
        price := records[0].openPrice;
      }
    }

    /** In price order, the maximum price of a long and the minimum of a short table. */
    method EndingPrice() returns (price: real)
      ensures price == if records == [] then 0.0 else records[|records| - 1].openPrice
      ensures InPriceOrder(State()) && records != [] ==> IsExtreme(price, records, !isLong)
    {
      hide InPriceOrder;
      EndsBound(State());
      price := 0.0;
      if |records| != 0 {
        price := records[|records| - 1].openPrice;
      }
    }
  }

  lemma OpenOnlyFrom(rs: seq<PositionRecord>, k: nat)
    requires k < |rs|
    ensures OpenOnly(rs[k..]) == (if rs[k].isComplete then [] else [rs[k]]) + OpenOnly(rs[k + 1..])
  {
    assert rs[k..][0] == rs[k] && rs[k..][1..] == rs[k + 1..];
  }

  lemma OpenOnlyAtEnd(rs: seq<PositionRecord>, k: nat)
    requires k == |rs|
    ensures rs[..k] + OpenOnly(rs[k..]) == rs
  {
  }

  /** The price is that of a lot, and the least (or greatest) of all lots. */
  predicate IsExtreme(price: real, rs: seq<PositionRecord>, least: bool) {
    && (exists r :: r in rs && r.openPrice == price)
    && forall r :: r in rs ==> if least then price <= r.openPrice else r.openPrice <= price
  }

  lemma EndsBound(t: Table)
    ensures InPriceOrder(t) && t.records != [] ==>
              && IsExtreme(t.records[0].openPrice, t.records, t.isLong)
              && IsExtreme(t.records[|t.records| - 1].openPrice, t.records, !t.isLong)
  {
    hide InPriceOrder;
    if InPriceOrder(t) && t.records != [] {
      assert t.records[0] in t.records && t.records[|t.records| - 1] in t.records;
      forall r | r in t.records
        ensures var first, last := t.records[0].openPrice, t.records[|t.records| - 1].openPrice;
                if t.isLong then first <= r.openPrice <= last else last <= r.openPrice <= first
      {
        EndsAreExtreme(t, r);
      }
    }
  }

  // In the passes below the iterator stands between `visited` and `rest`, which together are the whole list.

  /** One pass of the short close. */
  method PassFromFront(s: Selector, f: CloseFill, lots: seq<PositionRecord>, size: uint32)
    returns (records: seq<PositionRecord>, left: uint32, gain: real)
    ensures Matched(records, left, gain) == Match(s, f, lots, size)
  {
    hide Gain;
    left, gain := size, 0.0;
    var visited, rest := [], lots;
    while rest != [] && left > 0
      invariant Match(s, f, lots, size) == Join(visited, gain, Match(s, f, rest, left))
      decreases |rest|
    {
      var r := rest[0];
      ghost var one := MatchOne(s, f, r, left);
      JoinJoin(visited, gain, one.records, one.gain, Match(s, f, rest[1..], one.left));
      rest := rest[1..];
      if !s.Picks(r) {
        visited := visited + [r];
      } else if left >= r.openSize {
        left := left - r.openSize;
        gain := gain + r.Closed(f).pnl;
        visited := visited + [r.Closed(f)];
      } else {
        visited := visited + [r.Remainder(left), r.PartlyClosed(f, left)];
        gain := gain + r.PartlyClosed(f, left).pnl;
        left := 0;
        break;
      }
    }
    records := visited + rest;
  }

  /** What the pass from the back puts in front of the visited records for the record `r`. */
  lemma BackStep(s: Selector, f: CloseFill, rest: seq<PositionRecord>, visited: seq<PositionRecord>, gain: real,
                 left: uint32)
    requires rest != [] && left > 0
    ensures var one := MatchOne(s, f, rest[|rest| - 1], left);
            Join(Reverse(visited), gain, Match(s, f, Reverse(rest), left))
            == Join(Reverse(Reverse(one.records) + visited), gain + one.gain,
                    Match(s, f, Reverse(rest[..|rest| - 1]), one.left))
  {
    hide Reverse, MatchOne, Join;
    var one := MatchOne(s, f, rest[|rest| - 1], left);
    ReverseStep(rest);
    ReverseAppend(Reverse(one.records), visited);
    ReverseTwice(one.records);
    JoinJoin(Reverse(visited), gain, one.records, one.gain, Match(s, f, Reverse(rest[..|rest| - 1]), one.left));
  }

  /** One pass of the long close; the unclosed part of a split lot is inserted behind the closed part. */
  method PassFromBack(s: Selector, f: CloseFill, lots: seq<PositionRecord>, size: uint32)
    returns (records: seq<PositionRecord>, left: uint32, gain: real)
    ensures Matched(Reverse(records), left, gain) == Match(s, f, Reverse(lots), size)
  {
    hide Gain, Reverse;
    left, gain := size, 0.0;
    var rest, visited := lots, [];
    assert Reverse(visited) == [];
    while rest != [] && left > 0
      invariant Match(s, f, Reverse(lots), size) == Join(Reverse(visited), gain, Match(s, f, Reverse(rest), left))
      decreases |rest|
    {
      hide Match, Join;
      var r := rest[|rest| - 1];
      BackStep(s, f, rest, visited, gain, left);
      rest := rest[..|rest| - 1];
      if !s.Picks(r) {
        ReverseShort(r, r);
        visited := [r] + visited;
      } else if left >= r.openSize {
        ReverseShort(r.Closed(f), r);
        left := left - r.openSize;
        gain := gain + r.Closed(f).pnl;
        visited := [r.Closed(f)] + visited;
      } else {
        ReverseShort(r.Remainder(left), r.PartlyClosed(f, left));
        visited := [r.PartlyClosed(f, left), r.Remainder(left)] + visited;
        gain := gain + r.PartlyClosed(f, left).pnl;
        left := 0;
        break;
      }
    }
    records := rest + visited;
    ReverseAppend(rest, visited);
  }
}
