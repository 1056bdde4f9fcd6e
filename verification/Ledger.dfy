/**
 The position ledger as a value: one record per lot, the table of lots an
 account keeps, and what each table operation does to it.  The class in
 PositionRecordTable.dfy performs these operations in place.
 */
module Ledger {
  const TWO_TO_32 := 0x1_0000_0000

  /** The 32-bit unsigned integers in which the program counts shares and orders. */
  type uint32 = x: int | 0 <= x < TWO_TO_32

  /** What a 32-bit unsigned subtraction or addition leaves in the variable. */
  function Wrap32(x: int): (w: uint32)
    ensures 0 <= x < TWO_TO_32 ==> w == x
  {
    x % TWO_TO_32
  }

  /** Wrapping changes a number by a multiple of 2^32. */
  lemma WrapsAround(x: int)
    ensures exists k: int :: Wrap32(x) == x + k * 0x1_0000_0000
  {
    assert Wrap32(x) == x + -(x / TWO_TO_32) * 0x1_0000_0000;
  }

  datatype PositionRecord = PositionRecord(
    openOrderId: uint32, openSize: uint32, openPrice: real, averageAtOpen: real,
    closeOrderId: uint32, closeSize: uint32, closePrice: real, averageAtClose: real,
    isComplete: bool, pnl: real, sign: int)
  {
    /** The unclosed part of a lot from which `closedSize` shares are split off. */
    function Remainder(closedSize: uint32): PositionRecord
      requires closedSize <= openSize
    {
      OpenRecord(openOrderId, openSize - closedSize, openPrice, averageAtOpen, sign)
    }

    /** The lot closed in full. */
    function Closed(f: CloseFill): PositionRecord {
      this.(closeOrderId := f.id, closeSize := openSize, closePrice := f.price, averageAtClose := f.average,
            isComplete := true, pnl := Gain(openPrice, f.price, openSize, sign))
    }

    /** The part of `size` shares that a close splits off. */
    function PartlyClosed(f: CloseFill, size: uint32): PositionRecord {
      this.(openSize := size).Closed(f)
    }
  }

  /** Profit on `size` shares opened at one price and closed at another. */
  function Gain(openPrice: real, closePrice: real, size: uint32, sign: int): real {
    (closePrice - openPrice) * size as real * sign as real
  }

  function Cost(size: uint32, price: real): real {
    size as real * price
  }

  /** `a` lies strictly beyond `b`: above it for a long table, below it for a short one. */
  predicate Beyond(a: real, b: real, sign: int) {
    (a - b) * sign as real > 0.0
  }

  /** A closing fill together with the table's average after it. */
  datatype CloseFill = CloseFill(id: uint32, price: real, average: real)

  function OpenRecord(id: uint32, size: uint32, price: real, average: real, sign: int): PositionRecord {
    PositionRecord(id, size, price, average, 0, 0, 0.0, 0.0, false, 0.0, sign)
  }

  /** The kinds of lots the passes and the sums range over. */
  datatype Selector = AllLots | OpenLots | CompletedLots | ProfitableLong(price: real) | ProfitableShort(price: real)
    | OpenAndProfitable(price: real, sign: int)
  {
    predicate Picks(r: PositionRecord) {
      match this
      case AllLots => true
      case OpenLots => !r.isComplete
      case CompletedLots => r.isComplete
      case ProfitableLong(p) => r.openPrice < p && !r.isComplete
      case ProfitableShort(p) => r.openPrice > p
      case OpenAndProfitable(p, sign) => !r.isComplete && Beyond(p, r.openPrice, sign)
    }

    function Size(r: PositionRecord): nat {
      if Picks(r) then r.openSize else 0
    }
  }

  /** Number of shares in the picked lots. */
  function Qty(s: Selector, rs: seq<PositionRecord>): nat {
    if rs == [] then 0 else s.Size(rs[0]) + Qty(s, rs[1..])
  }

  /** What the picked lots cost when they were opened. */
  function Value(s: Selector, rs: seq<PositionRecord>): real {
    Total(CostIn(s), rs)
  }

  function CostIn(s: Selector): PositionRecord -> real {
    (r: PositionRecord) => if s.Picks(r) then Cost(r.openSize, r.openPrice) else 0.0
  }

  /** Profit each picked lot would make at `price`. */
  function GainIn(s: Selector, price: real, sign: int): PositionRecord -> real {
    (r: PositionRecord) => if s.Picks(r) then Gain(r.openPrice, price, r.openSize, sign) else 0.0
  }

  function Total<T>(weight: T -> real, xs: seq<T>): real {
    if xs == [] then 0.0 else weight(xs[0]) + Total(weight, xs[1..])
  }

  function Reverse<T>(s: seq<T>): (r: seq<T>)
    ensures |r| == |s|
  {
    seq(|s|, i requires 0 <= i < |s| => s[|s| - 1 - i])
  }

  // ---------------------------------------------------------------- matching

  datatype Matched = Matched(records: seq<PositionRecord>, left: uint32, gain: real)

  /**
   What a close with `n` shares left does to one record.  A lot that is too
   large is split; the unclosed part then stands before the closed part in the
   order in which the pass visits the records.
   */
  function MatchOne(s: Selector, f: CloseFill, r: PositionRecord, n: uint32): Matched {
    if !s.Picks(r) then Matched([r], n, 0.0)
    else if r.openSize <= n then Matched([r.Closed(f)], n - r.openSize, r.Closed(f).pnl)
    else Matched([r.Remainder(n), r.PartlyClosed(f, n)], 0, r.PartlyClosed(f, n).pnl)
  }

  function Join(visited: seq<PositionRecord>, gain: real, m: Matched): Matched {
    Matched(visited + m.records, m.left, gain + m.gain)
  }

  /** One matching pass of a close for `n` shares, over the records in the order in which the pass visits them. */
  function Match(s: Selector, f: CloseFill, rs: seq<PositionRecord>, n: uint32): Matched {
    if n == 0 || rs == [] then Matched(rs, n, 0.0)
    else
      var one := MatchOne(s, f, rs[0], n);
      Join(one.records, one.gain, Match(s, f, rs[1..], one.left))
  }

  lemma JoinJoin(a: seq<PositionRecord>, g: real, b: seq<PositionRecord>, h: real, m: Matched)
    ensures Join(a, g, Join(b, h, m)) == Join(a + b, g + h, m)
  {
    assert a + (b + m.records) == a + b + m.records;
  }

  /** Long tables are scanned from the back, short tables from the front. */
  function ScanOrder(isLong: bool, rs: seq<PositionRecord>): seq<PositionRecord> {
    if isLong then Reverse(rs) else rs
  }

  /** What the first pass of a close picks: the long test skips completed records, the short test does not. */
  function FirstPass(isLong: bool, price: real): Selector {
    if isLong then ProfitableLong(price) else ProfitableShort(price)
  }

  // ------------------------------------------------------------------- table

  datatype Table = Table(isLong: bool, records: seq<PositionRecord>, openSize: uint32, pnl: real, average: real)
  {
    function Sign(): int {
      if isLong then 1 else -1
    }

    /** The records as a close visits them. */
    function Scan(): seq<PositionRecord> {
      ScanOrder(isLong, records)
    }
    /** The open lots that would make a profit if closed at `price`. */
    function Profitable(price: real): Selector {
      OpenAndProfitable(price, Sign())
    }
  }

  function EmptyTable(isLong: bool): Table {
    Table(isLong, [], 0, 0.0, 0.0)
  }

  /** Where an opening lot goes: before the first lot priced strictly beyond it. */
  function InsertionPoint(rs: seq<PositionRecord>, price: real, sign: int): (k: nat)
    ensures k <= |rs|
    ensures forall i :: 0 <= i < k ==> !Beyond(rs[i].openPrice, price, sign)
    ensures k < |rs| ==> Beyond(rs[k].openPrice, price, sign)
  {
    if rs == [] || Beyond(rs[0].openPrice, price, sign) then 0
    else 1 + InsertionPoint(rs[1..], price, sign)
  }

  function AverageAfterOpen(average: real, price: real, size: uint32, openSize: uint32): real {
    if openSize > 0 then average + (price - average) * size as real / openSize as real else 0.0
  }

  function AverageAfterClose(average: real, price: real, size: uint32, openSize: uint32): real {
    if openSize > 0 then average + (average - price) * size as real / openSize as real else 0.0
  }

  function RecordOpen(t: Table, id: uint32, size: uint32, price: real): Table {
    var openSize := Wrap32(t.openSize + size);
    var average := AverageAfterOpen(t.average, price, size, openSize);
    var k := InsertionPoint(t.records, price, t.Sign());
    t.(records := t.records[..k] + [OpenRecord(id, size, price, average, t.Sign())] + t.records[k..],
       openSize := openSize, average := average)
  }

  function RecordClose(t: Table, id: uint32, size: uint32, price: real): Table {
    var openSize := Wrap32(t.openSize - size);
    var average := AverageAfterClose(t.average, price, size, openSize);
    var f := CloseFill(id, price, average);
    var first := Match(FirstPass(t.isLong, price), f, t.Scan(), size);
    var second := Match(AllLots, f, first.records, first.left);
    t.(records := ScanOrder(t.isLong, second.records), openSize := openSize,
       pnl := t.pnl + first.gain + second.gain, average := average)
  }

  /** Size and profit of everything that could be closed with profit at `price`. */
  function ClosableWithProfit(t: Table, price: real): (uint32, real) {
    (Wrap32(Qty(t.Profitable(price), t.records)), Total(GainIn(t.Profitable(price), price, t.Sign()), t.records))
  }

  /** The records that are still open, in order. */
  function OpenOnly(rs: seq<PositionRecord>): seq<PositionRecord> {
    if rs == [] then []
    else if rs[0].isComplete then OpenOnly(rs[1..])
    else [rs[0]] + OpenOnly(rs[1..])
  }

  function DeleteComplete(t: Table): Table {
    t.(records := OpenOnly(t.records))
  }

  // ----------------------------------------------------- facts about the sums

  lemma {:induction false} TotalAppend<T>(weight: T -> real, a: seq<T>, b: seq<T>)
    ensures Total(weight, a + b) == Total(weight, a) + Total(weight, b)
  {
    if a == [] {
      assert a + b == b;
    } else {
      assert (a + b)[1..] == a[1..] + b;
      TotalAppend(weight, a[1..], b);
    }
  }

  lemma {:induction false} QtyAppend(s: Selector, a: seq<PositionRecord>, b: seq<PositionRecord>)
    ensures Qty(s, a + b) == Qty(s, a) + Qty(s, b)
  {
    if a == [] {
      assert a + b == b;
    } else {
      assert (a + b)[1..] == a[1..] + b;
      QtyAppend(s, a[1..], b);
    }
  }

  lemma QtyOfTwo(s: Selector, a: PositionRecord, b: PositionRecord)
    ensures Qty(s, [a]) == s.Size(a) && Qty(s, [a, b]) == s.Size(a) + s.Size(b)
  {
    hide Selector.Size;
    assert [a, b][1..] == [b] && [b][1..] == [] && [a][1..] == [];
    assert Qty(s, []) == 0;
    assert Qty(s, [b]) == s.Size(b);
  }

  lemma TotalOfTwo<T>(weight: T -> real, a: T, b: T)
    ensures Total(weight, [a]) == weight(a) && Total(weight, [a, b]) == weight(a) + weight(b)
  {
    assert [a, b][1..] == [b] && [b][1..] == [] && [a][1..] == [];
    assert Total(weight, []) == 0.0;
    assert Total(weight, [b]) == weight(b);
  }

  lemma {:induction false} TotalReverse<T>(weight: T -> real, xs: seq<T>)
    ensures Total(weight, Reverse(xs)) == Total(weight, xs)
  {
    if xs == [] {
      assert Reverse(xs) == [];
    } else {
      ReverseStep(xs);
      TotalReverse(weight, xs[1..]);
      TotalAppend(weight, Reverse(xs[1..]), [xs[0]]);
    }
  }

  lemma ReverseStep<T>(s: seq<T>)
    requires s != []
    ensures Reverse(s) == [s[|s| - 1]] + Reverse(s[..|s| - 1])
    ensures Reverse(s) == Reverse(s[1..]) + [s[0]]
    ensures Reverse(s)[1..] == Reverse(s[..|s| - 1])
  {
  }

  lemma ReverseShort<T>(x: T, y: T)
    ensures Reverse<T>([]) == []
    ensures Reverse([x]) == [x]
    ensures Reverse([x, y]) == [y, x]
  {
  }

  lemma ReverseAppend<T>(a: seq<T>, b: seq<T>)
    ensures Reverse(a + b) == Reverse(b) + Reverse(a)
  {
  }

  lemma ReverseTwice<T>(s: seq<T>)
    ensures Reverse(Reverse(s)) == s
  {
  }

  lemma {:induction false} QtyReverse(s: Selector, rs: seq<PositionRecord>)
    ensures Qty(s, Reverse(rs)) == Qty(s, rs)
  {
    if rs == [] {
      assert Reverse(rs) == [];
    } else {
      ReverseStep(rs);
      QtyReverse(s, rs[1..]);
      QtyAppend(s, Reverse(rs[1..]), [rs[0]]);
    }
  }

  /** Sums do not depend on the direction in which a table is read. */
  lemma SumsScan(s: Selector, isLong: bool, rs: seq<PositionRecord>)
    ensures Qty(s, ScanOrder(isLong, rs)) == Qty(s, rs)
    ensures Value(s, ScanOrder(isLong, rs)) == Value(s, rs)
  {
    QtyReverse(s, rs);
    TotalReverse(CostIn(s), rs);
  }

  lemma {:induction false} OpenOnlyAppend(a: seq<PositionRecord>, b: seq<PositionRecord>)
    ensures OpenOnly(a + b) == OpenOnly(a) + OpenOnly(b)
  {
    if a == [] {
      assert a + b == b;
    } else {
      assert (a + b)[1..] == a[1..] + b;
      OpenOnlyAppend(a[1..], b);
    }
  }

  lemma {:induction false} OpenOnlyReverse(rs: seq<PositionRecord>)
    ensures OpenOnly(Reverse(rs)) == Reverse(OpenOnly(rs))
  {
    if rs == [] {
      assert Reverse(rs) == [];
    } else {
      ReverseStep(rs);
      OpenOnlyReverse(rs[1..]);
      OpenOnlyAppend(Reverse(rs[1..]), [rs[0]]);
      if !rs[0].isComplete {
        assert OpenOnly(rs) == [rs[0]] + OpenOnly(rs[1..]);
        ReverseStep(OpenOnly(rs));
        assert OpenOnly(rs)[0] == rs[0] && OpenOnly(rs)[1..] == OpenOnly(rs[1..]);
      }
    }
  }

  /** Deleting completed records changes neither the open lots' size nor their cost. */
  lemma {:induction false} OpenOnlySums(rs: seq<PositionRecord>)
    ensures Qty(OpenLots, OpenOnly(rs)) == Qty(OpenLots, rs)
    ensures Value(OpenLots, OpenOnly(rs)) == Value(OpenLots, rs)
    ensures forall r :: r in OpenOnly(rs) ==> r in rs && !r.isComplete
  {
    if rs == [] {
    } else {
      OpenOnlySums(rs[1..]);
      if !rs[0].isComplete {
        assert OpenOnly(rs)[0] == rs[0] && OpenOnly(rs)[1..] == OpenOnly(rs[1..]);
      }
    }
  }
}
