/**
 The order of the lots: every run keeps the table ordered by price, equal
 prices stay in order of arrival, and from a table in price order it can be
 said in advance which closes are exact.
 */
module PriceOrder {
  import opened Ledger
  import opened Matching
  import opened CloseOutcome

  // ------------------------------------------------------------- price order

  /** Visited by a close, prices never rise: long tables ascend, short tables descend. */
  predicate Descending(rs: seq<PositionRecord>) {
    forall i, j :: 0 <= i < j < |rs| ==> rs[i].openPrice >= rs[j].openPrice
  }

  predicate AtMost(rs: seq<PositionRecord>, price: real) {
    forall r :: r in rs ==> r.openPrice <= price
  }

  predicate InPriceOrder(t: Table) {
    Descending(t.Scan())
  }

  lemma DescendingJoin(a: seq<PositionRecord>, b: seq<PositionRecord>, price: real)
    requires forall r :: r in a ==> r.openPrice == price
    requires AtMost(b, price) && Descending(b)
    ensures Descending(a + b)
  {
  }

  lemma {:induction false} MatchKeepsOrder(s: Selector, f: CloseFill, rs: seq<PositionRecord>, n: uint32, top: real)
    requires Descending(rs) && AtMost(rs, top)
    ensures Descending(Match(s, f, rs, n).records) && AtMost(Match(s, f, rs, n).records, top)
    decreases |rs|
  {
    hide MatchOne;
    if n == 0 || rs == [] {
    } else {
      var one := MatchOne(s, f, rs[0], n);
      OneSign(s, f, rs[0], n);
      forall r | r in rs[1..] ensures r.openPrice <= rs[0].openPrice {
        var k :| 0 <= k < |rs[1..]| && rs[1..][k] == r;
        assert rs[k + 1] == r;
      }
      MatchKeepsOrder(s, f, rs[1..], one.left, rs[0].openPrice);
      DescendingJoin(one.records, Match(s, f, rs[1..], one.left).records, rs[0].openPrice);
    }
  }

  lemma CloseKeepsOrder(t: Table, id: uint32, size: uint32, price: real)
    requires InPriceOrder(t)
    ensures InPriceOrder(RecordClose(t, id, size, price))
  {
    hide Match, AverageAfterClose;
    var s, rs := FirstPass(t.isLong, price), t.Scan();
    var f := CloseFill(id, price, RecordClose(t, id, size, price).average);
    var top := if rs == [] then 0.0 else rs[0].openPrice;
    var first := Match(s, f, rs, size);
    MatchKeepsOrder(s, f, rs, size, top);
    MatchKeepsOrder(AllLots, f, first.records, first.left, top);
    ReverseTwice(Match(AllLots, f, first.records, first.left).records);
  }

  lemma InsertDescending(rs: seq<PositionRecord>, k: nat, x: PositionRecord)
    requires k <= |rs| && Descending(rs)
    requires k > 0 ==> rs[k - 1].openPrice >= x.openPrice
    requires k < |rs| ==> rs[k].openPrice <= x.openPrice
    ensures Descending(rs[..k] + [x] + rs[k..])
  {
    var out := rs[..k] + [x] + rs[k..];
    forall i, j | 0 <= i < j < |out| ensures out[i].openPrice >= out[j].openPrice {
      assert out[i] == if i < k then rs[i] else if i == k then x else rs[i - 1];
      assert out[j] == if j < k then rs[j] else if j == k then x else rs[j - 1];
    }
  }

  lemma InsertReversed(rs: seq<PositionRecord>, k: nat, x: PositionRecord)
    requires k <= |rs|
    ensures var n := |rs| - k;
            Reverse(rs[..k] + [x] + rs[k..]) == Reverse(rs)[..n] + [x] + Reverse(rs)[n..]
  {
  }

  lemma OpenKeepsOrder(t: Table, id: uint32, size: uint32, price: real)
    requires InPriceOrder(t)
    ensures InPriceOrder(RecordOpen(t, id, size, price))
  {
    hide AverageAfterOpen;
    var k := InsertionPoint(t.records, price, t.Sign());
    var x := RecordOpen(t, id, size, price).records[k];
    if t.isLong {
      InsertReversed(t.records, k, x);
      InsertDescending(t.Scan(), |t.records| - k, x);
    } else {
      InsertDescending(t.records, k, x);
    }
  }

  lemma {:induction false} OpenOnlyKeepsOrder(rs: seq<PositionRecord>)
    requires Descending(rs)
    ensures Descending(OpenOnly(rs))
  {
    hide Qty, Value;
    if rs == [] {
    } else {
      var rest := OpenOnly(rs[1..]);
      OpenOnlyKeepsOrder(rs[1..]);
      OpenOnlySums(rs[1..]);
      if !rs[0].isComplete {
        assert OpenOnly(rs) == [rs[0]] + rest;
        forall j | 0 <= j < |rest| ensures rs[0].openPrice >= rest[j].openPrice {
          assert rest[j] in rest;
        }
      }
    }
  }

  lemma DeleteKeepsOrder(t: Table)
    requires InPriceOrder(t)
    ensures InPriceOrder(DeleteComplete(t))
  {
    OpenOnlyReverse(t.records);
    OpenOnlyKeepsOrder(t.Scan());
  }

  /** The first and last prices of a table in price order are its extreme prices. */
  lemma EndsAreExtreme(t: Table, r: PositionRecord)
    requires InPriceOrder(t) && r in t.records
    ensures var first, last := t.records[0].openPrice, t.records[|t.records| - 1].openPrice;
            if t.isLong then first <= r.openPrice <= last else last <= r.openPrice <= first
  {
    var k :| 0 <= k < |t.records| && t.records[k] == r;
    if t.isLong {
      var n := |t.records|;
      assert t.Scan()[n - 1 - k] == r && t.Scan()[0] == t.records[n - 1] && t.Scan()[n - 1] == t.records[0];
    }
  }

  // ------------------------------------- which closes are exact, told beforehand

  lemma {:induction false} LongLead(price: real, rs: seq<PositionRecord>)
    requires AllOpen(rs) && Descending(rs)
    ensures var s := ProfitableLong(price); Lead(s, rs) + Qty(s, rs) >= Qty(AllLots, rs)
  {
    if rs == [] {
    } else {
      var s := ProfitableLong(price);
      LongLead(price, rs[1..]);
      if s.Picks(rs[0]) {
        SelectorsAgree(s, AllLots, 0.0, 1, rs);
      }
    }
  }

  lemma {:induction false} ShortLead(price: real, rs: seq<PositionRecord>)
    requires AllOpen(rs) && Descending(rs)
    ensures var s := ProfitableShort(price); Lead(s, rs) == if Qty(s, rs) == 0 then Qty(AllLots, rs) else 0
  {
    if rs == [] {
    } else {
      var s := ProfitableShort(price);
      ShortLead(price, rs[1..]);
      if !s.Picks(rs[0]) {
        NonePickedQty(s, rs);
      }
    }
  }

  lemma {:induction false} NonePickedQty(s: Selector, rs: seq<PositionRecord>)
    requires NonePicked(s, rs)
    ensures Qty(s, rs) == 0
  {
    if rs == [] {
    } else {
      NonePickedQty(s, rs[1..]);
    }
  }

  lemma {:induction false} ReverseMembers(rs: seq<PositionRecord>)
    ensures forall r :: r in Reverse(rs) <==> r in rs
  {
    if rs == [] {
      assert Reverse(rs) == [];
    } else {
      ReverseStep(rs);
      ReverseMembers(rs[1..]);
      assert rs == [rs[0]] + rs[1..];
    }
  }

  /** In a long table in price order with no completed record every close is exact. */
  lemma LongCloseIsExact(t: Table, size: uint32, price: real)
    requires t.isLong && AllOpen(t.records) && InPriceOrder(t)
    requires t.openSize == Qty(OpenLots, t.records) && size <= t.openSize
    ensures CloseExact(t, size, price)
  {
    ReverseMembers(t.records);
    SumsScan(OpenLots, t.isLong, t.records);
    OpenIsAll(t.Scan());
    LongLead(price, t.Scan());
    LongNeverStale(price, t.Scan());
    ReachBounds(ProfitableLong(price), t.Scan());
  }

  /**
   In a short table in price order with no completed record a close is exact
   if and only if it stays within the profitable lots or there are none: both
   short passes start at the same end, so a mixed close meets its own lots again.
   */
  lemma ShortCloseIsExact(t: Table, size: uint32, price: real)
    requires !t.isLong && AllOpen(t.records) && InPriceOrder(t)
    requires t.openSize == Qty(OpenLots, t.records) && size <= t.openSize
    ensures var n := ClosableWithProfit(t, price).0;
            CloseExact(t, size, price) <==> size <= n || n == 0
  {
    hide Beyond, Gain;
    var s := ProfitableShort(price);
    OpenIsAll(t.records);
    ShortLead(price, t.records);
    NoneStale(s, t.records);
    ReachBounds(s, t.records);
    FirstPassIsProfitable(t, price);
    SelectorsAgree(s, t.Profitable(price), price, t.Sign(), t.records);
    ProfitableIsOpen(t, price);
    ProfitableWithinOpen(t.Profitable(price), t.records);
  }

  // --------------------------------------------------------------- stability

  /** The opening orders of the open lots at one price, in table order. */
  function IdsAt(price: real, rs: seq<PositionRecord>): seq<uint32> {
    if rs == [] then []
    else (if !rs[0].isComplete && rs[0].openPrice == price then [rs[0].openOrderId] else []) + IdsAt(price, rs[1..])
  }

  /** `a` is `b` with some elements left out. */
  predicate Subsequence<T(==)>(a: seq<T>, b: seq<T>) {
    a == [] || (b != [] && (Subsequence(a, b[1..]) || (a[0] == b[0] && Subsequence(a[1..], b[1..]))))
  }

  lemma {:induction false} SubsequenceRefl<T>(a: seq<T>)
    ensures Subsequence(a, a)
  {
    if a == [] {
    } else {
      SubsequenceRefl(a[1..]);
    }
  }

  lemma {:induction false} SubsequenceAppend<T>(a: seq<T>, b: seq<T>, c: seq<T>, d: seq<T>)
    requires Subsequence(a, b) && Subsequence(c, d)
    ensures Subsequence(a + c, b + d)
  {
    if b == [] {
      assert a + c == c && b + d == d;
    } else {
      assert (b + d)[1..] == b[1..] + d;
      if Subsequence(a, b[1..]) {
        SubsequenceAppend(a, b[1..], c, d);
      } else {
        SubsequenceAppend(a[1..], b[1..], c, d);
        assert (a + c)[1..] == a[1..] + c;
      }
    }
  }

  lemma {:induction false} SubsequenceTrans<T>(a: seq<T>, b: seq<T>, c: seq<T>)
    requires Subsequence(a, b) && Subsequence(b, c)
    ensures Subsequence(a, c)
    decreases |c|
  {
    if a == [] || b == [] {
    } else {
      if Subsequence(b, c[1..]) {
        SubsequenceTrans(a, b, c[1..]);
      } else if Subsequence(a, b[1..]) {
        SubsequenceTrans(a, b[1..], c[1..]);
      } else {
        SubsequenceTrans(a[1..], b[1..], c[1..]);
      }
    }
  }

  lemma {:induction false} SubsequenceReverse<T>(a: seq<T>, b: seq<T>)
    requires Subsequence(a, b)
    ensures Subsequence(Reverse(a), Reverse(b))
  {
    if a == [] {
      assert Reverse(a) == [];
    } else {
      ReverseStep(a);
      ReverseStep(b);
      if Subsequence(a, b[1..]) {
        SubsequenceReverse(a, b[1..]);
        SubsequenceAppend(Reverse(a), Reverse(b[1..]), [], [b[0]]);
        assert Reverse(a) + [] == Reverse(a);
      } else {
        SubsequenceReverse(a[1..], b[1..]);
        SubsequenceRefl([b[0]]);
        SubsequenceAppend(Reverse(a[1..]), Reverse(b[1..]), [a[0]], [b[0]]);
      }
    }
  }

  lemma {:induction false} IdsAppend(price: real, a: seq<PositionRecord>, b: seq<PositionRecord>)
    ensures IdsAt(price, a + b) == IdsAt(price, a) + IdsAt(price, b)
  {
    if a == [] {
      assert a + b == b;
    } else {
      assert (a + b)[1..] == a[1..] + b;
      IdsAppend(price, a[1..], b);
    }
  }

  lemma {:induction false} IdsReverse(price: real, rs: seq<PositionRecord>)
    ensures IdsAt(price, Reverse(rs)) == Reverse(IdsAt(price, rs))
  {
    if rs == [] {
      assert Reverse(rs) == [];
      assert Reverse(IdsAt(price, rs)) == [];
    } else {
      ReverseStep(rs);
      IdsReverse(price, rs[1..]);
      IdsAppend(price, Reverse(rs[1..]), [rs[0]]);
      IdsAppend(price, [rs[0]], rs[1..]);
      assert [rs[0]] + rs[1..] == rs;
      var one := IdsAt(price, [rs[0]]);
      ReverseAppend(one, IdsAt(price, rs[1..]));
      ReverseShort(rs[0].openOrderId, 0);
      assert IdsAt(price, [rs[0]][1..]) == [];
    }
  }

  lemma {:induction false} IdsOpenOnly(price: real, rs: seq<PositionRecord>)
    ensures IdsAt(price, OpenOnly(rs)) == IdsAt(price, rs)
  {
    if rs == [] {
    } else {
      IdsOpenOnly(price, rs[1..]);
      if !rs[0].isComplete {
        assert OpenOnly(rs)[1..] == OpenOnly(rs[1..]);
      }
    }
  }

  lemma {:induction false} IdsTake(price: real, s: Selector, lots: seq<PositionRecord>, n: uint32)
    requires AllOpen(lots)
    ensures Subsequence(IdsAt(price, Take(s, lots, n)), IdsAt(price, lots))
    decreases |lots|
  {
    hide Subsequence, Selector.Picks;
    var all := IdsAt(price, lots);
    SubsequenceRefl(all);
    if n == 0 || lots == [] {
    } else {
      var r := lots[0];
      var one, rest := IdsAt(price, [r]), IdsAt(price, lots[1..]);
      IdsAppend(price, [r], lots[1..]);
      assert [r] + lots[1..] == lots;
      SubsequenceRefl(one);
      if !s.Picks(r) {
        IdsTake(price, s, lots[1..], n);
        SubsequenceAppend(one, one, IdsAt(price, Take(s, lots[1..], n)), rest);
        IdsAppend(price, [r], Take(s, lots[1..], n));
      } else if r.openSize <= n {
        IdsTake(price, s, lots[1..], n - r.openSize);
        var less := IdsAt(price, Take(s, lots[1..], n - r.openSize));
        EmptySubsequence(one);
        SubsequenceAppend([], one, less, rest);
        assert [] + less == less;
      } else {
        IdsAppend(price, [r.Remainder(n)], lots[1..]);
      }
    }
  }

  lemma EmptySubsequence<T>(b: seq<T>)
    ensures Subsequence([], b)
  {
  }

  lemma IdsInsert(price: real, rs: seq<PositionRecord>, k: nat, x: PositionRecord)
    requires k <= |rs|
    ensures IdsAt(price, rs) == IdsAt(price, rs[..k]) + IdsAt(price, rs[k..])
    ensures IdsAt(price, rs[..k] + [x] + rs[k..]) == IdsAt(price, rs[..k]) + IdsAt(price, [x]) + IdsAt(price, rs[k..])
    ensures IdsAt(price, [x]) == if !x.isComplete && x.openPrice == price then [x.openOrderId] else []
  {
    IdsAppend(price, rs[..k], rs[k..]);
    assert rs[..k] + rs[k..] == rs;
    IdsAppend(price, rs[..k] + [x], rs[k..]);
    IdsAppend(price, rs[..k], [x]);
    assert [x][1..] == [];
  }

  /** Behind the insertion point all prices lie strictly beyond the new one. */
  lemma BehindInsertion(t: Table, price: real, i: nat)
    requires InPriceOrder(t) && InsertionPoint(t.records, price, t.Sign()) <= i < |t.records|
    ensures t.records[i].openPrice != price
  {
    var k := InsertionPoint(t.records, price, t.Sign());
    if t.isLong {
      var n := |t.records|;
      assert t.Scan()[n - 1 - k] == t.records[k] && t.Scan()[n - 1 - i] == t.records[i];
    }
  }

  /** A new lot goes behind the open lots of its own price, and no other price is touched. */
  lemma OpenArrivesLast(t: Table, id: uint32, size: uint32, price: real, at: real)
    requires InPriceOrder(t)
    ensures IdsAt(at, RecordOpen(t, id, size, price).records)
            == IdsAt(at, t.records) + if at == price then [id] else []
  {
    hide AverageAfterOpen, IdsAt, InPriceOrder;
    var k := InsertionPoint(t.records, price, t.Sign());
    IdsInsert(at, t.records, k, RecordOpen(t, id, size, price).records[k]);
    if at == price {
      forall i | k <= i < |t.records| ensures t.records[i].openPrice != price {
        BehindInsertion(t, price, i);
      }
      NoIdsAt(price, t.records[k..]);
    }
  }

  lemma {:induction false} NoIdsAt(price: real, rs: seq<PositionRecord>)
    requires forall r :: r in rs ==> r.openPrice != price
    ensures IdsAt(price, rs) == []
  {
    if rs == [] {
    } else {
      NoIdsAt(price, rs[1..]);
    }
  }

  /** An exact close, with its splits, only takes lots out of the order they had. */
  lemma CloseKeepsArrivals(t: Table, id: uint32, size: uint32, price: real, at: real)
    requires CloseExact(t, size, price)
    ensures Subsequence(IdsAt(at, RecordClose(t, id, size, price).records), IdsAt(at, t.records))
  {
    hide RecordClose, CloseExact, Subsequence, Take, Qty;
    var t' := RecordClose(t, id, size, price);
    var s, lots := FirstPass(t.isLong, price), OpenOnly(t.Scan());
    ClosedKind(t, id, size, price);
    CloseLeavesLots(t, id, size, price);
    OpenOnlySums(t.Scan());
    IdsTake(at, s, lots, size);
    TakeShrinks(s, lots, size);
    IdsTake(at, AllLots, Take(s, lots, size), size - Min(size, Qty(s, lots)));
    SubsequenceTrans(IdsAt(at, OpenOnly(t'.Scan())), IdsAt(at, Take(s, lots, size)), IdsAt(at, lots));
    IdsOpenOnly(at, t'.Scan());
    IdsOpenOnly(at, t.Scan());
    if t.isLong {
      IdsReverse(at, t.records);
      IdsReverse(at, t'.records);
      SubsequenceReverse(IdsAt(at, t'.Scan()), IdsAt(at, t.Scan()));
      ReverseTwice(IdsAt(at, t.records));
      ReverseTwice(IdsAt(at, t'.records));
    }
  }
}
