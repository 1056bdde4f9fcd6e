/**
 What is written into the records of a table: where each lot was opened, and at
 what close, price and average each completed record was closed.
 */
module ClosedRecords {
  import opened Ledger
  import opened Matching
  import opened CloseOutcome
  import opened LedgerRuns

  /** A completed record is closed in full and gains by its two prices; an open one has no closing entries. */
  predicate Entered(r: PositionRecord) {
    if r.isComplete then
      && r.closeSize == r.openSize
      && r.pnl == (r.closePrice - r.openPrice) * r.closeSize as real * r.sign as real
    else
      r.closeOrderId == 0 && r.closeSize == 0 && r.closePrice == 0.0 && r.averageAtClose == 0.0 && r.pnl == 0.0
  }

  predicate AllEntered(rs: seq<PositionRecord>) {
    forall r :: r in rs ==> Entered(r)
  }

  lemma OneEntered(s: Selector, f: CloseFill, r: PositionRecord, n: uint32)
    requires Entered(r)
    ensures AllEntered(MatchOne(s, f, r, n).records)
  {
  }

  lemma {:induction false} MatchEntered(s: Selector, f: CloseFill, rs: seq<PositionRecord>, n: uint32)
    requires AllEntered(rs)
    ensures AllEntered(Match(s, f, rs, n).records)
    decreases |rs|
  {
    hide Entered, MatchOne;
    if n == 0 || rs == [] {
    } else {
      OneEntered(s, f, rs[0], n);
      MatchEntered(s, f, rs[1..], MatchOne(s, f, rs[0], n).left);
    }
  }

  lemma ScanEntered(isLong: bool, rs: seq<PositionRecord>)
    ensures AllEntered(ScanOrder(isLong, rs)) <==> AllEntered(rs)
  {
    hide Entered;
    assert forall k :: 0 <= k < |rs| ==> Reverse(rs)[|rs| - 1 - k] == rs[k];
  }

  lemma CloseEntered(t: Table, id: uint32, size: uint32, price: real)
    requires AllEntered(t.records)
    ensures AllEntered(RecordClose(t, id, size, price).records)
  {
    hide AllEntered, Match, AverageAfterClose, Reverse;
    var f := CloseFill(id, price, RecordClose(t, id, size, price).average);
    var first := Match(FirstPass(t.isLong, price), f, t.Scan(), size);
    var second := Match(AllLots, f, first.records, first.left);
    ScanEntered(t.isLong, t.records);
    MatchEntered(FirstPass(t.isLong, price), f, t.Scan(), size);
    MatchEntered(AllLots, f, first.records, first.left);
    ScanEntered(t.isLong, second.records);
  }

  /** In every run whatever, the entries of every record are in order. */
  lemma {:induction false} RecordsAreEntered(isLong: bool, es: seq<Event>)
    ensures AllEntered(Run(isLong, es).records)
    decreases |es|
  {
    if es == [] {
    } else {
      hide RecordClose, Entered, AverageAfterOpen;
      var t, e := Run(isLong, es[..|es| - 1]), es[|es| - 1];
      RecordsAreEntered(isLong, es[..|es| - 1]);
      match e {
        case Opening(id, size, price) => OpenEntered(id, size, price, RecordOpen(t, id, size, price).average, t.Sign());
        case Closing(id, size, price) => CloseEntered(t, id, size, price);
        case Deleting => OpenOnlySums(t.records);
      }
    }
  }

  lemma OpenEntered(id: uint32, size: uint32, price: real, average: real, sign: int)
    ensures Entered(OpenRecord(id, size, price, average, sign))
  {
  }

  // ------------------------------------------------------- what a close books

  /** The completed records of one closing fill, or of one closing order at one price. */
  datatype Booking = OfFill(id: uint32, price: real, average: real) | OfOrder(id: uint32, price: real)
  {
    predicate Takes(r: PositionRecord) {
      && r.isComplete && r.closeOrderId == id && r.closePrice == price
      && (OfFill? ==> r.averageAtClose == average)
    }

    /** The booking is for a fill of this order, at this price, after which the average is this. */
    predicate Meets(fillId: uint32, fillPrice: real, after: real) {
      fillId == id && fillPrice == price && (OfFill? ==> after == average)
    }
  }

  function BookedSize(b: Booking, rs: seq<PositionRecord>): nat {
    if rs == [] then 0 else (if b.Takes(rs[0]) then rs[0].closeSize else 0) + BookedSize(b, rs[1..])
  }

  function ProfitIn(b: Booking): PositionRecord -> real {
    (r: PositionRecord) => if b.Takes(r) then r.pnl else 0.0
  }

  function BookedProfit(b: Booking, rs: seq<PositionRecord>): real {
    Total(ProfitIn(b), rs)
  }

  lemma {:induction false} BookedAppend(b: Booking, x: seq<PositionRecord>, y: seq<PositionRecord>)
    ensures BookedSize(b, x + y) == BookedSize(b, x) + BookedSize(b, y)
  {
    if x == [] {
      assert x + y == y;
    } else {
      assert (x + y)[1..] == x[1..] + y;
      BookedAppend(b, x[1..], y);
    }
  }

  lemma {:induction false} BookedReverse(b: Booking, rs: seq<PositionRecord>)
    ensures BookedSize(b, Reverse(rs)) == BookedSize(b, rs)
  {
    if rs == [] {
      assert Reverse(rs) == [];
    } else {
      ReverseStep(rs);
      BookedReverse(b, rs[1..]);
      BookedAppend(b, Reverse(rs[1..]), [rs[0]]);
    }
  }

  lemma BookedScan(b: Booking, isLong: bool, rs: seq<PositionRecord>)
    ensures BookedSize(b, ScanOrder(isLong, rs)) == BookedSize(b, rs)
    ensures BookedProfit(b, ScanOrder(isLong, rs)) == BookedProfit(b, rs)
  {
    BookedReverse(b, rs);
    TotalReverse(ProfitIn(b), rs);
  }

  lemma BookedOfTwo(b: Booking, x: PositionRecord, y: PositionRecord)
    ensures BookedSize(b, [x]) == (if b.Takes(x) then x.closeSize else 0)
    ensures BookedSize(b, [x, y]) == (if b.Takes(x) then x.closeSize else 0) + (if b.Takes(y) then y.closeSize else 0)
  {
    assert [x, y][1..] == [y] && [y][1..] == [] && [x][1..] == [];
    assert BookedSize(b, [y]) == if b.Takes(y) then y.closeSize else 0;
  }

  lemma OneBooks(b: Booking, s: Selector, f: CloseFill, r: PositionRecord, n: uint32)
    requires n > 0 && Entered(r) && !Stale(s, r)
    ensures var m := MatchOne(s, f, r, n);
            && m.left <= n
            && BookedSize(b, m.records)
               == BookedSize(b, [r]) + (if b.Meets(f.id, f.price, f.average) then n - m.left else 0)
            && BookedProfit(b, m.records)
               == BookedProfit(b, [r]) + (if b.Meets(f.id, f.price, f.average) then m.gain else 0.0)
  {
    hide BookedSize, Total;
    var m := MatchOne(s, f, r, n);
    var other := if s.Picks(r) && n < r.openSize then r.PartlyClosed(f, n) else r;
    BookedOfTwo(b, r, r);
    TotalOfTwo(ProfitIn(b), r, r);
    BookedOfTwo(b, m.records[0], other);
    TotalOfTwo(ProfitIn(b), m.records[0], other);
  }

  lemma {:induction false} MatchBooks(b: Booking, s: Selector, f: CloseFill, rs: seq<PositionRecord>, n: uint32)
    requires AllEntered(rs) && PassExact(s, rs, n)
    ensures var m := Match(s, f, rs, n);
            && m.left <= n
            && BookedSize(b, m.records)
               == BookedSize(b, rs) + (if b.Meets(f.id, f.price, f.average) then n - m.left else 0)
            && BookedProfit(b, m.records)
               == BookedProfit(b, rs) + (if b.Meets(f.id, f.price, f.average) then m.gain else 0.0)
    decreases |rs|
  {
    if n == 0 || rs == [] {
    } else {
      hide MatchOne, Entered, BookedSize, Total, Booking.Meets;
      var one := MatchOne(s, f, rs[0], n);
      var m := Match(s, f, rs[1..], one.left);
      NotStaleFirst(s, rs, n);
      OneBooks(b, s, f, rs[0], n);
      MatchBooks(b, s, f, rs[1..], one.left);
      assert rs == [rs[0]] + rs[1..];
      BookedAppend(b, one.records, m.records);
      BookedAppend(b, [rs[0]], rs[1..]);
      TotalAppend(ProfitIn(b), one.records, m.records);
      TotalAppend(ProfitIn(b), [rs[0]], rs[1..]);
    }
  }

  /**
   An exact close books exactly its size under its own order, price and resulting
   average, with exactly the profit it adds to the table, and nothing under any other.
   */
  lemma CloseBooks(b: Booking, t: Table, id: uint32, size: uint32, price: real)
    requires AllEntered(t.records) && CloseExact(t, size, price)
    ensures var t' := RecordClose(t, id, size, price);
            var own := b.Meets(id, price, t'.average);
            && BookedSize(b, t'.records) == BookedSize(b, t.records) + (if own then size else 0)
            && BookedProfit(b, t'.records) == BookedProfit(b, t.records) + (if own then t'.pnl - t.pnl else 0.0)
  {
    hide AllEntered, Match, BookedSize, Total, AverageAfterClose, AnyStale, Reach, Lead, Reverse, PassExact;
    var f := CloseFill(id, price, RecordClose(t, id, size, price).average);
    var s := FirstPass(t.isLong, price);
    var first := Match(s, f, t.Scan(), size);
    var second := Match(AllLots, f, first.records, first.left);
    PassesExact(s, f, t.Scan(), size);
    ScanEntered(t.isLong, t.records);
    MatchEntered(s, f, t.Scan(), size);
    MatchBooks(b, s, f, t.Scan(), size);
    MatchBooks(b, AllLots, f, first.records, first.left);
    BookedScan(b, t.isLong, t.records);
    BookedScan(b, t.isLong, second.records);
  }

  /** Shares closed by an order at a price since completed records were last deleted. */
  function ClosedSince(es: seq<Event>, id: uint32, price: real): nat {
    if es == [] then 0
    else
      var before, e := es[..|es| - 1], es[|es| - 1];
      match e
      case Opening(_, _, _) => ClosedSince(before, id, price)
      case Closing(i, size, p) => ClosedSince(before, id, price) + if i == id && p == price then size else 0
      case Deleting => 0
  }

  lemma {:induction false} BookedOpen(b: Booking, rs: seq<PositionRecord>)
    requires AllOpen(rs)
    ensures BookedSize(b, rs) == 0
  {
    if rs == [] {
    } else {
      BookedOpen(b, rs[1..]);
    }
  }

  lemma OpenBooksNothing(b: Booking, t: Table, id: uint32, size: uint32, price: real)
    ensures BookedSize(b, RecordOpen(t, id, size, price).records) == BookedSize(b, t.records)
  {
    hide AverageAfterOpen, BookedSize;
    var k := InsertionPoint(t.records, price, t.Sign());
    var x := RecordOpen(t, id, size, price).records[k];
    assert t.records == t.records[..k] + t.records[k..];
    BookedAppend(b, t.records[..k], t.records[k..]);
    BookedAppend(b, t.records[..k] + [x], t.records[k..]);
    BookedAppend(b, t.records[..k], [x]);
    BookedOpen(b, [x]);
  }

  /** In every run the completed shares per order and price are those of its closing fills since the last deletion. */
  lemma {:induction false} RunBooks(isLong: bool, es: seq<Event>, id: uint32, price: real)
    requires Allowed(isLong, es)
    ensures BookedSize(OfOrder(id, price), Run(isLong, es).records) == ClosedSince(es, id, price)
    decreases |es|
  {
    if es == [] {
    } else {
      hide RecordOpen, RecordClose, BookedSize, CloseExact, AllEntered;
      var before, e, b := es[..|es| - 1], es[|es| - 1], OfOrder(id, price);
      var t := Run(isLong, before);
      RunBooks(isLong, before, id, price);
      RecordsAreEntered(isLong, before);
      match e {
        case Opening(i, size, p) => OpenBooksNothing(b, t, i, size, p);
        case Closing(i, size, p) => CloseBooks(b, t, i, size, p);
        case Deleting =>
          OpenOnlySums(t.records);
          BookedOpen(b, OpenOnly(t.records));
      }
    }
  }

  // ------------------------------------------------------ where lots were opened

  /** The record is a lot, or a part of a lot, that the i-th event opened. */
  predicate OpenedAt(isLong: bool, es: seq<Event>, r: PositionRecord, i: nat) {
    && i < |es| && es[i].Opening?
    && r.openOrderId == es[i].id && r.openPrice == es[i].price && r.openSize <= es[i].size
    && r.averageAtOpen == Run(isLong, es[..i + 1]).average
    && r.sign == if isLong then 1 else -1
  }

  ghost predicate HasOrigin(isLong: bool, es: seq<Event>, r: PositionRecord) {
    exists i :: OpenedAt(isLong, es, r, i)
  }

  /** A record that comes of another by splitting or closing. */
  predicate PartOf(r: PositionRecord, whole: PositionRecord) {
    && r.openOrderId == whole.openOrderId && r.openPrice == whole.openPrice && r.openSize <= whole.openSize
    && r.averageAtOpen == whole.averageAtOpen && r.sign == whole.sign
  }

  ghost predicate PartsOf(rs: seq<PositionRecord>, wholes: seq<PositionRecord>) {
    forall r :: r in rs ==> exists w :: w in wholes && PartOf(r, w)
  }

  lemma {:induction false} MatchParts(s: Selector, f: CloseFill, rs: seq<PositionRecord>, n: uint32)
    ensures PartsOf(Match(s, f, rs, n).records, rs)
    decreases |rs|
  {
    var m := Match(s, f, rs, n);
    if n == 0 || rs == [] {
      forall r | r in m.records ensures exists w :: w in rs && PartOf(r, w) {
        assert r in rs && PartOf(r, r);
      }
    } else {
      hide Gain, PartOf;
      var one := MatchOne(s, f, rs[0], n);
      var rest := Match(s, f, rs[1..], one.left);
      MatchParts(s, f, rs[1..], one.left);
      OneParts(s, f, rs[0], n);
      forall r | r in m.records ensures exists w :: w in rs && PartOf(r, w) {
        if r in one.records {
          assert rs[0] in rs;
        } else {
          assert r in rest.records;
          var w :| w in rs[1..] && PartOf(r, w);
          assert w in rs;
        }
      }
    }
  }

  lemma OneParts(s: Selector, f: CloseFill, r: PositionRecord, n: uint32)
    ensures forall x :: x in MatchOne(s, f, r, n).records ==> PartOf(x, r)
  {
    hide Gain;
  }

  lemma PartsOfParts(a: seq<PositionRecord>, b: seq<PositionRecord>, c: seq<PositionRecord>)
    requires PartsOf(a, b) && PartsOf(b, c)
    ensures PartsOf(a, c)
  {
    hide PartOf;
    forall r | r in a ensures exists w :: w in c && PartOf(r, w) {
      var v :| v in b && PartOf(r, v);
      var w :| w in c && PartOf(v, w);
      PartOfPart(r, v, w);
    }
  }

  lemma PartOfPart(r: PositionRecord, v: PositionRecord, w: PositionRecord)
    requires PartOf(r, v) && PartOf(v, w)
    ensures PartOf(r, w)
  {
  }

  lemma CloseParts(t: Table, id: uint32, size: uint32, price: real)
    ensures PartsOf(RecordClose(t, id, size, price).records, t.records)
  {
    hide Match, AverageAfterClose, Reverse, PartsOf;
    var f := CloseFill(id, price, RecordClose(t, id, size, price).average);
    var first := Match(FirstPass(t.isLong, price), f, t.Scan(), size);
    var second := Match(AllLots, f, first.records, first.left);
    MatchParts(FirstPass(t.isLong, price), f, t.Scan(), size);
    MatchParts(AllLots, f, first.records, first.left);
    PartsOfParts(second.records, first.records, t.Scan());
    PartsOfScan(t.isLong, second.records, t.records);
  }

  lemma PartsOfScan(isLong: bool, a: seq<PositionRecord>, b: seq<PositionRecord>)
    requires PartsOf(a, ScanOrder(isLong, b))
    ensures PartsOf(ScanOrder(isLong, a), b)
  {
    hide PartOf;
    Members(isLong, a);
    Members(isLong, b);
  }

  lemma Members(isLong: bool, rs: seq<PositionRecord>)
    ensures forall r :: r in ScanOrder(isLong, rs) <==> r in rs
  {
    assert forall k :: 0 <= k < |rs| ==> Reverse(rs)[|rs| - 1 - k] == rs[k];
  }

  lemma OriginStays(isLong: bool, es: seq<Event>, e: Event, r: PositionRecord, whole: PositionRecord)
    requires HasOrigin(isLong, es, whole) && PartOf(r, whole)
    ensures HasOrigin(isLong, es + [e], r)
  {
    hide Run;
    var i :| OpenedAt(isLong, es, whole, i);
    assert (es + [e])[..i + 1] == es[..i + 1];
    assert OpenedAt(isLong, es + [e], r, i);
  }

  lemma PartsHaveOrigins(isLong: bool, es: seq<Event>, e: Event, rs: seq<PositionRecord>, wholes: seq<PositionRecord>)
    requires PartsOf(rs, wholes) && forall w :: w in wholes ==> HasOrigin(isLong, es, w)
    ensures forall r :: r in rs ==> HasOrigin(isLong, es + [e], r)
  {
    hide HasOrigin, PartOf;
    forall r | r in rs ensures HasOrigin(isLong, es + [e], r) {
      var w :| w in wholes && PartOf(r, w);
      OriginStays(isLong, es, e, r, w);
    }
  }

  lemma SomeOf(rs: seq<PositionRecord>, wholes: seq<PositionRecord>)
    requires forall r :: r in rs ==> r in wholes
    ensures PartsOf(rs, wholes)
  {
    hide PartOf;
    forall r | r in rs ensures exists w :: w in wholes && PartOf(r, w) {
      WholeIsPart(r);
    }
  }

  lemma OpenedHaveOrigins(isLong: bool, es: seq<Event>, id: uint32, size: uint32, price: real)
    requires forall r :: r in Run(isLong, es).records ==> HasOrigin(isLong, es, r)
    ensures var all := es + [Opening(id, size, price)];
            forall r :: r in Run(isLong, all).records ==> HasOrigin(isLong, all, r)
  {
    hide RecordOpen, HasOrigin, PartOf;
    var e := Opening(id, size, price);
    var t, t' := Run(isLong, es), Run(isLong, es + [e]);
    assert (es + [e])[..|es|] == es;
    KindOfRun(isLong, es);
    OpenParts(t, id, size, price);
    forall r | r in t'.records ensures HasOrigin(isLong, es + [e], r) {
      if r in t.records {
        WholeIsPart(r);
        OriginStays(isLong, es, e, r, r);
      } else {
        NewOrigin(isLong, es + [e], r);
      }
    }
  }

  lemma {:induction false} KindOfRun(isLong: bool, es: seq<Event>)
    ensures Run(isLong, es).isLong == isLong
    decreases |es|
  {
    if es == [] {
    } else {
      KindOfRun(isLong, es[..|es| - 1]);
      KindKept(Run(isLong, es[..|es| - 1]), es[|es| - 1]);
    }
  }

  /**
   In every run whatever, each record, open or completed, whole or split, carries the
   order and price of an opening fill and the average the table had after that fill.
   */
  lemma {:induction false} RecordsHaveOrigins(isLong: bool, es: seq<Event>)
    ensures forall r :: r in Run(isLong, es).records ==> HasOrigin(isLong, es, r)
    decreases |es|
  {
    if es == [] {
    } else {
      hide RecordOpen, RecordClose, HasOrigin, PartsOf;
      var before, e := es[..|es| - 1], es[|es| - 1];
      var t := Run(isLong, before);
      RecordsHaveOrigins(isLong, before);
      assert before + [e] == es;
      match e {
        case Opening(id, size, price) =>
          OpenedHaveOrigins(isLong, before, id, size, price);
        case Closing(id, size, price) =>
          CloseParts(t, id, size, price);
          PartsHaveOrigins(isLong, before, e, RecordClose(t, id, size, price).records, t.records);
        case Deleting =>
          OpenOnlySums(t.records);
          SomeOf(OpenOnly(t.records), t.records);
          PartsHaveOrigins(isLong, before, e, OpenOnly(t.records), t.records);
      }
    }
  }

  lemma WholeIsPart(r: PositionRecord)
    ensures PartOf(r, r)
  {
  }

  /** An opening fill adds one record, of its order, size and price, with the average after it, and changes no other. */
  lemma OpenParts(t: Table, id: uint32, size: uint32, price: real)
    ensures var t' := RecordOpen(t, id, size, price);
            && |t'.records| == |t.records| + 1
            && (forall r :: r in t.records ==> r in t'.records)
            && forall r :: r in t'.records && r !in t.records ==>
                 && r.openOrderId == id && r.openSize == size && r.openPrice == price && !r.isComplete
                 && r.averageAtOpen == t'.average && r.sign == if t.isLong then 1 else -1
  {
    hide AverageAfterOpen;
    var k := InsertionPoint(t.records, price, t.Sign());
    assert t.records == t.records[..k] + t.records[k..];
  }

  lemma NewOrigin(isLong: bool, es: seq<Event>, r: PositionRecord)
    requires es != [] && es[|es| - 1].Opening?
    requires var e := es[|es| - 1];
             r.openOrderId == e.id && r.openSize == e.size && r.openPrice == e.price
             && r.averageAtOpen == Run(isLong, es).average && r.sign == if isLong then 1 else -1
    ensures HasOrigin(isLong, es, r)
  {
    hide Run;
    assert es[..|es|] == es;
    assert OpenedAt(isLong, es, r, |es| - 1);
  }

  /** Deleting keeps every open record as often as it was there, and no completed one. */
  lemma {:induction false} DeletesExactly(rs: seq<PositionRecord>, r: PositionRecord)
    ensures multiset(OpenOnly(rs))[r] == if r.isComplete then 0 else multiset(rs)[r]
  {
    if rs == [] {
    } else {
      DeletesExactly(rs[1..], r);
      assert rs == [rs[0]] + rs[1..];
    }
  }
}
