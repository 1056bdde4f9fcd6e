/**
 What a close does to the lots: the exact condition under which the two
 matching passes conserve the open lots, and what they do when it holds.
 Neither pass of a short close, nor the second pass of a long close, tests
 whether a record is already complete.
 */
module Matching {
  import opened Ledger

  /** A completed record on which a pass would spend shares a second time. */
  predicate Stale(s: Selector, r: PositionRecord) {
    s.Picks(r) && r.isComplete && r.openSize > 0
  }

  predicate AnyStale(s: Selector, rs: seq<PositionRecord>) {
    rs != [] && (Stale(s, rs[0]) || AnyStale(s, rs[1..]))
  }

  /** Number of shares a pass can close before it comes to a stale record. */
  function Reach(s: Selector, rs: seq<PositionRecord>): nat {
    if rs == [] || Stale(s, rs[0]) then 0
    else s.Size(rs[0]) + Reach(s, rs[1..])
  }

  predicate PassExact(s: Selector, rs: seq<PositionRecord>, n: nat) {
    n <= Reach(s, rs) || !AnyStale(s, rs)
  }

  function Min(a: int, b: int): int {
    if a <= b then a else b
  }

  predicate SameSign(rs: seq<PositionRecord>, sign: int) {
    forall r :: r in rs ==> r.sign == sign
  }

  // ---------------------------------------------------------------- one pass

  /** Shares spent on one record are taken from the open lots unless the record is stale. */
  lemma OneConserves(s: Selector, f: CloseFill, r: PositionRecord, n: uint32)
    requires n > 0
    ensures var m := MatchOne(s, f, r, n);
            && m.left == n - Min(n, s.Size(r))
            && Qty(OpenLots, m.records) + (n - m.left)
               == Qty(OpenLots, [r]) + (if Stale(s, r) then r.openSize else 0)
            && (!Stale(s, r) ==> Qty(CompletedLots, m.records) == Qty(CompletedLots, [r]) + (n - m.left))
  {
    hide Gain, Qty;
    var m := MatchOne(s, f, r, n);
    var other := if n <= r.openSize then r.PartlyClosed(f, n) else r;
    QtyOfTwo(OpenLots, r, r);
    QtyOfTwo(CompletedLots, r, r);
    QtyOfTwo(OpenLots, m.records[0], other);
    QtyOfTwo(CompletedLots, m.records[0], other);
  }

  /** The sums over the records in which a pass has dealt with the first. */
  lemma JoinSums(s: Selector, one: Matched, m: Matched, rs: seq<PositionRecord>)
    requires rs != []
    ensures Qty(s, Join(one.records, one.gain, m).records) == Qty(s, one.records) + Qty(s, m.records)
    ensures Qty(s, rs) == Qty(s, [rs[0]]) + Qty(s, rs[1..])
  {
    QtyAppend(s, one.records, m.records);
    QtyAppend(s, [rs[0]], rs[1..]);
    assert rs == [rs[0]] + rs[1..];
  }

  /**
   A pass never frees more open shares than it closes, and it frees exactly as
   many as it closes if and only if it does not come to a stale record.
   */
  lemma {:induction false} MatchConserves(s: Selector, f: CloseFill, rs: seq<PositionRecord>, n: uint32)
    ensures var m := Match(s, f, rs, n);
            && m.left <= n
            && Qty(OpenLots, m.records) + (n - m.left) >= Qty(OpenLots, rs)
            && (Qty(OpenLots, m.records) + (n - m.left) == Qty(OpenLots, rs) <==> PassExact(s, rs, n))
    decreases |rs|
  {
    if n == 0 || rs == [] {
    } else {
      hide MatchOne, Qty;
      var one := MatchOne(s, f, rs[0], n);
      OneConserves(s, f, rs[0], n);
      MatchConserves(s, f, rs[1..], one.left);
      JoinSums(OpenLots, one, Match(s, f, rs[1..], one.left), rs);
    }
  }

  lemma {:induction false} MatchCompletes(s: Selector, f: CloseFill, rs: seq<PositionRecord>, n: uint32)
    requires PassExact(s, rs, n)
    ensures var m := Match(s, f, rs, n);
            m.left <= n && Qty(CompletedLots, m.records) == Qty(CompletedLots, rs) + (n - m.left)
    decreases |rs|
  {
    if n == 0 || rs == [] {
    } else {
      hide MatchOne, Qty;
      var one := MatchOne(s, f, rs[0], n);
      OneConserves(s, f, rs[0], n);
      MatchCompletes(s, f, rs[1..], one.left);
      JoinSums(CompletedLots, one, Match(s, f, rs[1..], one.left), rs);
    }
  }

  lemma {:induction false} MatchLeft(s: Selector, f: CloseFill, rs: seq<PositionRecord>, n: uint32)
    ensures Match(s, f, rs, n).left == n - Min(n, Qty(s, rs))
    decreases |rs|
  {
    if n == 0 || rs == [] {
    } else {
      hide MatchOne;
      OneConserves(s, f, rs[0], n);
      MatchLeft(s, f, rs[1..], MatchOne(s, f, rs[0], n).left);
    }
  }

  lemma {:induction false} ReachBounds(s: Selector, rs: seq<PositionRecord>)
    ensures Reach(s, rs) <= Qty(s, rs)
    ensures !AnyStale(s, rs) ==> Reach(s, rs) == Qty(s, rs)
  {
    if rs == [] {
    } else {
      ReachBounds(s, rs[1..]);
    }
  }

  // -------------------------------------------------------------- two passes

  /** A record the second pass must not come to: completed before, or closed by the first pass. */
  predicate Spent(s: Selector, r: PositionRecord) {
    (s.Picks(r) || r.isComplete) && r.openSize > 0
  }

  /** Number of shares standing before the first spent record. */
  function Lead(s: Selector, rs: seq<PositionRecord>): nat {
    if rs == [] || Spent(s, rs[0]) then 0 else rs[0].openSize + Lead(s, rs[1..])
  }

  predicate AnySpent(s: Selector, rs: seq<PositionRecord>) {
    rs != [] && (Spent(s, rs[0]) || AnySpent(s, rs[1..]))
  }

  /**
   The condition under which a close of `size` shares at `price` is right: the
   first pass meets its need before any stale record, or it meets none and what
   is left is found before any record that is spent by then.
   */
  predicate CloseExact(t: Table, size: nat, price: real) {
    var s, rs := FirstPass(t.isLong, price), t.Scan();
    size <= Reach(s, rs) || (!AnyStale(s, rs) && size - Reach(s, rs) <= Lead(s, rs))
  }

  /** What the second pass sees when the first has closed all it picks. */
  lemma {:induction false} FirstPassLeavesSpent(s: Selector, f: CloseFill, rs: seq<PositionRecord>, n: uint32)
    requires Match(s, f, rs, n).left > 0
    ensures Reach(AllLots, Match(s, f, rs, n).records) == Lead(s, rs)
    ensures AnyStale(AllLots, Match(s, f, rs, n).records) == AnySpent(s, rs)
    decreases |rs|
  {
    if rs == [] {
    } else {
      hide Gain;
      var one := MatchOne(s, f, rs[0], n);
      FirstPassLeavesSpent(s, f, rs[1..], one.left);
      assert (one.records + Match(s, f, rs[1..], one.left).records)[1..] == Match(s, f, rs[1..], one.left).records;
    }
  }

  lemma PassesExact(s: Selector, f: CloseFill, rs: seq<PositionRecord>, n: uint32)
    ensures var first := Match(s, f, rs, n);
            var second := Match(AllLots, f, first.records, first.left);
            var exact := n <= Reach(s, rs) || (!AnyStale(s, rs) && n - Reach(s, rs) <= Lead(s, rs));
            && Qty(OpenLots, second.records) + n >= Qty(OpenLots, rs)
            && (Qty(OpenLots, second.records) + n == Qty(OpenLots, rs) <==> exact)
            && (exact ==> second.left == 0 && PassExact(s, rs, n) && PassExact(AllLots, first.records, first.left))
  {
    hide Match, Qty, Reach, AnyStale, Lead;
    var first := Match(s, f, rs, n);
    MatchConserves(s, f, rs, n);
    MatchConserves(AllLots, f, first.records, first.left);
    MatchLeft(s, f, rs, n);
    MatchLeft(AllLots, f, first.records, first.left);
    ReachBounds(s, rs);
    ReachBounds(AllLots, first.records);
    if first.left > 0 {
      FirstPassLeavesSpent(s, f, rs, n);
    }
  }

  /**
   A close conserves the lots, leaving open exactly the recorded open size,
   if and only if CloseExact holds; otherwise too many shares stay open.
   */
  lemma CloseConservesExactly(t: Table, id: uint32, size: uint32, price: real)
    requires t.openSize == Qty(OpenLots, t.records) && size <= t.openSize
    ensures var t' := RecordClose(t, id, size, price);
            && t'.openSize == t.openSize - size
            && t'.openSize <= Qty(OpenLots, t'.records)
            && (t'.openSize == Qty(OpenLots, t'.records) <==> CloseExact(t, size, price))
            && (CloseExact(t, size, price) ==>
                  Qty(CompletedLots, t'.records) == Qty(CompletedLots, t.records) + size)
  {
    hide Match, Qty, Reach, AnyStale, Lead, AverageAfterClose;
    var f := CloseFill(id, price, RecordClose(t, id, size, price).average);
    var s := FirstPass(t.isLong, price);
    var first := Match(s, f, t.Scan(), size);
    var second := Match(AllLots, f, first.records, first.left);
    PassesExact(s, f, t.Scan(), size);
    SumsScan(OpenLots, t.isLong, t.records);
    SumsScan(OpenLots, t.isLong, second.records);
    SumsScan(CompletedLots, t.isLong, t.records);
    SumsScan(CompletedLots, t.isLong, second.records);
    if CloseExact(t, size, price) {
      MatchCompletes(s, f, t.Scan(), size);
      MatchCompletes(AllLots, f, first.records, first.left);
    }
  }
}
