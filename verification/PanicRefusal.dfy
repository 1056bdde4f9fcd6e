/**
 The trading loop together with the account that takes the panic close's order:
 the order account refuses large orders, and a refused panic close never ends.
 */
module PanicRefusal {
  import opened Ledger
  import opened OrderAccounts
  import opened LiveOrders
  import opened TerminalOnce
  import LiveCounters
  import Loop = PanicClose

  /** The one condition on which a submitted order comes back without an id. */
  lemma PlacedExactly(d: Desk, opening: bool, price: real, size: uint32, priceOk: bool, postOk: bool, accepted: bool)
    requires Orderly(d.book) && d.book.generator + 1 < TWO_TO_32
    ensures Place(d, opening, price, size, priceOk, postOk, accepted).1 != 0
            <==> price > 0.0 && size / d.divisor <= MAXIMUM_SIZE && priceOk && postOk && accepted
  {
    hide Report, Enter;
    var shares: uint32 := size / d.divisor;
    var side := SideOf(d.book.isLong, opening);
    var o := Requested(shares, price).(side := side);
    EnterIsOrderly(d.book, o);
    EnteredOrder(d.book, o);
    var d1 := d.(book := Enter(d.book, o));
    Answered(d1, d1.book.generator, accepted, shares);
  }

  lemma EnteredOrder(b: Book, o: OrderInfo)
    requires Orderly(b) && b.generator + 1 < TWO_TO_32
    ensures var b' := Enter(b, o);
            Known(b', b'.generator) && b'.info[b'.generator] == o.(requestId := b'.generator) && b'.generator != 0
  {
    hide Wrap32;
    WrapOfSmall(b.generator);
  }

  lemma Answered(d: Desk, id: uint32, accepted: bool, openSize: uint32)
    requires Known(d.book, id) && d.Info()[id].onAcknowledgement && d.Info()[id].requestId == id
    requires !d.Info()[id].isAcknowledged
    ensures var d' := Report(d, id, if accepted then New else OtherCondition, openSize);
            id in d'.Info() && d'.Info()[id].isAcknowledged == accepted
  {
    hide React;
    var (book, calls) := OnOrder(d.book, id, if accepted then New else OtherCondition, openSize);
    LiveCounters.ReactToOne(d.(book := book), calls);
    LiveCounters.ReactToAck(d.(book := book), calls[0]);
  }

  /**
   What the loop sees as the answer is the account's answer to a closing order for the difference of
   the positions.
   */
  predicate AnsweredBy(d: Desk, seen: Loop.Seen, difference: uint32, priceOk: bool, postOk: bool, accepted: bool) {
    && difference == (if seen.long < seen.short then seen.short - seen.long else seen.long - seen.short)
    && seen.answer == Place(d, false, if seen.short > seen.long then seen.ask else seen.bid,
                            difference, priceOk, postOk, accepted).1
  }

  /**
   A panic close that begins with different positions fails if and only if the
   price is not positive, the difference is more than 30 traded units, or the
   order is refused further on.
   */
  lemma PanicFailsExactly(es: seq<Loop.Event>, seen: Loop.Seen, limit: nat,
                          d: Desk, difference: uint32, priceOk: bool, postOk: bool, accepted: bool)
    requires Loop.Begins(Loop.Run(Loop.NewInstance(), es, limit), seen, limit) && seen.long != seen.short
    requires AnsweredBy(d, seen, difference, priceOk, postOk, accepted)
    requires Orderly(d.book) && d.book.generator + 1 < TWO_TO_32
    ensures var t := Loop.Run(Loop.NewInstance(), es + [Loop.Round(seen)], limit);
            && t.running && Loop.PanicRuns(t)
            && (t.tradeCase.value.stage == Loop.Failed <==>
                !((if seen.short > seen.long then seen.ask else seen.bid) > 0.0
                  && difference / d.divisor <= MAXIMUM_SIZE && priceOk && postOk && accepted))
  {
    hide Place, Orderly, Loop.Run, Loop.Begins;
    Loop.PanicOrdersTheDifference(es, seen, limit);
    var price := if seen.short > seen.long then seen.ask else seen.bid;
    PlacedExactly(d, false, price, difference, priceOk, postOk, accepted);
  }

  lemma {:induction false} RunsCompose(s: Loop.Instance, es: seq<Loop.Event>, more: seq<Loop.Event>, limit: nat)
    ensures Loop.Run(s, es + more, limit) == Loop.Run(Loop.Run(s, es, limit), more, limit)
    decreases |more|
  {
    hide Loop.Next;
    if more == [] {
      assert es + more == es;
    } else {
      RunsCompose(s, es, more[..|more| - 1], limit);
      assert (es + more)[..|es + more| - 1] == es + more[..|more| - 1];
    }
  }

  lemma LargeOrderRefused(d: Desk, price: real, size: uint32, priceOk: bool, postOk: bool, accepted: bool)
    requires size / d.divisor > MAXIMUM_SIZE
    ensures Place(d, false, price, size, priceOk, postOk, accepted) == (d, 0)
  {
  }

  /**
   A panic close over a difference of more than 30 traded units is always refused,
   and then the loop never ends, whatever the positions become, until panic close is
   enabled or disabled or live orders exceed the limit.
   */
  lemma LargePanicNeverEnds(es: seq<Loop.Event>, seen: Loop.Seen, more: seq<Loop.Event>, limit: nat,
                            d: Desk, difference: uint32, priceOk: bool, postOk: bool, accepted: bool)
    requires Loop.Begins(Loop.Run(Loop.NewInstance(), es, limit), seen, limit)
    requires AnsweredBy(d, seen, difference, priceOk, postOk, accepted) && difference / d.divisor > MAXIMUM_SIZE
    requires Loop.Undisturbed(more, limit)
    ensures var t := Loop.Run(Loop.NewInstance(), es + [Loop.Round(seen)] + more, limit);
            t.running && Loop.PanicRuns(t) && t.tradeCase.value.stage == Loop.Failed
  {
    hide Place, Loop.Run, Loop.Begins, Loop.Sound, Loop.RoundDone, Loop.Undisturbed;
    var s, t := Loop.Run(Loop.NewInstance(), es, limit), Loop.Run(Loop.NewInstance(), es + [Loop.Round(seen)], limit);
    LargeOrderRefused(d, if seen.short > seen.long then seen.ask else seen.bid, difference, priceOk, postOk, accepted);
    DifferenceIsSome(difference, d.divisor);
    Loop.PanicOrdersTheDifference(es, seen, limit);
    Loop.RunsAreSound(es, limit);
    Loop.RunsAreSound(es + [Loop.Round(seen)], limit);
    Loop.BeginsRunning(s, seen, limit);
    Loop.BeginsInForce(s, seen, limit);
    Loop.RunNext(es, seen, limit);
    Loop.PanicRound(s, seen, limit);
    Loop.RefusedPanicNeverEnds(t, more, limit);
    RunsCompose(Loop.NewInstance(), es + [Loop.Round(seen)], more, limit);
  }

  lemma DifferenceIsSome(n: uint32, divisor: Divisor)
    requires n / divisor > 0
    ensures n != 0
  {
  }
}
