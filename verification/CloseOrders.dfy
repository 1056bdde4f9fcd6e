/**
 The orders of the panic close and of the soft close: what each round of the loop
 orders, changes or leaves, told from quotes, positions and answers.
 */
module CloseOrders {
  import opened Ledger
  import opened Options
  import opened PanicClose
  import opened SoftClose

  // ------------------------------------------------------------ the panic close

  /** The trigger is that of buying back a short position, or of selling a long one. */
  predicate TriggerFits(s: Instance) {
    Started(s) && PanicRuns(s) && s.tradeCase.value.stage in {PriceChange, Wait, Failed} ==>
      s.trigger == if s.tradeCase.value.opposite == ShortAccount then Positive else Negative
  }

  lemma PanicRunFits(c: TradeCase, trigger: Trigger, seen: Seen)
    requires c.kind == Panic && c.stage in {Init, PriceChange, Wait, Failed}
    requires c.stage != Init ==> trigger == if c.opposite == ShortAccount then Positive else Negative
    ensures var d, after := CaseRun(c, trigger, seen), TriggerAfterRun(c, trigger, seen);
            d.stage in {PriceChange, Wait, Failed} ==>
               after == if d.opposite == ShortAccount then Positive else Negative
  {
    hide MarketPrice, Hedged;
  }

  lemma RoundFits(s: Instance, seen: Seen, limit: nat)
    requires Sound(s) && s.running && TriggerFits(s)
    ensures TriggerFits(RoundDone(s, seen, limit))
  {
    hide RoundDone, CaseRun, TriggerAfterRun;
    if !s.flags.enabled || seen.estimate <= 0.0 {
      IdleRound(s, seen, limit);
    } else if Destructed(s.flags, seen, limit).panic {
      PanicRound(s, seen, limit);
      var anew := Destructed(s.flags, seen, limit).panicInit;
      var c := if anew then NewCase(s, Panic) else s.tradeCase.value;
      RunKeepsKind(c, s.trigger, seen);
      PanicRunFits(c, s.trigger, seen);
    } else {
      RoundSound(s, seen, limit);
    }
  }

  lemma {:induction false} TriggersFit(es: seq<Event>, limit: nat)
    ensures TriggerFits(Run(NewInstance(), es, limit))
    decreases |es|
  {
    if es == [] {
    } else {
      hide RoundDone, Sound;
      TriggersFit(es[..|es| - 1], limit);
      RunsAreSound(es[..|es| - 1], limit);
      var s, e := Run(NewInstance(), es[..|es| - 1], limit), es[|es| - 1];
      if e.Round? && s.running {
        RoundFits(s, e.seen, limit);
      }
    }
  }

  /** A begun panic close is in force in this round and does not begin again. */
  predicate PanicGoesOn(s: Instance, seen: Seen, limit: nat) {
    s.running && s.flags.enabled && seen.estimate > 0.0 && Started(s) && !LiveLimitExceeded(seen, limit)
  }

  /** The round runs the panic close that is there. */
  lemma PanicRoundGoesOn(es: seq<Event>, seen: Seen, limit: nat)
    requires PanicGoesOn(Run(NewInstance(), es, limit), seen, limit)
    ensures var s, t := Run(NewInstance(), es, limit), Run(NewInstance(), es + [Round(seen)], limit);
            PanicRuns(s) && t.tradeCase == Some(CaseRun(s.tradeCase.value, s.trigger, seen))
  {
    hide RoundDone, CaseRun, TriggerAfterRun;
    RunsAreSound(es, limit);
    RunNext(es, seen, limit);
    PanicRound(Run(NewInstance(), es, limit), seen, limit);
  }

  /**
   In every run, a panic close with its order out follows the market: with the price of
   the side it trades on unmoved it does nothing; with a moved price it changes the order
   to that price and takes its new id; and if the change fails it waits with the old one.
   */
  lemma PanicFollowsTheMarket(es: seq<Event>, seen: Seen, limit: nat)
    requires var s := Run(NewInstance(), es, limit);
             PanicGoesOn(s, seen, limit) && PanicRuns(s) && s.tradeCase.value.stage == PriceChange
    requires seen.long != seen.short
    ensures var s, t := Run(NewInstance(), es, limit), Run(NewInstance(), es + [Round(seen)], limit);
            var c := s.tradeCase.value;
            var market := if c.opposite == ShortAccount then seen.ask else seen.bid;
            && t.running && PanicRuns(t)
            && var d := t.tradeCase.value;
            && d.current == c.current && d.opposite == c.opposite && d.size == c.size
            && (market == c.price ==> d == c)
            && (market != c.price && seen.answer != 0 && seen.answer != c.orderId ==>
                  d.stage == PriceChange && d.orderId == seen.answer && d.price == market)
            && (market != c.price && (seen.answer == 0 || seen.answer == c.orderId) ==>
                  d.stage == Wait && d.orderId == c.orderId && d.price == c.price)
  {
    hide RoundDone, TriggerAfterRun, Run, Sound;
    TriggersFit(es, limit);
    PanicRoundGoesOn(es, seen, limit);
    PanicEndsExactly(es, seen, limit);
    SoundCase(es, limit);
    HedgedMeansEqual(Run(NewInstance(), es, limit).tradeCase.value, seen);
  }

  lemma SoundCase(es: seq<Event>, limit: nat)
    ensures var s := Run(NewInstance(), es, limit); s.running && s.tradeCase.Some? ==> CaseSound(s.tradeCase.value)
  {
    RunsAreSound(es, limit);
  }

  /** A panic close that waits leaves its order alone, whatever the market does, until positions are equal. */
  lemma PanicWaits(es: seq<Event>, seen: Seen, limit: nat)
    requires var s := Run(NewInstance(), es, limit);
             PanicGoesOn(s, seen, limit) && PanicRuns(s) && s.tradeCase.value.stage == Wait
    requires seen.long != seen.short
    ensures var s, t := Run(NewInstance(), es, limit), Run(NewInstance(), es + [Round(seen)], limit);
            t.running && t.tradeCase == s.tradeCase
  {
    hide RoundDone, TriggerAfterRun, Run, Sound;
    PanicRoundGoesOn(es, seen, limit);
    PanicEndsExactly(es, seen, limit);
    SoundCase(es, limit);
    HedgedMeansEqual(Run(NewInstance(), es, limit).tradeCase.value, seen);
  }

  // ------------------------------------------------------------- the soft close

  /**
   The loss the soft close looks for.  A short position counts as closed at a loss when
   it is bought back below its average, a long one when it is sold above it.
   */
  predicate Losing(opposite: Account, trigger: Trigger, seen: Seen) {
    var average := if opposite == LongAccount then seen.longAverage else seen.shortAverage;
    (trigger == Positive && seen.softPrice < average) || (trigger == Negative && average < seen.softPrice)
  }

  lemma SoftRoundRuns(es: seq<Event>, seen: Seen, limit: nat)
    requires SoftInForce(Run(NewInstance(), es, limit), seen, limit)
    ensures var s, t := Run(NewInstance(), es, limit), Run(NewInstance(), es + [Round(seen)], limit);
            && (s.flags.softInit || CloseRuns(s)) && CaseSound(SoftCase(s))
            && t.tradeCase == Some(CaseRun(SoftCase(s), s.trigger, seen))
  {
    hide RoundDone, CaseRun, CaseSound;
    var s := Run(NewInstance(), es, limit);
    RunsAreSound(es, limit);
    RunNext(es, seen, limit);
    SoftRound(s, seen, limit);
    SoftCaseSound(s);
  }

  /**
   In every run, a soft close that begins with different positions faces the larger
   one; at a loss it sends nothing and begins again in the next round, otherwise it
   orders the difference closed at its price and takes whatever answer for its order.
   */
  lemma SoftOrdersTheDifference(es: seq<Event>, seen: Seen, limit: nat)
    requires var s := Run(NewInstance(), es, limit); SoftInForce(s, seen, limit) && s.flags.softInit
    requires seen.long != seen.short
    ensures var t := Run(NewInstance(), es + [Round(seen)], limit);
            && t.tradeCase.Some?
            && var d, shortLarger := t.tradeCase.value, seen.short > seen.long;
            && d.kind == Soft && d.price == seen.softPrice
            && d.current == (if shortLarger then LongAccount else ShortAccount)
            && d.opposite == (if shortLarger then ShortAccount else LongAccount)
            && d.size == Wrap32(if shortLarger then seen.short - seen.long else seen.long - seen.short)
            && if Losing(d.opposite, if shortLarger then Positive else Negative, seen)
               then d.stage == Init && d.orderId == 0 else d.stage == PriceChange && d.orderId == seen.answer
  {
    hide Run, RoundDone;
    SoftRoundRuns(es, seen, limit);
  }

  /**
   In every run, a soft close with its order out changes it to its new price unless
   that is the old one or at a loss; it waits if the change fails, yet takes the failed
   answer for its order.
   */
  lemma SoftFollowsItsPrice(es: seq<Event>, seen: Seen, limit: nat)
    requires var s := Run(NewInstance(), es, limit);
             && SoftInForce(s, seen, limit) && !s.flags.softInit
             && s.tradeCase.Some? && s.tradeCase.value.kind == Soft && s.tradeCase.value.stage == PriceChange
    requires seen.long != seen.short
    ensures var s, t := Run(NewInstance(), es, limit), Run(NewInstance(), es + [Round(seen)], limit);
            && t.tradeCase.Some?
            && var c, d := s.tradeCase.value, t.tradeCase.value;
            && d.kind == Soft && d.current == c.current && d.opposite == c.opposite && d.size == c.size
            && if seen.softPrice == c.price || Losing(c.opposite, s.trigger, seen) then d == c
               else
                 && d.price == seen.softPrice && d.orderId == seen.answer
                 && d.stage == if seen.answer == 0 || seen.answer == c.orderId then Wait else PriceChange
  {
    hide Run, RoundDone;
    SoftRoundRuns(es, seen, limit);
    HedgedMeansEqual(Run(NewInstance(), es, limit).tradeCase.value, seen);
  }
}
