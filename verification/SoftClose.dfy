/**
 The trading loop with a soft close in force: when it ends, and what becomes of a
 soft close whose order is refused or which starts with equal positions.
 */
module SoftClose {
  import opened Options
  import opened PanicClose

  /** With a soft close in force and no panic: the condition on which the running close ends the loop in this round. */
  predicate CloseEnds(c: TradeCase, trigger: Trigger, seen: Seen) {
    && seen.long == seen.short
    && (if c.kind.Panic? then !c.stage.Failed?
        else c.stage.Init? ==> c.current == Nobody || AtLoss(c, trigger, seen))
  }

  lemma CloseEndsExactly(c: TradeCase, trigger: Trigger, seen: Seen)
    requires CaseSound(c) && IsClose(c)
    ensures CaseRun(c, trigger, seen).stage.Done? <==> CloseEnds(c, trigger, seen)
    ensures CaseRun(c, trigger, seen).kind == c.kind
  {
    hide MarketPrice, Hedged;
    HedgedMeansEqual(c, seen);
    AtLossByAccount(c, Faced(c, seen), trigger, seen);
  }

  lemma AtLossByAccount(c: TradeCase, d: TradeCase, trigger: Trigger, seen: Seen)
    ensures c.opposite == d.opposite ==> (AtLoss(c, trigger, seen) <==> AtLoss(d, trigger, seen))
  {
  }

  /** The close that runs in a round with a soft close in force and no panic. */
  function SoftCase(s: Instance): TradeCase
    requires s.flags.softInit || s.tradeCase.Some?
  {
    if s.flags.softInit then NewCase(s, Soft) else s.tradeCase.value
  }

  lemma SoftRound(s: Instance, seen: Seen, limit: nat)
    requires Sound(s) && s.running && s.flags.enabled && seen.estimate > 0.0
    requires s.flags.soft && !s.flags.panic && !LiveLimitExceeded(seen, limit)
    ensures s.flags.softInit || CloseRuns(s)
    ensures var t := RoundDone(s, seen, limit);
            && t.tradeCase == Some(CaseRun(SoftCase(s), s.trigger, seen))
            && t.running == !t.tradeCase.value.stage.Done? && t.flags == s.flags.(softInit := false)
  {
    hide CaseRun, TriggerSelected, CaseSelected, TriggerAfterRun, Hedged, CaseSound;
    RunKeepsKind(SoftCase(s), s.trigger, seen);
  }

  /** A soft close is in force in this round, and no panic. */
  predicate SoftInForce(s: Instance, seen: Seen, limit: nat) {
    && s.running && s.flags.enabled && seen.estimate > 0.0
    && s.flags.soft && !s.flags.panic && !LiveLimitExceeded(seen, limit)
  }

  /**
   When the loop ends with a soft close in force and no panic: exactly in a round
   that finds equal positions, except that a soft close which has not yet sent its
   order ends there only without accounts or at a loss, and a panic close left over
   only if its order was not refused.
   */
  lemma SoftEndsExactly(es: seq<Event>, seen: Seen, limit: nat)
    requires SoftInForce(Run(NewInstance(), es, limit), seen, limit)
    ensures var s, t := Run(NewInstance(), es, limit), Run(NewInstance(), es + [Round(seen)], limit);
            && (s.flags.softInit || CloseRuns(s))
            && (!t.running <==> CloseEnds(SoftCase(s), s.trigger, seen))
  {
    hide RoundDone, CloseEnds, CaseRun, CaseSound;
    RunsAreSound(es, limit);
    RunNext(es, seen, limit);
    var s := Run(NewInstance(), es, limit);
    SoftRound(s, seen, limit);
    SoftCaseSound(s);
    CloseEndsExactly(SoftCase(s), s.trigger, seen);
  }

  lemma SoftCaseSound(s: Instance)
    requires Sound(s) && s.running && (s.flags.softInit || CloseRuns(s))
    ensures CaseSound(SoftCase(s)) && IsClose(SoftCase(s))
  {
  }

  /**
   A refused soft close does not fail: it takes the refusal for its order, and the
   next round with equal positions ends the loop all the same.
   */
  lemma RefusedSoftGoesOn(es: seq<Event>, seen: Seen, filled: Seen, limit: nat)
    requires var s := Run(NewInstance(), es, limit);
             && SoftInForce(s, seen, limit) && s.flags.softInit && seen.long != seen.short && seen.answer == 0
             && !AtLoss(Faced(NewCase(s, Soft), seen), Facing(s.trigger, seen), seen)
    requires filled.estimate > 0.0 && filled.long == filled.short && !LiveLimitExceeded(filled, limit)
    ensures var t := Run(NewInstance(), es + [Round(seen)], limit);
            && t.running && t.tradeCase.Some? && t.tradeCase.value.kind == Soft
            && t.tradeCase.value.stage == PriceChange && t.tradeCase.value.orderId == 0
            && !Run(NewInstance(), es + [Round(seen)] + [Round(filled)], limit).running
  {
    hide RoundDone, AtLoss, Sound;
    var s := Run(NewInstance(), es, limit);
    RunsAreSound(es, limit);
    RunNext(es, seen, limit);
    SoftRound(s, seen, limit);
    SoftEndsExactly(es + [Round(seen)], filled, limit);
  }

  /** Such a refusal is reached from the start by one request and one round. */
  lemma SoftRefusalIsReached(seen: Seen, limit: nat)
    requires seen.estimate > 0.0 && seen.long > seen.short && seen.answer == 0 && seen.softPrice <= seen.longAverage
    requires !LiveLimitExceeded(seen, limit)
    ensures var s := Run(NewInstance(), [EnableSoft], limit);
            && SoftInForce(s, seen, limit) && s.flags.softInit
            && !AtLoss(Faced(NewCase(s, Soft), seen), Facing(s.trigger, seen), seen)
  {
    assert [EnableSoft][..0] == [];
    assert Run(NewInstance(), [EnableSoft], limit) == Next(NewInstance(), EnableSoft, limit);
  }

  /**
   At equal positions, with accounts selected and no loss, a soft close does not stop: it orders a
   close of nothing.
   */
  lemma SoftPassesEquality(es: seq<Event>, seen: Seen, limit: nat)
    requires var s := Run(NewInstance(), es, limit);
             && SoftInForce(s, seen, limit) && s.flags.softInit && seen.long == seen.short
             && s.choice.current != Nobody && !AtLoss(NewCase(s, Soft), s.trigger, seen)
    ensures var t := Run(NewInstance(), es + [Round(seen)], limit);
            && t.running && t.tradeCase.Some? && t.tradeCase.value.kind == Soft
            && t.tradeCase.value.stage == PriceChange && t.tradeCase.value.size == 0
  {
    hide RoundDone;
    var s := Run(NewInstance(), es, limit);
    RunsAreSound(es, limit);
    RunNext(es, seen, limit);
    SoftRound(s, seen, limit);
  }

  /** An input for it: a rise of the estimate selects the accounts, then the soft close is asked for. */
  lemma EqualityIsPassed(first: Seen, seen: Seen, limit: nat)
    requires first.estimate > 0.0 && seen.estimate > 0.0 && !LiveLimitExceeded(first, limit)
            && !LiveLimitExceeded(seen, limit)
    requires first.long == first.short == 0 && first.otherStage.Wait?
    requires seen.long == seen.short && seen.softPrice >= seen.shortAverage
    ensures var s := Run(NewInstance(), [Round(first), EnableSoft], limit);
            && SoftInForce(s, seen, limit) && s.flags.softInit
            && s.choice.current != Nobody && !AtLoss(NewCase(s, Soft), s.trigger, seen)
  {
    var es := [Round(first), EnableSoft];
    assert es[..1] == [Round(first)] && es[..1][..0] == [];
    assert Run(NewInstance(), es[..1], limit) == Next(NewInstance(), Round(first), limit);
  }
}
