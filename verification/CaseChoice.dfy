/**
 What the rounds of the loop choose while no close is in force: the two triggers,
 the accounts, the prices and the case.
 */
module CaseChoice {
  import opened Options
  import opened PanicClose

  /** A round in which neither panic nor soft close is in force. */
  predicate Ordinary(s: Instance, seen: Seen, limit: nat) {
    && s.running && s.flags.enabled && seen.estimate > 0.0
    && !s.flags.panic && !s.flags.soft && !LiveLimitExceeded(seen, limit)
  }

  predicate Rises(s: Instance, seen: Seen) {
    seen.estimate > s.choice.previousEstimate
  }

  predicate Falls(s: Instance, seen: Seen) {
    seen.estimate < s.choice.previousEstimate
  }

  /** Where the estimate is heading; an unmoved one leaves the trigger, which a close may have set. */
  function Heading(s: Instance, seen: Seen): Trigger {
    if Rises(s, seen) then Positive else if Falls(s, seen) then Negative else s.trigger
  }

  /** The estimate heads against the direction in which the accounts are arranged. */
  predicate Turns(s: Instance, seen: Seen) {
    Heading(s, seen) != Unset && Heading(s, seen) != s.choice.previousTrigger
  }

  /** The case for a current and an opposite position, given whether the wait for another estimate is over. */
  function CaseFor(current: nat, opposite: nat, waited: bool): Option<Kind> {
    if current > opposite then if opposite == 0 then Some(Case9) else None
    else if current < opposite then Some(HedgeCurrent)
    else if current == 0 then Some(Case4)
    else if waited then Some(Case10) else None
  }

  lemma SelectedFor(s: Instance, seen: Seen)
    requires s.choice.current != Nobody && s.choice.opposite != Nobody
    ensures SelectedKind(s, seen) == CaseFor(Position(s.choice.current, seen), Position(s.choice.opposite, seen),
                                             s.window && s.windowEstimate != s.estimate)
  {
  }

  /** The state in which an ordinary round selects. */
  function Looking(s: Instance, seen: Seen): Instance {
    s.(estimate := seen.estimate, tradePrice := seen.estimate)
  }

  lemma OrdinaryRound(es: seq<Event>, seen: Seen, limit: nat)
    requires Ordinary(Run(NewInstance(), es, limit), seen, limit)
    ensures var s := Run(NewInstance(), es, limit);
            && Sound(s)
            && Run(NewInstance(), es + [Round(seen)], limit)
               == Ran(TriggerSelected(SpecialCase(Looking(s, seen), seen), seen), seen)
  {
    hide SpecialCase, TriggerSelected, Ran;
    RunsAreSound(es, limit);
    RunNext(es, seen, limit);
  }

  /** What selecting a missing case leaves alone. */
  lemma SpecialKeeps(s: Instance, seen: Seen)
    requires !s.flags.panic && !s.flags.soft
    ensures var u := SpecialCase(s, seen);
            && u.choice == s.choice && u.estimate == s.estimate && u.trigger == s.trigger && u.flags == s.flags
            && u.running == s.running
            && (s.tradeCase.Some? || s.choice.current == Nobody || s.choice.opposite == Nobody ==> u == s)
  {
    hide Hedged, SelectedKind;
  }

  /** What an ordinary case's run leaves alone, and what becomes of the case. */
  lemma OrdinaryRun(s: Instance, seen: Seen)
    requires s.tradeCase.Some? ==> !IsClose(s.tradeCase.value)
    ensures var t := Ran(s, seen);
            && t.trigger == s.trigger && t.tradePrice == s.tradePrice && t.running == s.running
            && t.choice == s.choice.(previousCase := t.choice.previousCase)
            && (s.tradeCase.None? ==> t == s)
            && (s.tradeCase.Some? && !seen.otherStage.Done? && !seen.otherStage.Failed? ==>
                  t == s.(tradeCase := Some(s.tradeCase.value.(stage := seen.otherStage))))
            && (s.tradeCase.Some? && (seen.otherStage.Done? || seen.otherStage.Failed?) ==>
                  && t.tradeCase == None && t.choice.previousCase == Some(s.tradeCase.value.kind)
                  && (t.window, t.windowEstimate)
                     == if Hedged(s.tradeCase.value, seen) then (true, s.estimate) else (s.window, s.windowEstimate))
  {
  }

  lemma TurnedSelection(u: Instance, seen: Seen)
    requires Turns(u, seen) && u.estimate == seen.estimate
    ensures var v, rises := TriggerSelected(u, seen), Heading(u, seen) == Positive;
            var current, opposite := if rises then seen.long else seen.short, if rises then seen.short else seen.long;
            && v.trigger == (if rises then Positive else Negative) && v.running == u.running
            && v.tradePrice == (if rises then seen.ask else seen.bid)
            && v.choice.previousTrigger == v.trigger && v.choice.previousEstimate == seen.estimate
            && v.choice.onTrigger == seen.estimate && v.choice.previousCase == None
            && v.choice.current == (if rises then LongAccount else ShortAccount)
            && v.choice.opposite == (if rises then ShortAccount else LongAccount)
            && v.choice.referencePrice == (if rises then seen.bid else seen.ask)
            && var kind := CaseFor(current, opposite, u.window && u.windowEstimate != seen.estimate);
               v.tradeCase == if kind.None? then None
                              else Some(TradeCase(kind.value, Init, v.choice.current, v.choice.opposite, 0, 0.0, 0))
  {
    hide Hedged, SelectedKind, AvicennaTrigger;
    forall w: Instance | w.choice.current != Nobody && w.choice.opposite != Nobody
      ensures SelectedKind(w, seen) == CaseFor(Position(w.choice.current, seen), Position(w.choice.opposite, seen),
                                               w.window && w.windowEstimate != w.estimate)
    {
      SelectedFor(w, seen);
    }
  }

  /**
   In every run, a turn of the trigger in an ordinary round arranges the accounts,
   long first on a rise and short first on a fall, notes the price of the side it
   leaves, sets the price of the side it trades on, and starts the case that the two
   positions call for.  With equal positions a case is started only when the wait for
   another estimate is over and there was a case to replace, or none could be selected.
   */
  lemma TurnChooses(es: seq<Event>, seen: Seen, limit: nat)
    requires var s := Run(NewInstance(), es, limit); Ordinary(s, seen, limit) && Turns(s, seen)
    ensures var s, t := Run(NewInstance(), es, limit), Run(NewInstance(), es + [Round(seen)], limit);
            var rises := Heading(s, seen) == Positive;
            var current, opposite := if rises then seen.long else seen.short, if rises then seen.short else seen.long;
            && t.trigger == (if rises then Positive else Negative) && t.running
            && t.tradePrice == (if rises then seen.ask else seen.bid)
            && t.choice.current == (if rises then LongAccount else ShortAccount)
            && t.choice.opposite == (if rises then ShortAccount else LongAccount)
            && t.choice.referencePrice == (if rises then seen.bid else seen.ask)
            && t.choice.onTrigger == seen.estimate && t.choice.previousTrigger == t.trigger
            && (!seen.otherStage.Done? && !seen.otherStage.Failed? ==>
                  var waited := s.window && s.windowEstimate != seen.estimate
                                && (s.tradeCase.Some? || s.choice.current == Nobody);
                  var kind := CaseFor(current, opposite, waited);
                  t.tradeCase == if kind.None? then None
                                 else Some(TradeCase(kind.value, seen.otherStage, t.choice.current, t.choice.opposite,
                                                     0, 0.0, 0)))
  {
    hide SpecialCase, TriggerSelected, Ran, Run, Sound, CaseFor;
    var s := Run(NewInstance(), es, limit);
    var u := SpecialCase(Looking(s, seen), seen);
    OrdinaryRound(es, seen, limit);
    SpecialKeeps(Looking(s, seen), seen);
    if s.tradeCase.None? && s.choice.current != Nobody {
      PositionsOfPair(s, seen);
      MissingSelection(Looking(s, seen), seen);
      EqualMeansWindow(Position(s.choice.current, seen), s.window && s.windowEstimate != seen.estimate);
    }
    TurnedSelection(u, seen);
    var rises := Heading(u, seen) == Positive;
    var current, opposite := if rises then seen.long else seen.short, if rises then seen.short else seen.long;
    NoCloseFor(current, opposite, u.window && u.windowEstimate != seen.estimate);
    WaitingMatters(current, opposite);
    OrdinaryRun(TriggerSelected(u, seen), seen);
  }

  lemma NoCloseFor(current: nat, opposite: nat, waited: bool)
    ensures var kind := CaseFor(current, opposite, waited); kind.Some? ==> kind.value != Panic && kind.value != Soft
  {
  }

  lemma PositionsOfPair(s: Instance, seen: Seen)
    requires Sound(s) && s.choice.current != Nobody
    ensures s.choice.opposite != Nobody
    ensures Position(s.choice.current, seen) == Position(s.choice.opposite, seen) <==> seen.long == seen.short
  {
  }

  lemma EqualMeansWindow(position: nat, waited: bool)
    ensures CaseFor(position, position, waited)
            == if position == 0 then Some(Case4) else if waited then Some(Case10) else None
  {
  }

  lemma WaitingMatters(current: nat, opposite: nat)
    ensures current != opposite || current == 0 ==>
              CaseFor(current, opposite, true) == CaseFor(current, opposite, false)
  {
  }

  // -------------------------------------------------------- rounds without a turn

  lemma UnturnedSelection(u: Instance, seen: Seen)
    requires !Turns(u, seen) && u.estimate == seen.estimate
    ensures var v := TriggerSelected(u, seen);
            && v.tradeCase == u.tradeCase && v.window == u.window && v.windowEstimate == u.windowEstimate
            && v.choice == u.choice.(avicenna := v.choice.avicenna, previousEstimate := seen.estimate)
            && v.estimate == u.estimate && v.running == u.running
  {
    hide Hedged, CaseSelected, AvicennaTrigger, MarketPrice;
  }

  /**
   In every run, an ordinary case that ends in a round without a turn is dropped and
   remembered, and if it leaves equal positions the wait for another estimate begins.
   */
  lemma FinishedCaseIsDropped(es: seq<Event>, seen: Seen, limit: nat)
    requires var s := Run(NewInstance(), es, limit);
             && Ordinary(s, seen, limit) && !Turns(s, seen)
             && s.tradeCase.Some? && !IsClose(s.tradeCase.value)
    requires seen.otherStage == Done || seen.otherStage == Failed
    ensures var s, t := Run(NewInstance(), es, limit), Run(NewInstance(), es + [Round(seen)], limit);
            && t.running && t.tradeCase == None && t.choice.previousCase == Some(s.tradeCase.value.kind)
            && t.choice.current == s.choice.current && t.choice.opposite == s.choice.opposite
            && (s.tradeCase.value.current != Nobody ==>
                  t.window == (seen.long == seen.short || s.window)
                  && t.windowEstimate == if seen.long == seen.short then seen.estimate else s.windowEstimate)
  {
    hide SpecialCase, TriggerSelected, Ran, Run, Hedged;
    var s := Run(NewInstance(), es, limit);
    OrdinaryRound(es, seen, limit);
    SpecialKeeps(Looking(s, seen), seen);
    UnturnedSelection(Looking(s, seen), seen);
    OrdinaryRun(TriggerSelected(Looking(s, seen), seen), seen);
    HedgedMeansEqual(s.tradeCase.value, seen);
  }

  /** In every run, a missing case is selected in a round without a turn, for the accounts as they are arranged. */
  lemma MissingCaseIsSelected(es: seq<Event>, seen: Seen, limit: nat)
    requires var s := Run(NewInstance(), es, limit);
             && Ordinary(s, seen, limit) && !Turns(s, seen)
             && s.tradeCase == None && s.choice.current != Nobody
    requires seen.otherStage != Done && seen.otherStage != Failed
    ensures var s, t := Run(NewInstance(), es, limit), Run(NewInstance(), es + [Round(seen)], limit);
            var current := if s.choice.current == LongAccount then seen.long else seen.short;
            var opposite := if s.choice.current == LongAccount then seen.short else seen.long;
            var kind := CaseFor(current, opposite, s.window && s.windowEstimate != seen.estimate);
            && t.tradeCase == (if kind.None? then None
                               else Some(TradeCase(kind.value, seen.otherStage, s.choice.current, s.choice.opposite,
                                                   0, 0.0, 0)))
            && t.window == (s.window && kind != Some(Case10))
  {
    hide SpecialCase, TriggerSelected, Ran, Run, Hedged;
    var s := Run(NewInstance(), es, limit);
    var u := SpecialCase(Looking(s, seen), seen);
    OrdinaryRound(es, seen, limit);
    SpecialKeeps(Looking(s, seen), seen);
    MissingSelection(Looking(s, seen), seen);
    UnturnedSelection(u, seen);
    OrdinaryRun(TriggerSelected(u, seen), seen);
    NoCloseFor(Position(s.choice.current, seen), Position(s.choice.opposite, seen),
               s.window && s.windowEstimate != seen.estimate);
  }

  lemma MissingSelection(s: Instance, seen: Seen)
    requires !s.flags.panic && !s.flags.soft && s.tradeCase == None
    requires s.choice.current != Nobody && s.choice.opposite != Nobody
    ensures var u := SpecialCase(s, seen);
            var kind := CaseFor(Position(s.choice.current, seen), Position(s.choice.opposite, seen),
                                s.window && s.windowEstimate != s.estimate);
            && u.tradeCase == (if kind.None? then None
                               else Some(TradeCase(kind.value, Init, s.choice.current, s.choice.opposite, 0, 0.0, 0)))
            && u.window == (s.window && kind != Some(Case10)) && u.running == s.running
            && u.windowEstimate == s.windowEstimate
  {
    hide Hedged, SelectedKind, CaseFor;
    SelectedFor(s, seen);
  }

  /**
   In every run, the second trigger turns positive above the estimate and negative below
   it; between bid and ask it stays, and at a price equal to the estimate it only turns
   towards that price.
   */
  lemma AvicennaTurns(es: seq<Event>, seen: Seen, limit: nat)
    requires Ordinary(Run(NewInstance(), es, limit), seen, limit) && seen.bid < seen.ask
    ensures var s, t := Run(NewInstance(), es, limit), Run(NewInstance(), es + [Round(seen)], limit);
            var before, after := s.choice.avicenna, t.choice.avicenna;
            && (seen.bid > seen.estimate ==> after == Positive)
            && (seen.ask < seen.estimate ==> after == Negative)
            && (seen.bid < seen.estimate < seen.ask ==> after == before)
            && (seen.bid == seen.estimate ==> after == if before == Negative then Positive else before)
            && (seen.ask == seen.estimate ==> after == if before == Positive then Negative else before)
  {
    hide SpecialCase, TriggerSelected, Ran, Run, Sound;
    var s := Run(NewInstance(), es, limit);
    var u := SpecialCase(Looking(s, seen), seen);
    OrdinaryRound(es, seen, limit);
    SpecialKeeps(Looking(s, seen), seen);
    AvicennaSelected(u, seen);
    AvicennaRan(TriggerSelected(u, seen), seen);
  }

  lemma AvicennaSelected(u: Instance, seen: Seen)
    ensures TriggerSelected(u, seen).choice.avicenna == AvicennaTrigger(u.choice.avicenna, seen)
  {
    hide Hedged, SelectedKind, AvicennaTrigger, MarketPrice;
  }

  lemma AvicennaRan(s: Instance, seen: Seen)
    ensures Ran(s, seen).choice.avicenna == s.choice.avicenna
  {
    hide Hedged, CaseRun, TriggerAfterRun;
  }
}
