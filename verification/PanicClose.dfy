/**
 The trading loop of an instance: trigger and case selection, the panic close and
 the soft close that suspend them, and the condition on which the loop ends.
 */
module PanicClose {
  import opened Ledger
  import opened Options

  datatype Account = Nobody | LongAccount | ShortAccount

  datatype Trigger = Unset | Positive | Negative

  datatype Kind = Panic | Soft | Case4 | Case9 | Case10 | HedgeCurrent

  datatype Stage = Init | PriceChange | Wait | Done | Failed

  /** A trade case; orderId, price and size belong to the order the two closes keep. */
  datatype TradeCase = TradeCase(kind: Kind, stage: Stage, current: Account, opposite: Account,
                                 orderId: nat, price: real, size: uint32)

  /**
   What one round of the loop finds outside: quotes and estimate, the positions,
   averages and live orders of both accounts, the id with which a close or a change
   is answered (0 for a refusal), the price the soft close would send, and the stage
   in which any other case leaves the round.
   */
  datatype Seen = Seen(estimate: real, bid: real, ask: real, long: nat, short: nat,
                       longAverage: real, shortAverage: real, longLive: nat, shortLive: nat,
                       answer: nat, softPrice: real, otherStage: Stage)

  /** The requests made of the instance. */
  datatype Flags = Flags(enabled: bool, panic: bool, panicInit: bool, soft: bool, softInit: bool)

  /** What trigger selection and case selection decide from. */
  datatype Choice = Choice(avicenna: Trigger, previousTrigger: Trigger, previousEstimate: real,
                           current: Account, opposite: Account, referencePrice: real,
                           onTrigger: real, previousCase: Option<Kind>)

  datatype Instance = Instance(flags: Flags, choice: Choice, trigger: Trigger, estimate: real, tradePrice: real,
                               tradeCase: Option<TradeCase>, window: bool, windowEstimate: real, running: bool)

  // ------------------------------------------------------------- accounts

  function Position(a: Account, seen: Seen): nat
    requires a != Nobody
  {
    if a.LongAccount? then seen.long else seen.short
  }

  predicate Opposed(current: Account, opposite: Account) {
    current != Nobody && opposite != Nobody && current != opposite
  }

  /** Both accounts of the case hold the same position. */
  predicate Hedged(c: TradeCase, seen: Seen) {
    c.current != Nobody && c.opposite != Nobody && Position(c.current, seen) == Position(c.opposite, seen)
  }

  // ------------------------------------------------------------ the closes

  /** The accounts as the closes see them: the larger position is the opposite one. */
  function Faced(c: TradeCase, seen: Seen): TradeCase {
    if seen.short > seen.long
    then c.(current := LongAccount, opposite := ShortAccount, size := Wrap32(seen.short - seen.long))
    else if seen.short < seen.long
    then c.(current := ShortAccount, opposite := LongAccount, size := Wrap32(seen.long - seen.short))
    else c.(size := 0)
  }

  function Facing(trigger: Trigger, seen: Seen): Trigger {
    if seen.short > seen.long then Positive else if seen.short < seen.long then Negative else trigger
  }

  function MarketPrice(trigger: Trigger, seen: Seen): real {
    match trigger case Unset => 0.0 case Positive => seen.ask case Negative => seen.bid
  }

  function PanicInit(c: TradeCase, seen: Seen): TradeCase {
    if seen.short == seen.long then c.(stage := Done)
    else
      Faced(c, seen).(orderId := seen.answer, price := MarketPrice(Facing(Unset, seen), seen),
                      stage := if seen.answer == 0 then Failed else PriceChange)
  }

  function PanicReprice(c: TradeCase, trigger: Trigger, seen: Seen): TradeCase {
    var price := MarketPrice(trigger, seen);
    if Hedged(c, seen) then c.(stage := Done)
    else if price == c.price then c
    else if seen.answer == 0 || seen.answer == c.orderId then c.(stage := Wait)
    else c.(orderId := seen.answer, price := price)
  }

  /** The close would be sent at a loss. */
  predicate AtLoss(c: TradeCase, trigger: Trigger, seen: Seen) {
    var average := if c.opposite.LongAccount? then seen.longAverage else seen.shortAverage;
    match trigger
    case Unset => false
    case Positive => seen.softPrice - average < 0.0
    case Negative => average - seen.softPrice < 0.0
  }

  /** Equal positions do not stop the soft close here, and a refused order is overwritten. */
  function SoftInit(c: TradeCase, trigger: Trigger, seen: Seen): TradeCase {
    var faced := Faced(c, seen).(stage := if seen.short == seen.long then Done else c.stage);
    if faced.current == Nobody || faced.opposite == Nobody then faced.(stage := Done)
    else if AtLoss(faced, trigger, seen) then faced.(price := seen.softPrice)
    else faced.(stage := PriceChange, price := seen.softPrice, orderId := seen.answer)
  }

  function SoftReprice(c: TradeCase, trigger: Trigger, seen: Seen): TradeCase {
    if Hedged(c, seen) then c.(stage := Done)
    else if c.price == seen.softPrice || AtLoss(c, trigger, seen) then c
    else c.(stage := if seen.answer == 0 || seen.answer == c.orderId then Wait else c.stage,
            orderId := seen.answer, price := seen.softPrice)
  }

  /** One run of a case. */
  function CaseRun(c: TradeCase, trigger: Trigger, seen: Seen): TradeCase {
    match c.kind
    case Panic =>
      (match c.stage
       case Init => PanicInit(c, seen)
       case PriceChange => PanicReprice(c, trigger, seen)
       case Wait => if Hedged(c, seen) then c.(stage := Done) else c
       case _ => c)
    case Soft =>
      (match c.stage
       case Init => SoftInit(c, Facing(trigger, seen), seen)
       case PriceChange => SoftReprice(c, trigger, seen)
       case Wait => if Hedged(c, seen) then c.(stage := Done) else c
       case _ => c)
    case _ => c.(stage := seen.otherStage)
  }

  /** Only the start of a close sets the trigger. */
  function TriggerAfterRun(c: TradeCase, trigger: Trigger, seen: Seen): Trigger {
    if (c.kind.Panic? || c.kind.Soft?) && c.stage.Init? then Facing(trigger, seen) else trigger
  }

  // -------------------------------------------------------------- the loop

  function NewCase(s: Instance, kind: Kind): TradeCase {
    TradeCase(kind, Init, s.choice.current, s.choice.opposite, 0, 0.0, 0)
  }

  /** The case is replaced; a case destroyed while its accounts are hedged opens the wait for the next window. */
  function Replaced(s: Instance, next: Option<TradeCase>, seen: Seen): Instance {
    if s.tradeCase.Some? && Hedged(s.tradeCase.value, seen)
    then s.(tradeCase := next, window := true, windowEstimate := s.estimate)
    else s.(tradeCase := next)
  }

  function SelectedKind(s: Instance, seen: Seen): Option<Kind>
    requires s.choice.current != Nobody && s.choice.opposite != Nobody
  {
    var current, opposite := Position(s.choice.current, seen), Position(s.choice.opposite, seen);
    if opposite == 0 && current == 0 then Some(Case4)
    else if current > 0 && opposite == 0 then Some(Case9)
    else if current == opposite && s.window && s.windowEstimate != s.estimate then Some(Case10)
    else if current < opposite then Some(HedgeCurrent)
    else None
  }

  function CaseSelected(s: Instance, seen: Seen): Instance {
    if s.choice.current == Nobody || s.choice.opposite == Nobody then s
    else
      match SelectedKind(s, seen)
      case None => Replaced(s, None, seen)
      case Some(kind) => Replaced(if kind.Case10? then s.(window := false) else s, Some(NewCase(s, kind)), seen)
  }

  function AvicennaTrigger(t: Trigger, seen: Seen): Trigger {
    match t
    case Unset => if seen.bid > seen.estimate then Positive else if seen.ask < seen.estimate then Negative else Unset
    case Positive => if seen.ask <= seen.estimate then Negative else Positive
    case Negative => if seen.bid >= seen.estimate then Positive else Negative
  }

  function TriggerSelected(s: Instance, seen: Seen): Instance {
    var trigger := if s.estimate > s.choice.previousEstimate then Positive
                   else if s.estimate < s.choice.previousEstimate then Negative else s.trigger;
    var t := s.(trigger := trigger, tradePrice := MarketPrice(trigger, seen),
                choice := s.choice.(avicenna := AvicennaTrigger(s.choice.avicenna, seen),
                    previousEstimate := s.estimate));
    if s.choice.previousTrigger == trigger || trigger.Unset? then t
    else CaseSelected(t.(choice := Turned(t.choice, trigger, s.estimate, seen)), seen)
  }

  /** The trigger has turned: the accounts change places. */
  function Turned(c: Choice, trigger: Trigger, estimate: real, seen: Seen): Choice {
    c.(previousTrigger := trigger, onTrigger := estimate, previousCase := None,
       current := if trigger.Positive? then LongAccount else ShortAccount,
       opposite := if trigger.Positive? then ShortAccount else LongAccount,
       referencePrice := if trigger.Positive? then seen.bid else seen.ask)
  }

  predicate LiveLimitExceeded(seen: Seen, limit: nat) {
    seen.shortLive > limit || seen.longLive > limit
  }

  function Destructed(f: Flags, seen: Seen, limit: nat): Flags {
    if LiveLimitExceeded(seen, limit) then f.(panic := true, panicInit := true) else f
  }

  /** Panic and soft close come first; without either the missing case is selected. */
  function SpecialCase(s: Instance, seen: Seen): Instance {
    if s.flags.panic then
      if s.flags.panicInit then Replaced(s.(flags := s.flags.(panicInit := false)), Some(NewCase(s, Panic)), seen)
      else s
    else if s.flags.soft then
      if s.flags.softInit then Replaced(s.(flags := s.flags.(softInit := false)), Some(NewCase(s, Soft)), seen) else s
    else if s.tradeCase.None? then CaseSelected(s, seen)
    else s
  }

  function Selection(s: Instance, seen: Seen): Instance {
    var t := SpecialCase(s, seen);
    if s.flags.panic || s.flags.soft then t else TriggerSelected(t, seen)
  }

  /** The case runs; a finished close ends the loop, any other finished or failed case is dropped. */
  function Ran(s: Instance, seen: Seen): Instance {
    if s.tradeCase.None? then s
    else
      var c := CaseRun(s.tradeCase.value, s.trigger, seen);
      var t := s.(tradeCase := Some(c), trigger := TriggerAfterRun(s.tradeCase.value, s.trigger, seen));
      if c.kind.Panic? || c.kind.Soft? then t.(running := !c.stage.Done?)
      else if c.stage.Done? || c.stage.Failed? then
        Replaced(t.(choice := t.choice.(previousCase := Some(c.kind))), None, seen)
      else t
  }

  function RoundDone(s: Instance, seen: Seen, limit: nat): Instance {
    if !s.flags.enabled then s
    else if seen.estimate <= 0.0 then s.(estimate := seen.estimate)
    else
      var t := s.(estimate := seen.estimate, tradePrice := seen.estimate, flags := Destructed(s.flags, seen, limit));
      Ran(Selection(t, seen), seen)
  }

  datatype Event = EnablePanic | DisablePanic | EnableSoft | DisableSoft | Pause | Resume | Round(seen: Seen)

  function FlagsAfter(f: Flags, e: Event): Flags {
    match e
    case EnablePanic => f.(panic := true, panicInit := true)
    case DisablePanic => f.(panic := false, panicInit := false)
    case EnableSoft => f.(soft := true, softInit := true)
    case DisableSoft => f.(soft := false, softInit := false)
    case Pause => f.(enabled := false)
    case Resume => f.(enabled := true)
    case Round(_) => f
  }

  /** A step of a run: a request, or a round of the loop while it is running. */
  function Next(s: Instance, e: Event, limit: nat): Instance {
    if e.Round? then if s.running then RoundDone(s, e.seen, limit) else s
    else s.(flags := FlagsAfter(s.flags, e))
  }

  function Run(s: Instance, es: seq<Event>, limit: nat): Instance {
    if es == [] then s else Next(Run(s, es[..|es| - 1], limit), es[|es| - 1], limit)
  }

  function NewInstance(): Instance {
    Instance(Flags(true, false, false, false, false), Choice(Unset, Unset, 0.0, Nobody, Nobody, 0.0, 0.0, None),
             Unset, 0.0, 0.0, None, false, 0.0, true)
  }

  // ------------------------------------------------------------- the object

  class TradeInstance {
    const maximumLiveLimit: nat
    var isEnable: bool
    var isPanicClose: bool
    var panicCloseInit: bool
    var isSoftClose: bool
    var softCloseInit: bool
    var triggerState: Trigger
    var choice: Choice
    var priceEstimate: real
    var tradePrice: real
    var tradeCase: Option<TradeCase>
    var waitForNextTimeWindow: bool
    var waitForNextTimeWindowAvicenna: real
    var running: bool

    ghost function State(): Instance
      reads this
    {
      Instance(Flags(isEnable, isPanicClose, panicCloseInit, isSoftClose, softCloseInit), choice, triggerState,
               priceEstimate, tradePrice, tradeCase, waitForNextTimeWindow, waitForNextTimeWindowAvicenna, running)
    }

    constructor (maximumLiveLimit: nat)
      ensures State() == NewInstance() && this.maximumLiveLimit == maximumLiveLimit
    {
      this.maximumLiveLimit := maximumLiveLimit;
      isEnable, isPanicClose, panicCloseInit, isSoftClose, softCloseInit := true, false, false, false, false;
      choice := Choice(Unset, Unset, 0.0, Nobody, Nobody, 0.0, 0.0, None);
      triggerState, priceEstimate, tradePrice, tradeCase := Unset, 0.0, 0.0, None;
      waitForNextTimeWindow, waitForNextTimeWindowAvicenna, running := false, 0.0, true;
    }

    method EnablePanicClose()
      modifies this`isPanicClose, this`panicCloseInit
      ensures State() == Next(old(State()), EnablePanic, maximumLiveLimit)
    {
      isPanicClose := true;
      panicCloseInit := true;
    }

    method Request(e: Event)
      requires !e.Round?
      modifies this
      ensures State() == Next(old(State()), e, maximumLiveLimit)
    {
      match e {
        case EnablePanic => EnablePanicClose();
        case DisablePanic => isPanicClose, panicCloseInit := false, false;
        case EnableSoft => isSoftClose, softCloseInit := true, true;
        case DisableSoft => isSoftClose, softCloseInit := false, false;
        case Pause => isEnable := false;
        case Resume => isEnable := true;
      }
    }

    /** Puts the next case in the place of the present one, which is destroyed. */
    method ReplaceCase(next: Option<TradeCase>, seen: Seen)
      modifies this`tradeCase, this`waitForNextTimeWindow, this`waitForNextTimeWindowAvicenna
      ensures State() == Replaced(old(State()), next, seen)
    {
      if tradeCase.Some? && Hedged(tradeCase.value, seen) {
        waitForNextTimeWindow := true;
        waitForNextTimeWindowAvicenna := priceEstimate;
      }
      tradeCase := next;
    }

    method Create(kind: Kind, seen: Seen)
      modifies this`tradeCase, this`waitForNextTimeWindow, this`waitForNextTimeWindowAvicenna
      ensures State() == Replaced(old(State()), Some(NewCase(old(State()), kind)), seen)
    {
      ReplaceCase(Some(TradeCase(kind, Init, choice.current, choice.opposite, 0, 0.0, 0)), seen);
    }

    method CaseSelection(seen: Seen)
      modifies this`tradeCase, this`waitForNextTimeWindow, this`waitForNextTimeWindowAvicenna
      ensures State() == CaseSelected(old(State()), seen)
    {
      hide Hedged, Replaced;
      if choice.current == Nobody || choice.opposite == Nobody {
        return;
      }
      var current, opposite := Position(choice.current, seen), Position(choice.opposite, seen);
      if 0 == opposite && 0 == current {
        Create(Case4, seen);
      } else if current > 0 && opposite == 0 {
        Create(Case9, seen);
      } else if current == opposite && waitForNextTimeWindow && waitForNextTimeWindowAvicenna != priceEstimate {
        waitForNextTimeWindow := false;
        Create(Case10, seen);
      } else if current < opposite {
        Create(HedgeCurrent, seen);
      } else {
        ReplaceCase(None, seen);
      }
    }

    method TriggerSelection(seen: Seen)
      modifies this`triggerState, this`tradePrice, this`choice,
               this`tradeCase, this`waitForNextTimeWindow, this`waitForNextTimeWindowAvicenna
      ensures State() == TriggerSelected(old(State()), seen)
    {
      hide CaseSelected;
      choice := choice.(avicenna := AvicennaTrigger(choice.avicenna, seen));
      if priceEstimate > choice.previousEstimate {
        triggerState := Positive;
      } else if priceEstimate < choice.previousEstimate {
        triggerState := Negative;
      }
      choice := choice.(previousEstimate := priceEstimate);
      tradePrice := MarketPrice(triggerState, seen);
      if choice.previousTrigger != triggerState && triggerState != Unset {
        choice := choice.(previousTrigger := triggerState, onTrigger := priceEstimate, previousCase := None);
        if triggerState == Positive {
          choice := choice.(current := LongAccount, opposite := ShortAccount, referencePrice := seen.bid);
        } else {
          choice := choice.(current := ShortAccount, opposite := LongAccount, referencePrice := seen.ask);
        }
        CaseSelection(seen);
      }
    }

    method SelfDestruct(seen: Seen)
      modifies this`isPanicClose, this`panicCloseInit
      ensures State() == old(State()).(flags := Destructed(old(State()).flags, seen, maximumLiveLimit))
    {
      if seen.shortLive > maximumLiveLimit || seen.longLive > maximumLiveLimit {
        EnablePanicClose();
      }
    }

    /** Says whether a special case is in force. */
    method SpecialCases(seen: Seen) returns (special: bool)
      modifies this`isPanicClose, this`panicCloseInit, this`softCloseInit,
               this`tradeCase, this`waitForNextTimeWindow, this`waitForNextTimeWindowAvicenna
      ensures var s := old(State()).(flags := Destructed(old(State()).flags, seen, maximumLiveLimit));
              State() == SpecialCase(s, seen) && special == (s.flags.panic || s.flags.soft)
    {
      hide Hedged, SelectedKind, Destructed;
      SelfDestruct(seen);
      if isPanicClose {
        if panicCloseInit {
          panicCloseInit := false;
          Create(Panic, seen);
        }
        return true;
      } else if isSoftClose {
        if softCloseInit {
          softCloseInit := false;
          Create(Soft, seen);
        }
        return true;
      }
      if choice.current == Nobody || choice.opposite == Nobody {
        return false;
      }
      if tradeCase.None? {
        CaseSelection(seen);
      }
      return false;
    }

    method RunCase(seen: Seen)
      modifies this`triggerState, this`choice, this`running,
               this`tradeCase, this`waitForNextTimeWindow, this`waitForNextTimeWindowAvicenna
      requires running
      ensures State() == Ran(old(State()), seen)
    {
      hide CaseRun, TriggerAfterRun, Replaced;
      if tradeCase.Some? {
        var c := tradeCase.value;
        tradeCase := Some(CaseRun(c, triggerState, seen));
        triggerState := TriggerAfterRun(c, triggerState, seen);
        c := tradeCase.value;
        if (c.kind == Panic || c.kind == Soft) && c.stage == Done {
          running := false;
        } else if (c.stage == Done || c.stage == Failed) && c.kind != Panic && c.kind != Soft {
          choice := choice.(previousCase := Some(c.kind));
          ReplaceCase(None, seen);
        }
      }
    }

    method Iterate(seen: Seen)
      modifies this
      requires running
      ensures State() == RoundDone(old(State()), seen, maximumLiveLimit)
    {
      hide SpecialCase, TriggerSelected, Ran, Destructed;
      if !isEnable {
        return;
      }
      priceEstimate := seen.estimate;
      if priceEstimate <= 0.0 {
        return;
      }
      tradePrice := priceEstimate;
      var special := SpecialCases(seen);
      if !special {
        TriggerSelection(seen);
      }
      RunCase(seen);
    }

    /** The loop, with the requests that reach the instance between its rounds. */
    method TriggerProcessing(es: seq<Event>)
      modifies this
      ensures State() == Run(old(State()), es, maximumLiveLimit)
    {
      hide Next;
      var i := 0;
      while i < |es|
        invariant i <= |es| && State() == Run(old(State()), es[..i], maximumLiveLimit)
      {
        assert es[..i + 1][..i] == es[..i];
        if !es[i].Round? {
          Request(es[i]);
        } else {
          RoundIsNext(State(), es[i], maximumLiveLimit);
          if running {
            Iterate(es[i].seen);
          }
        }
        i := i + 1;
      }
      assert es[..i] == es;
    }
  }

  lemma RoundIsNext(s: Instance, e: Event, limit: nat)
    requires e.Round?
    ensures Next(s, e, limit) == if s.running then RoundDone(s, e.seen, limit) else s
  {
    hide RoundDone;
  }

  // ------------------------------------------------------------ invariants

  predicate Paired(current: Account, opposite: Account) {
    (current == Nobody && opposite == Nobody) || Opposed(current, opposite)
  }

  predicate IsClose(c: TradeCase) {
    c.kind.Panic? || c.kind.Soft?
  }

  /** A close that has begun stands between the two accounts, and a finished one does not remain in the loop. */
  predicate CaseSound(c: TradeCase) {
    && Paired(c.current, c.opposite)
    && (IsClose(c) ==> !c.stage.Done? && (!c.stage.Init? ==> Opposed(c.current, c.opposite)))
    && (c.kind.Soft? ==> !c.stage.Failed?)
  }

  /** The panic close has been requested and begun. */
  predicate Started(s: Instance) {
    s.flags.panic && !s.flags.panicInit
  }

  predicate PanicRuns(s: Instance) {
    s.tradeCase.Some? && s.tradeCase.value.kind.Panic?
  }

  predicate CloseRuns(s: Instance) {
    s.tradeCase.Some? && IsClose(s.tradeCase.value)
  }

  predicate Sound(s: Instance) {
    && (s.flags.panicInit ==> s.flags.panic) && (s.flags.softInit ==> s.flags.soft)
    && (Started(s) ==> PanicRuns(s))
    && (s.flags.soft && !s.flags.softInit ==> CloseRuns(s))
    && Paired(s.choice.current, s.choice.opposite)
    && (s.running && s.tradeCase.Some? ==> CaseSound(s.tradeCase.value))
  }

  lemma HedgedMeansEqual(c: TradeCase, seen: Seen)
    requires Paired(c.current, c.opposite)
    ensures Hedged(c, seen) <==> c.current != Nobody && seen.long == seen.short
  {
  }

  lemma NoCloseIsSelected(s: Instance, seen: Seen)
    requires s.choice.current != Nobody && s.choice.opposite != Nobody
    ensures var k := SelectedKind(s, seen); k.Some? ==> !k.value.Panic? && !k.value.Soft?
  {
  }

  lemma CaseSelectionSound(s: Instance, seen: Seen)
    requires Sound(s) && !s.flags.panic && !s.flags.soft
    ensures Sound(CaseSelected(s, seen)) && CaseSelected(s, seen).flags == s.flags
    ensures CaseSelected(s, seen).running == s.running
  {
    hide Hedged, SelectedKind;
    if s.choice.current != Nobody && s.choice.opposite != Nobody {
      NoCloseIsSelected(s, seen);
    }
  }

  lemma SpecialCaseSound(s: Instance, seen: Seen)
    requires Sound(s) && s.running
    ensures var t := SpecialCase(s, seen);
            && Sound(t) && t.running && t.flags.panic == s.flags.panic && t.flags.soft == s.flags.soft
            && (s.flags.panic ==> Started(t) && t.choice == s.choice)
  {
    hide Hedged, CaseSelected;
    if !s.flags.panic && !s.flags.soft {
      CaseSelectionSound(s, seen);
    }
  }

  lemma TriggerSelectionSound(s: Instance, seen: Seen)
    requires Sound(s) && !s.flags.panic && !s.flags.soft
    ensures Sound(TriggerSelected(s, seen)) && TriggerSelected(s, seen).running == s.running
  {
    hide CaseSelected, AvicennaTrigger, MarketPrice;
    forall t: Instance | Sound(t) && !t.flags.panic && !t.flags.soft
      ensures Sound(CaseSelected(t, seen)) && CaseSelected(t, seen).running == t.running
    {
      CaseSelectionSound(t, seen);
    }
  }

  lemma SelectionKeepsFlags(s: Instance, seen: Seen)
    ensures CaseSelected(s, seen).flags == s.flags
  {
    hide Hedged, SelectedKind;
  }

  lemma TriggerSelectionKeepsFlags(s: Instance, seen: Seen)
    ensures TriggerSelected(s, seen).flags == s.flags
  {
    hide CaseSelected, AvicennaTrigger, MarketPrice;
    forall t: Instance ensures CaseSelected(t, seen).flags == t.flags {
      SelectionKeepsFlags(t, seen);
    }
  }

  lemma SelectionSound(s: Instance, seen: Seen)
    requires Sound(s) && s.running
    ensures var t := Selection(s, seen);
            && Sound(t) && t.running && t.flags.panic == s.flags.panic
            && (s.flags.panic ==> t == SpecialCase(s, seen) && Started(t) && t.choice == s.choice)
  {
    hide SpecialCase, TriggerSelected;
    SpecialCaseSound(s, seen);
    if !s.flags.panic && !s.flags.soft {
      TriggerSelectionSound(SpecialCase(s, seen), seen);
      TriggerSelectionKeepsFlags(SpecialCase(s, seen), seen);
    }
  }

  /** A close that ends does so with equal positions, and one that goes on stands between the accounts. */
  lemma CloseRunSound(c: TradeCase, trigger: Trigger, seen: Seen)
    requires CaseSound(c) && IsClose(c)
    ensures var d := CaseRun(c, trigger, seen);
            d.kind == c.kind && if d.stage.Done? then seen.long == seen.short else CaseSound(d)
  {
    hide AtLoss, MarketPrice, Hedged;
    HedgedMeansEqual(c, seen);
  }

  lemma OtherRun(c: TradeCase, trigger: Trigger, seen: Seen)
    requires !IsClose(c)
    ensures CaseRun(c, trigger, seen) == c.(stage := seen.otherStage)
  {
  }

  lemma RunKeepsKind(c: TradeCase, trigger: Trigger, seen: Seen)
    ensures CaseRun(c, trigger, seen).kind == c.kind
  {
    hide AtLoss, MarketPrice, Hedged;
  }

  /** What one run of the case keeps, and the only way in which it can end the loop. */
  lemma RunSound(s: Instance, seen: Seen)
    requires Sound(s) && s.running
    ensures var t := Ran(s, seen);
            && Sound(t) && t.flags == s.flags
            && (PanicRuns(s) ==> PanicRuns(t) && t.choice == s.choice)
            && (!t.running ==> t.tradeCase.Some? && IsClose(t.tradeCase.value) && seen.long == seen.short)
  {
    hide CaseRun, Hedged, TriggerAfterRun;
    if s.tradeCase.Some? {
      var c := s.tradeCase.value;
      if IsClose(c) {
        CloseRunSound(c, s.trigger, seen);
      } else {
        OtherRun(c, s.trigger, seen);
      }
    }
  }

  /**
   Whatever was requested before, a round of the loop that ends it runs a panic or
   soft close and finds equal positions; and a round in which a panic close is in
   force leaves it begun and the selection untouched.
   */
  lemma RoundSound(s: Instance, seen: Seen, limit: nat)
    requires Sound(s) && s.running
    ensures var t := RoundDone(s, seen, limit);
            && Sound(t)
            && (!t.flags.panic || s.flags.panic || LiveLimitExceeded(seen, limit))
            && (PanicRuns(s) && s.flags.panic ==> PanicRuns(t) && t.choice == s.choice && t.flags.panic)
            && (!t.running ==> t.tradeCase.Some? && IsClose(t.tradeCase.value) && seen.long == seen.short)
  {
    hide Selection, Ran, CaseSound, Paired;
    if s.flags.enabled && seen.estimate > 0.0 {
      var t := s.(estimate := seen.estimate, tradePrice := seen.estimate, flags := Destructed(s.flags, seen, limit));
      assert Sound(t);
      SelectionSound(t, seen);
      RunSound(Selection(t, seen), seen);
    }
  }

  lemma {:induction false} RunsAreSound(es: seq<Event>, limit: nat)
    ensures Sound(Run(NewInstance(), es, limit))
    decreases |es|
  {
    hide RoundDone;
    if es == [] {
    } else {
      RunsAreSound(es[..|es| - 1], limit);
      var s, e := Run(NewInstance(), es[..|es| - 1], limit), es[|es| - 1];
      if e.Round? && s.running {
        RoundSound(s, e.seen, limit);
      }
    }
  }

  // --------------------------------------------------------------- theorems

  /** In every run the round that ends the loop runs a close and sees equal positions. */
  lemma LoopEndsHedged(es: seq<Event>, seen: Seen, limit: nat)
    requires Run(NewInstance(), es, limit).running
    requires !Run(NewInstance(), es + [Round(seen)], limit).running
    ensures var t := Run(NewInstance(), es + [Round(seen)], limit);
            t.tradeCase.Some? && IsClose(t.tradeCase.value) && seen.long == seen.short
  {
    hide RoundDone;
    RunsAreSound(es, limit);
    assert (es + [Round(seen)])[..|es|] == es;
    RoundSound(Run(NewInstance(), es, limit), seen, limit);
  }

  /**
   From the moment a panic close has begun and until it is disabled, whatever else is
   requested and seen, the case is a panic close and what trigger and case selection
   decide from does not change.
   */
  lemma {:induction false} PanicHolds(es: seq<Event>, more: seq<Event>, limit: nat)
    requires Started(Run(NewInstance(), es, limit))
    requires DisablePanic !in more
    ensures var s, t := Run(NewInstance(), es, limit), Run(NewInstance(), es + more, limit);
            PanicRuns(t) && t.flags.panic && t.choice == s.choice
    decreases |more|
  {
    hide RoundDone, Sound, PanicRuns;
    if more == [] {
      assert es + more == es;
      RunsAreSound(es, limit);
      StartedRuns(Run(NewInstance(), es, limit));
    } else {
      var fewer, e := more[..|more| - 1], more[|more| - 1];
      PanicHolds(es, fewer, limit);
      assert (es + more)[..|es + more| - 1] == es + fewer;
      var s := Run(NewInstance(), es + fewer, limit);
      RunsAreSound(es + fewer, limit);
      PanicStep(s, e, limit);
    }
  }

  /** The case of a round with a panic close in force: the one that runs, or a new panic close. */
  function PanicCase(s: Instance, seen: Seen): Instance {
    if s.flags.panicInit then Replaced(s.(flags := s.flags.(panicInit := false)), Some(NewCase(s, Panic)), seen) else s
  }

  /** In all that time a round runs the panic close and does nothing else: neither trigger nor case is selected. */
  lemma PanicSelectsNothing(es: seq<Event>, more: seq<Event>, seen: Seen, limit: nat)
    requires Started(Run(NewInstance(), es, limit)) && DisablePanic !in more
    requires var s := Run(NewInstance(), es + more, limit); s.running && s.flags.enabled && seen.estimate > 0.0
    ensures var s := Run(NewInstance(), es + more, limit);
            var t := s.(estimate := seen.estimate, tradePrice := seen.estimate,
                flags := Destructed(s.flags, seen, limit));
            Run(NewInstance(), es + more + [Round(seen)], limit) == Ran(PanicCase(t, seen), seen)
  {
    hide CaseSelected, TriggerSelected, Ran, Hedged;
    PanicHolds(es, more, limit);
    RunNext(es + more, seen, limit);
  }

  lemma StartedRuns(s: Instance)
    requires Sound(s) && Started(s)
    ensures PanicRuns(s)
  {
  }

  lemma PanicStep(s: Instance, e: Event, limit: nat)
    requires Sound(s) && s.flags.panic && PanicRuns(s) && e != DisablePanic
    ensures var t := Next(s, e, limit); t.flags.panic && PanicRuns(t) && t.choice == s.choice
  {
    hide RoundDone, Sound;
    if e.Round? && s.running {
      RoundSound(s, e.seen, limit);
    }
  }

  /** The round in which a panic close is in force, once the requests and the live limit are taken in. */
  lemma PanicRound(s: Instance, seen: Seen, limit: nat)
    requires Sound(s) && s.running && s.flags.enabled && seen.estimate > 0.0
    requires Destructed(s.flags, seen, limit).panic
    ensures var t, anew := RoundDone(s, seen, limit), Destructed(s.flags, seen, limit).panicInit;
            && Started(t) && t.choice == s.choice && t.flags.enabled
            && (!anew ==> PanicRuns(s))
            && t.tradeCase == Some(CaseRun(if anew then NewCase(s, Panic) else s.tradeCase.value, s.trigger, seen))
            && t.running == !t.tradeCase.value.stage.Done?
            && t.trigger == TriggerAfterRun(if anew then NewCase(s, Panic) else s.tradeCase.value, s.trigger, seen)
  {
    hide CaseRun, TriggerSelected, TriggerAfterRun, Hedged, CaseSound;
    var t := s.(estimate := seen.estimate, tradePrice := seen.estimate, flags := Destructed(s.flags, seen, limit));
    var c := if t.flags.panicInit then NewCase(s, Panic) else s.tradeCase.value;
    RunKeepsKind(c, s.trigger, seen);
  }

  lemma EndsExactly(s: Instance, seen: Seen, limit: nat)
    requires Sound(s) && s.running && s.flags.enabled && seen.estimate > 0.0
    requires Destructed(s.flags, seen, limit).panic
    ensures var anew := Destructed(s.flags, seen, limit).panicInit;
            && (!anew ==> PanicRuns(s))
            && (!RoundDone(s, seen, limit).running <==>
                seen.long == seen.short && (anew || !s.tradeCase.value.stage.Failed?))
  {
    hide RoundDone, MarketPrice;
    PanicRound(s, seen, limit);
    if !Destructed(s.flags, seen, limit).panicInit {
      HedgedMeansEqual(s.tradeCase.value, seen);
    }
  }

  /**
   When the loop ends in a panic close: exactly in a round that finds equal
   positions, unless the close order was refused and the panic close does not begin again.
   */
  lemma PanicEndsExactly(es: seq<Event>, seen: Seen, limit: nat)
    requires var s := Run(NewInstance(), es, limit);
             && s.running && s.flags.enabled && seen.estimate > 0.0 && Destructed(s.flags, seen, limit).panic
    ensures var s, t := Run(NewInstance(), es, limit), Run(NewInstance(), es + [Round(seen)], limit);
            var anew := Destructed(s.flags, seen, limit).panicInit;
            && (!anew ==> PanicRuns(s))
            && (!t.running <==> seen.long == seen.short && (anew || !s.tradeCase.value.stage.Failed?))
  {
    hide RoundDone, Destructed;
    RunsAreSound(es, limit);
    RunNext(es, seen, limit);
    EndsExactly(Run(NewInstance(), es, limit), seen, limit);
  }

  lemma RunNext(es: seq<Event>, seen: Seen, limit: nat)
    requires Run(NewInstance(), es, limit).running
    ensures Run(NewInstance(), es + [Round(seen)], limit) == RoundDone(Run(NewInstance(), es, limit), seen, limit)
  {
    hide RoundDone;
    assert (es + [Round(seen)])[..|es|] == es;
  }

  /** The panic close begins in this round, on request or because there are too many live orders. */
  predicate Begins(s: Instance, seen: Seen, limit: nat) {
    && s.running && s.flags.enabled && seen.estimate > 0.0
    && ((s.flags.panic && s.flags.panicInit) || LiveLimitExceeded(seen, limit))
  }

  /** The case has ordered the difference of the positions closed in the larger account at the market. */
  predicate DifferenceOrdered(s: Instance, seen: Seen) {
    && PanicRuns(s)
    && var c := s.tradeCase.value;
    && Opposed(c.current, c.opposite) && c.orderId == seen.answer
    && Position(c.opposite, seen) > Position(c.current, seen)
    && c.size == Wrap32(Position(c.opposite, seen) - Position(c.current, seen))
    && c.price == (if c.opposite.ShortAccount? then seen.ask else seen.bid)
    && (c.stage == if seen.answer == 0 then Failed else PriceChange)
  }

  lemma OrdersTheDifference(s: Instance, seen: Seen, limit: nat)
    requires Sound(s) && Begins(s, seen, limit) && seen.long != seen.short
    ensures var t := RoundDone(s, seen, limit); t.running && DifferenceOrdered(t, seen)
  {
    hide RoundDone;
    PanicRound(s, seen, limit);
  }

  /**
   In every run a round in which the panic close begins orders the difference
   of the positions closed, in the larger account and at the market; with live
   orders in excess this happens anew in every round.
   */
  lemma PanicOrdersTheDifference(es: seq<Event>, seen: Seen, limit: nat)
    requires Begins(Run(NewInstance(), es, limit), seen, limit) && seen.long != seen.short
    ensures var t := Run(NewInstance(), es + [Round(seen)], limit); t.running && DifferenceOrdered(t, seen)
  {
    hide RoundDone, Begins, DifferenceOrdered;
    RunsAreSound(es, limit);
    BeginsRunning(Run(NewInstance(), es, limit), seen, limit);
    RunNext(es, seen, limit);
    OrdersTheDifference(Run(NewInstance(), es, limit), seen, limit);
  }

  lemma BeginsRunning(s: Instance, seen: Seen, limit: nat)
    requires Begins(s, seen, limit)
    ensures s.running && s.flags.enabled && seen.estimate > 0.0
  {
  }

  /** If just that order is filled, the next round ends the loop, provided the difference had fitted 32 bits. */
  lemma PanicCompletes(es: seq<Event>, seen: Seen, filled: Seen, limit: nat)
    requires Begins(Run(NewInstance(), es, limit), seen, limit) && seen.long != seen.short && seen.answer != 0
    requires filled.estimate > 0.0
    ensures var t := Run(NewInstance(), es + [Round(seen)], limit);
            && DifferenceOrdered(t, seen)
            && var c := t.tradeCase.value;
            (Position(c.current, filled) == Position(c.current, seen)
             && Position(c.opposite, filled) == Position(c.opposite, seen) - c.size
             ==> (!Run(NewInstance(), es + [Round(seen)] + [Round(filled)], limit).running
                  <==> Position(c.opposite, seen) - Position(c.current, seen) < TWO_TO_32))
  {
    hide RoundDone, Sound, Destructed, LiveLimitExceeded;
    var s := Run(NewInstance(), es, limit);
    RunsAreSound(es, limit);
    RunNext(es, seen, limit);
    PanicOrdersTheDifference(es, seen, limit);
    BeginsInForce(s, seen, limit);
    PanicRound(s, seen, limit);
    var t := Run(NewInstance(), es + [Round(seen)], limit);
    RunsAreSound(es + [Round(seen)], limit);
    RunNext(es + [Round(seen)], filled, limit);
    StaysInForce(t.flags, filled, limit);
    EndsExactly(t, filled, limit);
  }

  lemma BeginsInForce(s: Instance, seen: Seen, limit: nat)
    requires Begins(s, seen, limit)
    ensures Destructed(s.flags, seen, limit).panic
  {
  }

  lemma StaysInForce(f: Flags, seen: Seen, limit: nat)
    requires f.panic
    ensures Destructed(f, seen, limit).panic
  {
  }

  /** A paused round, or one without an estimate, does nothing but note the estimate. */
  lemma IdleRound(s: Instance, seen: Seen, limit: nat)
    requires !s.flags.enabled || seen.estimate <= 0.0
    ensures RoundDone(s, seen, limit) == if s.flags.enabled then s.(estimate := seen.estimate) else s
  {
  }

  predicate Undisturbed(es: seq<Event>, limit: nat) {
    forall e :: e in es ==> !e.EnablePanic? && !e.DisablePanic? && (e.Round? ==> !LiveLimitExceeded(e.seen, limit))
  }

  /** A refused close order leaves the loop in a failed panic close for good, whatever the positions become. */
  lemma {:induction false} RefusedPanicNeverEnds(s: Instance, es: seq<Event>, limit: nat)
    requires Sound(s) && s.running && Started(s) && s.tradeCase.value.stage.Failed?
    requires Undisturbed(es, limit)
    ensures var t := Run(s, es, limit);
            Sound(t) && t.running && Started(t) && t.tradeCase == s.tradeCase
    decreases |es|
  {
    hide RoundDone, CaseSound, Paired;
    if es == [] {
    } else {
      RefusedPanicNeverEnds(s, es[..|es| - 1], limit);
      var t, e := Run(s, es[..|es| - 1], limit), es[|es| - 1];
      assert e in es;
      if e.Round? {
        RoundSound(t, e.seen, limit);
        if t.flags.enabled && e.seen.estimate > 0.0 {
          PanicRound(t, e.seen, limit);
        } else {
          IdleRound(t, e.seen, limit);
        }
      }
    }
  }

  /** Such a state is reached as soon as the order of a requested panic close is refused. */
  lemma RefusalIsReached(seen: Seen, limit: nat)
    requires seen.estimate > 0.0 && seen.long != seen.short && seen.answer == 0
    ensures var s := Run(NewInstance(), [EnablePanic, Round(seen)], limit);
            Sound(s) && s.running && Started(s) && s.tradeCase.value.stage.Failed?
  {
    hide RoundDone;
    var es := [EnablePanic, Round(seen)];
    assert es[..1] == [EnablePanic] && es[..1][..0] == [];
    RunsAreSound(es, limit);
    RunsAreSound([EnablePanic], limit);
    var s := Run(NewInstance(), [EnablePanic], limit);
    assert s == Next(NewInstance(), EnablePanic, limit);
    PanicRound(s, seen, limit);
    OrdersTheDifference(s, seen, limit);
  }
}
