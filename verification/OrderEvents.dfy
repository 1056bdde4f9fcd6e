/**
 What single requests and events do to the book of an order account after any run:
 the order a request enters, and how an event changes an order and whom it calls.
 */
module OrderEvents {
  import opened Ledger
  import opened OrderAccounts
  import opened TerminalOnce

  /** The side on which a long or a short account opens or closes. */
  predicate RightSide(isLong: bool, opening: bool, side: Side) {
    && (isLong && opening ==> side == Buy)
    && (isLong && !opening ==> side == Sell)
    && (!isLong && opening ==> side == SellShort)
    && (!isLong && !opening ==> side == Buy)
  }

  lemma EntersFresh(b: Book, o: OrderInfo)
    requires Orderly(b) && b.generator + 1 < TWO_TO_32
    ensures Enter(b, o) == Book(b.isLong, b.generator + 1, b.info[b.generator + 1 := o.(requestId := b.generator + 1)],
                                b.hash + {b.generator + 1})
  {
    hide Wrap32;
    WrapOfSmall(b.generator);
  }

  lemma SubmitEnters(b: Book, opening: bool, order: OrderInfo, priceOk: bool, postOk: bool)
    requires Orderly(b) && b.generator + 1 < TWO_TO_32
    ensures var (b', calls) := Next(b, Submit(opening, order, priceOk, postOk));
            var id := b.generator + 1;
            && calls == []
            && if order.size <= 30 && priceOk then
                 && b'.hash == b.hash + {id} && b'.info.Keys == b.info.Keys + {id} && id !in b.info
                 && (forall x :: x in b.info ==> b'.info[x] == b.info[x])
                 && RightSide(b.isLong, opening, b'.info[id].side)
                 && b'.info[id] == order.(requestId := id, side := b'.info[id].side)
               else b' == b
  {
    hide Enter;
    EntersFresh(b, order.(side := SideOf(b.isLong, opening)));
  }

  lemma AmendEnters(b: Book, id: uint32, changed: OrderInfo, priceOk: bool, sendOk: bool)
    requires Orderly(b) && b.generator + 1 < TWO_TO_32 && id in b.info
    ensures var (b', calls) := Next(b, Amend(id, changed, priceOk, sendOk));
            var newId, o := b.generator + 1, b.info[id];
            && calls == []
            && if changed.size <= 30 && priceOk
                  && o.condition != OrderDone && o.condition != Canceled && o.stage != Filled then
                 && newId !in b.info && b'.info == b.info[newId := changed.(requestId := newId)]
                 && b'.hash == if sendOk then b.hash + {newId} else b.hash
               else b' == b
  {
    hide Enter;
    EntersFresh(b, changed);
    assert b.hash + {b.generator + 1} - {b.generator + 1} == b.hash;
  }

  /** One more step of a run. */
  lemma StepOn(isLong: bool, steps: seq<Step>, s: Step)
    requires HandedOut(EmptyBook(isLong), steps) < TWO_TO_32
    ensures var (b, log) := Run(EmptyBook(isLong), steps);
            && Run(EmptyBook(isLong), steps + [s]) == (Next(b, s).0, log + Next(b, s).1)
            && Orderly(b) && b.generator == HandedOut(EmptyBook(isLong), steps) && b.isLong == isLong
  {
    hide Next, HandedOut;
    assert (steps + [s])[..|steps|] == steps;
    CallbacksAreFinal(EmptyBook(isLong), steps);
    KindStays(EmptyBook(isLong), steps);
  }

  /**
   After any run an order of at most 30 units whose price can be set is entered under
   the next id, on the side of its account and purpose, with all else as asked for;
   any other order changes nothing.
   */
  lemma SubmittedOrder(isLong: bool, steps: seq<Step>, opening: bool, order: OrderInfo, priceOk: bool, postOk: bool)
    requires HandedOut(EmptyBook(isLong), steps) + 1 < TWO_TO_32
    ensures var b := Run(EmptyBook(isLong), steps).0;
            var (b', calls) := Run(EmptyBook(isLong), steps + [Submit(opening, order, priceOk, postOk)]);
            var id := HandedOut(EmptyBook(isLong), steps) + 1;
            && calls == Run(EmptyBook(isLong), steps).1
            && if order.size <= 30 && priceOk then
                 && b'.hash == b.hash + {id} && b'.info.Keys == b.info.Keys + {id} && id !in b.info
                 && (forall x :: x in b.info ==> b'.info[x] == b.info[x])
                 && RightSide(isLong, opening, b'.info[id].side)
                 && b'.info[id] == order.(requestId := id, side := b'.info[id].side)
               else b' == b
  {
    hide Next, Orderly, Run, HandedOut, RightSide;
    var s := Submit(opening, order, priceOk, postOk);
    var (b, log) := Run(EmptyBook(isLong), steps);
    StepOn(isLong, steps, s);
    SubmitEnters(b, opening, order, priceOk, postOk);
    assert log + [] == log;
  }

  lemma {:induction false} KindStays(b: Book, steps: seq<Step>)
    ensures Run(b, steps).0.isLong == b.isLong
    decreases |steps|
  {
    if steps == [] {
    } else {
      hide Next;
      KindStays(b, steps[..|steps| - 1]);
      NextKind(Run(b, steps[..|steps| - 1]).0, steps[|steps| - 1]);
    }
  }

  lemma NextKind(b: Book, s: Step)
    ensures Next(b, s).0.isLong == b.isLong
  {
    hide Reported, Wrap32, SideOf;
  }

  /**
   After any run a change of at most 30 units goes out unless the original has been
   reported done or cancelled or was filled; the changed order is entered as it is under
   the next id, and listened for only if it was sent.
   */
  lemma AmendedOrder(isLong: bool, steps: seq<Step>, id: uint32, changed: OrderInfo, priceOk: bool, sendOk: bool)
    requires HandedOut(EmptyBook(isLong), steps) + 1 < TWO_TO_32
    requires id in Run(EmptyBook(isLong), steps).0.info
    ensures var b := Run(EmptyBook(isLong), steps).0;
            var b' := Run(EmptyBook(isLong), steps + [Amend(id, changed, priceOk, sendOk)]).0;
            var newId, o := HandedOut(EmptyBook(isLong), steps) + 1, b.info[id];
            if changed.size <= 30 && priceOk
               && o.condition != OrderDone && o.condition != Canceled && o.stage != Filled then
              && newId !in b.info && b'.info == b.info[newId := changed.(requestId := newId)]
              && b'.hash == if sendOk then b.hash + {newId} else b.hash
            else b' == b
  {
    hide Next, Orderly, Run, HandedOut;
    StepOn(isLong, steps, Amend(id, changed, priceOk, sendOk));
    AmendEnters(Run(EmptyBook(isLong), steps).0, id, changed, priceOk, sendOk);
  }

  // ------------------------------------------------------------------- events

  /** The conditions after which the order is no longer listened for. */
  predicate EndsListening(c: Condition) {
    c !in {New, PendingNew, Partial, CancelRejected, TooLateToCancel, PendingChange, ChangeRejected, GatewayThrottle}
  }

  /** A failure: any condition that says nothing of acceptance, cancel, change or completion. */
  predicate Refuses(c: Condition) {
    EndsListening(c) && c != OrderDone && c != Canceled && c != Changed
  }

  function StageAfter(o: OrderInfo, c: Condition): Stage {
    if c == New && o.onAcknowledgement then Acknowledged
    else if c == OrderDone && o.onDone then Done
    else if c == Canceled && o.onCancel then Cancelled
    else if Refuses(c) && o.onAcknowledgement then Failed
    else o.stage
  }

  function CancelStageAfter(o: OrderInfo, c: Condition): CancelStage {
    if c == Canceled && o.onCancel then CancelDone
    else if (c == CancelRejected || c == TooLateToCancel) && o.onCancel then CancelFailed
    else o.cancelStage
  }

  /** Who is called, if a callback is registered for it. */
  function CallsAfter(o: OrderInfo, id: uint32, c: Condition): seq<Callback> {
    if c == New && o.onAcknowledgement then [Acked(id, true)]
    else if Refuses(c) && o.onAcknowledgement then [Acked(id, false)]
    else if c == OrderDone && o.onDone then [DoneSeen(id)]
    else if (c == Canceled || c == CancelRejected || c == TooLateToCancel) && o.onCancel
    then [CancelSeen(id, c == Canceled)]
    else if (c == Changed || c == ChangeRejected) && o.onChange then [ChangeSeen(id, c == Changed)]
    else []
  }

  /**
   After any run an order event changes only its own order, of that only stage, cancel
   stage, acknowledgement, condition and open size, calls whom it should, and ends the
   listening on exactly the conditions that end the order.
   */
  lemma EventOutcome(isLong: bool, steps: seq<Step>, id: uint32, c: Condition, openSize: uint32)
    requires HandedOut(EmptyBook(isLong), steps) < TWO_TO_32
    requires id in Run(EmptyBook(isLong), steps).0.hash
    ensures var (b, log) := Run(EmptyBook(isLong), steps);
            var (b', log') := Run(EmptyBook(isLong), steps + [OrderEvent(id, c, openSize)]);
            && id in b.info
            && var o := b.info[id];
            && b'.info == b.info[id := o.(condition := c, openSize := openSize, stage := StageAfter(o, c),
                                          cancelStage := CancelStageAfter(o, c),
                                          isAcknowledged := if !o.onAcknowledgement then o.isAcknowledged
                                                            else if c == New then true
                                                            else if Refuses(c) then false else o.isAcknowledged)]
            && b'.hash == (if EndsListening(c) then b.hash - {id} else b.hash)
            && b'.generator == b.generator
            && log' == log + CallsAfter(o, id, c)
  {
    var (b, log) := Run(EmptyBook(isLong), steps);
    assert (steps + [OrderEvent(id, c, openSize)])[..|steps|] == steps;
    CallbacksAreFinal(EmptyBook(isLong), steps);
    ReportedAs(b.info[id], id, c, openSize);
  }

  lemma ReportedAs(o: OrderInfo, id: uint32, c: Condition, openSize: uint32)
    requires o.requestId == id
    ensures var (r, calls, over) := Reported(o, c, openSize);
            && calls == CallsAfter(o, id, c) && over == EndsListening(c)
            && r == o.(condition := c, openSize := openSize, stage := StageAfter(o, c),
                       cancelStage := CancelStageAfter(o, c),
                       isAcknowledged := if !o.onAcknowledgement then o.isAcknowledged
                                         else if c == New then true
                                         else if Refuses(c) then false else o.isAcknowledged)
  {
  }

  /**
   After any run a fill calls back with its size, and when it leaves nothing open no
   cancel and no change of the order goes out from there.
   */
  lemma FillOutcome(isLong: bool, steps: seq<Step>, id: uint32, size: uint32, openSize: uint32,
                    changed: OrderInfo, priceOk: bool, sendOk: bool)
    requires HandedOut(EmptyBook(isLong), steps) < TWO_TO_32
    requires id in Run(EmptyBook(isLong), steps).0.hash
    ensures var (b, log) := Run(EmptyBook(isLong), steps);
            var (b', log') := Run(EmptyBook(isLong), steps + [FillEvent(id, size, openSize)]);
            && id in b.info && id in b'.info && b'.hash == b.hash
            && log' == log + (if b.info[id].onFill then [FillSeen(id, size)] else [])
            && (openSize > 0 ==> b' == b)
            && (openSize == 0 ==>
                  && b'.info == b.info[id := b.info[id].(stage := Filled)]
                  && !CancelSent(b', id, sendOk) && !Change(b', id, changed, priceOk, sendOk).1)
  {
    var (b, log) := Run(EmptyBook(isLong), steps);
    assert (steps + [FillEvent(id, size, openSize)])[..|steps|] == steps;
    CallbacksAreFinal(EmptyBook(isLong), steps);
    assert b.info[id := b.info[id]] == b.info;
    if openSize == 0 {
      hide Run, HandedOut, Enter, CancelSent, Change;
      FilledIsOver(b, id, changed, priceOk, sendOk);
    }
  }

  /** Nothing goes out for an order that is filled. */
  lemma FilledIsOver(b: Book, id: uint32, changed: OrderInfo, priceOk: bool, sendOk: bool)
    requires id in b.info
    ensures var b' := b.(info := b.info[id := b.info[id].(stage := Filled)]);
            !CancelSent(b', id, sendOk) && !Change(b', id, changed, priceOk, sendOk).1
  {
  }

  /** After any run a notice of a cancel or of an unknown change changes only the order's stage, and calls nobody. */
  lemma NoticeOutcome(isLong: bool, steps: seq<Step>, id: uint32, unknown: bool)
    requires HandedOut(EmptyBook(isLong), steps) < TWO_TO_32
    requires id in Run(EmptyBook(isLong), steps).0.hash
    ensures var (b, log) := Run(EmptyBook(isLong), steps);
            && id in b.info
            && Run(EmptyBook(isLong), steps + [CancelNotice(id)])
               == (b.(info := b.info[id := b.info[id].(stage := Cancelled)]), log)
            && Run(EmptyBook(isLong), steps + [ChangeNotice(id, unknown)])
               == (if unknown then b.(info := b.info[id := b.info[id].(stage := Failed)]) else b, log)
  {
    var (b, log) := Run(EmptyBook(isLong), steps);
    assert (steps + [CancelNotice(id)])[..|steps|] == steps;
    assert (steps + [ChangeNotice(id, unknown)])[..|steps|] == steps;
    CallbacksAreFinal(EmptyBook(isLong), steps);
    assert log + [] == log;
  }
}
