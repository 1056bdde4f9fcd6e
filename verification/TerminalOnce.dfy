/**
 Every run of requests and exchange events, in any order and with whatever the
 client does to its orders in between: an order id is fresh and gets at most
 one terminal callback, after which the account is deaf to it.
 */
module TerminalOnce {
  import opened Ledger
  import opened OrderAccounts

  datatype Step = Submit(opening: bool, order: OrderInfo, priceOk: bool, postOk: bool)
                | Amend(original: uint32, changed: OrderInfo, amendPriceOk: bool, sendOk: bool)
                | OrderEvent(id: uint32, condition: Condition, openSize: uint32)
                | FillEvent(id: uint32, size: uint32, fillOpenSize: uint32)
                | CancelNotice(id: uint32)
                | ChangeNotice(id: uint32, unknown: bool)
                | ClientUpdate(id: uint32, update: OrderInfo)

  function Next(b: Book, s: Step): (Book, seq<Callback>) {
    match s
    case Submit(opening, order, priceOk, postOk) => (Limit(b, opening, order, priceOk, postOk).0, [])
    case Amend(original, changed, priceOk, sendOk) =>
      (if original in b.info then Change(b, original, changed, priceOk, sendOk).0 else b, [])
    case OrderEvent(id, condition, openSize) => OnOrder(b, id, condition, openSize)
    case FillEvent(id, size, openSize) => OnFill(b, id, size, openSize)
    case CancelNotice(id) => (OnOrderCancel(b, id), [])
    case ChangeNotice(id, unknown) => (OnOrderChange(b, id, unknown), [])
    case ClientUpdate(id, update) =>
        (if id in b.info then b.(info := b.info[id := update.(requestId := id)]) else b, [])
  }

  /** The book after a run, and the callbacks made, in order. */
  function Run(b: Book, steps: seq<Step>): (Book, seq<Callback>) {
    if steps == [] then (b, [])
    else
      var (before, log) := Run(b, steps[..|steps| - 1]);
      var (after, calls) := Next(before, steps[|steps| - 1]);
      (after, log + calls)
  }

  /** The step is a request that is given an id. */
  predicate Handed(b: Book, s: Step) {
    match s
    case Submit(_, order, priceOk, _) => order.size <= MAXIMUM_SIZE && priceOk
    case Amend(original, changed, priceOk, _) =>
      changed.size <= MAXIMUM_SIZE && priceOk && original in b.info && !b.info[original].IsOver()
    case _ => false
  }

  /** Number of ids a run hands out; events and updates do not count. */
  function HandedOut(b: Book, steps: seq<Step>): nat {
    if steps == [] then 0
    else
      var before, last := steps[..|steps| - 1], steps[|steps| - 1];
      HandedOut(b, before) + if Handed(Run(b, before).0, last) then 1 else 0
  }

  /** Ids in the hash were handed out, and the order under an id carries it. */
  predicate Orderly(b: Book) {
    && b.hash <= b.info.Keys
    && forall id :: id in b.info ==> 0 < id <= b.generator && b.info[id].requestId == id
  }

  /** The callbacks of a log concern ids handed out, and none follows a terminal one for its id. */
  predicate Final(b: Book, log: seq<Callback>) {
    && (forall i :: 0 <= i < |log| ==> 0 < log[i].id <= b.generator)
    && (forall i :: 0 <= i < |log| && log[i].Terminal() ==> log[i].id !in b.hash)
    && (forall i, j :: 0 <= i < j < |log| && log[i].Terminal() ==> log[j].id != log[i].id)
  }

  lemma EnterIsOrderly(b: Book, o: OrderInfo)
    requires Orderly(b) && b.generator + 1 < TWO_TO_32
    ensures var b' := Enter(b, o);
            && Orderly(b') && b'.generator == b.generator + 1
            && b'.hash == b.hash + {b'.generator} && b'.generator !in b.hash
  {
    hide Wrap32;
    assert Wrap32(b.generator + 1) == b.generator + 1;
  }

  lemma ReportIsTerminal(o: OrderInfo, condition: Condition, openSize: uint32)
    ensures var (r, calls, over) := Reported(o, condition, openSize);
            && r.requestId == o.requestId && |calls| <= 1
            && (forall c :: c in calls ==> c.id == o.requestId && (c.Terminal() ==> over))
  {
  }

  lemma EventIsOrderly(b: Book, id: uint32, condition: Condition, openSize: uint32)
    requires Orderly(b)
    ensures var (b', calls) := OnOrder(b, id, condition, openSize);
            && Orderly(b') && b'.generator == b.generator && b'.hash <= b.hash && |calls| <= 1
            && (forall c :: c in calls ==> c.id in b.hash && (c.Terminal() ==> c.id !in b'.hash))
  {
    hide Reported, Callback.Terminal;
    if Known(b, id) {
      ReportIsTerminal(b.info[id], condition, openSize);
    }
  }

  /**
   One step: new ids lie above the old, and only an id in the hash is called back, leaving it if the
   call is terminal.
   */
  lemma NextIsOrderly(b: Book, s: Step)
    requires Orderly(b) && (Handed(b, s) ==> b.generator + 1 < TWO_TO_32)
    ensures var (b', calls) := Next(b, s);
            && Orderly(b') && b'.generator == b.generator + (if Handed(b, s) then 1 else 0)
            && (forall id :: id in b'.hash ==> id in b.hash || b.generator < id)
            && |calls| <= 1
            && (forall c :: c in calls ==> c.id in b.hash && (c.Terminal() ==> c.id !in b'.hash))
  {
    hide Enter, Reported, SideOf, OnOrder;
    match s
    case Submit(opening, order, _, _) =>
      if Handed(b, s) {
        EnterIsOrderly(b, order.(side := SideOf(b.isLong, opening)));
      }
    case Amend(_, changed, _, _) =>
      if Handed(b, s) {
        EnterIsOrderly(b, changed);
      }
    case OrderEvent(id, condition, openSize) =>
      EventIsOrderly(b, id, condition, openSize);
    case FillEvent(_, _, _) =>
    case CancelNotice(_) =>
    case ChangeNotice(_, _) =>
    case ClientUpdate(_, _) =>
  }

  lemma FinalGrows(b: Book, log: seq<Callback>, b': Book, calls: seq<Callback>)
    requires Final(b, log) && b.generator <= b'.generator && |calls| <= 1
    requires forall id :: id in b.hash ==> 0 < id <= b.generator
    requires forall id :: id in b'.hash ==> id in b.hash || b.generator < id
    requires forall c :: c in calls ==> c.id in b.hash && (c.Terminal() ==> c.id !in b'.hash)
    ensures Final(b', log + calls)
  {
    hide Callback.Terminal;
  }

  /** After any run, terminal callbacks are final. */
  lemma {:induction false} CallbacksAreFinal(b: Book, steps: seq<Step>)
    requires Orderly(b) && b.generator + HandedOut(b, steps) < TWO_TO_32
    ensures var (b', log) := Run(b, steps);
            Orderly(b') && Final(b', log) && b'.generator == b.generator + HandedOut(b, steps)
    decreases |steps|
  {
    if steps == [] {
    } else {
      hide Next, Orderly, Handed, Final;
      var (before, log) := Run(b, steps[..|steps| - 1]);
      var (after, calls) := Next(before, steps[|steps| - 1]);
      CallbacksAreFinal(b, steps[..|steps| - 1]);
      NextIsOrderly(before, steps[|steps| - 1]);
      HashWasHandedOut(before);
      FinalGrows(before, log, after, calls);
    }
  }

  lemma HashWasHandedOut(b: Book)
    requires Orderly(b)
    ensures forall id :: id in b.hash ==> 0 < id <= b.generator
  {
  }

  lemma {:induction false} RunsCompose(b: Book, steps: seq<Step>, more: seq<Step>)
    ensures var (middle, log) := Run(b, steps);
            var (b', later) := Run(middle, more);
            Run(b, steps + more) == (b', log + later)
    decreases |more|
  {
    hide Next;
    if more == [] {
      assert steps + more == steps;
      assert Run(b, steps).1 + [] == Run(b, steps).1;
    } else {
      RunsCompose(b, steps, more[..|more| - 1]);
      assert (steps + more)[..|steps + more| - 1] == steps + more[..|more| - 1];
      var (middle, log) := Run(b, steps);
      var (before, later) := Run(middle, more[..|more| - 1]);
      var calls := Next(before, more[|more| - 1]).1;
      assert log + (later + calls) == log + later + calls;
    }
  }

  lemma {:induction false} HandedOutCompose(b: Book, steps: seq<Step>, more: seq<Step>)
    ensures HandedOut(b, steps + more) == HandedOut(b, steps) + HandedOut(Run(b, steps).0, more)
    decreases |more|
  {
    hide Next, Handed;
    if more == [] {
      assert steps + more == steps;
    } else {
      HandedOutCompose(b, steps, more[..|more| - 1]);
      RunsCompose(b, steps, more[..|more| - 1]);
      assert (steps + more)[..|steps + more| - 1] == steps + more[..|more| - 1];
    }
  }

  /**
   As long as ids do not repeat, each id gets at most one terminal callback,
   and after it no callback of any kind; the id never enters the hash again,
   whatever follows.
   */
  lemma TerminalOnce(isLong: bool, steps: seq<Step>, more: seq<Step>, i: nat)
    requires HandedOut(EmptyBook(isLong), steps + more) < TWO_TO_32
    requires var log := Run(EmptyBook(isLong), steps).1; i < |log| && log[i].Terminal()
    ensures var log := Run(EmptyBook(isLong), steps).1;
            var (b', all) := Run(EmptyBook(isLong), steps + more);
            && log <= all
            && log[i].id !in b'.hash
            && (forall j :: i < j < |all| ==> all[j].id != log[i].id)
  {
    RunsCompose(EmptyBook(isLong), steps, more);
    CallbacksAreFinal(EmptyBook(isLong), steps + more);
  }

  /** After the terminal callback an event for the id changes nothing and calls nobody. */
  lemma DeafAfterTerminal(isLong: bool, steps: seq<Step>, i: nat, condition: Condition, size: uint32, openSize: uint32)
    requires HandedOut(EmptyBook(isLong), steps) < TWO_TO_32
    requires var log := Run(EmptyBook(isLong), steps).1; i < |log| && log[i].Terminal()
    ensures var (b, log) := Run(EmptyBook(isLong), steps);
            var id := log[i].id;
            OnOrder(b, id, condition, openSize) == (b, []) && OnFill(b, id, size, openSize) == (b, [])
  {
    CallbacksAreFinal(EmptyBook(isLong), steps);
  }

  /** Along a run ids are handed out in increasing order from 1, so each is fresh and none is zero. */
  lemma IdsAreFresh(isLong: bool, steps: seq<Step>, o: OrderInfo)
    requires HandedOut(EmptyBook(isLong), steps) + 1 < TWO_TO_32
    ensures var b := Run(EmptyBook(isLong), steps).0;
            var b' := Enter(b, o);
            && b'.generator == HandedOut(EmptyBook(isLong), steps) + 1
            && b'.generator !in b.info && b'.generator in b'.hash && b'.generator in b'.info
            && b'.info[b'.generator] == o.(requestId := b'.generator)
  {
    CallbacksAreFinal(EmptyBook(isLong), steps);
  }

  lemma NextGenerator(b: Book, s: Step)
    ensures Next(b, s).0.generator == if Handed(b, s) then Wrap32(b.generator + 1) else b.generator
  {
    hide Reported, Wrap32, SideOf;
  }

  /** In every run, however long, the generator counts the ids handed out, modulo 2^32. */
  lemma {:induction false} GeneratorCounts(b: Book, steps: seq<Step>)
    ensures Run(b, steps).0.generator == Wrap32(b.generator + HandedOut(b, steps))
    decreases |steps|
  {
    hide Next, Handed;
    if steps == [] {
    } else {
      GeneratorCounts(b, steps[..|steps| - 1]);
      NextGenerator(Run(b, steps[..|steps| - 1]).0, steps[|steps| - 1]);
    }
  }

  /** The next id is zero, which every caller takes for failure, exactly at the multiples of 2^32. */
  lemma ZeroIdExactly(isLong: bool, steps: seq<Step>, o: OrderInfo)
    ensures Enter(Run(EmptyBook(isLong), steps).0, o).generator == 0
            <==> (HandedOut(EmptyBook(isLong), steps) + 1) % TWO_TO_32 == 0
  {
    hide Run, HandedOut;
    GeneratorCounts(EmptyBook(isLong), steps);
  }

  // --------------------------------------------------- requests after the end

  /** The exchange has reported the order done or cancelled. */
  predicate EndedBy(b: Book, id: uint32, condition: Condition) {
    id in b.info && id !in b.hash && b.info[id].condition == condition
  }

  /** The client leaves the condition alone that the exchange has reported. */
  predicate LeavesCondition(steps: seq<Step>, id: uint32, condition: Condition) {
    forall s :: s in steps && s.ClientUpdate? && s.id == id ==> s.update.condition == condition
  }

  lemma EndStays(b: Book, s: Step, id: uint32, condition: Condition)
    requires Orderly(b) && (Handed(b, s) ==> b.generator + 1 < TWO_TO_32)
    requires EndedBy(b, id, condition) && LeavesCondition([s], id, condition)
    ensures EndedBy(Next(b, s).0, id, condition)
  {
    hide Reported, SideOf, Wrap32;
    assert s in [s];
    assert Handed(b, s) ==> Wrap32(b.generator + 1) == b.generator + 1 by { WrapOfSmall(b.generator); }
  }

  lemma WrapOfSmall(n: uint32)
    ensures n + 1 < TWO_TO_32 ==> Wrap32(n + 1) == n + 1
  {
  }

  lemma {:induction false} EndedForGood(b: Book, more: seq<Step>, id: uint32, condition: Condition)
    requires Orderly(b) && b.generator + HandedOut(b, more) < TWO_TO_32
    requires EndedBy(b, id, condition) && LeavesCondition(more, id, condition)
    ensures EndedBy(Run(b, more).0, id, condition)
    decreases |more|
  {
    hide Next, Orderly, Handed, EndedBy;
    if more == [] {
    } else {
      var before, last := more[..|more| - 1], more[|more| - 1];
      assert last in more;
      EndedForGood(b, before, id, condition);
      CallbacksAreFinal(b, before);
      EndStays(Run(b, before).0, last, id, condition);
    }
  }

  /** Once the exchange has reported an order done or cancelled no cancel and no change of it is ever sent. */
  lemma NoRequestAfterEnd(isLong: bool, steps: seq<Step>, id: uint32, condition: Condition, openSize: uint32,
                          more: seq<Step>, changed: OrderInfo, priceOk: bool, sendOk: bool)
    requires condition == OrderDone || condition == Canceled
    requires id in Run(EmptyBook(isLong), steps).0.hash && LeavesCondition(more, id, condition)
    requires HandedOut(EmptyBook(isLong), steps + [OrderEvent(id, condition, openSize)] + more) < TWO_TO_32
    ensures var b := Run(EmptyBook(isLong), steps + [OrderEvent(id, condition, openSize)] + more).0;
            id in b.info && !CancelSent(b, id, sendOk) && !Change(b, id, changed, priceOk, sendOk).1
  {
    hide Next, Handed, LeavesCondition, Reported;
    var e := OrderEvent(id, condition, openSize);
    var first := steps + [e];
    HandedOutCompose(EmptyBook(isLong), first, more);
    HandedOutCompose(EmptyBook(isLong), steps, [e]);
    CallbacksAreFinal(EmptyBook(isLong), steps);
    CallbacksAreFinal(EmptyBook(isLong), first);
    assert first[..|steps|] == steps;
    EventEnds(Run(EmptyBook(isLong), steps).0, id, condition, openSize);
    EndedForGood(Run(EmptyBook(isLong), first).0, more, id, condition);
    RunsCompose(EmptyBook(isLong), first, more);
  }

  lemma EventEnds(b: Book, id: uint32, condition: Condition, openSize: uint32)
    requires Orderly(b) && id in b.hash && (condition == OrderDone || condition == Canceled)
    ensures EndedBy(Next(b, OrderEvent(id, condition, openSize)).0, id, condition)
  {
  }

  // -------------------------------------------------------- when ids come again

  function Repeated(s: Step, k: nat): seq<Step> {
    if k == 0 then [] else Repeated(s, k - 1) + [s]
  }

  function Ordinary(): Step {
    Submit(true, NewOrder(1, 1.0).(onAcknowledgement := true), true, true)
  }

  lemma OrdinarySubmit(b: Book)
    ensures var (b', calls) := Next(b, Ordinary());
            var id := Wrap32(b.generator + 1);
            && Handed(b, Ordinary()) && calls == [] && b'.generator == id
            && (forall x :: x in b'.hash <==> x in b.hash || x == id)
            && (id !in b.hash ==> Known(b', id) && b'.info[id].onAcknowledgement && b'.info[id].requestId == id)
  {
    hide SideOf, Wrap32;
  }

  lemma Refused(b: Book)
    requires Known(b, 1) && b.info[1].onAcknowledgement && b.info[1].requestId == 1
    ensures Next(b, OrderEvent(1, OtherCondition, 1)).1 == [Acked(1, false)]
  {
  }

  lemma WrapNext(k: nat)
    requires 0 < k <= TWO_TO_32
    ensures Wrap32(Wrap32(k) + 1) == Wrap32(k + 1) && (Wrap32(k + 1) == 1 <==> k == TWO_TO_32)
  {
  }

  /** Orders submitted after id 1 was given up: it is given out again by the 2^32th of them. */
  lemma {:induction false} SubmitMany(b: Book, k: nat)
    requires b.generator == 1 && 1 !in b.hash && k <= TWO_TO_32
    ensures var steps := Repeated(Ordinary(), k);
            var (b', log) := Run(b, steps);
            && log == [] && b'.generator == Wrap32(1 + k) && HandedOut(b, steps) == k
            && (k < TWO_TO_32 ==> 1 !in b'.hash)
            && (k == TWO_TO_32 ==> Known(b', 1) && b'.info[1].onAcknowledgement && b'.info[1].requestId == 1)
  {
    hide Next, Handed, Ordinary, Wrap32;
    if k == 0 {
      assert Wrap32(1) == 1;
    } else {
      SubmitMany(b, k - 1);
      OrdinarySubmit(Run(b, Repeated(Ordinary(), k - 1)).0);
      WrapNext(k);
      var steps, fewer := Repeated(Ordinary(), k), Repeated(Ordinary(), k - 1);
      assert steps[..|steps| - 1] == fewer && steps[|steps| - 1] == Ordinary();
    }
  }

  /** Beyond the 2^32th id the promise fails: a run with two terminal callbacks for id 1. */
  lemma IdsComeAgain(isLong: bool, n: nat)
    requires n == TWO_TO_32
    ensures var refusal := OrderEvent(1, OtherCondition, 1);
            var steps := [Ordinary(), refusal] + Repeated(Ordinary(), n) + [refusal];
            && HandedOut(EmptyBook(isLong), steps) == n + 1
            && Run(EmptyBook(isLong), steps).1 == [Acked(1, false), Acked(1, false)]
  {
    hide Next, Handed, Ordinary, Repeated, Known;
    var refusal := OrderEvent(1, OtherCondition, 1);
    var start, many := [Ordinary(), refusal], Repeated(Ordinary(), n);
    var b := EmptyBook(isLong);
    FirstRefusal(isLong);
    SubmitMany(Run(b, start).0, n);
    RunsCompose(b, start, many);
    HandedOutCompose(b, start, many);
    var all := start + many;
    Refused(Run(b, all).0);
    EventHandsOutNothing(Run(b, all).0, refusal);
    assert (all + [refusal])[..|all|] == all;
  }

  lemma EventHandsOutNothing(b: Book, s: Step)
    requires s.OrderEvent?
    ensures !Handed(b, s)
  {
  }

  lemma FirstRefusal(isLong: bool)
    ensures var start := [Ordinary(), OrderEvent(1, OtherCondition, 1)];
            var (b, log) := Run(EmptyBook(isLong), start);
            b.generator == 1 && b.hash == {} && log == [Acked(1, false)] && HandedOut(EmptyBook(isLong), start) == 1
  {
    var start := [Ordinary(), OrderEvent(1, OtherCondition, 1)];
    assert start[..1] == [Ordinary()] && start[..1][..0] == [];
  }
}
