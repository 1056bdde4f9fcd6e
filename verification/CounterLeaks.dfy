/**
 How far the live counters are from what is really live: the shares they keep
 of orders that no longer work, and that they keep them for good.
 */
module CounterLeaks {
  import opened Ledger
  import opened OrderAccounts
  import opened LiveOrders
  import opened LiveCounters

  /** Shares of an order that works. */
  function WorkingShare(w: World, opening: bool, id: nat): nat {
    if id < TWO_TO_32 && w.Works(id) then Share(w, opening, id) else 0
  }

  function WorkingShares(w: World, opening: bool): nat -> nat {
    (id: nat) => WorkingShare(w, opening, id)
  }

  /** Total size of the orders that work. */
  function ReallyLive(w: World, opening: bool): nat {
    SumTo(WorkingShares(w, opening), w.desk.book.generator)
  }

  /** Shares a counter keeps of an order that no longer works. */
  function LeakedShare(w: World, opening: bool, id: nat): nat {
    if id < TWO_TO_32 && !w.Works(id) then Share(w, opening, id) else 0
  }

  function LeakedShares(w: World, opening: bool): nat -> nat {
    (id: nat) => LeakedShare(w, opening, id)
  }

  function Leaked(w: World, opening: bool): nat {
    SumTo(LeakedShares(w, opening), w.desk.book.generator)
  }

  /** The order was ended by the exchange alone and has shares, or it was cancelled on request when partly filled. */
  predicate Leaks(w: World, opening: bool, id: uint32) {
    && id in w.standing && id in w.desk.Info() && Opens(w.desk.book.isLong, w.desk.Info()[id].side) == opening
    && ((w.standing[id] == Dropped && w.desk.Info()[id].size > 0)
        || (w.standing[id] == CancelledOnRequest && w.desk.Info()[id].fillSize > 0))
  }

  lemma LeaksMeansShares(w: World, opening: bool, id: uint32)
    ensures Leaks(w, opening, id) <==> LeakedShare(w, opening, id) > 0
  {
  }

  lemma {:induction false} SumsAdd(f: nat -> nat, g: nat -> nat, h: nat -> nat, n: nat)
    requires forall id: nat :: h(id) == f(id) + g(id)
    ensures SumTo(h, n) == SumTo(f, n) + SumTo(g, n)
  {
    if n == 0 {
    } else {
      SumsAdd(f, g, h, n - 1);
    }
  }

  lemma {:induction false} SumIsZeroExactly(f: nat -> nat, n: nat)
    ensures SumTo(f, n) == 0 <==> forall id: nat :: 1 <= id <= n ==> f(id) == 0
  {
    if n == 0 {
    } else {
      SumIsZeroExactly(f, n - 1);
    }
  }

  /** What is counted is what works and what has leaked. */
  lemma LiveSplits(w: World, opening: bool)
    ensures Live(w, opening) == ReallyLive(w, opening) + Leaked(w, opening)
  {
    hide Opens, SumTo;
    SumsAdd(WorkingShares(w, opening), LeakedShares(w, opening), Shares(w, opening), w.desk.book.generator);
  }

  lemma NothingLeaksExactly(w: World, opening: bool)
    requires WorldOk(w)
    ensures Leaked(w, opening) == 0 <==> forall id :: !Leaks(w, opening, id)
  {
    hide Leaks, SumTo, Counted, LeakedShare;
    SumIsZeroExactly(LeakedShares(w, opening), w.desk.book.generator);
    forall id: uint32
      ensures Leaks(w, opening, id) <==> LeakedShares(w, opening)(id) > 0
      ensures Leaks(w, opening, id) ==> 1 <= id <= w.desk.book.generator
    {
      LeaksMeansShares(w, opening, id);
      LeaksIsKnown(w, opening, id);
    }
  }

  lemma LeaksIsKnown(w: World, opening: bool, id: uint32)
    requires WorldOk(w)
    ensures Leaks(w, opening, id) ==> 1 <= id <= w.desk.book.generator
  {
    hide Counted, Opens;
    if Leaks(w, opening, id) {
      KnownRange(w.desk, id);
    }
  }

  /**
   In every run a counter is the total size of the orders that still work if and
   only if no order of its side was ended by the exchange alone, by a cancel nobody
   asked for or by a late rejection, and none was cancelled on request after a part
   of it had been filled.  Of such orders the shares stay counted.
   */
  lemma CountersAreLiveExactly(isLong: bool, divisor: Divisor, ms: seq<Move>)
    requires AllHonest(isLong, divisor, ms)
    ensures var w := Play(isLong, divisor, ms);
            && w.desk.totalOpen == ReallyLive(w, true) + Leaked(w, true)
            && w.desk.totalClose == ReallyLive(w, false) + Leaked(w, false)
            && (w.desk.totalOpen == ReallyLive(w, true) <==> forall id :: !Leaks(w, true, id))
            && (w.desk.totalClose == ReallyLive(w, false) <==> forall id :: !Leaks(w, false, id))
  {
    hide Advance, Leaks, ReallyLive, Leaked, AllHonest, Live;
    var w := Play(isLong, divisor, ms);
    CountersAreExact(isLong, divisor, ms);
    LiveSplits(w, true);
    LiveSplits(w, false);
    NothingLeaksExactly(w, true);
    NothingLeaksExactly(w, false);
  }

  // ------------------------------------------------------- leaked shares stay

  /** Orders keep side, size and price, and their filled part unless the account still listens for them. */
  predicate KeepsOrders(d: Desk, d': Desk) {
    && d'.book.isLong == d.book.isLong && d'.divisor == d.divisor && d.book.generator <= d'.book.generator
    && forall id :: id in d.Info() ==>
         && id in d'.Info()
         && d'.Info()[id].side == d.Info()[id].side && d'.Info()[id].size == d.Info()[id].size
         && d'.Info()[id].price == d.Info()[id].price
         && (id !in d.book.hash ==> d'.Info()[id].fillSize == d.Info()[id].fillSize)
  }

  /** What has ended keeps the way it ended. */
  predicate KeepsEnded(w: World, w': World) {
    forall id :: id in w.standing && w.standing[id] != Working ==>
      id in w'.standing && w'.standing[id] == w.standing[id]
  }

  lemma SameKeeps(d: Desk, d': Desk)
    requires SameShares(d, d') && d.book.generator <= d'.book.generator
    ensures KeepsOrders(d, d')
  {
  }

  lemma PlacingPersists(w: World, opening: bool, price: real, size: uint32, priceOk: bool, postOk: bool, accepted: bool)
    requires WorldOk(w) && w.desk.book.generator + 1 < TWO_TO_32
    ensures var w' := Advance(w, Placing(opening, price, size, priceOk, postOk, accepted));
            SameShares(w.desk, w'.desk) && w.desk.book.generator <= w'.desk.book.generator && KeepsEnded(w, w')
  {
    hide WorldOk, SameShares, Report, Enter, Count;
    var shares: uint32 := size / w.desk.divisor;
    var o := Requested(shares, price).(side := SideOf(w.desk.book.isLong, opening));
    SameAsItself(w.desk);
    EnteringKeeps(w, o);
    SubmittingKeeps(w, o, accepted, shares);
    var d1 := w.desk.(book := Enter(w.desk.book, o));
    var d2 := Report(d1, d1.book.generator, if accepted then New else OtherCondition, shares);
    GeneratorStays(d1, d1.book.generator, if accepted then New else OtherCondition, shares) by { IsOk(w.(desk := d1)); }
    SameInAll(w.desk, d2);
  }

  lemma GeneratorStays(d: Desk, id: uint32, condition: Condition, openSize: uint32)
    requires DeskOk(d)
    ensures Report(d, id, condition, openSize).book.generator == d.book.generator
  {
    hide Report, DeskOk, SameShares, Count;
    ReportEffect(d, id, condition, openSize);
  }

  /** Order map and counters do not matter. */
  lemma SameInAll(d: Desk, d': Desk)
    requires SameShares(d, d')
    ensures forall e: Desk :: e.book == d'.book && e.divisor == d'.divisor ==> SameShares(d, e)
  {
  }

  lemma ChangingPersists(w: World, id: uint32, price: real, newSize: uint32, priceOk: bool, sendOk: bool,
                         accepted: bool)
    requires WorldOk(w) && Honest(w, Changing(id, price, newSize, priceOk, sendOk, accepted))
    ensures var w' := Advance(w, Changing(id, price, newSize, priceOk, sendOk, accepted));
            SameShares(w.desk, w'.desk) && w.desk.book.generator <= w'.desk.book.generator && KeepsEnded(w, w')
  {
    hide WorldOk, SameShares, Report, Enter, CountChange, OrderInfo.IsOver;
    SameAsItself(w.desk);
    if w.desk.Holds(id) {
      var asked := w.desk.Info()[id].(onChange := true);
      var changed := w.desk.Info()[id].CopyForChange(price, newSize / w.desk.divisor);
      var d1 := w.desk.WithInfo(id, asked);
      IsOk(w);
      UpdateIsOk(w.desk, id, asked);
      OnChangeKeeps(w, id);
      RegisteredCopy(w.desk, id, price, newSize / w.desk.divisor);
      EnteringKeeps(w.(desk := d1), changed);
      SubmittingKeeps(w.(desk := d1), changed, accepted, changed.size);
      var d2 := d1.(book := Enter(d1.book, changed));
      var condition := if accepted then New else OtherCondition;
      var d3 := Report(d2, d2.book.generator, condition, changed.size);
      GeneratorStays(d2, d2.book.generator, condition, changed.size) by { IsOk(w.(desk := d2)); }
      SameTwice(w.desk, d1, d2);
      SameTwice(w.desk, d1, d3);
      SameInAll(w.desk, d1);
      SameInAll(w.desk, d2.(book := d2.book.(hash := d2.book.hash - {d2.book.generator}))) by {
        HashDoesNotMatter(w.desk, d2);
      }
      SameInAll(w.desk, d3);
      CountChangeKeepsBook(d3.(orders := d3.orders + {d2.book.generator}));
    }
  }

  lemma HashDoesNotMatter(d: Desk, d': Desk)
    requires SameShares(d, d')
    ensures forall hash :: SameShares(d, d'.(book := d'.book.(hash := hash)))
  {
  }

  lemma CountChangeKeepsBook(d: Desk)
    ensures forall c, o :: CountChange(d, c, o).book == d.book && CountChange(d, c, o).divisor == d.divisor
  {
  }

  lemma CancellingPersists(w: World, id: uint32, sendOk: bool, answer: Answer)
    requires WorldOk(w) && Honest(w, Cancelling(id, sendOk, answer))
    ensures var w' := Advance(w, Cancelling(id, sendOk, answer));
            SameShares(w.desk, w'.desk) && w.desk.book.generator == w'.desk.book.generator && KeepsEnded(w, w')
  {
    hide WorldOk, DeskOk, SameShares, AwaitCancel, CancelSent, OrderInfo.CanCancel;
    SameAsItself(w.desk);
    IsOk(w);
    SameInAll(w.desk, w.desk);
    if w.desk.Holds(id) {
      var asked := w.desk.Info()[id].(onCancel := true, cancelStage := CancelInit);
      var d := w.desk.WithInfo(id, asked);
      UpdateIsOk(w.desk, id, asked);
      AnswerPersists(d, id, answer);
      SameTwice(w.desk, d, AwaitCancel(d, id, answer).0);
      OnlyConfirmedIsCancelled(d, id, answer);
    }
  }

  lemma OnlyConfirmedIsCancelled(d: Desk, id: uint32, answer: Answer)
    requires id in d.Info()
    ensures AwaitCancel(d, id, answer).1 == answer.Confirmed?
  {
    hide Report, Count;
  }

  lemma AnswerPersists(d: Desk, id: uint32, answer: Answer)
    requires DeskOk(d) && id in d.Info()
    ensures var d' := AwaitCancel(d, id, answer).0;
            SameShares(d, d') && d'.book.generator == d.book.generator
  {
    hide Report, DeskOk, SameShares, Count;
    var o := d.Info()[id];
    match answer
    case Declined =>
      var d1 := Report(d, id, CancelRejected, o.openSize);
      ReportEffect(d, id, CancelRejected, o.openSize);
      UpdateIsOk(d1, id, d1.Info()[id].(cancelStage := NotCancelled));
      SameTwice(d, d1, d1.WithInfo(id, d1.Info()[id].(cancelStage := NotCancelled)));
    case Confirmed(openSize) =>
      var d1 := Report(d, id, Canceled, openSize);
      ReportEffect(d, id, Canceled, openSize);
      var o1 := d1.Info()[id];
      CountingIsOk(d, d1, o1.side, -(o1.openSize as int));
      CountOnly(d1, o1.side, -(o1.openSize as int));
  }

  lemma FillingPersists(w: World, id: uint32, fill: uint32, openSize: uint32)
    requires WorldOk(w)
    ensures var w' := Advance(w, Filling(id, fill, openSize));
            KeepsOrders(w.desk, w'.desk) && w'.standing == w.standing
  {
    hide Counted;
    if id in w.desk.book.hash {
      ReactToOne(w.desk.(book := OnFill(w.desk.book, id, fill, openSize).0), [FillSeen(id, fill)]);
    } else {
      ReactToOne(w.desk, []);
    }
  }

  lemma NoticesPersist(w: World, id: uint32, unknown: bool)
    requires WorldOk(w)
    ensures SameShares(w.desk, Advance(w, CancelNoticed(id)).desk)
    ensures SameShares(w.desk, Advance(w, ChangeNoticed(id, unknown)).desk)
    ensures Advance(w, CancelNoticed(id)).desk.book.generator == w.desk.book.generator
    ensures Advance(w, ChangeNoticed(id, unknown)).desk.book.generator == w.desk.book.generator
  {
    hide Counted, DeskOk, SameShares;
    SameAsItself(w.desk);
    if Known(w.desk.book, id) {
      var o := w.desk.Info()[id];
      UpdateIsOk(w.desk, id, o.(stage := Cancelled));
      UpdateIsOk(w.desk, id, o.(stage := Failed));
    }
  }

  /** Every move keeps what has ended as it ended. */
  lemma MovePersists(w: World, m: Move)
    requires WorldOk(w) && Honest(w, m)
    ensures var w' := Advance(w, m); KeepsOrders(w.desk, w'.desk) && KeepsEnded(w, w')
  {
    hide WorldOk, SameShares, Report, Place, ChangeOrder, CancelOrder, ReportFill;
    IsOk(w);
    var w' := Advance(w, m);
    match m
    case Placing(opening, price, size, priceOk, postOk, accepted) =>
      PlacingPersists(w, opening, price, size, priceOk, postOk, accepted);
      SameKeeps(w.desk, w'.desk);
    case Changing(id, price, newSize, priceOk, sendOk, accepted) =>
      ChangingPersists(w, id, price, newSize, priceOk, sendOk, accepted);
      SameKeeps(w.desk, w'.desk);
    case Cancelling(id, sendOk, answer) =>
      CancellingPersists(w, id, sendOk, answer);
      SameKeeps(w.desk, w'.desk);
    case Sweeping =>
      SameAsItself(w.desk);
      SameInAll(w.desk, w.desk);
      SameKeeps(w.desk, w'.desk);
    case Reporting(id, condition, openSize) =>
      ReportEffect(w.desk, id, condition, openSize);
      SameKeeps(w.desk, w'.desk);
    case Filling(id, fill, openSize) =>
      FillingPersists(w, id, fill, openSize);
    case CancelNoticed(id) =>
      NoticesPersist(w, id, false);
      SameKeeps(w.desk, w'.desk);
    case ChangeNoticed(id, unknown) =>
      NoticesPersist(w, id, unknown);
      SameKeeps(w.desk, w'.desk);
  }

  lemma ShareStays(w: World, w': World, opening: bool, id: nat)
    requires WorldOk(w) && KeepsOrders(w.desk, w'.desk) && KeepsEnded(w, w')
    ensures LeakedShare(w, opening, id) <= LeakedShare(w', opening, id)
  {
    hide Counted, DeskOk, Opens;
  }

  lemma {:induction false} SumsGrow(f: nat -> nat, g: nat -> nat, m: nat, n: nat)
    requires m <= n && forall id: nat :: f(id) <= g(id)
    ensures SumTo(f, m) <= SumTo(g, n)
  {
    if n == 0 {
    } else {
      SumsGrow(f, g, if m < n then m else m - 1, n - 1);
    }
  }

  lemma LeakedGrows(w: World, m: Move, opening: bool)
    requires WorldOk(w) && Honest(w, m)
    ensures Leaked(w, opening) <= Leaked(Advance(w, m), opening)
  {
    hide Advance, WorldOk, LeakedShare, KeepsOrders, KeepsEnded, SumTo;
    var w' := Advance(w, m);
    MovePersists(w, m);
    forall id: nat ensures LeakedShares(w, opening)(id) <= LeakedShares(w', opening)(id) {
      ShareStays(w, w', opening, id);
    }
    GeneratorGrows(w, w');
    SumsGrow(LeakedShares(w, opening), LeakedShares(w', opening), w.desk.book.generator, w'.desk.book.generator);
  }

  lemma GeneratorGrows(w: World, w': World)
    requires KeepsOrders(w.desk, w'.desk)
    ensures w.desk.book.generator <= w'.desk.book.generator
  {
  }

  /** Whatever follows, a counter never falls below the shares it has once leaked. */
  lemma {:induction false} LeakedStays(isLong: bool, divisor: Divisor, ms: seq<Move>, more: seq<Move>, opening: bool)
    requires AllHonest(isLong, divisor, ms + more)
    ensures AllHonest(isLong, divisor, ms)
    ensures var w, w' := Play(isLong, divisor, ms), Play(isLong, divisor, ms + more);
            Leaked(w, opening) <= Leaked(w', opening)
    decreases |more|
  {
    hide Advance, Honest, Leaked;
    if more == [] {
      assert ms + more == ms;
    } else {
      var fewer := more[..|more| - 1];
      assert (ms + more)[..|ms + more| - 1] == ms + fewer;
      LeakedStays(isLong, divisor, ms, fewer, opening);
      CountersAreExact(isLong, divisor, ms + fewer);
      LeakedGrows(Play(isLong, divisor, ms + fewer), more[|more| - 1], opening);
    }
  }

  // ------------------------------------------------------- two runs that leak

  /** The first order works, so far filled as said, and nothing else has happened. */
  predicate FirstWorks(w: World, isLong: bool, size: uint32, filled: uint32) {
    && w.desk.book.isLong == isLong && w.desk.book.generator == 1 && w.desk.book.hash == {1} && w.desk.orders == {1}
    && 1 in w.desk.Info() && w.standing == map[1 := Working] && w.desk.totalOpen == size
    && var o := w.desk.Info()[1];
       && Registered(o) && o.requestId == 1 && o.size == size && o.fillSize == filled && Opens(isLong, o.side)
       && o.stage == Acknowledged && o.condition == New
  }

  /** The first order has ended in a way that leaves its shares counted. */
  predicate FirstEnded(w: World, isLong: bool, standing: Standing, counted: int) {
    && w.desk.book.isLong == isLong && w.desk.book.generator == 1 && w.desk.totalOpen == counted
    && 1 in w.desk.Info() && Opens(isLong, w.desk.Info()[1].side) && w.standing == map[1 := standing]
  }

  function Nothing(isLong: bool): World {
    World(EmptyDesk(isLong, 1), map[])
  }

  lemma Acknowledgement(d: Desk, openSize: uint32)
    requires Known(d.book, 1) && d.Info()[1].onAcknowledgement
    ensures var o := d.Info()[1].(condition := New, openSize := openSize, stage := Acknowledged,
                                  isAcknowledged := true);
            Report(d, 1, New, openSize) == d.WithInfo(1, o)
  {
    hide React;
    var (book, calls) := OnOrder(d.book, 1, New, openSize);
    ReactToOne(d.(book := book), calls);
    ReactToAck(d.(book := book), calls[0]);
  }

  lemma FirstPlaced(isLong: bool, size: uint32)
    requires size <= MAXIMUM_SIZE
    ensures FirstWorks(Advance(Nothing(isLong), Placing(true, 1.0, size, true, true, true)), isLong, size, 0)
  {
    hide Report;
    var o := Requested(size, 1.0).(side := SideOf(isLong, true));
    var d := EmptyDesk(isLong, 1).(book := Enter(EmptyBook(isLong), o));
    assert size / 1 == size;
    Acknowledgement(d, size);
  }

  lemma FirstRejected(w: World, isLong: bool, size: uint32)
    requires FirstWorks(w, isLong, size, 0)
    ensures var w' := Advance(w, Reporting(1, OtherCondition, size));
            FirstEnded(w', isLong, Dropped, size) && w'.desk.Info()[1].size == size
  {
    hide React;
    var (book, calls) := OnOrder(w.desk.book, 1, OtherCondition, size);
    ReactToOne(w.desk.(book := book), calls);
    ReactToAck(w.desk.(book := book), calls[0]);
  }

  lemma FirstFilled(w: World, isLong: bool, size: uint32, fill: uint32)
    requires FirstWorks(w, isLong, size, 0) && 0 < fill < size
    ensures FirstWorks(Advance(w, Filling(1, fill, size - fill)), isLong, size, fill)
  {
    ReactToOne(w.desk.(book := OnFill(w.desk.book, 1, fill, size - fill).0), [FillSeen(1, fill)]);
  }

  lemma FirstCancelled(w: World, isLong: bool, size: uint32, fill: uint32)
    requires FirstWorks(w, isLong, size, fill) && 0 < fill < size
    ensures var w' := Advance(w, Cancelling(1, true, Confirmed(size - fill)));
            FirstEnded(w', isLong, CancelledOnRequest, fill) && w'.desk.Info()[1].fillSize == fill
  {
    hide Report, Count;
    var open: uint32 := size - fill;
    var asked := w.desk.Info()[1].(onCancel := true, cancelStage := CancelInit);
    var d := w.desk.WithInfo(1, asked);
    CancelConfirmed(d, open);
    CountOnly(Report(d, 1, Canceled, open), asked.side, -(open as int));
  }

  lemma CancelConfirmed(d: Desk, openSize: uint32)
    requires Known(d.book, 1) && d.Info()[1].onCancel && d.Info()[1].requestId == 1
    ensures var d' := Report(d, 1, Canceled, openSize);
            && d'.book.isLong == d.book.isLong && d'.book.generator == d.book.generator
            && d'.totalOpen == d.totalOpen && d'.totalClose == d.totalClose && 1 in d'.Info()
            && var o, o' := d.Info()[1], d'.Info()[1];
               o'.side == o.side && o'.fillSize == o.fillSize && o'.openSize == openSize
  {
    var (book, calls) := OnOrder(d.book, 1, Canceled, openSize);
    ReactToOne(d.(book := book), calls);
  }

  lemma FirstEndedLeaks(w: World, isLong: bool, standing: Standing, counted: nat)
    requires FirstEnded(w, isLong, standing, counted) && counted > 0
    requires (standing == Dropped && w.desk.Info()[1].size == counted)
             || (standing == CancelledOnRequest && w.desk.Info()[1].fillSize == counted)
    ensures ReallyLive(w, true) == 0 && Leaks(w, true, 1)
  {
    hide Opens;
    SumNext(WorkingShares(w, true), 0);
  }

  /** One order, acknowledged and then rejected by the exchange: its share stays counted although nothing is live. */
  lemma RejectedOrderLeaks(isLong: bool)
    ensures var ms := [Placing(true, 1.0, 1, true, true, true), Reporting(1, OtherCondition, 1)];
            var w := Play(isLong, 1, ms);
            AllHonest(isLong, 1, ms) && w.desk.totalOpen == 1 && ReallyLive(w, true) == 0 && Leaks(w, true, 1)
  {
    hide Advance, FirstEnded, Leaks, ReallyLive;
    var placed := Placing(true, 1.0, 1, true, true, true);
    var ms := [placed, Reporting(1, OtherCondition, 1)];
    assert ms[..1] == [placed] && [placed][..0] == [];
    assert Play(isLong, 1, []) == Nothing(isLong) && AllHonest(isLong, 1, []);
    FirstPlaced(isLong, 1);
    assert AllHonest(isLong, 1, [placed]);
    FirstRejected(Play(isLong, 1, [placed]), isLong, 1);
    CountedIsOpen(Play(isLong, 1, ms), isLong, Dropped, 1);
    FirstEndedLeaks(Play(isLong, 1, ms), isLong, Dropped, 1);
  }

  lemma CountedIsOpen(w: World, isLong: bool, standing: Standing, counted: int)
    requires FirstEnded(w, isLong, standing, counted)
    ensures w.desk.totalOpen == counted && 1 in w.desk.Info()
  {
  }

  /** One order of two shares, of which one is filled before the cancel asked for: the filled share stays counted. */
  lemma CancelledOrderLeaks(isLong: bool)
    ensures var ms := [Placing(true, 1.0, 2, true, true, true), Filling(1, 1, 1), Cancelling(1, true, Confirmed(1))];
            var w := Play(isLong, 1, ms);
            AllHonest(isLong, 1, ms) && w.desk.totalOpen == 1 && ReallyLive(w, true) == 0 && Leaks(w, true, 1)
  {
    hide Advance, FirstEnded, Leaks, ReallyLive;
    var placed, filled := Placing(true, 1.0, 2, true, true, true), Filling(1, 1, 1);
    var ms := [placed, filled, Cancelling(1, true, Confirmed(1))];
    assert ms[..2] == [placed, filled] && [placed, filled][..1] == [placed] && [placed][..0] == [];
    assert Play(isLong, 1, []) == Nothing(isLong) && AllHonest(isLong, 1, []);
    FirstPlaced(isLong, 2);
    assert AllHonest(isLong, 1, [placed]);
    FirstFilled(Play(isLong, 1, [placed]), isLong, 2, 1);
    assert AllHonest(isLong, 1, [placed, filled]);
    FirstCancelled(Play(isLong, 1, [placed, filled]), isLong, 2, 1);
    CountedIsOpen(Play(isLong, 1, ms), isLong, CancelledOnRequest, 1);
    FirstEndedLeaks(Play(isLong, 1, ms), isLong, CancelledOnRequest, 1);
  }
}
