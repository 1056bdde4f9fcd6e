/**
 The trade account's order map and its executed total: which orders each request and
 event puts in or takes out, and what the total adds up to.
 */
module OrderMap {
  import opened Ledger
  import opened OrderAccounts
  import opened LiveOrders
  import opened TerminalOnce
  import opened LiveCounters
  import opened CounterLeaks
  import opened OrderTerms

  /** An event takes its order out of the map when it is done, or changed after a change was asked for. */
  lemma ReportMap(d: Desk, id: uint32, condition: Condition, openSize: uint32)
    requires DeskOk(d)
    ensures var d' := Report(d, id, condition, openSize);
            && d'.orders == (if id in d.book.hash && id in d.Info()
                                && (condition == OrderDone || (condition == Changed && d.Info()[id].onChange))
                             then d.orders - {id} else d.orders)
            && d'.totalExecuted == d.totalExecuted
                                   + if id in d.book.hash && id in d.Info() && condition == OrderDone
                                     then d.Info()[id].size else 0
  {
    hide Reported, SameShares, Ends, OnOrder, React, Count;
    HashIsKnown(d);
    if id in d.book.hash {
      var o := d.Info()[id];
      var (book, calls) := OnOrder(d.book, id, condition, openSize);
      KnownRange(d, id);
      OnOrderEffect(d, id, condition, openSize);
      SameOrder(d, d.(book := book), id);
      ReportedCalls(o, condition, openSize);
      ReactToOne(d.(book := book), calls);
      if calls != [] {
        ReactMap(d.(book := book), calls[0]);
      }
    } else {
      UnknownOrder(d.book, id, condition, openSize);
      ReactToOne(d, []);
    }
  }

  lemma ReportedCalls(o: OrderInfo, condition: Condition, openSize: uint32)
    ensures var calls := Reported(o, condition, openSize).1;
            && |calls| <= 1
            && (calls != [] ==>
                  && calls[0].id == o.requestId && !calls[0].FillSeen?
                  && (calls[0].DoneSeen? <==> condition == OrderDone)
                  && (calls[0].ChangeSeen? && calls[0].success <==> condition == Changed))
            && (condition == OrderDone && o.onDone ==> calls != [])
            && (condition == Changed ==> (calls != [] <==> o.onChange))
  {
  }

  lemma ReactMap(d: Desk, call: Callback)
    requires call.id in d.Info() && !call.FillSeen?
    ensures var d' := React(d, call);
            && d'.orders == (if call.DoneSeen? || (call.ChangeSeen? && call.success) then d.orders - {call.id}
                             else d.orders)
            && d'.totalExecuted == d.totalExecuted + if call.DoneSeen? then d.Info()[call.id].size else 0
  {
  }

  lemma AwaitMap(d: Desk, id: uint32, answer: Answer)
    requires DeskOk(d) && id in d.Info()
    ensures var d' := AwaitCancel(d, id, answer).0; d'.orders == d.orders && d'.totalExecuted == d.totalExecuted
  {
    hide Report, DeskOk, SameShares, Count;
    match answer
    case Declined =>
      ReportMap(d, id, CancelRejected, d.Info()[id].openSize);
    case Confirmed(openSize) =>
      var d1 := Report(d, id, Canceled, openSize);
      ReportMap(d, id, Canceled, openSize);
      ReportEffect(d, id, Canceled, openSize);
      CountKeepsMap(d1, d1.Info()[id].side, -(d1.Info()[id].openSize as int));
  }

  lemma CountKeepsMap(d: Desk, side: Side, shares: int)
    ensures Count(d, side, shares).orders == d.orders && Count(d, side, shares).totalExecuted == d.totalExecuted
  {
  }

  lemma CancelMap(d: Desk, id: uint32, sendOk: bool, answer: Answer)
    requires DeskOk(d)
    ensures var d' := CancelOrder(d, id, sendOk, answer).0;
            && d'.totalExecuted == d.totalExecuted
            && d'.orders == if d.Holds(id) && d.Info()[id].stage in {Cancelled, Done, Filled, Failed}
                            then d.orders - {id} else d.orders
  {
    hide DeskOk, SameShares, AwaitCancel, CancelSent;
    if d.Holds(id) {
      var asked := d.Info()[id].(onCancel := true, cancelStage := CancelInit);
      UpdateIsOk(d, id, asked);
      AwaitMap(d.WithInfo(id, asked), id, answer);
    }
  }

  lemma FillMap(d: Desk, id: uint32, fill: uint32, openSize: uint32)
    requires DeskOk(d)
    ensures var d' := ReportFill(d, id, fill, openSize); d'.orders == d.orders && d'.totalExecuted == d.totalExecuted
  {
    if id in d.book.hash {
      ReactToOne(d.(book := OnFill(d.book, id, fill, openSize).0), [FillSeen(id, fill)]);
    } else {
      ReactToOne(d, []);
    }
  }

  /** The order that a move puts in the map, 0 for none. */
  function Added(w: World, m: Move): nat {
    match m
    case Placing(opening, price, size, priceOk, postOk, accepted) =>
      Place(w.desk, opening, price, size, priceOk, postOk, accepted).1
    case Changing(id, price, newSize, priceOk, sendOk, accepted) =>
      var newId := ChangeOrder(w.desk, id, price, newSize, priceOk, sendOk, accepted).1;
      if newId == id then 0 else newId
    case _ => 0
  }

  /** The move takes this order out of the map. */
  predicate Removes(w: World, m: Move, id: uint32) {
    && id in w.desk.Info()
    && var o := w.desk.Info()[id];
    match m
    case Cancelling(x, _, _) => x == id && o.stage in {Cancelled, Done, Filled, Failed}
    case Sweeping => o.cancelStage == CancelDone
    case Reporting(x, condition, _) =>
      x == id && id in w.desk.book.hash && (condition == OrderDone || (condition == Changed && o.onChange))
    case _ => false
  }

  /** What each move does to the order map and to the executed total. */
  lemma MoveMap(w: World, m: Move)
    requires WorldOk(w) && Honest(w, m)
    ensures var d' := Advance(w, m).desk;
            && (forall id: uint32 :: id in d'.orders <==>
                  (id != 0 && id == Added(w, m)) || (id in w.desk.orders && !Removes(w, m, id)))
            && d'.totalExecuted
               == w.desk.totalExecuted
                  + if m.Reporting? && m.condition == OrderDone && m.id in w.desk.book.hash && m.id in w.desk.Info()
                    then w.desk.Info()[m.id].size else 0
  {
    hide Place, ChangeOrder, CancelOrder, Report, ReportFill, WorldOk, DeskOk, Orderly, Honest, OthersStand;
    IsOk(w);
    OrderlyBook(w.desk);
    match m {
      case Placing(opening, price, size, priceOk, postOk, accepted) =>
        RoomFor(w, m);
        PlaceTerms(w.desk, opening, price, size, priceOk, postOk, accepted);
      case Changing(id, price, newSize, priceOk, sendOk, accepted) =>
        RoomFor(w, m);
        ChangeTerms(w.desk, id, price, newSize, priceOk, sendOk, accepted);
      case Cancelling(id, sendOk, answer) => CancelMap(w.desk, id, sendOk, answer);
      case Sweeping =>
      case Reporting(id, condition, openSize) => ReportMap(w.desk, id, condition, openSize);
      case Filling(id, fill, openSize) => FillMap(w.desk, id, fill, openSize);
      case CancelNoticed(id) =>
      case ChangeNoticed(id, unknown) =>
    }
  }

  // -------------------------------------------------------- the executed total

  function ExecutedShare(w: World, id: nat): nat {
    if id < TWO_TO_32 && id in w.standing && id in w.desk.Info() && w.standing[id] == Executed
    then w.desk.Info()[id].size else 0
  }

  function ExecutedShares(w: World): nat -> nat {
    (id: nat) => ExecutedShare(w, id)
  }

  /** Total size of the orders the exchange has reported done. */
  function ExecutedOf(w: World): nat {
    SumTo(ExecutedShares(w), w.desk.book.generator)
  }

  lemma {:induction false} SumExtends(f: nat -> nat, m: nat, n: nat)
    requires m <= n && forall id: nat :: m < id <= n ==> f(id) == 0
    ensures SumTo(f, n) == SumTo(f, m)
  {
    if n == m {
    } else {
      SumExtends(f, m, n - 1);
    }
  }

  /** The order that a move sees done. */
  predicate Executes(w: World, m: Move, id: uint32) {
    m.Reporting? && m.condition == OrderDone && m.id == id && id in w.desk.book.hash && id in w.desk.Info()
  }

  predicate IsExecuted(w: World, id: uint32) {
    id in w.standing && w.standing[id] == Executed
  }

  lemma StandingMove(w: World, m: Move, id: uint32)
    requires WorldOk(w) && Honest(w, m)
    ensures IsExecuted(Advance(w, m), id) <==> Executes(w, m, id) || IsExecuted(w, id)
  {
    hide Place, ChangeOrder, CancelOrder, Report, ReportFill, Sweep, Counted, DeskOk, Orderly, OthersStand;
    IsOk(w);
    OrderlyBook(w.desk);
    match m {
      case Placing(opening, price, size, priceOk, postOk, accepted) =>
        PlaceTerms(w.desk, opening, price, size, priceOk, postOk, accepted);
      case Changing(x, price, newSize, priceOk, sendOk, accepted) =>
        ChangeTerms(w.desk, x, price, newSize, priceOk, sendOk, accepted);
        OnlyWorkingIsChanged(w, x, price, newSize, priceOk, sendOk, accepted);
      case Cancelling(x, sendOk, answer) =>
        OnlyWorkingIsCancelled(w, x, sendOk, answer);
      case Sweeping =>
      case Reporting(x, condition, openSize) =>
        ReportEffect(w.desk, x, condition, openSize);
      case Filling(_, _, _) =>
      case CancelNoticed(_) =>
      case ChangeNoticed(_, _) =>
    }
  }

  lemma OnlyWorkingIsChanged(w: World, id: uint32, price: real, newSize: uint32,
                             priceOk: bool, sendOk: bool, accepted: bool)
    requires WorldOk(w) && Honest(w, Changing(id, price, newSize, priceOk, sendOk, accepted))
    ensures var newId := ChangeOrder(w.desk, id, price, newSize, priceOk, sendOk, accepted).1;
            newId != 0 && newId != id ==> w.Works(id)
  {
    hide ChangeOrder, Counted, DeskOk;
    IsOk(w);
    ChangeTerms(w.desk, id, price, newSize, priceOk, sendOk, accepted);
    if w.desk.Holds(id) {
      ChangedExactly(w.desk, id, price, newSize, priceOk, sendOk, accepted);
    }
  }

  lemma ExecutedMove(w: World, m: Move, id: uint32)
    requires WorldOk(w) && Honest(w, m)
    ensures var w' := Advance(w, m);
            ExecutedShare(w', id) == if Executes(w, m, id) then w.desk.Info()[id].size else ExecutedShare(w, id)
    ensures Executes(w, m, id) ==> ExecutedShare(w, id) == 0 && 1 <= id <= w.desk.book.generator
    ensures ExecutedShare(w, id) > 0 ==> id <= w.desk.book.generator
  {
    hide Advance, Counted, DeskOk, KeepsEnded;
    IsOk(w);
    MovePersists(w, m);
    StandingMove(w, m, id);
    if id in w.desk.Info() {
      KnownRange(w.desk, id);
    }
  }

  lemma OnlyWorkingIsCancelled(w: World, id: uint32, sendOk: bool, answer: Answer)
    requires Honest(w, Cancelling(id, sendOk, answer))
    ensures CancelOrder(w.desk, id, sendOk, answer).1 ==> w.Works(id)
  {
    hide Report, Count, CancelSent;
  }

  /** In every run the executed total is the total size of the orders reported done, each counted once. */
  lemma {:induction false} ExecutedIsExact(isLong: bool, divisor: Divisor, ms: seq<Move>)
    requires AllHonest(isLong, divisor, ms)
    ensures var w := Play(isLong, divisor, ms); w.desk.totalExecuted == ExecutedOf(w)
    decreases |ms|
  {
    if ms == [] {
    } else {
      hide Advance, Honest, WorldOk, ExecutedShare, Executes, SumTo, AllHonest;
      var before, m := ms[..|ms| - 1], ms[|ms| - 1];
      LastIsHonest(isLong, divisor, ms);
      ExecutedIsExact(isLong, divisor, before);
      CountersAreExact(isLong, divisor, before);
      ExecutedStep(Play(isLong, divisor, before), m);
    }
  }

  lemma LastIsHonest(isLong: bool, divisor: Divisor, ms: seq<Move>)
    requires ms != [] && AllHonest(isLong, divisor, ms)
    ensures AllHonest(isLong, divisor, ms[..|ms| - 1])
    ensures Honest(Play(isLong, divisor, ms[..|ms| - 1]), ms[|ms| - 1])
  {
  }

  lemma ExecutedStep(w: World, m: Move)
    requires WorldOk(w) && Honest(w, m) && w.desk.totalExecuted == ExecutedOf(w)
    ensures Advance(w, m).desk.totalExecuted == ExecutedOf(Advance(w, m))
  {
    hide Advance, Honest, WorldOk, ExecutedShare, SumTo, Removes, Added, KeepsOrders, KeepsEnded;
    var w' := Advance(w, m);
    var f, g := ExecutedShares(w), ExecutedShares(w');
    var n := w.desk.book.generator;
    MoveMap(w, m);
    MovePersists(w, m);
    GeneratorGrows(w, w');
    forall id: nat
      ensures id < TWO_TO_32 && Executes(w, m, id) ==> f(id) == 0 && 1 <= id <= n && g(id) == w.desk.Info()[id].size
      ensures !(id < TWO_TO_32 && Executes(w, m, id)) ==> g(id) == f(id)
      ensures f(id) > 0 ==> id <= n
    {
      if id < TWO_TO_32 {
        ExecutedMove(w, m, id);
      } else {
        NoIdThatLarge(w, id);
        NoIdThatLarge(w', id);
      }
    }
    SumExtends(g, n, w'.desk.book.generator);
    if m.Reporting? && Executes(w, m, m.id) {
      SumChanges(f, g, n, m.id);
    } else {
      SumsAgree(f, g, n);
    }
  }

  lemma NoIdThatLarge(w: World, id: nat)
    requires id >= TWO_TO_32
    ensures ExecutedShare(w, id) == 0
  {
  }

  // ------------------------------------------- what the clean-up can take out

  /** No order the account listens for is marked as cancelled. */
  predicate ListenedNotCancelled(b: Book) {
    forall id :: id in b.hash && id in b.info ==> b.info[id].cancelStage != CancelDone
  }

  /** An order event touches only its own order, and marks it cancelled only when it is listened for no more. */
  lemma ReportTouchesOne(d: Desk, id: uint32, condition: Condition, openSize: uint32)
    requires DeskOk(d)
    ensures var d' := Report(d, id, condition, openSize);
            && (forall x :: x in d.Info() && x != id ==> x in d'.Info() && d'.Info()[x] == d.Info()[x])
            && (id in d.Info() && id in d'.Info() && id in d'.book.hash ==>
                  d'.Info()[id].cancelStage in {d.Info()[id].cancelStage, CancelFailed})
  {
    hide Reported, SameShares, Ends, React, Count;
    if id in d.book.hash {
      HashIsKnown(d);
      KnownRange(d, id);
      var o := d.Info()[id];
      var (book, calls) := OnOrder(d.book, id, condition, openSize);
      CancelMarks(o, condition, openSize);
      ReactToOne(d.(book := book), calls);
      if calls != [] {
        ReactTouchesOne(d.(book := book), calls[0]);
      }
    } else {
      UnknownOrder(d.book, id, condition, openSize);
      ReactToOne(d, []);
    }
  }

  lemma CancelMarks(o: OrderInfo, condition: Condition, openSize: uint32)
    ensures var (r, calls, over) := Reported(o, condition, openSize);
            && |calls| <= 1 && (calls != [] ==> calls[0].id == o.requestId && !calls[0].FillSeen?)
            && r.requestId == o.requestId
            && (!over ==> r.cancelStage in {o.cancelStage, CancelFailed}
                          && (calls != [] && calls[0].CancelSeen? ==> !calls[0].success))
  {
  }

  lemma ReactTouchesOne(d: Desk, call: Callback)
    requires call.id in d.Info() && !call.FillSeen?
    ensures var d' := React(d, call);
            && d'.book.hash == d.book.hash && d'.Info().Keys == d.Info().Keys
            && (forall x :: x in d.Info() && x != call.id ==> d'.Info()[x] == d.Info()[x])
            && d'.Info()[call.id].cancelStage
               == if call.CancelSeen? then (if call.success then CancelDone else CancelFailed)
                  else d.Info()[call.id].cancelStage
  {
    hide Count;
    CountOnly(d, d.Info()[call.id].side, -(d.Info()[call.id].size as int));
  }

  lemma ReportListens(d: Desk, id: uint32, condition: Condition, openSize: uint32)
    requires DeskOk(d) && ListenedNotCancelled(d.book)
    ensures ListenedNotCancelled(Report(d, id, condition, openSize).book)
  {
    hide Report, DeskOk, SameShares, Count;
    HashIsKnown(d);
    ReportTouchesOne(d, id, condition, openSize);
    ReportEffect(d, id, condition, openSize);
  }

  lemma CancelListens(d: Desk, id: uint32, sendOk: bool, answer: Answer)
    requires DeskOk(d) && ListenedNotCancelled(d.book)
    ensures ListenedNotCancelled(CancelOrder(d, id, sendOk, answer).0.book)
  {
    hide DeskOk, SameShares, AwaitCancel, CancelSent, OrderInfo.CanCancel;
    if d.Holds(id) {
      var asked := d.Info()[id].(onCancel := true, cancelStage := CancelInit);
      UpdateIsOk(d, id, asked);
      AwaitListens(d.WithInfo(id, asked), id, answer);
    }
  }

  lemma AwaitListens(d: Desk, id: uint32, answer: Answer)
    requires DeskOk(d) && id in d.Info() && ListenedNotCancelled(d.book)
    ensures ListenedNotCancelled(AwaitCancel(d, id, answer).0.book)
  {
    hide Report, DeskOk, SameShares, Count;
    match answer
    case Declined =>
      ReportListens(d, id, CancelRejected, d.Info()[id].openSize);
    case Confirmed(openSize) =>
      var d1 := Report(d, id, Canceled, openSize);
      ReportListens(d, id, Canceled, openSize);
      ReportEffect(d, id, Canceled, openSize);
      CountOnly(d1, d1.Info()[id].side, -(d1.Info()[id].openSize as int));
  }

  lemma FillListens(d: Desk, id: uint32, fill: uint32, openSize: uint32)
    requires DeskOk(d) && ListenedNotCancelled(d.book)
    ensures ListenedNotCancelled(ReportFill(d, id, fill, openSize).book)
  {
    if id in d.book.hash {
      ReactToOne(d.(book := OnFill(d.book, id, fill, openSize).0), [FillSeen(id, fill)]);
    } else {
      ReactToOne(d, []);
    }
  }

  lemma MoveListens(w: World, m: Move)
    requires WorldOk(w) && Honest(w, m) && ListenedNotCancelled(w.desk.book)
    ensures ListenedNotCancelled(Advance(w, m).desk.book)
  {
    hide Place, ChangeOrder, CancelOrder, Report, ReportFill, WorldOk, DeskOk, Orderly, Honest;
    IsOk(w);
    OrderlyBook(w.desk);
    HashIsKnown(w.desk);
    match m {
      case Placing(opening, price, size, priceOk, postOk, accepted) =>
        RoomFor(w, m);
        NextIsNew(w.desk.book);
        PlaceTerms(w.desk, opening, price, size, priceOk, postOk, accepted);
      case Changing(id, price, newSize, priceOk, sendOk, accepted) =>
        RoomFor(w, m);
        NextIsNew(w.desk.book);
        ChangeTerms(w.desk, id, price, newSize, priceOk, sendOk, accepted);
      case Cancelling(id, sendOk, answer) => CancelListens(w.desk, id, sendOk, answer);
      case Sweeping =>
      case Reporting(id, condition, openSize) => ReportListens(w.desk, id, condition, openSize);
      case Filling(id, fill, openSize) => FillListens(w.desk, id, fill, openSize);
      case CancelNoticed(id) =>
      case ChangeNoticed(id, unknown) =>
    }
  }

  lemma {:induction false} AlwaysListens(isLong: bool, divisor: Divisor, ms: seq<Move>)
    requires AllHonest(isLong, divisor, ms)
    ensures ListenedNotCancelled(Play(isLong, divisor, ms).desk.book)
    decreases |ms|
  {
    if ms == [] {
    } else {
      hide Advance, Honest, WorldOk, ListenedNotCancelled, AllHonest;
      LastIsHonest(isLong, divisor, ms);
      AlwaysListens(isLong, divisor, ms[..|ms| - 1]);
      CountersAreExact(isLong, divisor, ms[..|ms| - 1]);
      MoveListens(Play(isLong, divisor, ms[..|ms| - 1]), ms[|ms| - 1]);
    }
  }

  /** In every run the clean-up of cancelAll leaves every working order in the map, and no order marked as cancelled. */
  lemma SweepSparesWhatWorks(isLong: bool, divisor: Divisor, ms: seq<Move>, id: uint32)
    requires AllHonest(isLong, divisor, ms)
    ensures var w, swept := Play(isLong, divisor, ms), Play(isLong, divisor, ms + [Sweeping]).desk;
            && (w.Works(id) ==> (id in swept.orders <==> id in w.desk.orders))
            && (id in swept.orders ==>
                  && id in w.desk.orders
                  && (id in w.desk.Info() ==> w.desk.Info()[id].cancelStage != CancelDone))
  {
    hide AllHonest, Counted;
    assert (ms + [Sweeping])[..|ms|] == ms;
    CountersAreExact(isLong, divisor, ms);
    AlwaysListens(isLong, divisor, ms);
  }

  /**
   The counters after a change, for orders of any sides: the original's shares leave its
   own counter and the changed order's enter theirs if and only if no side is exchanged
   with that of a short sale, or the sizes make it the same.
   */
  lemma ChangeCountedExactly(d: Desk, changed: OrderInfo, original: OrderInfo)
    ensures var t, c, o := CountChange(d, changed, original), changed.side, original.side;
            && t == d.(totalOpen := t.totalOpen, totalClose := t.totalClose)
            && (t == Count(Count(d, c, changed.size), o, -(original.size as int)) <==>
                  && (c == SellShort && o == Buy ==> original.size == 0)
                  && (c == Sell && o == SellShort ==> changed.size == original.size)
                  && (c == Buy && o == SellShort ==> changed.size == original.size == 0))
            && (o == SellShort && c != SellShort ==> t == d)
            && (c == SellShort && o == Buy ==> t == Count(d, SellShort, changed.size - original.size))
  {
  }

  /** What a request to cancel a held order leaves of the order when it is not confirmed, or once it is. */
  function AfterCancel(o: OrderInfo, sent: bool, listened: bool, answer: Answer): OrderInfo {
    if !sent then o.(onCancel := true, cancelStage := CancelInit)
    else match answer
      case Declined =>
        o.(onCancel := true, cancelStage := NotCancelled, condition := if listened then CancelRejected else o.condition)
      case Confirmed(openSize) =>
        if listened then o.(onCancel := true, cancelStage := CancelDone, stage := Cancelled, condition := Canceled,
                            openSize := openSize)
        else o.(onCancel := true, cancelStage := CancelInit)
  }

  /**
   A cancel of an order past cancelling only drops it from the map. Any other changes
   nothing but the marks of its order, and if it is confirmed ends the listening and
   takes the open size off the counter of its side; only then it succeeds.
   */
  lemma CancelOutcome(d: Desk, id: uint32, sendOk: bool, answer: Answer)
    requires DeskOk(d) && d.Holds(id)
    ensures var o, (d', ok) := d.Info()[id], CancelOrder(d, id, sendOk, answer);
            if o.stage in {Cancelled, Done, Filled, Failed} then d' == d.(orders := d.orders - {id}) && !ok
            else
              var sent := sendOk && o.condition != OrderDone && o.condition != Canceled;
              var o' := AfterCancel(o, sent, id in d.book.hash, answer);
              && ok == (sent && answer.Confirmed?)
              && d'.Info() == d.Info()[id := o'] && d'.orders == d.orders && d'.totalExecuted == d.totalExecuted
              && d'.book.hash == (if ok then d.book.hash - {id} else d.book.hash)
              && d'.book.generator == d.book.generator
              && d'.totalOpen == d.totalOpen - (if ok && Opens(d.book.isLong, o.side) then o'.openSize else 0)
              && d'.totalClose == d.totalClose - if ok && !Opens(d.book.isLong, o.side) then o'.openSize else 0
  {
    hide DeskOk, AwaitCancel, AfterCancel, Opens;
    var o := d.Info()[id];
    var asked := o.(onCancel := true, cancelStage := CancelInit);
    UpdateIsOk(d, id, asked);
    AfterAnswer(o, id in d.book.hash, answer);
    AwaitOutcome(d.WithInfo(id, asked), id, answer);
    AskedTwice(d.Info(), id, asked, AfterAsked(asked, id in d.book.hash, answer));
  }

  /** The answer's part of what a cancel leaves. */
  function AfterAsked(asked: OrderInfo, listened: bool, answer: Answer): OrderInfo {
    match answer
    case Declined =>
      asked.(cancelStage := NotCancelled, condition := if listened then CancelRejected else asked.condition)
    case Confirmed(openSize) =>
      if listened
      then asked.(cancelStage := CancelDone, stage := Cancelled, condition := Canceled, openSize := openSize)
      else asked
  }

  lemma AfterAnswer(o: OrderInfo, listened: bool, answer: Answer)
    ensures AfterCancel(o, true, listened, answer)
            == AfterAsked(o.(onCancel := true, cancelStage := CancelInit), listened, answer)
    ensures AfterCancel(o, false, listened, answer) == o.(onCancel := true, cancelStage := CancelInit)
  {
  }

  lemma AskedTwice(info: map<uint32, OrderInfo>, id: uint32, a: OrderInfo, b: OrderInfo)
    ensures info[id := a][id := b] == info[id := b]
  {
  }

  lemma AwaitOutcome(d: Desk, id: uint32, answer: Answer)
    requires DeskOk(d) && id in d.Info() && d.Info()[id].onCancel && d.Info()[id].cancelStage == CancelInit
    ensures var (d', ok) := AwaitCancel(d, id, answer);
            var o, o' := d.Info()[id], AfterAsked(d.Info()[id], id in d.book.hash, answer);
            && ok == answer.Confirmed?
            && d'.Info() == d.Info()[id := o'] && d'.orders == d.orders && d'.totalExecuted == d.totalExecuted
            && d'.book.hash == (if ok then d.book.hash - {id} else d.book.hash)
            && d'.book.generator == d.book.generator
            && d'.totalOpen == d.totalOpen - (if ok && Opens(d.book.isLong, o.side) then o'.openSize else 0)
            && d'.totalClose == d.totalClose - if ok && !Opens(d.book.isLong, o.side) then o'.openSize else 0
  {
    hide DeskOk, Report, Opens;
    var o := d.Info()[id];
    AnsweredCancel(d, id, match answer case Declined => o.openSize case Confirmed(n) => n, answer.Confirmed?);
    assert d.Info()[id := o] == d.Info();
    assert id !in d.book.hash ==> d.book.hash - {id} == d.book.hash;
    if answer.Declined? {
      var rejected := o.(condition := CancelRejected, cancelStage := CancelFailed);
      AskedTwice(d.Info(), id, rejected, AfterAsked(o, true, answer));
    }
  }

  lemma CancelReported(o: OrderInfo, openSize: uint32, confirmed: bool)
    requires o.onCancel
    ensures Reported(o, if confirmed then Canceled else CancelRejected, openSize)
            == (if confirmed then o.(condition := Canceled, openSize := openSize, stage := Cancelled,
                                     cancelStage := CancelDone)
                else o.(condition := CancelRejected, openSize := openSize, cancelStage := CancelFailed),
                [CancelSeen(o.requestId, confirmed)], confirmed)
  {
  }

  lemma AnsweredCancel(d: Desk, id: uint32, openSize: uint32, confirmed: bool)
    requires DeskOk(d) && id in d.Info() && d.Info()[id].onCancel
    ensures var d' := Report(d, id, if confirmed then Canceled else CancelRejected, openSize);
            if id !in d.book.hash then d' == d
            else if confirmed then
              d' == d.(book := d.book.(hash := d.book.hash - {id}, info := d.Info()[id := d.Info()[id].(
                       condition := Canceled, openSize := openSize, stage := Cancelled, cancelStage := CancelDone)]))
            else d' == d.(book := d.book.(info := d.Info()[id := d.Info()[id].(
                         condition := CancelRejected, openSize := openSize, cancelStage := CancelFailed)]))
  {
    hide OrdersOk, Reported;
    CancelReported(d.Info()[id], openSize, confirmed);
    var (book, calls) := OnOrder(d.book, id, if confirmed then Canceled else CancelRejected, openSize);
    ReactToOne(d.(book := book), calls);
    assert d.Info()[id := book.info[id]][id := book.info[id]] == d.Info()[id := book.info[id]];
  }
}
