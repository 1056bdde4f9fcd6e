/**
 The terms on which orders stand: side, price and size of every order a trade account
 places or changes, and which orders its map and its executed total hold.
 */
module OrderTerms {
  import opened Ledger
  import opened OrderAccounts
  import opened LiveOrders
  import opened TerminalOnce
  import opened LiveCounters
  import opened CounterLeaks
  import OrderEvents
  import PanicRefusal
  import RequotePlacing

  // ------------------------------------------------------------ placing an order

  /** A new order as it should stand: right side, price and size asked for, nothing filled, callbacks registered. */
  predicate StandsAsAsked(o: OrderInfo, id: nat, isLong: bool, opening: bool, price: real, size: nat) {
    && o.requestId == id && OrderEvents.RightSide(isLong, opening, o.side)
    && o.price == price && o.size == size && o.fillSize == 0
    && o.onAcknowledgement && o.onFill && o.onDone && !o.onCancel && !o.onChange
    && o.cancelStage == NotCancelled
  }

  /** The events that answer a new order. */
  lemma AnsweredNew(d: Desk, id: uint32, accepted: bool, openSize: uint32)
    requires Known(d.book, id) && d.Info()[id].onAcknowledgement && d.Info()[id].requestId == id
    ensures var d' := Report(d, id, if accepted then New else OtherCondition, openSize);
            && d' == d.(book := d'.book)
            && d'.book.isLong == d.book.isLong && d'.book.generator == d.book.generator
            && id in d'.Info() && d'.Info() == d.Info()[id := d'.Info()[id]]
            && (accepted ==> d'.book.hash == d.book.hash) && d'.book.hash <= d.book.hash
            && var o, o' := d.Info()[id], d'.Info()[id];
               o' == o.(stage := o'.stage, condition := o'.condition, openSize := openSize, isAcknowledged := accepted)
  {
    hide React, ReactAll;
    RequotePlacing.AcknowledgedBook(d, id, accepted, openSize);
  }

  lemma PlaceTerms(d: Desk, opening: bool, price: real, size: uint32, priceOk: bool, postOk: bool, accepted: bool)
    requires Orderly(d.book) && d.book.generator + 1 < TWO_TO_32
    ensures var (d', id) := Place(d, opening, price, size, priceOk, postOk, accepted);
            var next := d.book.generator + 1;
            && d'.book.isLong == d.book.isLong && d'.divisor == d.divisor && d'.totalExecuted == d.totalExecuted
            && (forall x :: x in d.Info() ==> x in d'.Info() && d'.Info()[x] == d.Info()[x])
            && (forall x :: x in d'.Info() && x !in d.Info() ==>
                  x == next && StandsAsAsked(d'.Info()[x], next, d.book.isLong, opening, price, size / d.divisor))
            && d'.book.hash <= d.book.hash + {next}
            && (id == 0 ==> d'.orders == d.orders)
            && (id != 0 ==>
                  && id == next && id !in d.Info() && id in d'.Info() && id in d'.book.hash
                  && d'.Info()[id].isAcknowledged && d'.orders == d.orders + {id})
  {
    hide Report, Enter, Orderly;
    var shares: uint32 := size / d.divisor;
    var o := Requested(shares, price).(side := SideOf(d.book.isLong, opening));
    var d1 := d.(book := Enter(d.book, o));
    OrderEvents.EntersFresh(d.book, o);
    EnterIsOrderly(d.book, o);
    PanicRefusal.EnteredOrder(d.book, o);
    NextIsNew(d.book);
    AnsweredNew(d1, d1.book.generator, accepted, shares);
  }

  lemma NextIsNew(b: Book)
    requires Orderly(b)
    ensures b.generator + 1 !in b.info
  {
  }

  /** The placed order works, stands as asked, and is the only order that is new or different. */
  predicate PlacedWell(w: World, w': World, id: uint32, opening: bool, price: real, size: uint32) {
    && (forall x :: x in w.desk.Info() ==> x in w'.desk.Info() && w'.desk.Info()[x] == w.desk.Info()[x])
    && (id != 0 ==>
          && id !in w.standing && id !in w.desk.Info() && w'.Works(id) && id in w'.desk.Info()
          && id in w'.desk.book.hash && id in w'.desk.orders
          && StandsAsAsked(w'.desk.Info()[id], id, w.desk.book.isLong, opening, price, size / w.desk.divisor))
  }

  lemma PlacingStands(w: World, opening: bool, price: real, size: uint32, priceOk: bool, postOk: bool, accepted: bool)
    requires WorldOk(w) && w.desk.book.generator + 1 < TWO_TO_32
    ensures var id := Place(w.desk, opening, price, size, priceOk, postOk, accepted).1;
            PlacedWell(w, Advance(w, Placing(opening, price, size, priceOk, postOk, accepted)),
                       id, opening, price, size)
  {
    hide Place, StandsAsAsked, Counted, DeskOk, Orderly;
    IsOk(w);
    OrderlyBook(w.desk);
    PlaceTerms(w.desk, opening, price, size, priceOk, postOk, accepted);
  }

  /** In every run a placed order works and stands as asked, and no other order changes. */
  lemma PlacedOrderStands(isLong: bool, divisor: Divisor, ms: seq<Move>,
                          opening: bool, price: real, size: uint32, priceOk: bool, postOk: bool, accepted: bool)
    requires AllHonest(isLong, divisor, ms + [Placing(opening, price, size, priceOk, postOk, accepted)])
    ensures var w := Play(isLong, divisor, ms);
            var w' := Play(isLong, divisor, ms + [Placing(opening, price, size, priceOk, postOk, accepted)]);
            var id := Place(w.desk, opening, price, size, priceOk, postOk, accepted).1;
            && w.desk.book.isLong == isLong && w.desk.divisor == divisor
            && PlacedWell(w, w', id, opening, price, size)
  {
    hide Place, PlacedWell, WorldOk, Advance, Orderly;
    var m := Placing(opening, price, size, priceOk, postOk, accepted);
    var w := Play(isLong, divisor, ms);
    assert (ms + [m])[..|ms|] == ms;
    StandsOnRun(isLong, divisor, ms);
    RoomFor(w, m);
    PlacingStands(w, opening, price, size, priceOk, postOk, accepted);
  }

  /** What every reached desk offers the lemmas about single requests. */
  lemma StandsOnRun(isLong: bool, divisor: Divisor, ms: seq<Move>)
    requires AllHonest(isLong, divisor, ms)
    ensures var w := Play(isLong, divisor, ms);
            && WorldOk(w) && Orderly(w.desk.book) && w.desk.book.isLong == isLong && w.desk.divisor == divisor
            && (forall id :: id in w.standing ==> id in w.desk.Info())
  {
    hide Advance, Honest, Counted;
    CountersAreExact(isLong, divisor, ms);
    KindIsKept(isLong, divisor, ms);
  }

  lemma {:induction false} KindIsKept(isLong: bool, divisor: Divisor, ms: seq<Move>)
    requires AllHonest(isLong, divisor, ms)
    ensures var w := Play(isLong, divisor, ms); w.desk.book.isLong == isLong && w.desk.divisor == divisor
    decreases |ms|
  {
    if ms == [] {
    } else {
      hide Advance, Honest, WorldOk;
      var before, m := ms[..|ms| - 1], ms[|ms| - 1];
      KindIsKept(isLong, divisor, before);
      CountersAreExact(isLong, divisor, before);
      MovePersists(Play(isLong, divisor, before), m);
    }
  }

  // ------------------------------------------------------------ changing an order

  /** A changed order as it should stand: the original with a new price and, if one was asked for, a new size. */
  predicate StandsChanged(o: OrderInfo, id: nat, original: OrderInfo, price: real, size: nat) {
    && o.requestId == id && o.side == original.side
    && o.price == price && o.size == (if size == 0 then original.size else size) && o.fillSize == 0
    && o.onAcknowledgement == original.onAcknowledgement && o.onFill == original.onFill && o.onDone == original.onDone
    && o.onCancel == original.onCancel && o.onChange == original.onChange && o.cancelStage == NotCancelled
  }

  /** The desk once the change has been asked for. */
  function Asked(d: Desk, id: uint32): Desk
    requires id in d.Info()
  {
    d.WithInfo(id, d.Info()[id].(onChange := true))
  }

  /** The desk with the changed order entered. */
  function CopyEntered(d: Desk, id: uint32, price: real, shares: uint32): Desk
    requires id in d.Info()
  {
    Asked(d, id).(book := Enter(Asked(d, id).book, d.Info()[id].CopyForChange(price, shares)))
  }

  /** All orders but the changed one are as before, except for the original's registered callback. */
  predicate OthersStand(d: Desk, d': Desk, id: uint32, price: real, shares: uint32)
    requires id in d.Info()
  {
    var next := d.book.generator + 1;
    && (forall x :: x in d.Info() ==>
          x in d'.Info() && d'.Info()[x] == if x == id then d.Info()[x].(onChange := true) else d.Info()[x])
    && (forall x :: x in d'.Info() && x !in d.Info() ==>
          x == next && StandsChanged(d'.Info()[x], next, d.Info()[id], price, shares))
  }

  lemma AskedStands(d: Desk, id: uint32, price: real, shares: uint32)
    requires id in d.Info()
    ensures OthersStand(d, Asked(d, id), id, price, shares)
  {
  }

  lemma CopyStands(d: Desk, id: uint32, price: real, shares: uint32)
    requires DeskOk(d) && id in d.Info() && d.book.generator + 1 < TWO_TO_32
    ensures var d2, next := CopyEntered(d, id, price, shares), d.book.generator + 1;
            && OthersStand(d, d2, id, price, shares) && d2.book.hash <= d.book.hash + {next}
            && next !in d.Info() && next in d2.book.hash && next in d2.Info() && d2.book.generator == next
            && d2 == d.(book := d2.book)
            && d2.Info()[next].onAcknowledgement && d2.Info()[next].requestId == next
  {
    hide Enter, Orderly, DeskOk, SameShares;
    UpdateIsOk(d, id, d.Info()[id].(onChange := true));
    OrderlyBook(Asked(d, id));
    OrderlyBook(d);
    NextIsNew(d.book);
    RegisteredCopy(d, id, price, shares);
    OrderEvents.EntersFresh(Asked(d, id).book, d.Info()[id].CopyForChange(price, shares));
  }

  lemma AnsweredStands(d: Desk, id: uint32, price: real, shares: uint32, accepted: bool, openSize: uint32)
    requires DeskOk(d) && id in d.Info() && d.book.generator + 1 < TWO_TO_32
    ensures var d2, next := CopyEntered(d, id, price, shares), d.book.generator + 1;
            var d3 := Report(d2, next, if accepted then New else OtherCondition, openSize);
            && OthersStand(d, d3, id, price, shares) && d3 == d.(book := d3.book)
            && d3.book.hash <= d.book.hash + {next}
            && next in d3.Info() && d3.Info()[next].isAcknowledged == accepted
            && (accepted ==> next in d3.book.hash)
  {
    hide Report, CopyEntered, DeskOk;
    var d2, next := CopyEntered(d, id, price, shares), d.book.generator + 1;
    CopyStands(d, id, price, shares);
    AnsweredNew(d2, next, accepted, openSize);
  }

  lemma ChangeTerms(d: Desk, id: uint32, price: real, newSize: uint32, priceOk: bool, sendOk: bool, accepted: bool)
    requires DeskOk(d) && d.book.generator + 1 < TWO_TO_32
    ensures var (d', newId) := ChangeOrder(d, id, price, newSize, priceOk, sendOk, accepted);
            var next := d.book.generator + 1;
            && d'.totalExecuted == d.totalExecuted
            && (!d.Holds(id) ==> newId == 0 && d' == d)
            && (d.Holds(id) ==> OthersStand(d, d', id, price, newSize / d.divisor))
            && d'.book.hash <= d.book.hash + {next}
            && (d.Holds(id) && newId == id ==> d'.orders == d.orders)
            && (d.Holds(id) && newId != id ==>
                  && newId == next && newId !in d.Info() && newId in d'.Info() && newId in d'.book.hash
                  && d'.Info()[newId].isAcknowledged && d'.orders == d.orders + {newId})
  {
    hide Report, Enter, CountChange, OrderInfo.IsOver, DeskOk, StandsChanged;
    if d.Holds(id) {
      var shares: uint32 := newSize / d.divisor;
      var d2, next := CopyEntered(d, id, price, shares), d.book.generator + 1;
      var size := d.Info()[id].CopyForChange(price, shares).size;
      var d3 := Report(d2, next, if accepted then New else OtherCondition, size);
      AskedStands(d, id, price, shares);
      CopyStands(d, id, price, shares);
      AnsweredStands(d, id, price, shares, accepted, size);
      CountChangeKeeps(d3);
    }
  }

  /**
   A change of a held order succeeds if and only if its size is at most 30 units, its
   price can be set, the original is not reported done or cancelled and not filled, and
   sending and exchange accept it.
   */
  lemma ChangedExactly(d: Desk, id: uint32, price: real, newSize: uint32, priceOk: bool, sendOk: bool, accepted: bool)
    requires DeskOk(d) && d.book.generator + 1 < TWO_TO_32 && d.Holds(id)
    ensures var o, units := d.Info()[id], newSize / d.divisor;
            ChangeOrder(d, id, price, newSize, priceOk, sendOk, accepted).1 != id <==>
              && (if units == 0 then o.size else units) <= 30 && priceOk
              && o.condition != OrderDone && o.condition != Canceled && o.stage != Filled
              && sendOk && accepted
  {
    hide Report, Enter, CountChange, DeskOk, OthersStand;
    var shares: uint32 := newSize / d.divisor;
    var size := d.Info()[id].CopyForChange(price, shares).size;
    HashIsKnown(d);
    KnownRange(d, id);
    CopyStands(d, id, price, shares);
    AnsweredStands(d, id, price, shares, accepted, size);
  }

  lemma OrderlyBook(d: Desk)
    requires DeskOk(d)
    ensures Orderly(d.book)
  {
  }

  lemma CountChangeKeeps(d: Desk)
    ensures forall orders, c, o :: var e := CountChange(d.(orders := orders), c, o);
              e.book == d.book && e.orders == orders && e.totalExecuted == d.totalExecuted
  {
  }

  /** The changed order works and stands as asked; the original keeps its terms and no longer works. */
  predicate ChangedWell(w: World, w': World, id: uint32, newId: uint32, price: real, newSize: uint32) {
    newId != 0 && newId != id ==>
      && newId !in w.standing && newId !in w.desk.Info() && w'.Works(newId)
      && newId in w'.desk.Info() && newId in w'.desk.book.hash && newId in w'.desk.orders
      && id in w.desk.Info() && id in w'.desk.Info()
      && StandsChanged(w'.desk.Info()[newId], newId, w.desk.Info()[id], price, newSize / w.desk.divisor)
      && w'.desk.Info()[id] == w.desk.Info()[id].(onChange := true)
      && !w'.Works(id)
  }

  lemma ChangingStands(w: World, id: uint32, price: real, newSize: uint32, priceOk: bool, sendOk: bool, accepted: bool)
    requires WorldOk(w) && w.desk.book.generator + 1 < TWO_TO_32
    ensures var newId := ChangeOrder(w.desk, id, price, newSize, priceOk, sendOk, accepted).1;
            var w' := Advance(w, Changing(id, price, newSize, priceOk, sendOk, accepted));
            ChangedWell(w, w', id, newId, price, newSize)
  {
    hide ChangeOrder, StandsChanged, Counted, DeskOk;
    IsOk(w);
    ChangeTerms(w.desk, id, price, newSize, priceOk, sendOk, accepted);
  }

  /**
   In every run an accepted change brings a new working order, on the side of its
   original, at the price asked for, of the size asked for or else of the original's,
   and with nothing filled; the original keeps its own side, size and price.
   */
  lemma ChangedOrderStands(isLong: bool, divisor: Divisor, ms: seq<Move>,
                           id: uint32, price: real, newSize: uint32, priceOk: bool, sendOk: bool, accepted: bool)
    requires AllHonest(isLong, divisor, ms + [Changing(id, price, newSize, priceOk, sendOk, accepted)])
    ensures var w := Play(isLong, divisor, ms);
            var w' := Play(isLong, divisor, ms + [Changing(id, price, newSize, priceOk, sendOk, accepted)]);
            var newId := ChangeOrder(w.desk, id, price, newSize, priceOk, sendOk, accepted).1;
            w.desk.divisor == divisor && ChangedWell(w, w', id, newId, price, newSize)
  {
    hide ChangeOrder, ChangedWell, WorldOk, Advance, Orderly;
    var m := Changing(id, price, newSize, priceOk, sendOk, accepted);
    var w := Play(isLong, divisor, ms);
    assert (ms + [m])[..|ms|] == ms;
    StandsOnRun(isLong, divisor, ms);
    RoomFor(w, m);
    ChangingStands(w, id, price, newSize, priceOk, sendOk, accepted);
  }

  // ---------------------------------------------------------- sides over a run

  /** No order of a long account is a short sale, none of a short account a plain sale. */
  predicate SidesFit(isLong: bool, info: map<uint32, OrderInfo>) {
    forall id :: id in info ==> if isLong then info[id].side != SellShort else info[id].side != Sell
  }

  lemma PlacingFits(d: Desk, opening: bool, price: real, size: uint32, priceOk: bool, postOk: bool, accepted: bool)
    requires DeskOk(d) && d.book.generator + 1 < TWO_TO_32 && SidesFit(d.book.isLong, d.Info())
    ensures SidesFit(d.book.isLong, Place(d, opening, price, size, priceOk, postOk, accepted).0.Info())
  {
    hide Place, DeskOk, Orderly;
    OrderlyBook(d);
    PlaceTerms(d, opening, price, size, priceOk, postOk, accepted);
  }

  lemma ChangingFits(d: Desk, id: uint32, price: real, newSize: uint32, priceOk: bool, sendOk: bool, accepted: bool)
    requires DeskOk(d) && d.book.generator + 1 < TWO_TO_32 && SidesFit(d.book.isLong, d.Info())
    ensures SidesFit(d.book.isLong, ChangeOrder(d, id, price, newSize, priceOk, sendOk, accepted).0.Info())
  {
    hide ChangeOrder, DeskOk;
    ChangeTerms(d, id, price, newSize, priceOk, sendOk, accepted);
  }

  /** Where no order is new the sides cannot go wrong. */
  lemma NoneNewFits(d: Desk, d': Desk)
    requires SidesFit(d.book.isLong, d.Info()) && KeepsOrders(d, d') && d'.Info().Keys == d.Info().Keys
    ensures SidesFit(d.book.isLong, d'.Info())
  {
  }

  lemma MoveFits(w: World, m: Move)
    requires WorldOk(w) && Honest(w, m) && SidesFit(w.desk.book.isLong, w.desk.Info())
    ensures SidesFit(w.desk.book.isLong, Advance(w, m).desk.Info())
  {
    hide Place, ChangeOrder, CancelOrder, Report, ReportFill, WorldOk, DeskOk, Honest, SidesFit, KeepsOrders,
         KeepsEnded;
    IsOk(w);
    MovePersists(w, m);
    OrdersOfBook(w.desk);
    match m {
      case Placing(opening, price, size, priceOk, postOk, accepted) =>
        RoomFor(w, m);
        PlacingFits(w.desk, opening, price, size, priceOk, postOk, accepted);
      case Changing(id, price, newSize, priceOk, sendOk, accepted) =>
        RoomFor(w, m);
        ChangingFits(w.desk, id, price, newSize, priceOk, sendOk, accepted);
      case Cancelling(id, sendOk, answer) =>
        CancelBringsNone(w.desk, id, sendOk, answer);
        NoneNewFits(w.desk, Advance(w, m).desk);
      case Sweeping =>
        NoneNewFits(w.desk, Advance(w, m).desk);
      case Reporting(id, condition, openSize) =>
        ReportEffect(w.desk, id, condition, openSize);
        NoneNewFits(w.desk, Advance(w, m).desk);
      case Filling(id, fill, openSize) =>
        FillBringsNone(w.desk, id, fill, openSize);
        NoneNewFits(w.desk, Advance(w, m).desk);
      case CancelNoticed(id) =>
        NoneNewFits(w.desk, Advance(w, m).desk);
      case ChangeNoticed(id, unknown) =>
        NoneNewFits(w.desk, Advance(w, m).desk);
    }
  }

  lemma RoomFor(w: World, m: Move)
    requires Honest(w, m) && (m.Placing? || m.Changing?)
    ensures w.desk.book.generator + 1 < TWO_TO_32
  {
  }

  lemma OrdersOfBook(d: Desk)
    requires DeskOk(d)
    ensures d.book.hash <= d.Info().Keys
  {
  }

  lemma CancelBringsNone(d: Desk, id: uint32, sendOk: bool, answer: Answer)
    requires DeskOk(d)
    ensures CancelOrder(d, id, sendOk, answer).0.Info().Keys == d.Info().Keys
  {
    hide DeskOk, SameShares, AwaitCancel, CancelSent, OrderInfo.CanCancel;
    if d.Holds(id) {
      var asked := d.Info()[id].(onCancel := true, cancelStage := CancelInit);
      UpdateIsOk(d, id, asked);
      AwaitBringsNone(d.WithInfo(id, asked), id, answer);
    }
  }

  lemma AwaitBringsNone(d: Desk, id: uint32, answer: Answer)
    requires DeskOk(d) && id in d.Info()
    ensures AwaitCancel(d, id, answer).0.Info().Keys == d.Info().Keys
  {
    hide Report, DeskOk, SameShares, Count;
    match answer
    case Declined =>
      ReportEffect(d, id, CancelRejected, d.Info()[id].openSize);
    case Confirmed(openSize) =>
      var d1 := Report(d, id, Canceled, openSize);
      ReportEffect(d, id, Canceled, openSize);
      CountOnly(d1, d1.Info()[id].side, -(d1.Info()[id].openSize as int));
  }

  lemma FillBringsNone(d: Desk, id: uint32, fill: uint32, openSize: uint32)
    requires DeskOk(d)
    ensures ReportFill(d, id, fill, openSize).Info().Keys == d.Info().Keys
  {
    if id in d.book.hash {
      ReactToOne(d.(book := OnFill(d.book, id, fill, openSize).0), [FillSeen(id, fill)]);
    } else {
      ReactToOne(d, []);
    }
  }

  /** In every run the orders of a long account are bought or sold, those of a short one sold short or bought. */
  lemma {:induction false} SidesAlwaysFit(isLong: bool, divisor: Divisor, ms: seq<Move>)
    requires AllHonest(isLong, divisor, ms)
    ensures SidesFit(isLong, Play(isLong, divisor, ms).desk.Info())
    decreases |ms|
  {
    if ms == [] {
    } else {
      hide Advance, Honest, WorldOk, SidesFit;
      SidesAlwaysFit(isLong, divisor, ms[..|ms| - 1]);
      StandsOnRun(isLong, divisor, ms[..|ms| - 1]);
      MoveFits(Play(isLong, divisor, ms[..|ms| - 1]), ms[|ms| - 1]);
    }
  }
}
