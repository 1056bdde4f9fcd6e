/**
 The filled part of every order: what the fills have added up to.
 */
module FilledShares {
  import opened Ledger
  import opened OrderAccounts
  import opened LiveOrders
  import opened TerminalOnce
  import opened LiveCounters
  import opened CounterLeaks
  import opened OrderTerms

  /** The shares a move fills of an order. */
  function FilledBy(d: Desk, m: Move, id: uint32): nat {
    if m.Filling? && m.id == id && id in d.book.hash then m.fill else 0
  }

  /** The shares filled of an order while the account listened for it. */
  function FilledOf(isLong: bool, divisor: Divisor, ms: seq<Move>, id: uint32): nat {
    if ms == [] then 0
    else
      var before, m := ms[..|ms| - 1], ms[|ms| - 1];
      FilledOf(isLong, divisor, before, id) + FilledBy(Play(isLong, divisor, before).desk, m, id)
  }

  /** Orders keep their filled part, and new ones have none. */
  predicate FillsStay(d: Desk, d': Desk) {
    forall id :: id in d'.Info() ==> d'.Info()[id].fillSize == if id in d.Info() then d.Info()[id].fillSize else 0
  }

  lemma NoneNewFilled(d: Desk, d': Desk)
    requires SameShares(d, d') && d'.Info().Keys == d.Info().Keys
    ensures FillsStay(d, d')
  {
  }

  lemma PlacedUnfilled(d: Desk, opening: bool, price: real, size: uint32, priceOk: bool, postOk: bool, accepted: bool)
    requires DeskOk(d) && d.book.generator + 1 < TWO_TO_32
    ensures FillsStay(d, Place(d, opening, price, size, priceOk, postOk, accepted).0)
  {
    hide Place, DeskOk, Orderly;
    OrderlyBook(d);
    PlaceTerms(d, opening, price, size, priceOk, postOk, accepted);
  }

  lemma ChangedUnfilled(d: Desk, id: uint32, price: real, newSize: uint32, priceOk: bool, sendOk: bool, accepted: bool)
    requires DeskOk(d) && d.book.generator + 1 < TWO_TO_32
    ensures FillsStay(d, ChangeOrder(d, id, price, newSize, priceOk, sendOk, accepted).0)
  {
    hide ChangeOrder, DeskOk;
    ChangeTerms(d, id, price, newSize, priceOk, sendOk, accepted);
  }

  lemma OtherMoves(w: World, m: Move)
    requires WorldOk(w) && Honest(w, m) && !m.Filling?
    ensures FillsStay(w.desk, Advance(w, m).desk)
  {
    hide Place, ChangeOrder, CancelOrder, Report, WorldOk, DeskOk, Honest, SameShares, FillsStay, KeepsEnded;
    IsOk(w);
    OrdersOfBook(w.desk);
    match m {
      case Placing(opening, price, size, priceOk, postOk, accepted) =>
        RoomFor(w, m);
        PlacedUnfilled(w.desk, opening, price, size, priceOk, postOk, accepted);
      case Changing(id, price, newSize, priceOk, sendOk, accepted) =>
        RoomFor(w, m);
        ChangedUnfilled(w.desk, id, price, newSize, priceOk, sendOk, accepted);
      case Cancelling(id, sendOk, answer) =>
        CancellingPersists(w, id, sendOk, answer);
        CancelBringsNone(w.desk, id, sendOk, answer);
        NoneNewFilled(w.desk, Advance(w, m).desk);
      case Sweeping =>
        SameAsItself(w.desk);
        SameInAll(w.desk, w.desk);
        NoneNewFilled(w.desk, Advance(w, m).desk);
      case Reporting(id, condition, openSize) =>
        ReportEffect(w.desk, id, condition, openSize);
        NoneNewFilled(w.desk, Advance(w, m).desk);
      case CancelNoticed(id) =>
        NoticesPersist(w, id, false);
        NoneNewFilled(w.desk, Advance(w, m).desk);
      case ChangeNoticed(id, unknown) =>
        NoticesPersist(w, id, unknown);
        NoneNewFilled(w.desk, Advance(w, m).desk);
    }
  }

  /** A fill adds its shares to its own order, if that is listened for, and to no other. */
  lemma FillAdds(d: Desk, id: uint32, fill: uint32, openSize: uint32)
    requires DeskOk(d)
    ensures var d' := ReportFill(d, id, fill, openSize);
            && d'.Info().Keys == d.Info().Keys
            && forall x :: x in d.Info() ==>
                 d'.Info()[x].fillSize
                 == if x == id && id in d.book.hash then Wrap32(d.Info()[x].fillSize + fill) else d.Info()[x].fillSize
  {
    if id in d.book.hash {
      ReactToOne(d.(book := OnFill(d.book, id, fill, openSize).0), [FillSeen(id, fill)]);
    } else {
      ReactToOne(d, []);
    }
  }

  lemma MoveFills(w: World, m: Move)
    requires WorldOk(w) && Honest(w, m)
    ensures var info, info' := w.desk.Info(), Advance(w, m).desk.Info();
            && w.desk.book.hash <= info.Keys <= info'.Keys
            && (forall id :: id in info' ==>
                  info'[id].fillSize == if id in info then info[id].fillSize + FilledBy(w.desk, m, id) else 0)
  {
    hide WorldOk, DeskOk, ReportFill, Place, ChangeOrder, CancelOrder, Report, KeepsEnded;
    IsOk(w);
    OrdersOfBook(w.desk);
    MovePersists(w, m);
    if m.Filling? {
      FillAdds(w.desk, m.id, m.fill, m.openSize);
      SizesFit(w.desk);
    } else {
      hide Advance, Honest;
      OtherMoves(w, m);
    }
  }

  lemma SizesFit(d: Desk)
    requires DeskOk(d)
    ensures forall id :: id in d.Info() ==> d.Info()[id].fillSize <= d.Info()[id].size
  {
  }

  /** In every run the filled part of every order is the sum of its fills, none for a new order and at most its size. */
  lemma {:induction false} FillsAddUp(isLong: bool, divisor: Divisor, ms: seq<Move>)
    requires AllHonest(isLong, divisor, ms)
    ensures var info := Play(isLong, divisor, ms).desk.Info();
            && (forall id :: id in info ==> info[id].fillSize == FilledOf(isLong, divisor, ms, id) <= info[id].size)
            && forall id: uint32 :: id !in info ==> FilledOf(isLong, divisor, ms, id) == 0
    decreases |ms|
  {
    hide Advance, Honest, WorldOk;
    StandsOnRun(isLong, divisor, ms);
    IsOk(Play(isLong, divisor, ms));
    SizesFit(Play(isLong, divisor, ms).desk);
    if ms != [] {
      var before := ms[..|ms| - 1];
      FillsAddUp(isLong, divisor, before);
      StandsOnRun(isLong, divisor, before);
      MoveFills(Play(isLong, divisor, before), ms[|ms| - 1]);
    }
  }
}
