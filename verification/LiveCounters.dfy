/**
 The live counters over whole runs.  The exchange is any source of events that
 reports an order done, confirms its cancel or accepts its change only while
 the order is working there, and never fills more than the order's size.
 */
module LiveCounters {
  import opened Ledger
  import opened OrderAccounts
  import opened LiveOrders
  import opened TerminalOnce

  /** What became of an order the exchange acknowledged. */
  datatype Standing = Working | Executed | CancelledOnRequest | Replaced | Dropped

  datatype World = World(desk: Desk, standing: map<uint32, Standing>)
  {
    predicate Works(id: uint32) {
      id in standing && standing[id] == Working
    }
  }

  datatype Move = Placing(opening: bool, price: real, size: uint32, priceOk: bool, postOk: bool, accepted: bool)
                | Changing(id: uint32, newPrice: real, newSize: uint32, changePriceOk: bool, sendOk: bool,
                           accepted: bool)
                | Cancelling(id: uint32, sendOk: bool, answer: Answer)
                | Sweeping
                | Reporting(id: uint32, condition: Condition, openSize: uint32)
                | Filling(id: uint32, fill: uint32, openSize: uint32)
                | CancelNoticed(id: uint32)
                | ChangeNoticed(id: uint32, unknown: bool)

  /** Shares an order must be counted for: all while it is live, the filled part once it is cancelled on request. */
  function Share(w: World, opening: bool, id: nat): nat {
    if id < TWO_TO_32 && id in w.standing && id in w.desk.Info()
       && Opens(w.desk.book.isLong, w.desk.Info()[id].side) == opening then
      match w.standing[id]
      case Working => w.desk.Info()[id].size
      case Dropped => w.desk.Info()[id].size
      case CancelledOnRequest => w.desk.Info()[id].fillSize
      case Executed => 0
      case Replaced => 0
    else 0
  }

  function Shares(w: World, opening: bool): nat -> nat {
    (id: nat) => Share(w, opening, id)
  }

  /** Sum over the ids 1 to n. */
  function SumTo(shares: nat -> nat, n: nat): nat {
    if n == 0 then 0 else SumTo(shares, n - 1) + shares(n)
  }

  /** Shares that ought to be counted as live, over all ids handed out. */
  function Live(w: World, opening: bool): nat {
    SumTo(Shares(w, opening), w.desk.book.generator)
  }

  function Advance(w: World, m: Move): World
  {
    match m
    case Placing(opening, price, size, priceOk, postOk, accepted) =>
      var (d, id) := Place(w.desk, opening, price, size, priceOk, postOk, accepted);
      World(d, if id != 0 then w.standing[id := Working] else w.standing)
    case Changing(id, price, newSize, priceOk, sendOk, accepted) =>
      var (d, newId) := ChangeOrder(w.desk, id, price, newSize, priceOk, sendOk, accepted);
      World(d, if newId != 0 && newId != id then w.standing[id := Replaced][newId := Working] else w.standing)
    case Cancelling(id, sendOk, answer) =>
      var (d, cancelled) := CancelOrder(w.desk, id, sendOk, answer);
      World(d, if cancelled then w.standing[id := CancelledOnRequest] else w.standing)
    case Sweeping => w.(desk := Sweep(w.desk))
    case Reporting(id, condition, openSize) =>
      var d := Report(w.desk, id, condition, openSize);
      World(d, if w.Works(id) && id !in d.book.hash
               then w.standing[id := if condition == OrderDone then Executed else Dropped] else w.standing)
    case Filling(id, fill, openSize) => w.(desk := ReportFill(w.desk, id, fill, openSize))
    case CancelNoticed(id) => w.(desk := w.desk.(book := OnOrderCancel(w.desk.book, id)))
    case ChangeNoticed(id, unknown) => w.(desk := w.desk.(book := OnOrderChange(w.desk.book, id, unknown)))
  }

  /** The exchange's side of the contract, and fewer than 2^32 requests. */
  predicate Honest(w: World, m: Move) {
    match m
    case Placing(_, _, _, _, _, _) => w.desk.book.generator + 1 < TWO_TO_32
    case Changing(id, _, _, _, _, accepted) =>
      w.desk.book.generator + 1 < TWO_TO_32 && (accepted ==> w.Works(id))
    case Cancelling(id, _, Confirmed(openSize)) =>
      w.Works(id) && id in w.desk.Info() && openSize == w.desk.Info()[id].size - w.desk.Info()[id].fillSize
    case Reporting(id, OrderDone, _) => id in w.desk.book.hash ==> w.Works(id)
    case Filling(id, fill, _) =>
      id in w.desk.Info() ==> w.desk.Info()[id].fillSize + fill <= w.desk.Info()[id].size
    case _ => true
  }

  function Play(isLong: bool, divisor: Divisor, ms: seq<Move>): World
  {
    if ms == [] then World(EmptyDesk(isLong, divisor), map[])
    else Advance(Play(isLong, divisor, ms[..|ms| - 1]), ms[|ms| - 1])
  }

  predicate AllHonest(isLong: bool, divisor: Divisor, ms: seq<Move>)
  {
    ms == [] ||
    (var before := ms[..|ms| - 1];
     AllHonest(isLong, divisor, before) && Honest(Play(isLong, divisor, before), ms[|ms| - 1]))
  }

  // ------------------------------------------------------ what the steps keep

  predicate Registered(o: OrderInfo) {
    o.onAcknowledgement && o.onFill && o.onDone && o.fillSize <= o.size
  }

  /** Every order has its callbacks registered and is not filled beyond its size. */
  predicate OrdersOk(info: map<uint32, OrderInfo>) {
    forall id :: id in info ==> Registered(info[id])
  }

  predicate DeskOk(d: Desk) {
    Orderly(d.book) && OrdersOk(d.book.info)
  }

  predicate Counted(w: World) {
    w.desk.totalOpen == Live(w, true) && w.desk.totalClose == Live(w, false)
  }

  /** Which orders can stand as working or as cancelled, given the hash. */
  predicate StandingOk(w: World) {
    forall id :: id in w.standing ==>
      && id in w.desk.Info()
      && (w.standing[id] == Working ==> id in w.desk.book.hash)
      && (w.standing[id] == CancelledOnRequest ==> id !in w.desk.book.hash)
  }

  predicate WorldOk(w: World) {
    && DeskOk(w.desk)
    && StandingOk(w)
    && Counted(w)
  }

  /** All that counting looks at is the same. */
  predicate SameShares(d: Desk, d': Desk) {
    && d'.book.isLong == d.book.isLong && d'.divisor == d.divisor
    && (forall id :: id in d.Info() ==>
          && id in d'.Info()
          && d'.Info()[id].side == d.Info()[id].side && d'.Info()[id].size == d.Info()[id].size
          && d'.Info()[id].fillSize == d.Info()[id].fillSize && d'.Info()[id].price == d.Info()[id].price)
  }

  predicate Ends(condition: Condition) {
    || condition.OrderDone? || condition.Canceled? || condition.Changed?
    || condition.NotReported? || condition.OtherCondition?
  }

  lemma {:induction false} SumsAgree(f: nat -> nat, g: nat -> nat, n: nat)
    requires forall id: nat :: 1 <= id <= n ==> f(id) == g(id)
    ensures SumTo(f, n) == SumTo(g, n)
  {
    if n == 0 {
    } else {
      SumsAgree(f, g, n - 1);
    }
  }

  /** Changing the share of one order changes the sum by as much. */
  lemma {:induction false} SumChanges(f: nat -> nat, g: nat -> nat, n: nat, x: nat)
    requires 1 <= x <= n && forall id: nat :: 1 <= id <= n && id != x ==> f(id) == g(id)
    ensures SumTo(g, n) == SumTo(f, n) - f(x) + g(x)
  {
    if n == x {
      SumsAgree(f, g, n - 1);
    } else {
      SumChanges(f, g, n - 1, x);
    }
  }

  lemma ReactToOne(d: Desk, calls: seq<Callback>)
    requires |calls| <= 1
    ensures ReactAll(d, calls) == if calls == [] then d else React(d, calls[0])
  {
    hide React;
    if calls != [] {
      assert calls[1..] == [];
    }
  }

  lemma ReactToAck(d: Desk, call: Callback)
    requires call.Acked?
    ensures React(d, call) == d
  {
  }

  /** The book after an order event. */
  lemma OnOrderEffect(d: Desk, id: uint32, condition: Condition, openSize: uint32)
    requires DeskOk(d) && id in d.book.hash
    ensures id in d.Info() && Registered(d.Info()[id])
    ensures var o := d.Info()[id];
            var (book, calls) := OnOrder(d.book, id, condition, openSize);
            var d' := d.(book := book);
            && (book, calls) == (d.book.(info := d.Info()[id := Reported(o, condition, openSize).0],
                                         hash := if Ends(condition) then d.book.hash - {id} else d.book.hash),
                                 Reported(o, condition, openSize).1)
            && DeskOk(d') && SameShares(d, d')
  {
    hide Reported;
    ReportedOrder(d.Info()[id], condition, openSize);
  }

  /** A reaction other than to a fill. */
  lemma ReactEffect(d: Desk, call: Callback)
    requires DeskOk(d) && call.id in d.Info() && !call.FillSeen?
    ensures var d', o := React(d, call), d.Info()[call.id];
            && DeskOk(d') && SameShares(d, d') && d'.book.generator == d.book.generator && d'.book.hash == d.book.hash
            && d'.Info().Keys == d.Info().Keys
            && (forall id :: id in d.Info() ==>
                  && d'.Info()[id].isAcknowledged == d.Info()[id].isAcknowledged
                  && d'.Info()[id].openSize == d.Info()[id].openSize)
            && var c := if call.DoneSeen? then Count(d, o.side, -(o.size as int)) else d;
               d'.totalOpen == c.totalOpen && d'.totalClose == c.totalClose
  {
    hide Count;
    var o := d.Info()[call.id];
    CountOnly(d, o.side, -(o.size as int));
  }

  /** The effect of an order event on the desk. */
  lemma ReportEffect(d: Desk, id: uint32, condition: Condition, openSize: uint32)
    requires DeskOk(d)
    ensures var d' := Report(d, id, condition, openSize);
            && DeskOk(d') && SameShares(d, d') && d'.book.generator == d.book.generator
            && d'.Info().Keys == d.Info().Keys
            && d'.book.hash == (if Ends(condition) then d.book.hash - {id} else d.book.hash)
            && (id in d.book.hash && condition == OrderDone ==>
                  var o := d.Info()[id]; var c := Count(d, o.side, -(o.size as int));
                  d'.totalOpen == c.totalOpen && d'.totalClose == c.totalClose)
            && (id !in d.book.hash || condition != OrderDone ==>
                  d'.totalOpen == d.totalOpen && d'.totalClose == d.totalClose)
            && (id in d.book.hash ==>
                  && (condition == New ==> d'.Info()[id].isAcknowledged)
                  && (condition == OtherCondition ==> !d'.Info()[id].isAcknowledged)
                  && d'.Info()[id].openSize == openSize)
  {
    hide Reported, Count, React, OnOrder, Ends, DeskOk, SameShares;
    SameAsItself(d);
    if id in d.book.hash {
      HashIsKnown(d);
      KnownRange(d, id);
      var o := d.Info()[id];
      var (book, calls) := OnOrder(d.book, id, condition, openSize);
      var d1 := d.(book := book);
      OnOrderEffect(d, id, condition, openSize);
      ReportedOrder(o, condition, openSize);
      ReactToOne(d1, calls);
      if calls != [] {
        ReactEffect(d1, calls[0]);
        SameTwice(d, d1, React(d1, calls[0]));
      }
      CountOnly(d1, o.side, -(o.size as int));
      CountOnly(d, o.side, -(o.size as int));
    } else {
      assert d.book.hash - {id} == d.book.hash;
      UnknownOrder(d.book, id, condition, openSize);
      ReactToOne(d, []);
    }
  }

  lemma UnknownOrder(b: Book, id: uint32, condition: Condition, openSize: uint32)
    requires id !in b.hash
    ensures OnOrder(b, id, condition, openSize) == (b, [])
  {
  }

  lemma CountOnly(d: Desk, side: Side, shares: int)
    ensures var c := Count(d, side, shares);
            && c.book == d.book && c.divisor == d.divisor
            && c.totalOpen == d.totalOpen + (if Opens(d.book.isLong, side) then shares else 0)
            && c.totalClose == d.totalClose + (if Opens(d.book.isLong, side) then 0 else shares)
  {
  }

  lemma ReportedOrder(o: OrderInfo, condition: Condition, openSize: uint32)
    requires o.onAcknowledgement && o.onDone
    ensures var (r, calls, over) := Reported(o, condition, openSize);
            && r.requestId == o.requestId && r.side == o.side && r.size == o.size && r.fillSize == o.fillSize
            && r.price == o.price
            && r.onAcknowledgement == o.onAcknowledgement && r.onFill == o.onFill && r.onDone == o.onDone
            && r.openSize == openSize
            && |calls| <= 1 && over == Ends(condition)
            && (forall c :: c in calls ==>
                  c.id == o.requestId && !c.FillSeen? && (c.DoneSeen? <==> condition == OrderDone))
            && (condition == OrderDone ==> |calls| == 1)
            && (condition == New ==> r.isAcknowledged) && (condition == OtherCondition ==> !r.isAcknowledged)
  {
  }

  /** Recounting when only one order's standing, or nothing, has changed. */
  lemma Recount(w: World, w': World, opening: bool, id: uint32)
    requires SameShares(w.desk, w'.desk) && w'.desk.book.generator == w.desk.book.generator
    requires 1 <= id <= w.desk.book.generator
    requires forall x :: x in w.standing || x in w'.standing ==> x in w.desk.Info()
    requires forall x :: x != id ==> (x in w.standing <==> x in w'.standing)
    requires forall x :: x != id && x in w.standing ==> w'.standing[x] == w.standing[x]
    ensures Live(w', opening) == Live(w, opening) - Share(w, opening, id) + Share(w', opening, id)
  {
    hide Opens, SumTo;
    SumChanges(Shares(w, opening), Shares(w', opening), w.desk.book.generator, id);
  }

  lemma RecountSame(w: World, d': Desk, opening: bool)
    requires SameShares(w.desk, d') && d'.book.generator == w.desk.book.generator
    requires forall x :: x in w.standing ==> x in w.desk.Info()
    ensures Live(w.(desk := d'), opening) == Live(w, opening)
  {
    hide Opens, SumTo;
    SumsAgree(Shares(w, opening), Shares(w.(desk := d'), opening), w.desk.book.generator);
  }

  lemma KeepsSame(w: World, d': Desk)
    requires WorldOk(w) && DeskOk(d') && StandingOk(w.(desk := d')) && SameShares(w.desk, d')
    requires d'.book.generator == w.desk.book.generator
    requires d'.totalOpen == w.desk.totalOpen && d'.totalClose == w.desk.totalClose
    ensures WorldOk(w.(desk := d'))
  {
    hide Live, DeskOk, SameShares;
    RecountSame(w, d', true);
    RecountSame(w, d', false);
  }

  /** The counters follow when one order's standing changes and they change by as much as its share. */
  lemma KeepsOne(w: World, w': World, id: uint32)
    requires WorldOk(w) && DeskOk(w'.desk) && StandingOk(w') && SameShares(w.desk, w'.desk)
    requires w'.desk.book.generator == w.desk.book.generator && 1 <= id <= w.desk.book.generator
    requires id in w.desk.Info() && id in w'.standing && w'.standing == w.standing[id := w'.standing[id]]
    requires w'.desk.totalOpen - w.desk.totalOpen == Share(w', true, id) - Share(w, true, id)
    requires w'.desk.totalClose - w.desk.totalClose == Share(w', false, id) - Share(w, false, id)
    ensures WorldOk(w')
  {
    hide Live, DeskOk, SameShares, Share;
    Recount(w, w', true, id);
    Recount(w, w', false, id);
  }

  lemma ReportingKeeps(w: World, id: uint32, condition: Condition, openSize: uint32)
    requires WorldOk(w) && Honest(w, Reporting(id, condition, openSize))
    ensures WorldOk(Advance(w, Reporting(id, condition, openSize)))
  {
    hide Report, Share, Counted, DeskOk, SameShares, Count;
    var w' := Advance(w, Reporting(id, condition, openSize));
    ReportEffect(w.desk, id, condition, openSize);
    if w.Works(id) && id !in w'.desk.book.hash {
      KnownRange(w.desk, id);
      SameOrder(w.desk, w'.desk, id);
      ShareOf(w, id);
      ShareOf(w', id);
      CountOnly(w.desk, w.desk.Info()[id].side, -(w.desk.Info()[id].size as int));
      KeepsOne(w, w', id);
    } else {
      KeepsSame(w, w'.desk);
    }
  }

  lemma SameOrder(d: Desk, d': Desk, id: uint32)
    requires SameShares(d, d') && id in d.Info()
    ensures id in d'.Info() && d'.book.isLong == d.book.isLong
    ensures var o, o' := d.Info()[id], d'.Info()[id];
            o'.side == o.side && o'.size == o.size && o'.fillSize == o.fillSize
  {
  }

  lemma KnownRange(d: Desk, id: uint32)
    requires DeskOk(d) && id in d.Info()
    ensures 1 <= id <= d.book.generator && d.Info()[id].requestId == id
  {
  }

  lemma ShareOf(w: World, id: uint32)
    requires id in w.standing && id in w.desk.Info()
    ensures var o, isOpen := w.desk.Info()[id], Opens(w.desk.book.isLong, w.desk.Info()[id].side);
            var share := match w.standing[id]
                         case Working => o.size
                         case Dropped => o.size
                         case CancelledOnRequest => o.fillSize
                         case Executed => 0
                         case Replaced => 0;
            Share(w, isOpen, id) == share && Share(w, !isOpen, id) == 0
  {
  }

  /** A fill concerns an order whose share does not depend on what was filled. */
  lemma FillingKeeps(w: World, id: uint32, fill: uint32, openSize: uint32)
    requires WorldOk(w) && Honest(w, Filling(id, fill, openSize))
    ensures WorldOk(Advance(w, Filling(id, fill, openSize)))
  {
    hide Live, Share;
    var w' := Advance(w, Filling(id, fill, openSize));
    if id in w.desk.book.hash {
      var d := w.desk.(book := OnFill(w.desk.book, id, fill, openSize).0);
      ReactToOne(d, [FillSeen(id, fill)]);
      FillShares(w, w', id);
      RecountFill(w, w', true, id);
      RecountFill(w, w', false, id);
    } else {
      ReactToOne(w.desk, []);
    }
  }

  lemma FillShares(w: World, w': World, id: uint32)
    requires WorldOk(w) && id in w.desk.book.hash && w'.standing == w.standing
    requires id in w'.desk.Info() && w'.desk.book.isLong == w.desk.book.isLong
    requires w'.desk.Info()[id].size == w.desk.Info()[id].size && w'.desk.Info()[id].side == w.desk.Info()[id].side
    ensures forall opening :: Share(w', opening, id) == Share(w, opening, id)
  {
    hide Counted, Opens, Orderly;
  }

  lemma RecountFill(w: World, w': World, opening: bool, id: uint32)
    requires w'.desk.book.isLong == w.desk.book.isLong && w'.desk.book.generator == w.desk.book.generator
    requires w'.standing == w.standing && w'.desk.Info().Keys == w.desk.Info().Keys
    requires forall x :: x in w.desk.Info() && x != id ==> w'.desk.Info()[x] == w.desk.Info()[x]
    requires Share(w', opening, id) == Share(w, opening, id)
    ensures Live(w', opening) == Live(w, opening)
  {
    hide Opens, SumTo;
    assert forall x: nat :: x != id ==> Share(w', opening, x) == Share(w, opening, x);
    SumsAgree(Shares(w, opening), Shares(w', opening), w.desk.book.generator);
  }

  /** Fields that counting does not look at may change. */
  lemma UpdateIsOk(d: Desk, id: uint32, o: OrderInfo)
    requires DeskOk(d) && id in d.Info()
    requires var was := d.Info()[id];
             o == was.(onCancel := o.onCancel, onChange := o.onChange, cancelStage := o.cancelStage, stage := o.stage)
    ensures DeskOk(d.WithInfo(id, o)) && SameShares(d, d.WithInfo(id, o))
  {
  }

  lemma NoticesKeep(w: World, id: uint32, unknown: bool)
    requires WorldOk(w)
    ensures WorldOk(Advance(w, CancelNoticed(id))) && WorldOk(Advance(w, ChangeNoticed(id, unknown)))
  {
    hide Counted, DeskOk, SameShares;
    if Known(w.desk.book, id) {
      var o := w.desk.Info()[id];
      UpdateIsOk(w.desk, id, o.(stage := Cancelled));
      UpdateIsOk(w.desk, id, o.(stage := Failed));
      KeepsSame(w, Advance(w, CancelNoticed(id)).desk);
      KeepsSame(w, w.desk.WithInfo(id, o.(stage := Failed)));
    }
  }

  lemma SweepingKeeps(w: World)
    requires WorldOk(w)
    ensures WorldOk(Advance(w, Sweeping))
  {
    KeepsSame(w, Sweep(w.desk));
  }

  // -------------------------------------------------------------- cancelling

  lemma CancellingKeeps(w: World, id: uint32, sendOk: bool, answer: Answer)
    requires WorldOk(w) && Honest(w, Cancelling(id, sendOk, answer))
    ensures WorldOk(Advance(w, Cancelling(id, sendOk, answer)))
  {
    hide Counted, DeskOk, SameShares, AwaitCancel, CancelSent, OrderInfo.CanCancel;
    if w.desk.Holds(id) {
      var o := w.desk.Info()[id];
      var asked := w.desk.WithInfo(id, o.(onCancel := true, cancelStage := CancelInit));
      UpdateIsOk(w.desk, id, o.(onCancel := true, cancelStage := CancelInit));
      KeepsSame(w, asked);
      OrdersDoNotCount(w.desk, w.desk.orders - {id});
      KeepsSame(w, w.desk.(orders := w.desk.orders - {id}));
      if o.CanCancel() && CancelSent(asked.book, id, sendOk) {
        AnswerKeeps(w.(desk := asked), id, answer);
      }
    }
  }

  lemma OrdersDoNotCount(d: Desk, orders: set<uint32>)
    requires DeskOk(d)
    ensures DeskOk(d.(orders := orders)) && SameShares(d, d.(orders := orders))
  {
  }

  lemma AnswerKeeps(w: World, id: uint32, answer: Answer)
    requires WorldOk(w) && id in w.desk.Info() && Honest(w, Cancelling(id, true, answer))
    ensures var (d, cancelled) := AwaitCancel(w.desk, id, answer);
            WorldOk(World(d, if cancelled then w.standing[id := CancelledOnRequest] else w.standing))
  {
    hide Report, Counted, DeskOk, SameShares, Count, Share;
    var o := w.desk.Info()[id];
    KnownRange(w.desk, id);
    match answer
    case Declined =>
      var d := Report(w.desk, id, CancelRejected, o.openSize);
      ReportEffect(w.desk, id, CancelRejected, o.openSize);
      KeepsSame(w, d);
      UpdateIsOk(d, id, d.Info()[id].(cancelStage := NotCancelled));
      KeepsSame(w.(desk := d), d.WithInfo(id, d.Info()[id].(cancelStage := NotCancelled)));
    case Confirmed(openSize) =>
      var d := Report(w.desk, id, Canceled, openSize);
      ReportEffect(w.desk, id, Canceled, openSize);
      SameOrder(w.desk, d, id);
      var w' := World(Count(d, o.side, -(openSize as int)), w.standing[id := CancelledOnRequest]);
      CountingIsOk(w.desk, d, o.side, -(openSize as int));
      CountOnly(d, o.side, -(openSize as int));
      ShareOf(w, id);
      ShareOf(w', id);
      KeepsOne(w, w', id);
  }

  lemma CountingIsOk(before: Desk, d: Desk, side: Side, shares: int)
    requires DeskOk(d) && SameShares(before, d)
    ensures DeskOk(Count(d, side, shares)) && SameShares(before, Count(d, side, shares))
  {
  }

  // ----------------------------------------------------- placing and changing

  lemma EnterEffect(d: Desk, o: OrderInfo)
    requires DeskOk(d) && Registered(o) && d.book.generator + 1 < TWO_TO_32
    ensures var d' := d.(book := Enter(d.book, o));
            var id := d'.book.generator;
            && DeskOk(d') && SameShares(d, d') && d'.totalOpen == d.totalOpen && d'.totalClose == d.totalClose
            && id == d.book.generator + 1 && id !in d.Info()
            && id in d'.book.hash && id in d'.Info() && d'.Info()[id] == o.(requestId := id)
            && d.book.hash <= d'.book.hash && (forall x :: x in d'.book.hash ==> x == id || x in d.book.hash)
            && (forall x :: x in d.Info() ==> d'.Info()[x] == d.Info()[x])
  {
    hide Wrap32;
    assert Wrap32(d.book.generator + 1) == d.book.generator + 1;
  }

  /** A new order, not yet acknowledged, counts for nothing. */
  lemma EnteringKeeps(w: World, o: OrderInfo)
    requires WorldOk(w) && Registered(o) && w.desk.book.generator + 1 < TWO_TO_32
    ensures var d := w.desk.(book := Enter(w.desk.book, o));
            var id := d.book.generator;
            && WorldOk(w.(desk := d)) && SameShares(w.desk, d)
            && id == w.desk.book.generator + 1 && id !in w.desk.Info() && id !in w.standing
            && id in d.book.hash && id in d.Info() && d.Info()[id] == o.(requestId := id)
            && (forall x :: x in w.desk.Info() ==> d.Info()[x] == w.desk.Info()[x])
  {
    hide Opens, SumTo, Enter, DeskOk, Registered;
    EnterEffect(w.desk, o);
    var w' := w.(desk := w.desk.(book := Enter(w.desk.book, o)));
    var n := w.desk.book.generator;
    SumNext(Shares(w', true), n);
    SumNext(Shares(w', false), n);
    SumsAgree(Shares(w, true), Shares(w', true), n);
    SumsAgree(Shares(w, false), Shares(w', false), n);
  }

  lemma SumNext(f: nat -> nat, n: nat)
    ensures SumTo(f, n + 1) == SumTo(f, n) + f(n + 1)
  {
  }

  /** Acknowledging a new order: it works from now on and its shares are counted on its side. */
  lemma AcknowledgingKeeps(w: World, id: uint32, orders: set<uint32>)
    requires WorldOk(w) && id in w.desk.book.hash && id !in w.standing
    ensures var o := w.desk.Info()[id];
            WorldOk(World(Count(w.desk, o.side, o.size).(orders := orders), w.standing[id := Working]))
  {
    hide Counted, DeskOk, SameShares, Count, Share;
    assert id in w.desk.Info() by { HashIsKnown(w.desk); }
    var o := w.desk.Info()[id];
    var d := Count(w.desk, o.side, o.size);
    var w' := World(d.(orders := orders), w.standing[id := Working]);
    KnownRange(w.desk, id);
    CountOnly(w.desk, o.side, o.size);
    SameAsItself(w.desk);
    CountingIsOk(w.desk, w.desk, o.side, o.size);
    OrdersDoNotCount(d, orders);
    SameTwice(w.desk, d, w'.desk);
    NoStandingNoShare(w, id);
    ShareOf(w', id);
    KeepsOne(w, w', id);
  }

  lemma HashIsKnown(d: Desk)
    requires DeskOk(d)
    ensures d.book.hash <= d.Info().Keys
  {
  }

  lemma SameAsItself(d: Desk)
    ensures SameShares(d, d)
  {
  }

  lemma SameTwice(a: Desk, b: Desk, c: Desk)
    requires SameShares(a, b) && SameShares(b, c)
    ensures SameShares(a, c)
  {
  }

  lemma NoStandingNoShare(w: World, id: uint32)
    requires id !in w.standing
    ensures Share(w, true, id) == 0 && Share(w, false, id) == 0
  {
  }

  /** Submitting an order and hearing the exchange's answer, before the account enters it in its map. */
  lemma SubmittingKeeps(w: World, o: OrderInfo, accepted: bool, openSize: uint32)
    requires WorldOk(w) && Registered(o) && w.desk.book.generator + 1 < TWO_TO_32
    ensures var d1 := w.desk.(book := Enter(w.desk.book, o));
            var id := d1.book.generator;
            var d2 := Report(d1, id, if accepted then New else OtherCondition, openSize);
            && WorldOk(w.(desk := d1)) && WorldOk(w.(desk := d2)) && SameShares(w.desk, d2)
            && d2.book.isLong == w.desk.book.isLong
            && id != 0 && id !in w.standing && id !in w.desk.Info() && id in d2.Info()
            && (accepted ==> id in d2.book.hash)
            && var o' := d2.Info()[id]; o'.side == o.side && o'.size == o.size && o'.isAcknowledged == accepted
  {
    hide Counted, DeskOk, SameShares, Report, Enter;
    var d1 := w.desk.(book := Enter(w.desk.book, o));
    var id := d1.book.generator;
    var condition := if accepted then New else OtherCondition;
    var d2 := Report(d1, id, condition, openSize);
    EnteringKeeps(w, o);
    ReportEffect(d1, id, condition, openSize);
    KeepsSame(w.(desk := d1), d2);
    SameOrder(d1, d2, id);
    SameTwice(w.desk, d1, d2);
    SameKind(w.desk, d2);
  }

  lemma SameKind(d: Desk, d': Desk)
    requires SameShares(d, d')
    ensures d'.book.isLong == d.book.isLong
  {
  }

  lemma PlacingKeeps(w: World, opening: bool, price: real, size: uint32, priceOk: bool, postOk: bool, accepted: bool)
    requires WorldOk(w) && w.desk.book.generator + 1 < TWO_TO_32
    ensures WorldOk(Advance(w, Placing(opening, price, size, priceOk, postOk, accepted)))
  {
    hide WorldOk, SameShares, Report, Enter, Count;
    var shares: uint32 := size / w.desk.divisor;
    var side := SideOf(w.desk.book.isLong, opening);
    var o := Requested(shares, price).(side := side);
    SubmittingKeeps(w, o, accepted, shares);
    var d1 := w.desk.(book := Enter(w.desk.book, o));
    var id := d1.book.generator;
    var d2 := Report(d1, id, if accepted then New else OtherCondition, shares);
    if accepted {
      AcknowledgingKeeps(World(d2, w.standing), id, d2.orders + {id});
      SidesOpen(w.desk.book.isLong, opening);
      CountOfSide(d2, side, shares, opening);
    }
  }

  lemma SidesOpen(isLong: bool, opening: bool)
    ensures Opens(isLong, SideOf(isLong, opening)) == opening
  {
  }

  lemma CountOfSide(d: Desk, side: Side, shares: int, opening: bool)
    requires Opens(d.book.isLong, side) == opening
    ensures Count(d, side, shares)
            == if opening then d.(totalOpen := d.totalOpen + shares) else d.(totalClose := d.totalClose + shares)
  {
  }

  /** A change keeps the order's side, so the counters move from the old size to the new. */
  lemma CountChangeOfSide(d: Desk, changed: OrderInfo, original: OrderInfo)
    requires changed.side == original.side
    ensures CountChange(d, changed, original)
            == Count(Count(d, changed.side, changed.size), original.side, -(original.size as int))
  {
  }

  /** The accepted change: the new order works, the original is replaced. */
  lemma ReplacingKeeps(w: World, id: uint32, newId: uint32)
    requires WorldOk(w) && w.Works(id) && newId in w.desk.book.hash && newId !in w.standing
    requires id in w.desk.Info() && newId in w.desk.Info() && w.desk.Info()[newId].side == w.desk.Info()[id].side
    ensures var changed, original := w.desk.Info()[newId], w.desk.Info()[id];
            var d := w.desk.(orders := w.desk.orders + {newId});
            WorldOk(World(CountChange(d, changed, original), w.standing[id := Replaced][newId := Working]))
  {
    hide Counted, DeskOk, SameShares, Count, Share, CountChange;
    var changed, original := w.desk.Info()[newId], w.desk.Info()[id];
    var d := w.desk.(orders := w.desk.orders + {newId});
    AcknowledgingKeeps(w, newId, d.orders);
    CountOnly(w.desk, changed.side, changed.size);
    var wA := World(Count(w.desk, changed.side, changed.size).(orders := d.orders), w.standing[newId := Working]);
    var dB := Count(wA.desk, original.side, -(original.size as int));
    var wB := World(dB, wA.standing[id := Replaced]);
    KnownRange(wA.desk, id);
    SameAsItself(wA.desk);
    CountingIsOk(wA.desk, wA.desk, original.side, -(original.size as int));
    CountOnly(wA.desk, original.side, -(original.size as int));
    ShareOf(wA, id);
    ShareOf(wB, id);
    KeepsOne(wA, wB, id);
    CountChangeOfSide(d, changed, original);
    CountIgnoresOrders(w.desk, d.orders, changed.side, changed.size);
    assert wA.standing[id := Replaced] == w.standing[id := Replaced][newId := Working];
  }

  lemma CountIgnoresOrders(d: Desk, orders: set<uint32>, side: Side, shares: int)
    ensures Count(d.(orders := orders), side, shares) == Count(d, side, shares).(orders := orders)
  {
  }

  lemma SameSizeCountsNothing(d: Desk, changed: OrderInfo, original: OrderInfo)
    requires changed.side == original.side && changed.size == original.size
    ensures CountChange(d, changed, original) == d
  {
  }

  lemma ChangingKeeps(w: World, id: uint32, price: real, newSize: uint32, priceOk: bool, sendOk: bool, accepted: bool)
    requires WorldOk(w) && Honest(w, Changing(id, price, newSize, priceOk, sendOk, accepted))
    ensures WorldOk(Advance(w, Changing(id, price, newSize, priceOk, sendOk, accepted)))
  {
    hide WorldOk, Report, Enter, CountChange, OrderInfo.IsOver, SameShares;
    if w.desk.Holds(id) {
      var original := w.desk.Info()[id].(onChange := true);
      var changed := w.desk.Info()[id].CopyForChange(price, newSize / w.desk.divisor);
      var d1 := w.desk.WithInfo(id, original);
      OnChangeKeeps(w, id);
      RegisteredCopy(w.desk, id, price, newSize / w.desk.divisor) by { IsOk(w); }
      SubmittingKeeps(w.(desk := d1), changed, accepted, changed.size);
      var d2 := d1.(book := Enter(d1.book, changed));
      var newId := d2.book.generator;
      WithdrawingKeeps(w.(desk := d2), newId);
      var d3 := Report(d2, newId, if accepted then New else OtherCondition, changed.size);
      SameOrder(d1, d3, id);
      if accepted {
        ReplacingKeeps(World(d3, w.standing), id, newId);
        if newSize == 0 {
          SameSizeCountsNothing(d3.(orders := d3.orders + {newId}), d3.Info()[newId], d3.Info()[id]);
        }
      }
    }
  }

  lemma IsOk(w: World)
    requires WorldOk(w)
    ensures DeskOk(w.desk)
  {
  }

  lemma OnChangeKeeps(w: World, id: uint32)
    requires WorldOk(w) && id in w.desk.Info()
    ensures WorldOk(w.(desk := w.desk.WithInfo(id, w.desk.Info()[id].(onChange := true))))
  {
    hide Counted, DeskOk, SameShares;
    UpdateIsOk(w.desk, id, w.desk.Info()[id].(onChange := true));
    KeepsSame(w, w.desk.WithInfo(id, w.desk.Info()[id].(onChange := true)));
  }

  /** A change that could not be sent takes its copy out of the hash again. */
  lemma WithdrawingKeeps(w: World, id: uint32)
    requires WorldOk(w) && id !in w.standing
    ensures WorldOk(w.(desk := w.desk.(book := w.desk.book.(hash := w.desk.book.hash - {id}))))
  {
    hide Counted, DeskOk, SameShares;
    HashCanShrink(w.desk, id);
    KeepsSame(w, w.desk.(book := w.desk.book.(hash := w.desk.book.hash - {id})));
  }

  lemma RegisteredCopy(d: Desk, id: uint32, price: real, newSize: uint32)
    requires DeskOk(d) && id in d.Info()
    ensures Registered(d.Info()[id].CopyForChange(price, newSize))
  {
  }

  lemma HashCanShrink(d: Desk, id: uint32)
    requires DeskOk(d)
    ensures var d' := d.(book := d.book.(hash := d.book.hash - {id})); DeskOk(d') && SameShares(d, d')
  {
  }

  // --------------------------------------------------------------- whole runs

  lemma EveryMoveKeeps(w: World, m: Move)
    requires WorldOk(w) && Honest(w, m)
    ensures WorldOk(Advance(w, m))
  {
    hide WorldOk, Advance;
    match m
    case Placing(opening, price, size, priceOk, postOk, accepted) =>
      PlacingKeeps(w, opening, price, size, priceOk, postOk, accepted);
    case Changing(id, price, newSize, priceOk, sendOk, accepted) =>
      ChangingKeeps(w, id, price, newSize, priceOk, sendOk, accepted);
    case Cancelling(id, sendOk, answer) => CancellingKeeps(w, id, sendOk, answer);
    case Sweeping => SweepingKeeps(w);
    case Reporting(id, condition, openSize) => ReportingKeeps(w, id, condition, openSize);
    case Filling(id, fill, openSize) => FillingKeeps(w, id, fill, openSize);
    case CancelNoticed(id) => NoticesKeep(w, id, false);
    case ChangeNoticed(id, unknown) => NoticesKeep(w, id, unknown);
  }

  /**
   In every reachable state each counter is the total size of the acknowledged
   orders of its side that are not yet done, cancelled on request or replaced,
   plus the already filled part of those cancelled on request; it is never negative.
   */
  lemma {:induction false} CountersAreExact(isLong: bool, divisor: Divisor, ms: seq<Move>)
    requires AllHonest(isLong, divisor, ms)
    ensures var w := Play(isLong, divisor, ms);
            && WorldOk(w)
            && w.desk.totalOpen == Live(w, true) >= 0 && w.desk.totalClose == Live(w, false) >= 0
    decreases |ms|
  {
    hide Advance, Honest, Live, DeskOk;
    if ms == [] {
      NothingIsLive(isLong, divisor);
    } else {
      CountersAreExact(isLong, divisor, ms[..|ms| - 1]);
      EveryMoveKeeps(Play(isLong, divisor, ms[..|ms| - 1]), ms[|ms| - 1]);
    }
  }

  lemma NothingIsLive(isLong: bool, divisor: Divisor)
    ensures WorldOk(World(EmptyDesk(isLong, divisor), map[]))
  {
  }
}
