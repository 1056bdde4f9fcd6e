/**
 A trade account's orders: placing, changing and cancelling them, each together
 with the wait for the exchange's answer as one step, the reactions to order
 events, and the counters of live shares.
 */
module LiveOrders {
  import opened Ledger
  import opened OrderAccounts

  const MAXIMUM_ORDER_LIMIT := 5000

  /** Shares per traded unit; the program divides by it. */
  type Divisor = x: int | 0 < x < TWO_TO_32 witness 1

  datatype Desk = Desk(book: Book, divisor: Divisor, orders: set<uint32>,
                       totalOpen: int, totalClose: int, totalExecuted: int)
  {
    function Info(): map<uint32, OrderInfo> {
      book.info
    }

    /** The order is in the account's order map. */
    predicate Holds(id: uint32) {
      id in orders && id in book.info
    }

    function WithInfo(id: uint32, o: OrderInfo): Desk {
      this.(book := book.(info := book.info[id := o]))
    }
  }

  /** The exchange's answer to a cancel request that was sent. */
  datatype Answer = Confirmed(openSize: uint32) | Declined

  function EmptyDesk(isLong: bool, divisor: Divisor): Desk {
    Desk(EmptyBook(isLong), divisor, {}, 0, 0, 0)
  }

  predicate Opens(isLong: bool, side: Side) {
    if isLong then side == Buy else side != Buy
  }

  /** Add to the counter the order belongs to by its side. */
  function Count(d: Desk, side: Side, shares: int): Desk {
    if Opens(d.book.isLong, side) then d.(totalOpen := d.totalOpen + shares)
    else d.(totalClose := d.totalClose + shares)
  }

  // ---------------------------------------------------------------- reactions

  function OrderWasDone(d: Desk, id: uint32): Desk
    requires id in d.Info()
  {
    var o := d.Info()[id];
    Count(d, o.side, -(o.size as int)).(totalExecuted := d.totalExecuted + o.size, orders := d.orders - {id})
  }

  function React(d: Desk, call: Callback): Desk {
    if call.id !in d.Info() then d
    else
      var o := d.Info()[call.id];
      match call
      case Acked(_, _) => d
      case FillSeen(id, size) => d.WithInfo(id, o.(fillSize := Wrap32(o.fillSize + size)))
      case DoneSeen(id) => OrderWasDone(d, id)
      case CancelSeen(id, success) => d.WithInfo(id, o.(cancelStage := if success then CancelDone else CancelFailed))
      case ChangeSeen(id, success) => if success then d.(orders := d.orders - {id}) else d
  }

  function ReactAll(d: Desk, calls: seq<Callback>): Desk
    decreases |calls|
  {
    if calls == [] then d else ReactAll(React(d, calls[0]), calls[1..])
  }

  function Report(d: Desk, id: uint32, condition: Condition, openSize: uint32): Desk {
    var (book, calls) := OnOrder(d.book, id, condition, openSize);
    ReactAll(d.(book := book), calls)
  }

  function ReportFill(d: Desk, id: uint32, size: uint32, openSize: uint32): Desk {
    var (book, calls) := OnFill(d.book, id, size, openSize);
    ReactAll(d.(book := book), calls)
  }

  // ----------------------------------------------------------------- requests

  function Requested(size: uint32, price: real): OrderInfo {
    NewOrder(size, price).(onAcknowledgement := true, onFill := true, onDone := true)
  }

  /** Open or close: submit an order and wait until it is accepted or refused; 0 means failure. */
  function Place(d: Desk, opening: bool, price: real, size: uint32, priceOk: bool, postOk: bool,
                 accepted: bool): (Desk, uint32)
  {
    var shares: uint32 := size / d.divisor;
    if price <= 0.0 || shares > MAXIMUM_ORDER_LIMIT then (d, 0)
    else
      var (book, sent) := Limit(d.book, opening, Requested(shares, price), priceOk, postOk);
      if !sent then (d.(book := book), 0)
      else
        var id := book.generator;
        var d' := Report(d.(book := book), id, if accepted then New else OtherCondition, shares);
        if id in d'.Info() && d'.Info()[id].isAcknowledged then
          (if opening then d'.(orders := d'.orders + {id}, totalOpen := d'.totalOpen + shares)
           else d'.(orders := d'.orders + {id}, totalClose := d'.totalClose + shares), id)
        else (d', 0)
  }

  /** The counters after a change of size, by the sides of the changed and of the original order. */
  function CountChange(d: Desk, changed: OrderInfo, original: OrderInfo): Desk {
    var c, o := changed.side, original.side;
    if d.book.isLong then
      if c == SellShort || (c == Sell && o == Sell) then d.(totalClose := d.totalClose - original.size + changed.size)
      else if c == Buy && o == Sell
      then d.(totalClose := d.totalClose - original.size, totalOpen := d.totalOpen + changed.size)
      else if c == SellShort || (c == Sell && o == Buy)
      then d.(totalOpen := d.totalOpen - original.size, totalClose := d.totalClose + changed.size)
      else if c == Buy && o == Buy then d.(totalOpen := d.totalOpen - original.size + changed.size)
      else d
    else
      if c == SellShort || (c == Sell && o == Sell) then d.(totalOpen := d.totalOpen - original.size + changed.size)
      else if c == Buy && o == Sell
      then d.(totalOpen := d.totalOpen - original.size, totalClose := d.totalClose + changed.size)
      else if c == SellShort || (c == Sell && o == Buy)
      then d.(totalClose := d.totalClose - original.size, totalOpen := d.totalOpen + changed.size)
      else if c == Buy && o == Buy then d.(totalClose := d.totalClose - original.size + changed.size)
      else d
  }

  /** Replace an order and wait for the answer: the new id, the old one when that failed, 0 for an unknown order. */
  function ChangeOrder(d: Desk, id: uint32, price: real, newSize: uint32, priceOk: bool, sendOk: bool,
                       accepted: bool): (Desk, uint32)
  {
    if !d.Holds(id) then (d, 0)
    else
      var changed := d.Info()[id].CopyForChange(price, newSize / d.divisor);
      var d1 := d.WithInfo(id, d.Info()[id].(onChange := true));
      var (book, sent) := Change(d1.book, id, changed, priceOk, sendOk);
      if !sent then (d1.(book := book), id)
      else
        var newId := book.generator;
        var d2 := Report(d1.(book := book), newId, if accepted then New else OtherCondition, changed.size);
        if newId in d2.Info() && d2.Info()[newId].isAcknowledged then
          var d3 := d2.(orders := d2.orders + {newId});
          (if newSize > 0 && id in d3.Info() then CountChange(d3, d3.Info()[newId], d3.Info()[id]) else d3, newId)
        else (d2, id)
  }

  /** The exchange's answer to a cancel request, and what the waiting account makes of it. */
  function AwaitCancel(d: Desk, id: uint32, answer: Answer): (Desk, bool)
    requires id in d.Info()
  {
    match answer
    case Declined =>
      var d' := Report(d, id, CancelRejected, d.Info()[id].openSize);
      (if id in d'.Info() then d'.WithInfo(id, d'.Info()[id].(cancelStage := NotCancelled)) else d', false)
    case Confirmed(openSize) =>
      var d' := Report(d, id, Canceled, openSize);
      (if id in d'.Info() then Count(d', d'.Info()[id].side, -(d'.Info()[id].openSize as int)) else d', true)
  }

  /** Ask for an order to be cancelled and wait for the answer. */
  function CancelOrder(d: Desk, id: uint32, sendOk: bool, answer: Answer): (Desk, bool) {
    if !d.Holds(id) then (d, false)
    else if !d.Info()[id].CanCancel() then (d.(orders := d.orders - {id}), false)
    else
      var d' := d.WithInfo(id, d.Info()[id].(onCancel := true, cancelStage := CancelInit));
      if CancelSent(d'.book, id, sendOk) then AwaitCancel(d', id, answer) else (d', false)
  }

  /** The clean-up of cancelAll: cancelled orders leave the order map. */
  function Sweep(d: Desk): Desk {
    d.(orders := set id | id in d.orders && !(id in d.Info() && d.Info()[id].cancelStage == CancelDone))
  }

  class AbstractTradeAccount {
    const account: OrderAccount
    const divisor: Divisor
    var orders: set<uint32>
    var totalOpen: int
    var totalClose: int
    var totalExecuted: int

    ghost function State(): Desk
      reads this, account
    {
      Desk(account.State(), divisor, orders, totalOpen, totalClose, totalExecuted)
    }

    constructor (account: OrderAccount, divisor: Divisor)
      ensures this.account == account
      ensures State() == Desk(account.State(), divisor, {}, 0, 0, 0)
    {
      this.account, this.divisor := account, divisor;
      orders, totalOpen, totalClose, totalExecuted := {}, 0, 0, 0;
    }

    method CountShares(side: Side, shares: int)
      modifies this`totalOpen, this`totalClose
      ensures State() == Count(old(State()), side, shares)
    {
      if account.isLong {
        if side == SellShort || side == Sell {
          totalClose := totalClose + shares;
        } else if side == Buy {
          totalOpen := totalOpen + shares;
        }
      } else {
        if side == SellShort || side == Sell {
          totalOpen := totalOpen + shares;
        } else if side == Buy {
          totalClose := totalClose + shares;
        }
      }
    }

    method OnOrderDone(id: uint32)
      requires id in account.info
      modifies this
      ensures State() == OrderWasDone(old(State()), id)
    {
      totalExecuted := totalExecuted + account.info[id].size;
      CountShares(account.info[id].side, -(account.info[id].size as int));
      orders := orders - {id};
    }

    /** The reactions the account registers with the order account, on this order's callbacks. */
    method HandleCallbacks(calls: seq<Callback>)
      modifies this, account`info
      ensures State() == ReactAll(old(State()), calls)
    {
      hide Count;
      var rest := calls;
      while rest != []
        invariant ReactAll(State(), rest) == ReactAll(old(State()), calls)
        decreases |rest|
      {
        HandleCallback(rest[0]);
        rest := rest[1..];
      }
    }

    method HandleCallback(call: Callback)
      modifies this, account`info
      ensures State() == React(old(State()), call)
    {
      hide OrderWasDone;
      if call.id in account.info {
        var o := account.info[call.id];
        match call {
          case Acked(_, _) =>
          case FillSeen(id, size) =>
            account.info := account.info[id := o.(fillSize := Wrap32(o.fillSize + size))];
          case DoneSeen(id) =>
            OnOrderDone(id);
          case CancelSeen(id, success) =>
            account.info := account.info[id := o.(cancelStage := if success then CancelDone else CancelFailed)];
          case ChangeSeen(id, success) =>
            if success {
              orders := orders - {id};
            }
        }
      }
    }

    method OnOrderEvent(id: uint32, condition: Condition, openSize: uint32)
      modifies this, account
      ensures State() == Report(old(State()), id, condition, openSize)
    {
      hide OnOrder, ReactAll;
      var calls := account.HandleOrder(id, condition, openSize);
      HandleCallbacks(calls);
    }

    method OnFillEvent(id: uint32, size: uint32, openSize: uint32)
      modifies this, account
      ensures State() == ReportFill(old(State()), id, size, openSize)
    {
      hide OnFill, ReactAll;
      var calls := account.HandleFill(id, size, openSize);
      HandleCallbacks(calls);
    }

    /** `open` and `close`, with the exchange's answer to the submitted order. */
    method PlaceOrder(opening: bool, price: real, size: uint32, priceOk: bool, postOk: bool, accepted: bool)
      returns (id: uint32)
      modifies this, account
      ensures (State(), id) == Place(old(State()), opening, price, size, priceOk, postOk, accepted)
    {
      hide Limit, Report;
      var shares := size / divisor;
      if price <= 0.0 || shares > MAXIMUM_ORDER_LIMIT {
        return 0;
      }
      var sent := account.SendLimit(opening, Requested(shares, price), priceOk, postOk);
      if !sent {
        return 0;
      }
      id := account.requestIdGenerator;
      OnOrderEvent(id, if accepted then New else OtherCondition, shares);
      if id !in account.info || !account.info[id].isAcknowledged {
        return 0;
      }
      orders := orders + {id};
      if opening {
        totalOpen := totalOpen + shares;
      } else {
        totalClose := totalClose + shares;
      }
    }

    method CountChangedOrder(changed: OrderInfo, original: OrderInfo)
      modifies this`totalOpen, this`totalClose
      ensures State() == CountChange(old(State()), changed, original)
    {
      var c, o := changed.side, original.side;
      if account.isLong {
        if c == SellShort || (c == Sell && o == Sell) {
          totalClose := totalClose - original.size;
          totalClose := totalClose + changed.size;
        } else if c == Buy && o == Sell {
          totalClose := totalClose - original.size;
          totalOpen := totalOpen + changed.size;
        } else if c == SellShort || (c == Sell && o == Buy) {
          totalOpen := totalOpen - original.size;
          totalClose := totalClose + changed.size;
        } else if c == Buy && o == Buy {
          totalOpen := totalOpen - original.size;
          totalOpen := totalOpen + changed.size;
        }
      } else {
        if c == SellShort || (c == Sell && o == Sell) {
          totalOpen := totalOpen - original.size;
          totalOpen := totalOpen + changed.size;
        } else if c == Buy && o == Sell {
          totalOpen := totalOpen - original.size;
          totalClose := totalClose + changed.size;
        } else if c == SellShort || (c == Sell && o == Buy) {
          totalClose := totalClose - original.size;
          totalOpen := totalOpen + changed.size;
        } else if c == Buy && o == Buy {
          totalClose := totalClose - original.size;
          totalClose := totalClose + changed.size;
        }
      }
    }

    method ReplaceOrder(id: uint32, price: real, newSize: uint32, priceOk: bool, sendOk: bool, accepted: bool)
      returns (newId: uint32)
      modifies this, account
      ensures (State(), newId) == ChangeOrder(old(State()), id, price, newSize, priceOk, sendOk, accepted)
    {
      hide Change, Report, CountChange;
      var originalSize := newSize / divisor;
      if id !in orders || id !in account.info {
        return 0;
      }
      var changed := account.info[id].CopyForChange(price, originalSize);
      account.info := account.info[id := account.info[id].(onChange := true)];
      var sent := account.SendChange(id, changed, priceOk, sendOk);
      if !sent {
        return id;
      }
      newId := account.requestIdGenerator;
      OnOrderEvent(newId, if accepted then New else OtherCondition, changed.size);
      if newId !in account.info || !account.info[newId].isAcknowledged {
        return id;
      }
      orders := orders + {newId};
      if newSize > 0 && id in account.info {
        CountChangedOrder(account.info[newId], account.info[id]);
      }
    }

    method Cancel(id: uint32, sendOk: bool, answer: Answer) returns (cancelled: bool)
      modifies this, account
      ensures (State(), cancelled) == CancelOrder(old(State()), id, sendOk, answer)
    {
      hide AwaitCancel;
      if id !in orders || id !in account.info {
        return false;
      }
      if !account.info[id].CanCancel() {
        orders := orders - {id};
        return false;
      }
      account.info := account.info[id := account.info[id].(onCancel := true, cancelStage := CancelInit)];
      var sent := account.SendCancel(id, sendOk);
      if !sent {
        return false;
      }
      cancelled := WaitCancelAcknowledgement(id, answer);
    }

    method WaitCancelAcknowledgement(id: uint32, answer: Answer) returns (cancelled: bool)
      requires id in account.info
      modifies this, account
      ensures (State(), cancelled) == AwaitCancel(old(State()), id, answer)
    {
      hide Report, Count;
      match answer {
        case Declined =>
          OnOrderEvent(id, CancelRejected, account.info[id].openSize);
          if id in account.info {
            account.info := account.info[id := account.info[id].(cancelStage := NotCancelled)];
          }
          return false;
        case Confirmed(openSize) =>
          OnOrderEvent(id, Canceled, openSize);
          if id in account.info {
            CountShares(account.info[id].side, -(account.info[id].openSize as int));
          }
          return true;
      }
    }

    method EraseCancelled()
      modifies this`orders
      ensures State() == Sweep(old(State()))
    {
      var rest := orders;
      while rest != {}
        invariant rest <= orders <= old(orders)
        invariant forall id :: id in old(orders) - rest ==>
                    (id in orders <==> !(id in account.info && account.info[id].cancelStage == CancelDone))
        invariant old(orders) - orders !! rest
        decreases rest
      {
        var id :| id in rest;
        rest := rest - {id};
        if id in account.info && account.info[id].cancelStage == CancelDone {
          orders := orders - {id};
        }
      }
    }
  }
}
