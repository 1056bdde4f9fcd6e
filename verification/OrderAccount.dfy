/**
 The order account: it hands out request ids, keeps the hash of orders it still
 listens for, and turns the exchange's events into callbacks.

 A shared pointer to an order is modelled by the order's request id: `info`
 holds every order ever given an id, and the hash and the trade account's order
 map are sets of ids, so that a change made through one is seen through the other.
 */
module OrderAccounts {
  import opened Ledger

  const MAXIMUM_SIZE := 30

  datatype Side = Buy | Sell | SellShort
  datatype Stage = Sent | Acknowledged | Filled | Cancelled | Done | Failed
  datatype CancelStage = NotCancelled | CancelInit | CancelFailed | CancelDone

  /** The condition the exchange last reported; every condition not listed is taken as a failure. */
  datatype Condition = NotReported | PendingNew | New | Partial | OrderDone | Canceled
                     | CancelRejected | TooLateToCancel | PendingChange
                     | Changed | ChangeRejected | GatewayThrottle | OtherCondition

  datatype OrderInfo = OrderInfo(
    requestId: uint32, side: Side, size: uint32, price: real, fillSize: uint32,
    stage: Stage, isAcknowledged: bool, cancelStage: CancelStage, condition: Condition, openSize: uint32,
    onAcknowledgement: bool, onFill: bool, onCancel: bool, onChange: bool, onDone: bool)
  {
    predicate CanCancel() {
      !(stage == Cancelled || stage == Done || stage == Filled || stage == Failed)
    }

    /** The order is past cancelling or changing as far as the order account can see. */
    predicate IsOver() {
      condition == OrderDone || condition == Canceled || stage == Filled
    }

    /** A copy with a new price and, unless it is zero, a new size. */
    function CopyForChange(newPrice: real, newSize: uint32): OrderInfo {
      this.(size := if newSize == 0 then size else newSize, price := newPrice, stage := Sent,
            cancelStage := NotCancelled, isAcknowledged := false, requestId := 0, fillSize := 0)
    }
  }

  function NewOrder(size: uint32, price: real): OrderInfo {
    OrderInfo(0, Buy, size, price, 0, Sent, false, NotCancelled, NotReported, 0, false, false, false, false, false)
  }

  datatype Callback = Acked(id: uint32, success: bool) | FillSeen(id: uint32, size: uint32) | DoneSeen(id: uint32)
                    | CancelSeen(id: uint32, success: bool) | ChangeSeen(id: uint32, success: bool)
  {
    /** The order is done, cancelled, changed or failed. */
    predicate Terminal() {
      DoneSeen? || (Acked? && !success) || (CancelSeen? && success) || (ChangeSeen? && success)
    }
  }

  datatype Book = Book(isLong: bool, generator: uint32, info: map<uint32, OrderInfo>, hash: set<uint32>)

  function EmptyBook(isLong: bool): Book {
    Book(isLong, 0, map[], {})
  }

  /** Take the next request id and enter the order under it; an id already in the hash keeps its order. */
  function Enter(b: Book, o: OrderInfo): Book {
    var id := Wrap32(b.generator + 1);
    if id in b.hash then b.(generator := id)
    else b.(generator := id, info := b.info[id := o.(requestId := id)], hash := b.hash + {id})
  }

  function SideOf(isLong: bool, opening: bool): Side {
    if opening then (if isLong then Buy else SellShort) else (if isLong then Sell else Buy)
  }

  /** A limit order that opens or closes; when posting fails the order stays in the hash. */
  function Limit(b: Book, opening: bool, o: OrderInfo, priceOk: bool, postOk: bool): (Book, bool) {
    if o.size > MAXIMUM_SIZE || !priceOk then (b, false)
    else (Enter(b, o.(side := SideOf(b.isLong, opening))), postOk)
  }

  /** Replace an order by a changed copy under a new id; when sending fails the copy is taken out again. */
  function Change(b: Book, original: uint32, changed: OrderInfo, priceOk: bool, sendOk: bool): (Book, bool)
    requires original in b.info
  {
    if changed.size > MAXIMUM_SIZE || !priceOk || b.info[original].IsOver() then (b, false)
    else
      var b' := Enter(b, changed);
      if sendOk then (b', true) else (b'.(hash := b'.hash - {b'.generator}), false)
  }

  predicate CancelSent(b: Book, id: uint32, sendOk: bool)
    requires id in b.info
  {
    !b.info[id].IsOver() && sendOk
  }

  /** What an order event does to the order, the callback it makes, and whether the order leaves the hash. */
  function Reported(o: OrderInfo, condition: Condition, openSize: uint32): (OrderInfo, seq<Callback>, bool) {
    var r, id := o.(condition := condition, openSize := openSize), o.requestId;
    match condition
    case New =>
      if r.onAcknowledgement then (r.(stage := Acknowledged, isAcknowledged := true), [Acked(id, true)], false)
      else (r, [], false)
    case OrderDone =>
      if r.onDone then (r.(stage := Done), [DoneSeen(id)], true) else (r, [], true)
    case Canceled =>
      if r.onCancel then (r.(stage := Cancelled, cancelStage := CancelDone), [CancelSeen(id, true)], true)
      else (r, [], true)
    case CancelRejected =>
      if r.onCancel then (r.(cancelStage := CancelFailed), [CancelSeen(id, false)], false) else (r, [], false)
    case TooLateToCancel =>
      if r.onCancel then (r.(cancelStage := CancelFailed), [CancelSeen(id, false)], false) else (r, [], false)
    case Changed => (r, if r.onChange then [ChangeSeen(id, true)] else [], true)
    case ChangeRejected => (r, if r.onChange then [ChangeSeen(id, false)] else [], false)
    case PendingNew => (r, [], false)
    case Partial => (r, [], false)
    case PendingChange => (r, [], false)
    case GatewayThrottle => (r, [], false)
    case _ =>
      if r.onAcknowledgement then (r.(stage := Failed, isAcknowledged := false), [Acked(id, false)], true)
      else (r, [], true)
  }

  predicate Known(b: Book, id: uint32) {
    id in b.hash && id in b.info
  }

  function OnOrder(b: Book, id: uint32, condition: Condition, openSize: uint32): (Book, seq<Callback>) {
    if !Known(b, id) then (b, [])
    else
      var (o, calls, over) := Reported(b.info[id], condition, openSize);
      var erased := if condition.Changed? then id else o.requestId;
      (b.(info := b.info[id := o], hash := if over then b.hash - {erased} else b.hash), calls)
  }

  function OnFill(b: Book, id: uint32, size: uint32, openSize: uint32): (Book, seq<Callback>) {
    if !Known(b, id) then (b, [])
    else
      var o := b.info[id];
      (b.(info := b.info[id := if openSize == 0 then o.(stage := Filled) else o]),
       if o.onFill then [FillSeen(id, size)] else [])
  }

  function OnOrderCancel(b: Book, id: uint32): Book {
    if Known(b, id) then b.(info := b.info[id := b.info[id].(stage := Cancelled)]) else b
  }

  function OnOrderChange(b: Book, id: uint32, unknown: bool): Book {
    if Known(b, id) && unknown then b.(info := b.info[id := b.info[id].(stage := Failed)]) else b
  }

  class OrderAccount {
    const isLong: bool
    var requestIdGenerator: uint32
    var info: map<uint32, OrderInfo>
    var orderHash: set<uint32>

    ghost function State(): Book
      reads this
    {
      Book(isLong, requestIdGenerator, info, orderHash)
    }

    constructor (isLong: bool)
      ensures State() == EmptyBook(isLong)
    {
      this.isLong := isLong;
      requestIdGenerator, info, orderHash := 0, map[], {};
    }

    method Emplace(o: OrderInfo)
      modifies this
      ensures State() == Enter(old(State()), o)
    {
      requestIdGenerator := Wrap32(requestIdGenerator + 1);
      if requestIdGenerator !in orderHash {
        info := info[requestIdGenerator := o.(requestId := requestIdGenerator)];
        orderHash := orderHash + {requestIdGenerator};
      }
    }

    method SendLimit(opening: bool, o: OrderInfo, priceOk: bool, postOk: bool) returns (sent: bool)
      modifies this
      ensures (State(), sent) == Limit(old(State()), opening, o, priceOk, postOk)
    {
      if o.size > MAXIMUM_SIZE {
        return false;
      }
      if !priceOk {
        return false;
      }
      Emplace(o.(side := SideOf(isLong, opening)));
      sent := postOk;
    }

    method SendChange(original: uint32, changed: OrderInfo, priceOk: bool, sendOk: bool) returns (sent: bool)
      requires original in info
      modifies this
      ensures (State(), sent) == Change(old(State()), original, changed, priceOk, sendOk)
    {
      if changed.size > MAXIMUM_SIZE {
        return false;
      }
      if !priceOk {
        return false;
      }
      if info[original].IsOver() {
        return false;
      }
      Emplace(changed);
      if !sendOk {
        orderHash := orderHash - {requestIdGenerator};
        return false;
      }
      return true;
    }

    /** Whether a request to cancel goes out; nothing changes until the exchange answers. */
    method SendCancel(id: uint32, sendOk: bool) returns (sent: bool)
      requires id in info
      ensures sent == CancelSent(State(), id, sendOk)
    {
      if info[id].IsOver() {
        return false;
      }
      return sendOk;
    }

    method HandleOrder(id: uint32, condition: Condition, openSize: uint32) returns (calls: seq<Callback>)
      modifies this
      ensures (State(), calls) == OnOrder(old(State()), id, condition, openSize)
    {
      if id !in orderHash || id !in info {
        return [];
      }
      var o := info[id].(condition := condition, openSize := openSize);
      var erase := false;
      calls := [];
      match condition {
        case New =>
          if o.onAcknowledgement {
            o := o.(stage := Acknowledged, isAcknowledged := true);
            calls := [Acked(o.requestId, true)];
          }
        case OrderDone =>
          if o.onDone {
            o := o.(stage := Done);
            calls := [DoneSeen(o.requestId)];
          }
          erase := true;
        case Canceled =>
          if o.onCancel {
            o := o.(stage := Cancelled, cancelStage := CancelDone);
            calls := [CancelSeen(o.requestId, true)];
          }
          erase := true;
        case CancelRejected =>
          if o.onCancel {
            o := o.(cancelStage := CancelFailed);
            calls := [CancelSeen(o.requestId, false)];
          }
        case TooLateToCancel =>
          if o.onCancel {
            o := o.(cancelStage := CancelFailed);
            calls := [CancelSeen(o.requestId, false)];
          }
        case Changed =>
          if o.onChange {
            calls := [ChangeSeen(o.requestId, true)];
          }
          erase := true;
        case ChangeRejected =>
          if o.onChange {
            calls := [ChangeSeen(o.requestId, false)];
          }
        case PendingNew =>
        case Partial =>
        case PendingChange =>
        case GatewayThrottle =>
        case _ =>
          if o.onAcknowledgement {
            o := o.(stage := Failed, isAcknowledged := false);
            calls := [Acked(o.requestId, false)];
          }
          erase := true;
      }
      info := info[id := o];
      if erase {
        orderHash := orderHash - {if condition.Changed? then id else o.requestId};
      }
    }

    method HandleFill(id: uint32, size: uint32, openSize: uint32) returns (calls: seq<Callback>)
      modifies this
      ensures (State(), calls) == OnFill(old(State()), id, size, openSize)
    {
      calls := [];
      if id in orderHash && id in info {
        if openSize == 0 {
          info := info[id := info[id].(stage := Filled)];
        } else {
          info := info[id := info[id]];
        }
        if info[id].onFill {
          calls := [FillSeen(id, size)];
        }
      }
    }

    method HandleOrderCancel(id: uint32)
      modifies this
      ensures State() == OnOrderCancel(old(State()), id)
    {
      if id in orderHash && id in info {
        info := info[id := info[id].(stage := Cancelled)];
      }
    }

    method HandleOrderChange(id: uint32, unknown: bool)
      modifies this
      ensures State() == OnOrderChange(old(State()), id, unknown)
    {
      if id in orderHash && id in info && unknown {
        info := info[id := info[id].(stage := Failed)];
      }
    }
  }
}
