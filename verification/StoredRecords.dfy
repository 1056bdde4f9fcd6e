/**
 The records the program keeps as comma-separated values: reading back what was
 written, and updates that change one part and keep the rest.
 */
module StoredRecords {
  import opened Options

  const MISSING := "**nonexistent-key**"

  // ------------------------------------------------------- joining and splitting

  function Find(s: string, c: char): (k: nat)
    ensures k <= |s| && c !in s[..k] && (k < |s| ==> s[k] == c)
  {
    if s == "" || s[0] == c then 0 else 1 + Find(s[1..], c)
  }

  function Split(s: string, c: char): (parts: seq<string>)
    ensures parts != []
    decreases |s|
  {
    var k := Find(s, c);
    if k == |s| then [s] else [s[..k]] + Split(s[k + 1..], c)
  }

  function Join(parts: seq<string>, c: char): string {
    if parts == [] then "" else if |parts| == 1 then parts[0] else parts[0] + [c] + Join(parts[1..], c)
  }

  lemma {:induction false} SplitIsFree(s: string, c: char)
    ensures forall p :: p in Split(s, c) ==> c !in p
    decreases |s|
  {
    var k := Find(s, c);
    if k < |s| {
      SplitIsFree(s[k + 1..], c);
    } else {
      assert s[..k] == s;
    }
  }

  lemma {:induction false} FindAppend(a: string, b: string, c: char)
    requires c !in a && b != "" && b[0] == c
    ensures Find(a + b, c) == |a|
  {
    if a == "" {
      assert a + b == b;
    } else {
      assert (a + b)[1..] == a[1..] + b;
      FindAppend(a[1..], b, c);
    }
  }

  lemma {:induction false} FindNone(s: string, c: char)
    requires c !in s
    ensures Find(s, c) == |s|
  {
    if s == "" {
    } else {
      FindNone(s[1..], c);
    }
  }

  lemma {:induction false} SplitJoin(parts: seq<string>, c: char)
    requires parts != [] && forall p :: p in parts ==> c !in p
    ensures Split(Join(parts, c), c) == parts
  {
    hide Find;
    if |parts| == 1 {
      FindNone(parts[0], c);
    } else {
      var rest := Join(parts[1..], c);
      assert Join(parts, c) == parts[0] + ([c] + rest);
      FindAppend(parts[0], [c] + rest, c);
      assert Join(parts, c)[..|parts[0]|] == parts[0] && Join(parts, c)[|parts[0]| + 1..] == rest;
      SplitJoin(parts[1..], c);
      assert parts == [parts[0]] + parts[1..];
    }
  }

  // ------------------------------------------------------------------ positions

  datatype Position = Position(
    kind: string, reserved: string, account: string, underlier: string, root: string, expiration: string,
    strike: string, quantity: string, putOrCall: string, price: string, rif: string, pif: string,
    liveBuy: string, liveSell: string, totalExecuted: string)

  function Fields(p: Position): seq<string> {
    [p.kind, p.reserved, p.account, p.underlier, p.root, p.expiration, p.strike, p.quantity, p.putOrCall, p.price,
     p.rif, p.pif, p.liveBuy, p.liveSell, p.totalExecuted]
  }

  /** The record that is written for a user's position in a symbol. */
  function Equity(user: string, symbol: string, quantity: string, price: string, rif: string, pif: string,
                  liveBuy: string, liveSell: string, totalExecuted: string): Position {
    Position("EQUITY", "", user, symbol, symbol, "", "", quantity, "", price, rif, pif, liveBuy, liveSell,
             totalExecuted)
  }

  /** The fields, separated by commas. */
  function Format(p: Position): string {
    Join(Fields(p), ',')
  }

  /** Records of 10, of 12 and of at least 15 fields can be read; for other numbers the program reads past the end. */
  function ParsePosition(value: string): Option<Position> {
    var f := Split(value, ',');
    if |f| == 10 then
      Some(Position(f[0], f[1], f[2], f[3], f[4], f[5], f[6], f[7], f[8], f[9], "", "", "0", "0", "0"))
    else if |f| == 12 then
      Some(Position(f[0], f[1], f[2], f[3], f[4], f[5], f[6], f[7], f[8], f[9], f[10], f[11], "0", "0", "0"))
    else if |f| >= 15 then
      Some(Position(f[0], f[1], f[2], f[3], f[4], f[5], f[6], f[7], f[8], f[9], f[10], f[11], f[12], f[13], f[14]))
    else None
  }

  predicate CommaFree(s: string) {
    ',' !in s
  }

  predicate CommaFreePosition(p: Position) {
    forall s :: s in Fields(p) ==> CommaFree(s)
  }

  /**
   Reading back a written record gives every field if and only if no field
   contains a comma.
   */
  lemma PositionRoundTrip(p: Position)
    ensures ParsePosition(Format(p)) == Some(p) <==> CommaFreePosition(p)
  {
    hide Split, Join;
    if CommaFreePosition(p) {
      SplitJoin(Fields(p), ',');
    }
    var f := Split(Format(p), ',');
    SplitIsFree(Format(p), ',');
    JoinHasAllParts(Fields(p), ',');
    if ParsePosition(Format(p)) == Some(p) {
      assert Fields(p) == f[..15];
    }
  }

  lemma {:induction false} SplitAppend(a: string, b: string, c: char)
    ensures |Split(a + [c] + b, c)| == |Split(a, c)| + |Split(b, c)|
    decreases |a|
  {
    hide Find;
    var k := Find(a, c);
    if k == |a| {
      FindAppend(a, [c] + b, c);
      assert a + [c] + b == a + ([c] + b) && (a + [c] + b)[|a| + 1..] == b;
    } else {
      var rest := a[k + 1..];
      FindAppend(a[..k], a[k..] + [c] + b, c);
      assert a + [c] + b == a[..k] + (a[k..] + [c] + b);
      assert (a + [c] + b)[k + 1..] == rest + [c] + b;
      SplitAppend(rest, b, c);
    }
  }

  /** Splitting finds at least as many parts as were joined. */
  lemma {:induction false} JoinHasAllParts(parts: seq<string>, c: char)
    requires parts != []
    ensures |Split(Join(parts, c), c)| >= |parts|
  {
    hide Split;
    if |parts| <= 1 {
    } else {
      JoinHasAllParts(parts[1..], c);
      SplitAppend(parts[0], Join(parts[1..], c), c);
    }
  }

  // -------------------------------------------------------------- order records

  datatype OrderRecord = OrderRecord(symbol: string, size: string, price: string, side: string,
                                     execTime: string, ackTime: string, changeTime: string, cancelTime: string)

  function OrderFields(o: OrderRecord): seq<string> {
    [o.symbol, o.size, o.price, o.side, o.execTime, o.ackTime, o.changeTime, o.cancelTime]
  }

  function FormatOrder(o: OrderRecord): string {
    Join(OrderFields(o), ',')
  }

  /** Records of at least 8 fields can be read. */
  function ParseOrder(value: string): Option<OrderRecord> {
    var f := Split(value, ',');
    if |f| >= 8 then Some(OrderRecord(f[0], f[1], f[2], f[3], f[4], f[5], f[6], f[7])) else None
  }

  predicate CommaFreeOrder(o: OrderRecord) {
    forall s :: s in OrderFields(o) ==> CommaFree(s)
  }

  lemma OrderRoundTrip(o: OrderRecord)
    ensures ParseOrder(FormatOrder(o)) == Some(o) <==> CommaFreeOrder(o)
  {
    hide Split, Join;
    if CommaFreeOrder(o) {
      SplitJoin(OrderFields(o), ',');
    }
    var f := Split(FormatOrder(o), ',');
    SplitIsFree(FormatOrder(o), ',');
    JoinHasAllParts(OrderFields(o), ',');
    if ParseOrder(FormatOrder(o)) == Some(o) {
      assert OrderFields(o) == f[..8];
    }
  }

  // ------------------------------------------------------------------ the store

  type Store = map<string, string>

  function Get(store: Store, key: string): string {
    if key in store then store[key] else MISSING
  }

  function PositionKey(user: string, symbol: string): string {
    user + ":" + symbol
  }

  function OrderKey(user: string, requestId: string): string {
    user + "," + requestId
  }

  function PutPosition(store: Store, p: Position): Store {
    store[PositionKey(p.account, p.underlier) := Format(p)]
  }

  /** The part of a position record that an update replaces. */
  datatype PositionUpdate = SetRif(rif: string) | SetPif(pif: string)
                          | SetLive(buy: string, sell: string, total: string)

  function Updated(p: Position, u: PositionUpdate): Position {
    match u
    case SetRif(rif) => p.(rif := rif)
    case SetPif(pif) => p.(pif := pif)
    case SetLive(buy, sell, total) => p.(liveBuy := buy, liveSell := sell, totalExecuted := total)
  }

  /** An update rewrites the record from the fields it has read; kind and unused fields are written anew. */
  function Rewritten(p: Position, u: PositionUpdate): Position {
    var q := Updated(p, u);
    Equity(q.account, q.underlier, q.quantity, q.price, q.rif, q.pif, q.liveBuy, q.liveSell, q.totalExecuted)
  }

  /** What is written where no record is found: nothing, except that live shares start a new record. */
  function Started(store: Store, key: string, u: PositionUpdate): (Store, bool)
    requires u.SetLive? ==> |Split(key, ':')| >= 2
  {
    if u.SetLive? then
      var parts := Split(key, ':');
      (PutPosition(store, Equity(parts[0], parts[1], "0", "0", "0", "0", u.buy, u.sell, u.total)), true)
    else (store, false)
  }

  /** The program can handle the key and what is stored under it. */
  predicate Handled(store: Store, key: string, u: PositionUpdate) {
    if Get(store, key) == MISSING then u.SetLive? ==> |Split(key, ':')| >= 2
    else ParsePosition(Get(store, key)).Some?
  }

  function UpdatePosition(store: Store, key: string, u: PositionUpdate): (Store, bool)
    requires Handled(store, key, u)
  {
    if Get(store, key) == MISSING then Started(store, key, u)
    else (PutPosition(store, Rewritten(ParsePosition(Get(store, key)).value, u)), true)
  }

  datatype OrderUpdate = SetExecTime(t: string) | SetChangeTime(t: string) | SetCancelTime(t: string)

  function UpdatedOrder(o: OrderRecord, u: OrderUpdate): OrderRecord {
    match u
    case SetExecTime(t) => o.(execTime := t)
    case SetChangeTime(t) => o.(changeTime := t)
    case SetCancelTime(t) => o.(cancelTime := t)
  }

  predicate HandledOrder(store: Store, key: string) {
    Get(store, key) == MISSING || ParseOrder(Get(store, key)).Some?
  }

  function UpdateOrder(store: Store, key: string, u: OrderUpdate): (Store, bool)
    requires HandledOrder(store, key)
  {
    if Get(store, key) == MISSING then (store, false)
    else (store[key := FormatOrder(UpdatedOrder(ParseOrder(Get(store, key)).value, u))], true)
  }

  class RedisWriter {
    const isRedisEnabled: bool
    var store: Store

    constructor (isRedisEnabled: bool)
      ensures this.isRedisEnabled == isRedisEnabled && store == map[]
    {
      this.isRedisEnabled, store := isRedisEnabled, map[];
    }

    function ReadKey(key: string): (value: string)
      reads this
      ensures value == if isRedisEnabled then Get(store, key) else MISSING
    {
      if isRedisEnabled then Get(store, key) else MISSING
    }

    method WriteToRedis(user: string, symbol: string, quantity: string, price: string, rif: string, pif: string,
                        liveBuy: string, liveSell: string, totalExecuted: string) returns (ok: bool)
      modifies this
      ensures ok == isRedisEnabled
      ensures store == if ok
                       then PutPosition(old(store),
                           Equity(user, symbol, quantity, price, rif, pif, liveBuy, liveSell, totalExecuted))
                       else old(store)
    {
      hide Join;
      if !isRedisEnabled {
        return false;
      }
      var p := Equity(user, symbol, quantity, price, rif, pif, liveBuy, liveSell, totalExecuted);
      store := store[PositionKey(user, symbol) := Format(p)];
      return true;
    }

    /** `writeRIFToRedis`, `writePIFToRedis` and `writeLiveSharesInfo`. */
    method WriteUpdate(key: string, u: PositionUpdate) returns (ok: bool)
      requires Handled(store, key, u)
      modifies this
      ensures (store, ok) == if isRedisEnabled then UpdatePosition(old(store), key, u) else (old(store), false)
    {
      hide Split, Format, ParsePosition;
      if !isRedisEnabled {
        return false;
      }
      var result := ReadKey(key);
      if result == MISSING {
        if u.SetLive? {
          var parts := Split(key, ':');
          ok := WriteToRedis(parts[0], parts[1], "0", "0", "0", "0", u.buy, u.sell, u.total);
          return ok;
        }
        return false;
      }
      var p := ParsePosition(result).value;
      var done;
      match u {
        case SetRif(rif) =>
          done := WriteToRedis(p.account, p.underlier, p.quantity, p.price, rif, p.pif, p.liveBuy, p.liveSell,
                               p.totalExecuted);
        case SetPif(pif) =>
          done := WriteToRedis(p.account, p.underlier, p.quantity, p.price, p.rif, pif, p.liveBuy, p.liveSell,
                               p.totalExecuted);
        case SetLive(buy, sell, total) =>
          done := WriteToRedis(p.account, p.underlier, p.quantity, p.price, p.rif, p.pif, buy, sell, total);
      }
      return true;
    }

    method WriteOrderInfo(user: string, requestId: string, o: OrderRecord) returns (ok: bool)
      modifies this
      ensures ok == isRedisEnabled
      ensures store == if ok then old(store)[OrderKey(user, requestId) := FormatOrder(o)] else old(store)
    {
      if isRedisEnabled {
        store := store[OrderKey(user, requestId) := FormatOrder(o)];
      }
      return isRedisEnabled;
    }

    /** `updateOrderExecTime`, `updateOrderChangeTime` and `updateOrderCancleTime`. */
    method WriteOrderTime(user: string, requestId: string, u: OrderUpdate) returns (ok: bool)
      requires HandledOrder(store, OrderKey(user, requestId))
      modifies this
      ensures (store, ok) == if isRedisEnabled then UpdateOrder(old(store), OrderKey(user, requestId), u)
              else (old(store), false)
    {
      hide FormatOrder, ParseOrder;
      if !isRedisEnabled {
        return false;
      }
      var result := ReadKey(OrderKey(user, requestId));
      if result == MISSING {
        return false;
      }
      var o := ParseOrder(result).value;
      var done;
      match u {
        case SetExecTime(t) => done := WriteOrderInfo(user, requestId, o.(execTime := t));
        case SetChangeTime(t) => done := WriteOrderInfo(user, requestId, o.(changeTime := t));
        case SetCancelTime(t) => done := WriteOrderInfo(user, requestId, o.(cancelTime := t));
      }
      return true;
    }
  }

  // -------------------------------------------------------------- update results

  predicate CommaFreeUpdate(u: PositionUpdate) {
    match u
    case SetRif(rif) => CommaFree(rif)
    case SetPif(pif) => CommaFree(pif)
    case SetLive(buy, sell, total) => CommaFree(buy) && CommaFree(sell) && CommaFree(total)
  }

  /** A record as the program writes it, stored under its own key. */
  predicate Holds(store: Store, p: Position) {
    && Get(store, PositionKey(p.account, p.underlier)) == Format(p)
    && CommaFreePosition(p)
    && p == Equity(p.account, p.underlier, p.quantity, p.price, p.rif, p.pif, p.liveBuy, p.liveSell, p.totalExecuted)
  }

  lemma FormatIsNotMissing(p: Position)
    requires p.kind == "EQUITY"
    ensures Format(p) != MISSING
  {
    hide Join;
    JoinStarts(Fields(p), ',');
    assert Format(p)[0] == Format(p)[..|p.kind|][0] == 'E' && MISSING[0] == '*';
  }

  lemma JoinStarts(parts: seq<string>, c: char)
    requires parts != []
    ensures |parts[0]| <= |Join(parts, c)| && Join(parts, c)[..|parts[0]|] == parts[0]
  {
  }

  /** An update replaces its own part of the record, keeps all other fields, and touches no other key. */
  lemma UpdateChangesItsPart(store: Store, p: Position, u: PositionUpdate)
    requires Holds(store, p) && CommaFreeUpdate(u)
    ensures var key := PositionKey(p.account, p.underlier);
            && Handled(store, key, u)
            && var (store', ok) := UpdatePosition(store, key, u);
               ok && Holds(store', Updated(p, u)) && store' == store[key := Format(Updated(p, u))]
  {
    hide Format, ParsePosition;
    PositionRoundTrip(p);
    FormatIsNotMissing(p);
  }

  function UpdatedAll(p: Position, us: seq<PositionUpdate>): Position {
    if us == [] then p else Updated(UpdatedAll(p, us[..|us| - 1]), us[|us| - 1])
  }

  /** The store after a sequence of updates under one key. */
  function UpdateAll(store: Store, key: string, us: seq<PositionUpdate>): Option<Store> {
    if us == [] then Some(store)
    else match UpdateAll(store, key, us[..|us| - 1])
      case None => None
      case Some(before) =>
        if Handled(before, key, us[|us| - 1]) then Some(UpdatePosition(before, key, us[|us| - 1]).0) else None
  }

  /** After any sequence of updates the stored record is the original with exactly those parts replaced. */
  lemma {:induction false} UpdatesCompose(store: Store, p: Position, us: seq<PositionUpdate>)
    requires Holds(store, p) && forall u :: u in us ==> CommaFreeUpdate(u)
    ensures var key, q := PositionKey(p.account, p.underlier), UpdatedAll(p, us);
            && q.account == p.account && q.underlier == p.underlier
            && q.quantity == p.quantity && q.price == p.price
            && UpdateAll(store, key, us) == Some(store[key := Format(q)])
            && Holds(store[key := Format(q)], q) && ParsePosition(Get(store[key := Format(q)], key)) == Some(q)
    decreases |us|
  {
    hide Format, ParsePosition, CommaFreeUpdate, Handled, UpdatePosition;
    var key := PositionKey(p.account, p.underlier);
    PositionRoundTrip(UpdatedAll(p, us));
    if us == [] {
      assert key in store by { FormatIsNotMissing(p); }
      assert store[key := Format(p)] == store;
    } else {
      var q := UpdatedAll(p, us[..|us| - 1]);
      UpdatesCompose(store, p, us[..|us| - 1]);
      var q' := Updated(q, us[|us| - 1]);
      UpdateChangesItsPart(store[key := Format(q)], q, us[|us| - 1]);
      assert store[key := Format(q)][key := Format(q')] == store[key := Format(q')];
    }
  }

  /**
   Live shares written where nothing is stored start a record that is found again if and only if the
   key has one colon.
   */
  lemma StartedRecordIsFound(store: Store, key: string, buy: string, sell: string, total: string)
    requires Get(store, key) == MISSING && |Split(key, ':')| >= 2
    ensures var (store', ok) := Started(store, key, SetLive(buy, sell, total));
            ok && (Get(store', key) != MISSING <==> |Split(key, ':')| == 2)
  {
    hide Format, Join;
    var parts := Split(key, ':');
    var p := Equity(parts[0], parts[1], "0", "0", "0", "0", buy, sell, total);
    FormatIsNotMissing(p);
    SplitKey(key);
  }

  lemma SplitKey(key: string)
    ensures var parts := Split(key, ':');
            |parts| >= 2 ==> (|parts| == 2 <==> key == PositionKey(parts[0], parts[1]))
  {
    var k := Find(key, ':');
    if k < |key| {
      var rest := key[k + 1..];
      assert key == key[..k] + ":" + rest;
      var j := Find(rest, ':');
      if j < |rest| {
        assert |PositionKey(key[..k], rest[..j])| < |key|;
      }
    }
  }

  /** Updating one time of an order keeps all its other fields, and touches no other key. */
  lemma OrderUpdateChangesItsPart(store: Store, key: string, o: OrderRecord, u: OrderUpdate)
    requires Get(store, key) == FormatOrder(o) && CommaFreeOrder(o) && CommaFree(u.t)
    ensures HandledOrder(store, key)
    ensures var (store', ok) := UpdateOrder(store, key, u);
            && ok && store' == store[key := FormatOrder(UpdatedOrder(o, u))]
            && ParseOrder(Get(store', key)) == Some(UpdatedOrder(o, u)) && CommaFreeOrder(UpdatedOrder(o, u))
  {
    hide FormatOrder, ParseOrder;
    OrderRoundTrip(o);
    OrderRoundTrip(UpdatedOrder(o, u));
    OrderIsNotMissing(o);
  }

  function UpdatedOrderAll(o: OrderRecord, us: seq<OrderUpdate>): OrderRecord {
    if us == [] then o else UpdatedOrder(UpdatedOrderAll(o, us[..|us| - 1]), us[|us| - 1])
  }

  function UpdateOrderAll(store: Store, key: string, us: seq<OrderUpdate>): Option<Store> {
    if us == [] then Some(store)
    else match UpdateOrderAll(store, key, us[..|us| - 1])
      case None => None
      case Some(before) => if HandledOrder(before, key) then Some(UpdateOrder(before, key, us[|us| - 1]).0) else None
  }

  /** After any sequence of time updates the stored order is the original with exactly those times replaced. */
  lemma {:induction false} OrderUpdatesCompose(store: Store, key: string, o: OrderRecord, us: seq<OrderUpdate>)
    requires Get(store, key) == FormatOrder(o) && CommaFreeOrder(o) && forall u :: u in us ==> CommaFree(u.t)
    ensures var q := UpdatedOrderAll(o, us);
            && q == o.(execTime := q.execTime, changeTime := q.changeTime, cancelTime := q.cancelTime)
            && UpdateOrderAll(store, key, us) == Some(store[key := FormatOrder(q)])
            && CommaFreeOrder(q) && ParseOrder(Get(store[key := FormatOrder(q)], key)) == Some(q)
    decreases |us|
  {
    hide FormatOrder, ParseOrder, CommaFree, HandledOrder, UpdateOrder, CommaFreeOrder;
    OrderRoundTrip(o);
    if us == [] {
      assert key in store by { OrderIsNotMissing(o); }
      assert store[key := FormatOrder(o)] == store;
    } else {
      var q := UpdatedOrderAll(o, us[..|us| - 1]);
      OrderUpdatesCompose(store, key, o, us[..|us| - 1]);
      OrderUpdateChangesItsPart(store[key := FormatOrder(q)], key, q, us[|us| - 1]);
      var q' := UpdatedOrder(q, us[|us| - 1]);
      assert store[key := FormatOrder(q)][key := FormatOrder(q')] == store[key := FormatOrder(q')];
    }
  }

  lemma OrderIsNotMissing(o: OrderRecord)
    ensures FormatOrder(o) != MISSING
  {
    hide Split, Join;
    JoinHasAllParts(OrderFields(o), ',');
    FindNone(MISSING, ',');
    assert |Split(MISSING, ',')| == 1 by { SplitOfOne(MISSING, ','); }
  }

  lemma SplitOfOne(s: string, c: char)
    requires Find(s, c) == |s|
    ensures |Split(s, c)| == 1
  {
  }
}
