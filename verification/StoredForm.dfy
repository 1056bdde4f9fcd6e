/**
 Stored records to the letter: the text that is written, and field by field what is
 read back after any sequence of updates.
 */
module StoredForm {
  import opened Options
  import opened StoredRecords

  // --------------------------------------------------------- the text as written

  lemma TwoParts(a: string, b: string)
    ensures Join([a, b], ',') == a + "," + b
  {
    assert [a, b][1..] == [b];
    assert a + [','] + b == a + "," + b;
  }

  lemma JoinStep(a: string, parts: seq<string>)
    requires parts != []
    ensures Join([a] + parts, ',') == a + "," + Join(parts, ',')
  {
    hide Find;
    assert ([a] + parts)[1..] == parts;
  }

  /** The value stored for a position: fifteen fields, of which six are always the same. */
  lemma PositionText(user: string, symbol: string, quantity: string, price: string, rif: string, pif: string,
                     buy: string, sell: string, total: string)
    ensures Format(Equity(user, symbol, quantity, price, rif, pif, buy, sell, total))
            == "EQUITY,," + user + "," + symbol + "," + symbol + ",,," + quantity + ",,"
               + (price + "," + rif + "," + pif + "," + buy + "," + sell + "," + total)
  {
    hide Join, Format;
    var p := Equity(user, symbol, quantity, price, rif, pif, buy, sell, total);
    var tail := [price, rif, pif, buy, sell, total];
    FormatIsJoin(p);
    PositionTail(price, rif, pif, buy, sell, total);
    PositionMiddle(symbol, quantity, tail);
    PositionHead(user, [symbol, symbol, "", "", quantity, ""] + tail);
    assert Fields(p) == ["EQUITY", "", user] + ([symbol, symbol, "", "", quantity, ""] + tail);
    assert "EQUITY,," + user + "," + (symbol + "," + symbol + ",,," + quantity + ",,")
           == "EQUITY,," + user + "," + symbol + "," + symbol + ",,," + quantity + ",,";
  }

  lemma PositionHead(user: string, tail: seq<string>)
    requires tail != []
    ensures Join(["EQUITY", "", user] + tail, ',') == "EQUITY,," + user + "," + Join(tail, ',')
  {
    hide Join;
    JoinStep(user, tail);
    JoinStep("", [user] + tail);
    JoinStep("EQUITY", [""] + ([user] + tail));
    assert ["EQUITY", "", user] + tail == ["EQUITY"] + ([""] + ([user] + tail));
  }

  lemma PositionMiddle(symbol: string, quantity: string, tail: seq<string>)
    requires tail != []
    ensures Join([symbol, symbol, "", "", quantity, ""] + tail, ',')
            == symbol + "," + symbol + ",,," + quantity + ",," + Join(tail, ',')
  {
    hide Join;
    JoinStep("", tail);
    JoinStep(quantity, [""] + tail);
    var t1 := [quantity] + ([""] + tail);
    JoinStep("", t1);
    JoinStep("", [""] + t1);
    var t2 := [""] + ([""] + t1);
    JoinStep(symbol, t2);
    JoinStep(symbol, [symbol] + t2);
    assert [symbol, symbol, "", "", quantity, ""] + tail == [symbol] + ([symbol] + t2);
  }

  lemma FormatIsJoin(p: Position)
    ensures Format(p) == Join(Fields(p), ',')
  {
  }

  lemma PositionTail(price: string, rif: string, pif: string, buy: string, sell: string, total: string)
    ensures Join([price, rif, pif, buy, sell, total], ',')
            == price + "," + rif + "," + pif + "," + buy + "," + sell + "," + total
  {
    hide Join;
    TwoParts(sell, total);
    JoinStep(buy, [sell, total]);
    var t1 := [pif] + ([buy] + [sell, total]);
    JoinStep(pif, [buy] + [sell, total]);
    JoinStep(rif, t1);
    JoinStep(price, [rif] + t1);
    assert [price, rif, pif, buy, sell, total] == [price] + ([rif] + t1);
  }

  /** The value stored for an order. */
  lemma OrderText(symbol: string, size: string, price: string, side: string,
                  execTime: string, ackTime: string, changeTime: string, cancelTime: string)
    ensures FormatOrder(OrderRecord(symbol, size, price, side, execTime, ackTime, changeTime, cancelTime))
            == symbol + "," + size + "," + price + "," + side + ","
               + execTime + "," + ackTime + "," + changeTime + "," + cancelTime
  {
    hide Join;
    var t1 := [changeTime, cancelTime];
    TwoParts(changeTime, cancelTime);
    JoinStep(ackTime, t1);
    var t2 := [execTime] + ([ackTime] + t1);
    JoinStep(execTime, [ackTime] + t1);
    JoinStep(side, t2);
    var t3 := [price] + ([side] + t2);
    JoinStep(price, [side] + t2);
    JoinStep(size, t3);
    JoinStep(symbol, [size] + t3);
    assert OrderFields(OrderRecord(symbol, size, price, side, execTime, ackTime, changeTime, cancelTime))
           == [symbol] + ([size] + t3);
  }

  /** Records of the two older forms are read with the missing fields empty and nothing live. */
  lemma OlderRecords(f: seq<string>)
    requires |f| == 10 || |f| == 12
    requires forall s :: s in f ==> CommaFree(s)
    ensures var p := ParsePosition(Join(f, ','));
            && p.Some?
            && p.value.account == f[2] && p.value.underlier == f[3] && p.value.quantity == f[7] && p.value.price == f[9]
            && p.value.rif == (if |f| == 12 then f[10] else "") && p.value.pif == (if |f| == 12 then f[11] else "")
            && p.value.liveBuy == "0" && p.value.liveSell == "0" && p.value.totalExecuted == "0"
  {
    hide Split, Join;
    SplitJoin(f, ',');
  }

  /**
   Where nothing is stored, live shares start a record of no position under their key;
   an update of the round or the price in force writes nothing.
   */
  lemma StartedText(store: Store, user: string, symbol: string, u: PositionUpdate)
    requires ':' !in user && ':' !in symbol && Get(store, user + ":" + symbol) == MISSING
    ensures var key := user + ":" + symbol;
            && Handled(store, key, u)
            && UpdatePosition(store, key, u)
               == if u.SetLive?
                  then (store[key := "EQUITY,," + user + "," + symbol + "," + symbol + ",,,0,,"
                                     + ("0,0,0," + u.buy + "," + u.sell + "," + u.total)], true)
                  else (store, false)
  {
    hide Format, Split, Join;
    if u.SetLive? {
      SplitJoin([user, symbol], ':');
      TwoPartsOfKey(user, symbol);
      PositionText(user, symbol, "0", "0", "0", "0", u.buy, u.sell, u.total);
      Zeros("EQUITY,," + user + "," + symbol + "," + symbol);
    }
  }

  lemma Zeros(start: string)
    ensures start + ",,," + "0" + ",," == start + ",,,0,,"
    ensures "0" + "," + "0" + "," + "0" + "," == "0,0,0,"
  {
  }

  lemma TwoPartsOfKey(user: string, symbol: string)
    ensures Join([user, symbol], ':') == user + ":" + symbol
  {
    assert [user, symbol][1..] == [symbol];
    assert user + [':'] + symbol == user + ":" + symbol;
  }

  // ------------------------------------------------------ fields after updates

  /** The last value written for a part, or what was there before. */
  function LatestRif(us: seq<PositionUpdate>, before: string): string {
    if us == [] then before
    else
      var u := us[|us| - 1];
      if u.SetRif? then u.rif else LatestRif(us[..|us| - 1], before)
  }

  function LatestPif(us: seq<PositionUpdate>, before: string): string {
    if us == [] then before
    else
      var u := us[|us| - 1];
      if u.SetPif? then u.pif else LatestPif(us[..|us| - 1], before)
  }

  function LatestLive(us: seq<PositionUpdate>, before: (string, string, string)): (string, string, string) {
    if us == [] then before
    else
      var u := us[|us| - 1];
      if u.SetLive? then (u.buy, u.sell, u.total) else LatestLive(us[..|us| - 1], before)
  }

  lemma {:induction false} UpdatedFields(p: Position, us: seq<PositionUpdate>)
    ensures var q, live := UpdatedAll(p, us), LatestLive(us, (p.liveBuy, p.liveSell, p.totalExecuted));
            q == p.(rif := LatestRif(us, p.rif), pif := LatestPif(us, p.pif),
                    liveBuy := live.0, liveSell := live.1, totalExecuted := live.2)
    decreases |us|
  {
    if us == [] {
    } else {
      UpdatedFields(p, us[..|us| - 1]);
    }
  }

  /**
   After any sequence of updates of a stored position, what is read back has the round
   in force, the price in force and the live shares that were written last, and every
   other field as it was.
   */
  lemma FieldsAfterUpdates(store: Store, p: Position, us: seq<PositionUpdate>)
    requires Holds(store, p) && forall u :: u in us ==> CommaFreeUpdate(u)
    ensures var key := p.account + ":" + p.underlier;
            match UpdateAll(store, key, us)
            case None => false
            case Some(after) =>
              && (forall k :: k != key ==> (k in after <==> k in store) && (k in store ==> after[k] == store[k]))
              && match ParsePosition(Get(after, key))
                 case None => false
                 case Some(q) =>
                   && q.rif == LatestRif(us, p.rif) && q.pif == LatestPif(us, p.pif)
                   && (q.liveBuy, q.liveSell, q.totalExecuted)
                      == LatestLive(us, (p.liveBuy, p.liveSell, p.totalExecuted))
                   && q.kind == p.kind && q.reserved == p.reserved && q.account == p.account
                   && q.underlier == p.underlier && q.root == p.root && q.expiration == p.expiration
                   && q.strike == p.strike && q.quantity == p.quantity && q.putOrCall == p.putOrCall
                   && q.price == p.price
  {
    hide Format, ParsePosition, UpdateAll, Holds, CommaFreeUpdate, UpdatedAll, LatestRif, LatestPif, LatestLive;
    UpdatesCompose(store, p, us);
    UpdatedFields(p, us);
  }

  function LatestExec(us: seq<OrderUpdate>, before: string): string {
    if us == [] then before
    else if us[|us| - 1].SetExecTime? then us[|us| - 1].t else LatestExec(us[..|us| - 1], before)
  }

  function LatestChange(us: seq<OrderUpdate>, before: string): string {
    if us == [] then before
    else if us[|us| - 1].SetChangeTime? then us[|us| - 1].t else LatestChange(us[..|us| - 1], before)
  }

  function LatestCancel(us: seq<OrderUpdate>, before: string): string {
    if us == [] then before
    else if us[|us| - 1].SetCancelTime? then us[|us| - 1].t else LatestCancel(us[..|us| - 1], before)
  }

  lemma {:induction false} UpdatedTimes(o: OrderRecord, us: seq<OrderUpdate>)
    ensures UpdatedOrderAll(o, us) == o.(execTime := LatestExec(us, o.execTime),
                                         changeTime := LatestChange(us, o.changeTime),
                                         cancelTime := LatestCancel(us, o.cancelTime))
    decreases |us|
  {
    if us == [] {
    } else {
      UpdatedTimes(o, us[..|us| - 1]);
    }
  }

  /**
   After any sequence of time updates of a stored order, what is read back has each
   time as it was written last, and every other field as it was.
   */
  lemma TimesAfterUpdates(store: Store, user: string, requestId: string, o: OrderRecord, us: seq<OrderUpdate>)
    requires Get(store, user + "," + requestId) == FormatOrder(o) && CommaFreeOrder(o)
    requires forall u :: u in us ==> CommaFree(u.t)
    ensures var key := user + "," + requestId;
            match UpdateOrderAll(store, key, us)
            case None => false
            case Some(after) =>
              && (forall k :: k != key ==> (k in after <==> k in store) && (k in store ==> after[k] == store[k]))
              && match ParseOrder(Get(after, key))
                 case None => false
                 case Some(q) =>
                   && q.execTime == LatestExec(us, o.execTime) && q.changeTime == LatestChange(us, o.changeTime)
                   && q.cancelTime == LatestCancel(us, o.cancelTime)
                   && q.symbol == o.symbol && q.size == o.size && q.price == o.price && q.side == o.side
                   && q.ackTime == o.ackTime
  {
    hide FormatOrder, ParseOrder, UpdateOrderAll, CommaFreeOrder, UpdatedOrderAll, LatestExec, LatestChange,
         LatestCancel;
    OrderUpdatesCompose(store, user + "," + requestId, o, us);
    UpdatedTimes(o, us);
  }

  /** Positions are stored under user and symbol with a colon, orders under user and request id with a comma. */
  lemma Keys(user: string, symbol: string, requestId: string, p: Position, store: Store)
    ensures PositionKey(user, symbol) == user + ":" + symbol && OrderKey(user, requestId) == user + "," + requestId
    ensures PutPosition(store, p) == store[p.account + ":" + p.underlier := Format(p)]
  {
    hide Format;
  }
}
