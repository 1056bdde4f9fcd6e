/**
 The long and the short account of one symbol: what open and close fills do to
 position, average and spread, beside the position table each account feeds.
 */
module TradeAccounts {
  import opened Ledger
  import opened PositionTable
  import Runs = LedgerRuns

  datatype Account = Account(
    isLong: bool, divisor: uint32, maxPos: uint32,
    total: int, average: real, spread: real, lastOpenPrice: real, lastClosePrice: real,
    pif: real, tranchCounter: uint32, table: Table)
  {
    function Position(): int {
      total * divisor
    }
  }

  function Abs(x: real): real {
    if x < 0.0 then -x else x
  }

  /** The program's integer division truncates toward zero. */
  function Quotient(a: int, b: uint32): int
    requires b > 0
  {
    if a >= 0 then a / b else -(-a / b)
  }

  /** The average moved towards `price` by `size` shares out of `total`. */
  function Moved(average: real, price: real, size: int, total: int): real
    requires total != 0
  {
    average + (price - average) * size as real / total as real
  }

  function TotalAverageAfterOpen(average: real, price: real, size: uint32, total: int): real {
    if total != 0 then Moved(average, price, size, total) else 0.0
  }

  function TotalAverageAfterClose(average: real, price: real, size: uint32, total: int): real {
    if total != 0 then average + (average - price) * size as real / total as real else 0.0
  }

  /** An opening fill reaches the other account's position. */
  predicate Crosses(me: Account, other: Account, size: uint32) {
    me.total < other.total <= me.total + size
  }

  /** The spread an opening fill sets when it crosses. */
  function SpreadAtCrossing(me: Account, other: Account, price: real): real
    requires other.total != 0
  {
    var disparity := other.total - me.total;
    Abs(Moved(me.average, price, disparity, other.total) - other.table.average)
  }

  /** The average when a close brings the position down to `total` by `size` shares. */
  function Lowered(average: real, price: real, size: int, total: int): real
    requires total != 0
  {
    average - (price - average) * size as real / total as real
  }

  /** A closing fill brings the position down to the other account's. */
  predicate CrossesDown(me: Account, other: Account, size: uint32) {
    me.total - size <= other.total < me.total
  }

  /** The spread a closing fill would set when it crosses. */
  function SpreadAtCrossingDown(me: Account, other: Account, price: real): real
    requires other.total != 0
  {
    var disparity := me.total - other.total;
    Abs(Lowered(me.average, price, disparity, other.total) - other.table.average)
  }

  /** The spread both accounts have after a fill of the first, if it crosses. */
  function SpreadAfter(me: Account, other: Account, price: real, size: uint32, opening: bool, earlier: real): real
    requires other.total == 0 ==> if opening then me.total >= 0 else !CrossesDown(me, other, size)
  {
    if opening then if Crosses(me, other, size) then SpreadAtCrossing(me, other, price) else earlier
    else if CrossesDown(me, other, size) then SpreadAtCrossingDown(me, other, price) else earlier
  }

  /** Both accounts after an opening fill of the first. */
  function OpenFilled(me: Account, other: Account, id: uint32, price: real, size: uint32): (Account, Account)
    requires other.total == 0 ==> me.total >= 0
  {
    var crossed := Crosses(me, other, size);
    var spread := if crossed then SpreadAtCrossing(me, other, price) else 0.0;
    var total := me.total + size;
    (me.(spread := if crossed then spread else me.spread,
         total := total,
         average := TotalAverageAfterOpen(me.average, price, size, total),
         lastOpenPrice := price,
         pif := if !me.isLong && total * me.divisor >= other.Position() then price else me.pif,
         table := RecordOpen(me.table, id, size, price)),
     other.(spread := if crossed then spread else other.spread))
  }

  function CloseFilled(me: Account, id: uint32, price: real, size: uint32): Account
    requires me.maxPos > 0
  {
    var total := me.total - size;
    me.(total := total,
        average := TotalAverageAfterClose(me.average, price, size, total),
        lastClosePrice := price,
        tranchCounter := if Quotient(me.total, me.maxPos) > Quotient(total, me.maxPos)
                         then Wrap32(me.tranchCounter - 1) else me.tranchCounter,
        table := RecordClose(me.table, id, size, price))
  }

  class TradeAccount {
    const isLong: bool
    const divisor: uint32
    const maxPos: uint32
    var total: int
    var average: real
    var spread: real
    var lastOpenPrice: real
    var lastClosePrice: real
    var pif: real
    var tranchCounter: uint32
    const positionTable: PositionRecordTable

    ghost function State(): Account
      reads this, positionTable
    {
      Account(isLong, divisor, maxPos, total, average, spread, lastOpenPrice, lastClosePrice, pif, tranchCounter,
              positionTable.State())
    }

    constructor (isLong: bool, divisor: uint32, maxPos: uint32)
      ensures State() == EmptyAccount(isLong, divisor, maxPos) && fresh(positionTable)
    {
      this.isLong, this.divisor, this.maxPos := isLong, divisor, maxPos;
      total, average, spread, lastOpenPrice, lastClosePrice, pif, tranchCounter := 0, 0.0, 0.0, 0.0, 0.0, 0.0, 0;
      positionTable := new PositionRecordTable(isLong);
    }

    function GetPosition(): (p: int)
      reads this, positionTable
      ensures p == State().Position()
    {
      total * divisor
    }

    method CalculateSpread(other: TradeAccount, fillPrice: real, fillSize: uint32, opening: bool)
      requires other != this && other.positionTable != positionTable
      requires other.total == 0 ==> if opening then total >= 0 else !CrossesDown(State(), other.State(), fillSize)
      modifies this`spread, other`spread
      ensures spread == old(SpreadAfter(State(), other.State(), fillPrice, fillSize, opening, spread))
      ensures other.spread == old(SpreadAfter(State(), other.State(), fillPrice, fillSize, opening, other.spread))
    {
      var disparity := if total >= other.total then total - other.total else other.total - total;
      var equality := other.total;
      if total < equality && total + fillSize >= equality && opening {
        var averageSp := Moved(average, fillPrice, disparity, equality);
        spread := Abs(averageSp - other.positionTable.average);
        other.spread := spread;
      } else if total > equality && total - fillSize <= equality && !opening {
        var averageSp := Lowered(average, fillPrice, disparity, equality);
        spread := Abs(averageSp - other.positionTable.average);
        other.spread := spread;
      }
    }

    method OnOpenFill(other: TradeAccount, id: uint32, price: real, size: uint32)
      requires other != this && other.positionTable != positionTable
      requires other.total == 0 ==> total >= 0
      modifies this, positionTable, other`spread
      ensures (State(), other.State()) == OpenFilled(old(State()), old(other.State()), id, price, size)
    {
      hide RecordOpen, Abs, Moved, TotalAverageAfterOpen;
      CalculateSpread(other, price, size, true);
      total := total + size;
      lastOpenPrice := price;
      if !isLong && GetPosition() >= other.GetPosition() {
        pif := price;
      }
      average := TotalAverageAfterOpen(average, price, size, total);
      positionTable.RecordOpenPosition(id, size, price);
    }

    method OnCloseFill(id: uint32, price: real, size: uint32)
      requires maxPos > 0
      modifies this, positionTable
      ensures State() == CloseFilled(old(State()), id, price, size)
    {
      hide RecordClose, TotalAverageAfterClose, Quotient;
      var beforeClose := Quotient(total, maxPos);
      total := total - size;
      var afterClose := Quotient(total, maxPos);
      if beforeClose > afterClose {
        tranchCounter := Wrap32(tranchCounter - 1);
      }
      average := TotalAverageAfterClose(average, price, size, total);
      positionTable.RecordClosePosition(id, size, price);
      lastClosePrice := price;
    }
  }

  function EmptyAccount(isLong: bool, divisor: uint32, maxPos: uint32): Account {
    Account(isLong, divisor, maxPos, 0, 0.0, 0.0, 0.0, 0.0, 0.0, 0, EmptyTable(isLong))
  }

  // --------------------------------------------------- account and table in step

  predicate InStep(a: Account) {
    a.total == a.table.openSize && a.average == a.table.average
  }

  /** An opening fill keeps account and table in step if and only if the table's size does not overflow. */
  lemma OpenFillKeepsStep(me: Account, other: Account, id: uint32, price: real, size: uint32)
    requires InStep(me)
    ensures var (me', other') := OpenFilled(me, other, id, price, size);
            && (InStep(me') <==> me.total + size < TWO_TO_32)
            && (InStep(other') <==> InStep(other))
  {
    hide InsertionPoint, Abs, SpreadAtCrossing, AverageAfterOpen, TotalAverageAfterOpen;
    if me.total + size < TWO_TO_32 {
      SameAverage(me.average, price, size, me.total + size);
    }
  }

  /** A closing fill keeps account and table in step if and only if it closes no more than is held. */
  lemma CloseFillKeepsStep(me: Account, id: uint32, price: real, size: uint32)
    requires InStep(me) && me.maxPos > 0
    ensures InStep(CloseFilled(me, id, price, size)) <==> size <= me.total
  {
    hide Match, Reverse, Quotient, AverageAfterClose, TotalAverageAfterClose;
    if size <= me.total {
      SameAverage(me.average, price, size, me.total - size);
    }
  }

  /** Account and table compute their averages alike. */
  lemma SameAverage(average: real, price: real, size: uint32, total: uint32)
    ensures TotalAverageAfterOpen(average, price, size, total) == AverageAfterOpen(average, price, size, total)
    ensures TotalAverageAfterClose(average, price, size, total) == AverageAfterClose(average, price, size, total)
  {
  }

  /**
   An opening fill that crosses the other account's position sets both spreads
   to the distance between the other average and the average this account
   would have after only the crossing shares; any other fill leaves them alone.
   */
  lemma SpreadIsAtEquality(me: Account, other: Account, id: uint32, price: real, size: uint32)
    requires InStep(me) && InStep(other)
    ensures var (me', other') := OpenFilled(me, other, id, price, size);
            if me.total < other.total <= me.total + size
            then
              var crossing: uint32 := other.total - me.total;
              var (at, _) := OpenFilled(me, other, id, price, crossing);
              && at.total == other.total && me'.spread == other'.spread >= 0.0
              && (me'.spread == at.average - other.average || me'.spread == other.average - at.average)
            else me'.spread == me.spread && other'.spread == other.spread
  {
    hide RecordOpen, Moved;
  }

  /**
   The closing branch, which no closing fill calls at present: it would set the
   spread to the distance between the other average and this one's after only
   the crossing shares.
   */
  lemma CloseSpreadIsAtEquality(me: Account, other: Account, id: uint32, price: real, size: uint32, earlier: real)
    requires InStep(me) && InStep(other) && me.maxPos > 0 && other.total != 0
    ensures var spread := SpreadAfter(me, other, price, size, false, earlier);
            if me.total - size <= other.total < me.total
            then
              var crossing: uint32 := me.total - other.total;
              var at := CloseFilled(me, id, price, crossing);
              && at.total == other.total && spread >= 0.0
              && (spread == at.average - other.average || spread == other.average - at.average)
            else spread == earlier
  {
    hide RecordClose, Quotient, Lowered, TotalAverageAfterClose;
    if me.total - size <= other.total < me.total {
      LoweredIsClosed(me.average, price, me.total - other.total, other.total);
    }
  }

  lemma LoweredIsClosed(average: real, price: real, size: uint32, total: int)
    requires total != 0
    ensures Lowered(average, price, size, total) == TotalAverageAfterClose(average, price, size, total)
  {
    var x, y, o := (price - average) * size as real, (average - price) * size as real, total as real;
    assert x + y == 0.0;
    assert x / o + y / o == (x + y) / o;
  }

  // --------------------------------------------------------------- whole runs

  datatype Fill = OpenFill(onLong: bool, id: uint32, price: real, size: uint32)
                | CloseFill(onLong: bool, id: uint32, price: real, size: uint32)
                | Delete(onLong: bool)

  datatype Accounts = Accounts(long: Account, short: Account)
  {
    function Of(onLong: bool): Account {
      if onLong then long else short
    }
  }

  function Deleted(a: Account): Account {
    a.(table := DeleteComplete(a.table))
  }

  predicate FillAllowed(s: Accounts, f: Fill) {
    match f
    case OpenFill(onLong, _, _, size) => s.Of(onLong).total + size < TWO_TO_32
    case CloseFill(onLong, _, _, size) => size <= s.Of(onLong).total
    case Delete(_) => true
  }

  predicate Sound(s: Accounts) {
    && s.long.isLong && !s.short.isLong && s.long.maxPos > 0 && s.short.maxPos > 0
    && InStep(s.long) && InStep(s.short)
  }

  function FillStep(s: Accounts, f: Fill): Accounts
    requires Sound(s)
  {
    match f
    case OpenFill(true, id, price, size) =>
      var (l, r) := OpenFilled(s.long, s.short, id, price, size); Accounts(l, r)
    case OpenFill(false, id, price, size) =>
      var (r, l) := OpenFilled(s.short, s.long, id, price, size); Accounts(l, r)
    case CloseFill(true, id, price, size) => s.(long := CloseFilled(s.long, id, price, size))
    case CloseFill(false, id, price, size) => s.(short := CloseFilled(s.short, id, price, size))
    case Delete(true) => s.(long := Deleted(s.long))
    case Delete(false) => s.(short := Deleted(s.short))
  }

  lemma StepStaysSound(s: Accounts, f: Fill)
    requires Sound(s) && FillAllowed(s, f)
    ensures Sound(FillStep(s, f))
    ensures FillStep(s, f).Of(f.onLong).table == Runs.Step(s.Of(f.onLong).table, EventOf(f))
    ensures FillStep(s, f).Of(!f.onLong).table == s.Of(!f.onLong).table
  {
    hide RecordOpen, RecordClose, SpreadAtCrossing, InStep, TotalAverageAfterOpen, TotalAverageAfterClose, Quotient;
    var me, other := s.Of(f.onLong), s.Of(!f.onLong);
    InStepIsHeld(s.long);
    InStepIsHeld(s.short);
    match f
    case OpenFill(_, id, price, size) => OpenFillKeepsStep(me, other, id, price, size);
    case CloseFill(_, id, price, size) => CloseFillKeepsStep(me, id, price, size);
    case Delete(_) => DeletedInStep(me);
  }

  lemma InStepIsHeld(a: Account)
    requires InStep(a)
    ensures a.total >= 0
  {
  }

  lemma DeletedInStep(a: Account)
    requires InStep(a)
    ensures InStep(Deleted(a))
  {
  }

  predicate FillsAllowed(divisor: uint32, maxPos: uint32, fills: seq<Fill>)
    requires maxPos > 0
    decreases |fills|, 0
  {
    fills == [] ||
    (var before := fills[..|fills| - 1];
     FillsAllowed(divisor, maxPos, before) && FillAllowed(RunFills(divisor, maxPos, before), fills[|fills| - 1]))
  }

  /** From two flat accounts, account and table are in step after every run of fills. */
  function RunFills(divisor: uint32, maxPos: uint32, fills: seq<Fill>): (s: Accounts)
    requires maxPos > 0 && FillsAllowed(divisor, maxPos, fills)
    ensures Sound(s)
    decreases |fills|, 1
  {
    if fills == [] then Accounts(EmptyAccount(true, divisor, maxPos), EmptyAccount(false, divisor, maxPos))
    else
      var before, f := RunFills(divisor, maxPos, fills[..|fills| - 1]), fills[|fills| - 1];
      StepStaysSound(before, f);
      FillStep(before, f)
  }

  function EventOf(f: Fill): Runs.Event {
    match f
    case OpenFill(_, id, price, size) => Runs.Opening(id, size, price)
    case CloseFill(_, id, price, size) => Runs.Closing(id, size, price)
    case Delete(_) => Runs.Deleting
  }

  /** What one account's table sees of a run. */
  function EventsOf(onLong: bool, fills: seq<Fill>): seq<Runs.Event> {
    if fills == [] then []
    else
      var f := fills[|fills| - 1];
      EventsOf(onLong, fills[..|fills| - 1]) + if f.onLong == onLong then [EventOf(f)] else []
  }

  /** The tables of both accounts go through the ledger runs of their own fills. */
  lemma {:induction false} TablesFollowTheirFills(divisor: uint32, maxPos: uint32, fills: seq<Fill>, onLong: bool)
    requires maxPos > 0 && FillsAllowed(divisor, maxPos, fills)
    ensures RunFills(divisor, maxPos, fills).Of(onLong).table == Runs.Run(onLong, EventsOf(onLong, fills))
    decreases |fills|
  {
    hide FillStep, Runs.Step;
    if fills == [] {
    } else {
      var earlier, f := fills[..|fills| - 1], fills[|fills| - 1];
      TablesFollowTheirFills(divisor, maxPos, earlier, onLong);
      StepStaysSound(RunFills(divisor, maxPos, earlier), f);
      var es := EventsOf(onLong, fills);
      if f.onLong == onLong {
        assert es[..|es| - 1] == EventsOf(onLong, earlier);
      } else {
        assert es == EventsOf(onLong, earlier);
      }
    }
  }
}
