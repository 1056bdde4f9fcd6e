/**
 What a run of fills leaves in the fields of an account beside its average and
 its table: the position, the prices of the last fills, the price in force and
 the tranch counter, each told from the fills alone.
 */
module FillTraces {
  import opened Ledger
  import opened TradeAccounts

  /** Shares of one account opened less those closed. */
  function Held(fills: seq<Fill>, onLong: bool): int {
    if fills == [] then 0
    else
      var earlier, f := Held(fills[..|fills| - 1], onLong), fills[|fills| - 1];
      if f.onLong != onLong then earlier
      else match f
        case OpenFill(_, _, _, size) => earlier + size
        case CloseFill(_, _, _, size) => earlier - size
        case Delete(_) => earlier
  }

  /** The price of the last opening (or closing) fill of one account, zero if there is none. */
  function LastPrice(fills: seq<Fill>, onLong: bool, opening: bool): real {
    if fills == [] then 0.0
    else
      var f := fills[|fills| - 1];
      if f.onLong == onLong && (if opening then f.OpenFill? else f.CloseFill?) then f.price
      else LastPrice(fills[..|fills| - 1], onLong, opening)
  }

  /** The price of the last opening short fill that left the short position at or above the long one. */
  function LastCatchUp(fills: seq<Fill>, divisor: uint32): real {
    if fills == [] then 0.0
    else
      var f := fills[|fills| - 1];
      if f.OpenFill? && !f.onLong && Held(fills, false) * divisor >= Held(fills, true) * divisor then f.price
      else LastCatchUp(fills[..|fills| - 1], divisor)
  }

  /** How many closing fills of one account brought its total below a multiple of `maxPos`. */
  function Tranches(fills: seq<Fill>, onLong: bool, maxPos: uint32): nat
    requires maxPos > 0
  {
    if fills == [] then 0
    else
      var before, f := fills[..|fills| - 1], fills[|fills| - 1];
      Tranches(before, onLong, maxPos) +
      if f.CloseFill? && f.onLong == onLong && Held(before, onLong) / maxPos > Held(fills, onLong) / maxPos
      then 1 else 0
  }

  /** The fields of an account are those its fills leave. */
  predicate Follows(a: Account, divisor: uint32, maxPos: uint32, fills: seq<Fill>, onLong: bool)
    requires maxPos > 0
  {
    && a.divisor == divisor && a.maxPos == maxPos
    && a.total == Held(fills, onLong)
    && a.lastOpenPrice == LastPrice(fills, onLong, true)
    && a.lastClosePrice == LastPrice(fills, onLong, false)
    && a.pif == (if onLong then 0.0 else LastCatchUp(fills, divisor))
    && a.tranchCounter == Wrap32(-(Tranches(fills, onLong, maxPos) as int))
  }

  /**
   After every allowed run each account holds what was opened less what was
   closed, the prices of its own last opening and closing fills, on the short
   side the price at which it last caught up with the long position, and a
   tranch counter lowered once for every multiple of the largest position that
   a close went below.
   */
  lemma {:induction false} AccountsFollowTheirFills(divisor: uint32, maxPos: uint32, fills: seq<Fill>)
    requires maxPos > 0 && FillsAllowed(divisor, maxPos, fills)
    ensures var s := RunFills(divisor, maxPos, fills);
            Follows(s.long, divisor, maxPos, fills, true) && Follows(s.short, divisor, maxPos, fills, false)
    decreases |fills|
  {
    if fills == [] {
    } else {
      hide Follows, FillStep;
      var before := fills[..|fills| - 1];
      AccountsFollowTheirFills(divisor, maxPos, before);
      var s := RunFills(divisor, maxPos, before);
      InStepIsHeld(s.long);
      InStepIsHeld(s.short);
      FillFollowed(s, divisor, maxPos, fills);
    }
  }

  lemma FillFollowed(s: Accounts, divisor: uint32, maxPos: uint32, fills: seq<Fill>)
    requires fills != [] && maxPos > 0 && Sound(s) && FillAllowed(s, fills[|fills| - 1])
    requires Follows(s.long, divisor, maxPos, fills[..|fills| - 1], true)
    requires Follows(s.short, divisor, maxPos, fills[..|fills| - 1], false)
    ensures var s' := FillStep(s, fills[|fills| - 1]);
            Follows(s'.long, divisor, maxPos, fills, true) && Follows(s'.short, divisor, maxPos, fills, false)
  {
    var f := fills[|fills| - 1];
    InStepIsHeld(s.long);
    InStepIsHeld(s.short);
    match f
    case OpenFill(_, _, _, _) => OpenFollowed(s, divisor, maxPos, fills);
    case CloseFill(onLong, _, _, _) => {
      hide Follows, CloseFilled;
      CloseFollowed(s.Of(onLong), divisor, maxPos, fills);
      OtherFollowed(s.Of(!onLong), divisor, maxPos, fills, !onLong);
    }
    case Delete(_) => DeleteFollowed(s, divisor, maxPos, fills);
  }

  lemma OpenFollowed(s: Accounts, divisor: uint32, maxPos: uint32, fills: seq<Fill>)
    requires fills != [] && maxPos > 0 && Sound(s) && s.long.total >= 0 && s.short.total >= 0
    requires fills[|fills| - 1].OpenFill? && FillAllowed(s, fills[|fills| - 1])
    requires Follows(s.long, divisor, maxPos, fills[..|fills| - 1], true)
    requires Follows(s.short, divisor, maxPos, fills[..|fills| - 1], false)
    ensures var s' := FillStep(s, fills[|fills| - 1]);
            Follows(s'.long, divisor, maxPos, fills, true) && Follows(s'.short, divisor, maxPos, fills, false)
  {
    hide RecordOpen, RecordClose, SpreadAtCrossing, Crosses, TotalAverageAfterOpen, Wrap32, InStep;
  }

  lemma CloseFollowed(a: Account, divisor: uint32, maxPos: uint32, fills: seq<Fill>)
    requires fills != [] && maxPos > 0 && a.total >= 0
    requires var f := fills[|fills| - 1];
             f.CloseFill? && f.size <= a.total && a.isLong == f.onLong
             && Follows(a, divisor, maxPos, fills[..|fills| - 1], f.onLong)
    ensures var f := fills[|fills| - 1];
            Follows(CloseFilled(a, f.id, f.price, f.size), divisor, maxPos, fills, f.onLong)
  {
    hide RecordClose, TotalAverageAfterClose, Wrap32, Quotient;
    var before, f := fills[..|fills| - 1], fills[|fills| - 1];
    CloseLowers(a.total, maxPos, f.size);
    WrapLowered(Tranches(before, f.onLong, maxPos));
  }

  lemma CloseLowers(total: nat, maxPos: uint32, size: uint32)
    requires maxPos > 0 && size <= total
    ensures Quotient(total, maxPos) == total / maxPos && Quotient(total - size, maxPos) == (total - size) / maxPos
  {
  }

  lemma WrapLowered(t: nat)
    ensures Wrap32(Wrap32(-(t as int)) - 1) == Wrap32(-((t + 1) as int))
  {
  }

  /** A fill of the other account that is no opening one leaves what is told of this one. */
  lemma OtherFollowed(a: Account, divisor: uint32, maxPos: uint32, fills: seq<Fill>, onLong: bool)
    requires fills != [] && maxPos > 0
    requires fills[|fills| - 1].onLong != onLong && !fills[|fills| - 1].OpenFill?
    requires Follows(a, divisor, maxPos, fills[..|fills| - 1], onLong)
    ensures Follows(a, divisor, maxPos, fills, onLong)
  {
    hide Wrap32;
  }

  lemma DeleteFollowed(s: Accounts, divisor: uint32, maxPos: uint32, fills: seq<Fill>)
    requires fills != [] && maxPos > 0 && Sound(s) && fills[|fills| - 1].Delete?
    requires Follows(s.long, divisor, maxPos, fills[..|fills| - 1], true)
    requires Follows(s.short, divisor, maxPos, fills[..|fills| - 1], false)
    ensures var s' := FillStep(s, fills[|fills| - 1]);
            Follows(s'.long, divisor, maxPos, fills, true) && Follows(s'.short, divisor, maxPos, fills, false)
  {
    hide Wrap32, DeleteComplete, InStep;
  }
}
