/**
 The trading loop together with the live counters that start its self destruct:
 shares a counter has leaked keep asking for a panic close.
 */
module LeakPanic {
  import opened LiveOrders
  import opened LiveCounters
  import opened CounterLeaks
  import Loop = PanicClose

  /** What the loop sees as the live orders of the account is the sum of its counters. */
  predicate Sees(isLong: bool, seen: Loop.Seen, d: Desk) {
    (if isLong then seen.longLive else seen.shortLive) == d.totalOpen + d.totalClose
  }

  /**
   When an account has once leaked more shares than the limit on live orders, then
   in every round that follows, although no order may be working, the loop ends if
   it finds equal positions and otherwise begins a panic close and orders the
   difference closed once more.
   */
  lemma LeakedSharesForcePanic(isLong: bool, divisor: Divisor, ms: seq<Move>, more: seq<Move>,
                               es: seq<Loop.Event>, seen: Loop.Seen, limit: nat)
    requires AllHonest(isLong, divisor, ms + more)
    requires Leaked(Play(isLong, divisor, ms), true) + Leaked(Play(isLong, divisor, ms), false) > limit
    requires Sees(isLong, seen, Play(isLong, divisor, ms + more).desk)
    requires var s := Loop.Run(Loop.NewInstance(), es, limit); s.running && s.flags.enabled && seen.estimate > 0.0
    ensures var t := Loop.Run(Loop.NewInstance(), es + [Loop.Round(seen)], limit);
            if seen.long == seen.short then !t.running else t.running && Loop.DifferenceOrdered(t, seen)
  {
    hide Play, Leaked, ReallyLive, Loop.Run, Loop.DifferenceOrdered, AllHonest, Leaks;
    LeakedStays(isLong, divisor, ms, more, true);
    LeakedStays(isLong, divisor, ms, more, false);
    CountersAreLiveExactly(isLong, divisor, ms + more);
    if seen.long == seen.short {
      Loop.PanicEndsExactly(es, seen, limit);
    } else {
      Loop.PanicOrdersTheDifference(es, seen, limit);
    }
  }
}
