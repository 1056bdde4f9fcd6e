/**
 The requests made of the trading loop: which of them are in force after any run, and
 when a round does nothing.
 */
module LoopRequests {
  import opened PanicClose

  /** Of the two requests the latest was `on`; `atFirst` says how things stand before either was made. */
  predicate LatestIs(es: seq<Event>, on: Event, off: Event, atFirst: bool) {
    if es == [] then atFirst
    else if es[|es| - 1] == on then true
    else if es[|es| - 1] == off then false
    else LatestIs(es[..|es| - 1], on, off, atFirst)
  }

  predicate Working(es: seq<Event>, seen: Seen, limit: nat) {
    Run(NewInstance(), es, limit).running && LatestIs(es, Resume, Pause, true) && seen.estimate > 0.0
  }

  /** The panic close was asked for, or a working round saw too many live shares, and it was not called off since. */
  predicate PanicAsked(es: seq<Event>, limit: nat) {
    if es == [] then false
    else
      var before := es[..|es| - 1];
      match es[|es| - 1]
      case EnablePanic => true
      case DisablePanic => false
      case Round(seen) =>
        PanicAsked(before, limit)
        || (Working(before, seen, limit) && (seen.longLive > limit || seen.shortLive > limit))
      case _ => PanicAsked(before, limit)
  }

  /** After any run of requests and rounds exactly those requests are in force that were made last. */
  lemma {:induction false} RequestsInForce(es: seq<Event>, limit: nat)
    ensures var f := Run(NewInstance(), es, limit).flags;
            && f.enabled == LatestIs(es, Resume, Pause, true)
            && f.soft == LatestIs(es, EnableSoft, DisableSoft, false)
            && f.panic == PanicAsked(es, limit)
    decreases |es|
  {
    if es != [] {
      hide RoundDone, Sound;
      var before, e := es[..|es| - 1], es[|es| - 1];
      RequestsInForce(before, limit);
      if e.Round? {
        RoundFlags(Run(NewInstance(), before, limit), e.seen, limit);
      }
    }
  }

  /** What a round makes of the requests: only too many live shares add one. */
  lemma RoundFlags(s: Instance, seen: Seen, limit: nat)
    ensures var f, f' := s.flags, RoundDone(s, seen, limit).flags;
            && f'.enabled == f.enabled && f'.soft == f.soft
            && f'.panic == (f.panic || (f.enabled && seen.estimate > 0.0
                                        && (seen.longLive > limit || seen.shortLive > limit)))
  {
    hide SelectedKind, Hedged, TriggerSelected, CaseRun;
    if s.flags.enabled && seen.estimate > 0.0 {
      var t := s.(estimate := seen.estimate, tradePrice := seen.estimate, flags := Destructed(s.flags, seen, limit));
      SelectingKeepsFlags(SpecialCase(t, seen), seen);
      RunKeepsFlags(Selection(t, seen), seen);
    }
  }

  lemma SelectingKeepsFlags(s: Instance, seen: Seen)
    ensures TriggerSelected(s, seen).flags == s.flags
  {
    hide SelectedKind, Hedged, AvicennaTrigger, MarketPrice;
  }

  lemma RunKeepsFlags(s: Instance, seen: Seen)
    ensures Ran(s, seen).flags == s.flags
  {
    hide CaseRun, Hedged;
  }

  /** A round of an ended or a paused loop changes nothing; one without an estimate notes just that. */
  lemma IdleRounds(es: seq<Event>, seen: Seen, limit: nat)
    requires !Working(es, seen, limit)
    ensures var s, t := Run(NewInstance(), es, limit), Run(NewInstance(), es + [Round(seen)], limit);
            t == if s.running && LatestIs(es, Resume, Pause, true) then s.(estimate := seen.estimate) else s
  {
    assert (es + [Round(seen)])[..|es|] == es;
    RequestsInForce(es, limit);
  }
}
