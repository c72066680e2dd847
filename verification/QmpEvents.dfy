/**
 * Waiting for a QMP event (`event_mark`, `wait_event` and `scan_for_match` of
 * provium-qmp/src/connection.rs) as a step relation. The reader appends to the
 * log and a shutdown closes it; the waiter looks at the log only under its
 * lock, from where the last look ended, and sleeps in between. Wakeups may be
 * spurious and the budget may run out at any look.
 */
module QmpEvents {
  import opened Options

  datatype Event = Event(name: string, data: string, timestamp: int)

  /** What a waiter is after: an event name and a predicate on the event. */
  datatype Wanted = Wanted(name: string, accepts: Event -> bool)

  predicate Matches(want: Wanted, e: Event)
  {
    e.name == want.name && want.accepts(e)
  }

  /** `scan_for_match`: the first match from `since` on; a mark past the end finds nothing. */
  function Scan(events: seq<Event>, since: nat, want: Wanted): Option<Event>
    decreases |events| - since
  {
    if since >= |events| then None
    else if Matches(want, events[since]) then Some(events[since])
    else Scan(events, since + 1, want)
  }

  ghost predicate NoMatch(events: seq<Event>, from: nat, to: nat, want: Wanted)
  {
    forall i :: from <= i < to && i < |events| ==> !Matches(want, events[i])
  }

  /** Event `i` is the first match at or after the mark. */
  ghost predicate IsFirst(events: seq<Event>, since: nat, want: Wanted, i: nat)
  {
    since <= i < |events| && Matches(want, events[i]) && NoMatch(events, since, i, want)
  }

  lemma {:induction false} ScanFindsFirst(events: seq<Event>, since: nat, want: Wanted)
    ensures match Scan(events, since, want)
            case None => NoMatch(events, since, |events|, want)
            case Some(e) => exists i: nat :: IsFirst(events, since, want, i) && events[i] == e
    decreases |events| - since
  {
    if since < |events| {
      if Matches(want, events[since]) {
        assert IsFirst(events, since, want, since);
      } else {
        ScanFindsFirst(events, since + 1, want);
        if Scan(events, since + 1, want).Some? {
          var i: nat :| IsFirst(events, since + 1, want, i) && events[i] == Scan(events, since + 1, want).value;
          assert IsFirst(events, since, want, i);
        }
      }
    }
  }

  // --- the machine -------------------------------------------------------------------

  datatype Outcome = Found(event: Event) | Closed | Timeout

  /** `seen` is how much of the log there was at the look the waiter returned from. */
  datatype Waiter = Starting | Asleep(next: nat) | Returned(outcome: Outcome, seen: nat)

  datatype State = State(events: seq<Event>, closed: bool, waiter: Waiter)

  datatype Step =
    | Append(event: Event)
    | CloseLog
    | Look(expired: bool)                  // the first look, or a wakeup that did not time out
    | LastLook                             // a wakeup that timed out

  predicate Enabled(s: State, step: Step)
  {
    match step
    case Look(_) => !s.waiter.Returned?
    case LastLook => s.waiter.Asleep?
    case _ => true
  }

  /** The loop body from the scan to the next wait, all under the log's lock. */
  function Looked(s: State, since: nat, want: Wanted, next: nat, expired: bool): Waiter
  {
    match Scan(s.events, next, want)
    case Some(e) => Returned(Found(e), |s.events|)
    case None =>
      if s.closed then Returned(Closed, |s.events|)
      else if expired then Returned(Timeout, |s.events|)
      else Asleep(if next > |s.events| then next else |s.events|)
  }

  function Apply(s: State, since: nat, want: Wanted, step: Step): State
    requires Enabled(s, step)
  {
    match step
    case Append(e) => s.(events := s.events + [e])
    case CloseLog => s.(closed := true)
    case Look(expired) =>
      var next := if s.waiter.Starting? then since else s.waiter.next;
      s.(waiter := Looked(s, since, want, next, expired))
    case LastLook =>
      s.(waiter := match Scan(s.events, s.waiter.next, want)
                   case Some(e) => Returned(Found(e), |s.events|)
                   case None => Returned(Timeout, |s.events|))
  }

  ghost predicate CanRun(s: State, since: nat, want: Wanted, steps: seq<Step>)
    decreases |steps|, 0
  {
    steps == [] || (CanRun(s, since, want, steps[..|steps| - 1])
                    && Enabled(Run(s, since, want, steps[..|steps| - 1]), steps[|steps| - 1]))
  }

  ghost function Run(s: State, since: nat, want: Wanted, steps: seq<Step>): State
    requires CanRun(s, since, want, steps)
    decreases |steps|, 1
  {
    if steps == [] then s else Apply(Run(s, since, want, steps[..|steps| - 1]), since, want, steps[|steps| - 1])
  }

  /** What a result says, checked by one scan of the whole log from the mark. */
  ghost predicate Justified(s: State, since: nat, want: Wanted, outcome: Outcome, seen: nat)
  {
    && seen <= |s.events|
    && match outcome
       case Found(e) => exists i: nat :: IsFirst(s.events, since, want, i) && i < seen && s.events[i] == e
       case Closed => s.closed && NoMatch(s.events, since, seen, want)
       case Timeout => NoMatch(s.events, since, seen, want)
  }

  ghost predicate Inv(s: State, since: nat, want: Wanted)
  {
    match s.waiter
    case Starting => true
    case Asleep(next) => since <= next && (next <= |s.events| || next == since) && NoMatch(s.events, since, next, want)
    case Returned(outcome, seen) => Justified(s, since, want, outcome, seen)
  }

  lemma {:induction false} FirstFromNext(events: seq<Event>, since: nat, next: nat, want: Wanted, i: nat)
    requires since <= next && NoMatch(events, since, next, want) && IsFirst(events, next, want, i)
    ensures IsFirst(events, since, want, i)
  {
  }

  lemma {:induction false} LookKeepsInv(s: State, since: nat, want: Wanted, next: nat)
    requires since <= next && (next <= |s.events| || next == since) && NoMatch(s.events, since, next, want)
    ensures match Scan(s.events, next, want)
            case Some(e) => Justified(s, since, want, Found(e), |s.events|)
            case None => NoMatch(s.events, since, |s.events|, want)
  {
    ScanFindsFirst(s.events, next, want);
    if Scan(s.events, next, want).Some? {
      var i: nat :| IsFirst(s.events, next, want, i) && s.events[i] == Scan(s.events, next, want).value;
      FirstFromNext(s.events, since, next, want, i);
    }
  }

  lemma {:induction false} AppendKeepsJustified(s: State, since: nat, want: Wanted, e: Event)
    requires Inv(s, since, want)
    ensures Inv(s.(events := s.events + [e]), since, want)
  {
    var t := s.(events := s.events + [e]);
    assert forall i :: 0 <= i < |s.events| ==> t.events[i] == s.events[i];
    if s.waiter.Returned? && s.waiter.outcome.Found? {
      var i: nat :| IsFirst(s.events, since, want, i) && i < s.waiter.seen && s.events[i] == s.waiter.outcome.event;
      assert IsFirst(t.events, since, want, i);
    }
  }

  lemma {:induction false} StepKeepsInv(s: State, since: nat, want: Wanted, step: Step)
    requires Inv(s, since, want) && Enabled(s, step)
    ensures Inv(Apply(s, since, want, step), since, want)
  {
    match step {
      case Append(e) => AppendKeepsJustified(s, since, want, e);
      case CloseLog =>
      case Look(_) => LookKeepsInv(s, since, want, if s.waiter.Starting? then since else s.waiter.next);
      case LastLook => LookKeepsInv(s, since, want, s.waiter.next);
    }
  }

  /**
   * Looking only at new arrivals loses nothing. In every interleaving with the
   * reader and with shutdown: a success is the first match at or after the mark
   * and never an earlier event; Closed and Timeout mean that nothing logged so
   * far at or after the mark matched.
   */
  lemma {:induction false} WaitEqualsFullScan(events: seq<Event>, closed: bool, since: nat, want: Wanted, steps: seq<Step>)
    requires CanRun(State(events, closed, Starting), since, want, steps)
    ensures var s := Run(State(events, closed, Starting), since, want, steps);
            Inv(s, since, want) && (s.waiter.Returned? ==> Justified(s, since, want, s.waiter.outcome, s.waiter.seen))
  {
    if steps != [] {
      var front := steps[..|steps| - 1];
      WaitEqualsFullScan(events, closed, since, want, front);
      StepKeepsInv(Run(State(events, closed, Starting), since, want, front), since, want, steps[|steps| - 1]);
    }
  }

  /** The log only grows, so an event from before the mark is never what a waiter gets. */
  lemma {:induction false} StaleEventsIgnored(events: seq<Event>, closed: bool, want: Wanted, steps: seq<Step>)
    requires CanRun(State(events, closed, Starting), |events|, want, steps)
    ensures var s := Run(State(events, closed, Starting), |events|, want, steps);
            && events <= s.events
            && (s.waiter.Returned? && s.waiter.outcome.Found? ==>
                  exists i :: |events| <= i < |s.events| && s.events[i] == s.waiter.outcome.event)
  {
    WaitEqualsFullScan(events, closed, |events|, want, steps);
    if steps != [] {
      StaleEventsIgnored(events, closed, want, steps[..|steps| - 1]);
    }
    var s := Run(State(events, closed, Starting), |events|, want, steps);
    if s.waiter.Returned? && s.waiter.outcome.Found? {
      var i: nat :| IsFirst(s.events, |events|, want, i) && i < s.waiter.seen && s.events[i] == s.waiter.outcome.event;
    }
  }
}
