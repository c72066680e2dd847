/**
 * Arming a fault policy while commands are being judged (`consult` and `set_policy` of
 * provium-host/src/nbd.rs), as a step relation. A command clones the policy, may sleep, and
 * counts itself later; arming stores the policy and then the zero, in two steps. Connections
 * are served one at a time, so at most one command is between its clone and its count.
 */
module NbdArming {
  import opened NbdServer
  import opened Options

  datatype Command = Command(command: nat, offset: nat, length: nat)

  /** A command that has cloned its policy; `ours` when it did so after the arming looked at. */
  datatype Pending = Pending(policy: FaultPolicy, what: Command, ours: bool)

  datatype Judged = Judged(ours: bool, seen: nat, what: Command, fails: bool)

  /** `log` holds the commands counted since the policy was stored. */
  datatype State = State(policy: FaultPolicy, count: nat, pending: Option<Pending>, log: seq<Judged>)

  datatype Step = Clone(what: Command) | Count

  predicate Enabled(s: State, step: Step)
  {
    match step
    case Clone(_) => s.pending.None?
    case Count => s.pending.Some?
  }

  /** A command met by an empty policy passes at once and is not counted. */
  ghost function Apply(s: State, step: Step): State
    requires Enabled(s, step)
  {
    match step
    case Clone(what) =>
      if s.policy == NO_FAULTS then s else s.(pending := Some(Pending(s.policy, what, true)))
    case Count =>
      var p, seen := s.pending.value, s.count + 1;
      var fails := Verdict(p.policy, seen, p.what.command, p.what.offset, p.what.length);
      s.(count := seen, pending := None, log := s.log + [Judged(p.ours, seen, p.what, fails)])
  }

  ghost predicate CanRun(s: State, steps: seq<Step>)
    decreases |steps|, 0
  {
    steps != [] ==> CanRun(s, steps[..|steps| - 1]) && Enabled(Run(s, steps[..|steps| - 1]), steps[|steps| - 1])
  }

  ghost function Run(s: State, steps: seq<Step>): State
    requires CanRun(s, steps)
    decreases |steps|, 1
  {
    if steps == [] then s else Apply(Run(s, steps[..|steps| - 1]), steps[|steps| - 1])
  }

  /** The first store. A command that has its clone already keeps it. */
  function Stored(s: State, p: FaultPolicy): State
  {
    State(p, s.count, if s.pending.Some? then Some(s.pending.value.(ours := false)) else None, [])
  }

  /** The second store. */
  function Zeroed(s: State): State
  {
    s.(count := 0)
  }

  /** 1 when a command was between its clone and its count as the policy was stored. */
  function InFlight(s: State): nat
  {
    if s.pending.Some? then 1 else 0
  }

  // --- what a run does ----------------------------------------------------------------

  /** Cloning and counting from `s`: every count is one log entry, numbered from the count found. */
  lemma {:induction false} CountsAreNumbered(s: State, steps: seq<Step>)
    requires CanRun(s, steps)
    ensures var e := Run(s, steps);
            && s.log <= e.log && e.count == s.count + (|e.log| - |s.log|) && e.policy == s.policy
            && forall j :: |s.log| <= j < |e.log| ==> e.log[j].seen == s.count + (j - |s.log|) + 1
  {
    if steps != [] {
      CountsAreNumbered(s, steps[..|steps| - 1]);
    }
  }

  /** The command in flight at the arming, if any, is the first to be counted; all others are ours. */
  ghost predicate InFlightFirst(flight: nat, e: State)
  {
    && (e.pending.Some? ==> (e.pending.value.ours <==> flight <= |e.log|))
    && (flight == 1 && e.log == [] ==> e.pending.Some?)
    && forall j :: 0 <= j < |e.log| ==> (e.log[j].ours <==> flight <= j)
  }

  lemma {:induction false} StepKeepsOrder(flight: nat, e: State, step: Step)
    requires flight <= 1 && InFlightFirst(flight, e) && Enabled(e, step)
    ensures InFlightFirst(flight, Apply(e, step))
  {
  }

  lemma {:induction false} OrderAlways(flight: nat, s: State, steps: seq<Step>)
    requires flight <= 1 && InFlightFirst(flight, s) && CanRun(s, steps)
    ensures InFlightFirst(flight, Run(s, steps))
  {
    if steps != [] {
      OrderAlways(flight, s, steps[..|steps| - 1]);
      StepKeepsOrder(flight, Run(s, steps[..|steps| - 1]), steps[|steps| - 1]);
    }
  }

  // --- arming ---------------------------------------------------------------------------

  /** A whole arming: store the policy, `between` happens, store the zero, `later` happens. */
  ghost predicate CanArm(s: State, p: FaultPolicy, between: seq<Step>, later: seq<Step>)
  {
    CanRun(Stored(s, p), between) && CanRun(Zeroed(Run(Stored(s, p), between)), later)
  }

  ghost function Middle(s: State, p: FaultPolicy, between: seq<Step>): State
    requires CanRun(Stored(s, p), between)
  {
    Run(Stored(s, p), between)
  }

  ghost function Armed(s: State, p: FaultPolicy, between: seq<Step>, later: seq<Step>): State
    requires CanArm(s, p, between, later)
  {
    Run(Zeroed(Middle(s, p, between)), later)
  }

  /** Which of the commands judged under the new policy entry `j` of the log is: the first is 1. */
  function Number(s: State, j: nat): int
  {
    j + 1 - InFlight(s)
  }

  /**
   * The number every command is judged by. One counted before the zero is judged by the old
   * count; one counted after it by its own number, plus one if a command was in flight as the
   * policy was stored, less every command counted before the zero.
   */
  lemma {:induction false} ArmedNumber(s: State, p: FaultPolicy, between: seq<Step>, later: seq<Step>, j: nat)
    requires CanArm(s, p, between, later) && j < |Armed(s, p, between, later).log|
    ensures var entry, lost := Armed(s, p, between, later).log[j], |Middle(s, p, between).log|;
            && (entry.ours <==> Number(s, j) >= 1)
            && entry.seen == if j < lost then s.count + j + 1 else Number(s, j) + InFlight(s) - lost
  {
    var m := Middle(s, p, between);
    CountsAreNumbered(Stored(s, p), between);
    CountsAreNumbered(Zeroed(m), later);
    OrderAlways(InFlight(s), Stored(s, p), between);
    OrderAlways(InFlight(s), Zeroed(m), later);
    var e := Armed(s, p, between, later);
    assert j < |m.log| ==> e.log[j] == m.log[j];
  }

  /**
   * Commands are counted from the arming exactly when what was counted between the two stores
   * is the command that was in flight, and nothing else.
   */
  lemma {:induction false} CountedFromArming(s: State, p: FaultPolicy, between: seq<Step>, later: seq<Step>)
    requires CanArm(s, p, between, later)
    requires var e := Armed(s, p, between, later); |e.log| > |Middle(s, p, between).log| && e.log[|e.log| - 1].ours
    ensures (forall j :: 0 <= j < |Armed(s, p, between, later).log| && Armed(s, p, between, later).log[j].ours ==>
               Armed(s, p, between, later).log[j].seen == Number(s, j))
       <==> |Middle(s, p, between).log| == InFlight(s)
  {
    var e := Armed(s, p, between, later);
    forall j | 0 <= j < |e.log|
      ensures var lost := |Middle(s, p, between).log|;
              && (e.log[j].ours <==> Number(s, j) >= 1)
              && e.log[j].seen == if j < lost then s.count + j + 1 else Number(s, j) + InFlight(s) - lost
    {
      ArmedNumber(s, p, between, later, j);
    }
  }

  /** The counter then fails exactly the n-th command under the new policy and every later one. */
  lemma {:induction false} NthFails(s: State, p: FaultPolicy, between: seq<Step>, later: seq<Step>, j: nat, n: nat)
    requires CanArm(s, p, between, later) && j < |Armed(s, p, between, later).log|
    requires |Middle(s, p, between).log| == InFlight(s) && p.failAfter == Some(n)
    requires var e := Armed(s, p, between, later).log[j];
             e.ours && !RuleMatches(p, e.what.command, e.what.offset, e.what.length)
    ensures Armed(s, p, between, later).log[j].fails <==> Number(s, j) >= n
  {
    ArmedNumber(s, p, between, later, j);
    var m := Middle(s, p, between);
    VerdictsOfOurs(Stored(s, p), between);
    CountsAreNumbered(Stored(s, p), between);
    VerdictsOfOurs(Zeroed(m), later);
  }

  /** A command of ours is judged by the policy in force. */
  ghost predicate JudgedByPolicy(e: State)
  {
    && (e.pending.Some? && e.pending.value.ours ==> e.pending.value.policy == e.policy)
    && forall j :: 0 <= j < |e.log| && e.log[j].ours ==>
         (e.log[j].fails <==>
            Verdict(e.policy, e.log[j].seen, e.log[j].what.command, e.log[j].what.offset, e.log[j].what.length))
  }

  lemma {:induction false} VerdictsOfOurs(s: State, steps: seq<Step>)
    requires CanRun(s, steps) && JudgedByPolicy(s)
    ensures JudgedByPolicy(Run(s, steps)) && Run(s, steps).policy == s.policy
  {
    if steps != [] {
      VerdictsOfOurs(s, steps[..|steps| - 1]);
      StepJudges(Run(s, steps[..|steps| - 1]), steps[|steps| - 1]);
    }
  }

  lemma {:induction false} StepJudges(s: State, step: Step)
    requires Enabled(s, step) && JudgedByPolicy(s)
    ensures JudgedByPolicy(Apply(s, step)) && Apply(s, step).policy == s.policy
  {
  }

  // --- both ways of going wrong -----------------------------------------------------------

  lemma {:induction false} Took(s: State, before: seq<Step>, step: Step) returns (steps: seq<Step>)
    requires CanRun(s, before) && Enabled(Run(s, before), step)
    ensures CanRun(s, steps) && Run(s, steps) == Apply(Run(s, before), step)
  {
    steps := before + [step];
    assert steps[..|steps| - 1] == before;
  }

  /**
   * A read asleep in the delay of an older policy while `fail_after = 2` is armed: it is
   * counted towards the new policy, and the first command under that fails.
   */
  lemma {:induction false} StaleCommandFailsEarly(slow: FaultPolicy, what: Command) returns (later: seq<Step>)
    requires slow != NO_FAULTS
    ensures var s := State(slow, 0, Some(Pending(slow, what, true)), []);
            var p := NO_FAULTS.(failAfter := Some(2));
            && CanArm(s, p, [], later)
            && var log := Armed(s, p, [], later).log;
               |log| == 2 && log[1].ours && Number(s, 1) == 1 && log[1].seen == 2 && log[1].fails
  {
    var s := State(slow, 0, Some(Pending(slow, what, true)), []);
    var z := Zeroed(Stored(s, NO_FAULTS.(failAfter := Some(2))));
    later := Took(z, [], Count);
    later := Took(z, later, Clone(what));
    later := Took(z, later, Count);
  }

  /** A command counted between the two stores is forgotten: the second under the new policy passes. */
  lemma {:induction false} LostCountFailsLate(what: Command) returns (between: seq<Step>, later: seq<Step>)
    ensures var s := State(NO_FAULTS, 0, None, []);
            var p := NO_FAULTS.(failAfter := Some(2));
            && CanArm(s, p, between, later)
            && var log := Armed(s, p, between, later).log;
               |log| == 2 && log[1].ours && Number(s, 1) == 2 && log[1].seen == 1 && !log[1].fails
  {
    var s := State(NO_FAULTS, 0, None, []);
    var first := Stored(s, NO_FAULTS.(failAfter := Some(2)));
    between := Took(first, [], Clone(what));
    between := Took(first, between, Count);
    var z := Zeroed(Run(first, between));
    later := Took(z, [], Clone(what));
    later := Took(z, later, Count);
  }

  /** Undisturbed, the two steps of a command are the one step `Shared.Consult` takes. */
  lemma {:induction false} UndisturbedConsult(s: State, what: Command)
    requires s.pending.None? && s.policy != NO_FAULTS
    ensures var after := Apply(Apply(s, Clone(what)), Count);
            && after.count == s.count + 1 && after.pending.None? && |after.log| == |s.log| + 1
            && (after.log[|s.log|].fails <==> Verdict(s.policy, s.count + 1, what.command, what.offset, what.length))
  {
  }
}
