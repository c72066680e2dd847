/**
 * The re-usable timed barrier (`BarrierState::arrive` of provium-host/src/lab.rs) as
 * a step relation. A caller's first step runs from taking the lock to its return
 * or its first wait; every later step is one wakeup, released, timed out or spurious.
 *
 * `generation` wraps at 64 bits as in the source; `rounds` counts releases
 * without wrapping.
 */
module Barrier {
  import opened Options

  datatype Status =
    | Waiting(round: nat)
    | Returned(ok: bool, arrivedIn: Option<nat>)  // the round it was counted in, if it ever was

  datatype State = State(
    arrived: nat,
    generation: nat,
    expected: Option<nat>,
    rounds: nat,
    callers: map<nat, Status>)

  /** 64-bit `wrapping_add` on the way to `n`. */
  function Wrap(n: nat): nat
  {
    n % 0x1_0000_0000_0000_0000
  }

  function Init(): State
  {
    State(0, 0, None, 0, map[])
  }

  datatype Step =
    | Arrive(c: nat, target: nat, expired: bool)
    | Wake(c: nat, timedOut: bool, expired: bool)

  predicate Enabled(s: State, step: Step)
  {
    match step
    case Arrive(c, _, _) => c !in s.callers
    case Wake(c, _, _) => c in s.callers && s.callers[c].Waiting?
  }

  function Go(s: State, c: nat, status: Status): State
  {
    s.(callers := s.callers[c := status])
  }

  /** The roll-back of a caller that arrived in generation `mine` and gives up. */
  function GiveUp(s: State, c: nat, mine: nat, round: nat): State
  {
    var t := if s.generation == mine && s.arrived > 0 then s.(arrived := s.arrived - 1) else s;
    Go(t, c, Returned(false, Some(round)))
  }

  function Arrived(s: State, c: nat, target: nat, expired: bool): State
  {
    if s.expected.Some? && s.expected.value != target then
      Go(s, c, Returned(false, None))
    else
      var t := s.(expected := Some(target), arrived := s.arrived + 1);
      if t.arrived >= target then
        Go(t.(arrived := 0, generation := Wrap(t.generation + 1), rounds := t.rounds + 1), c, Returned(true, Some(s.rounds)))
      else if expired then
        GiveUp(t, c, s.generation, s.rounds)
      else
        Go(t, c, Waiting(s.rounds))
  }

  function Woken(s: State, c: nat, timedOut: bool, expired: bool): State
    requires c in s.callers && s.callers[c].Waiting?
  {
    var round := s.callers[c].round;
    var mine := Wrap(round);
    if s.generation != mine then Go(s, c, Returned(true, Some(round)))
    else if timedOut || expired then GiveUp(s, c, mine, round)
    else s
  }

  function Apply(s: State, step: Step): State
    requires Enabled(s, step)
  {
    match step
    case Arrive(c, target, expired) => Arrived(s, c, target, expired)
    case Wake(c, timedOut, expired) => Woken(s, c, timedOut, expired)
  }

  predicate CanRun(s: State, steps: seq<Step>)
    decreases |steps|, 0
  {
    steps == [] || (CanRun(s, steps[..|steps| - 1]) && Enabled(Run(s, steps[..|steps| - 1]), steps[|steps| - 1]))
  }

  function Run(s: State, steps: seq<Step>): State
    requires CanRun(s, steps)
    decreases |steps|, 1
  {
    if steps == [] then s else Apply(Run(s, steps[..|steps| - 1]), steps[|steps| - 1])
  }

  // --- what a round is ----------------------------------------------------------------

  predicate InRound(status: Status, r: nat)
  {
    status == Waiting(r) || status == Returned(true, Some(r))
  }

  /** The callers round `r` is made of: still waiting in it, or returned true from it. */
  function Members(s: State, r: nat): set<nat>
  {
    set c | c in s.callers && InRound(s.callers[c], r)
  }

  /** One caller is enough for a count of zero as for a count of one. */
  function Size(target: nat): nat
  {
    if target == 0 then 1 else target
  }

  ghost predicate Counts(s: State)
  {
    && (s.expected.None? ==> s.rounds == 0 && s.arrived == 0)
    && (s.expected.Some? ==> s.arrived < Size(s.expected.value))
    && (forall c :: c in s.callers ==>
          match s.callers[c]
          case Waiting(r) => r <= s.rounds
          case Returned(true, Some(r)) => r < s.rounds
          case Returned(true, None) => false
          case Returned(false, _) => true)
    && s.arrived == |Members(s, s.rounds)|
    && (forall r: nat :: r < s.rounds ==> |Members(s, r)| == Size(s.expected.value))
    && (forall r: nat :: r > s.rounds ==> Members(s, r) == {})
  }

  ghost predicate Inv(s: State)
  {
    s.generation == Wrap(s.rounds) && Counts(s)
  }

  /** Changing one caller's status changes the rounds it was and is in, and no other. */
  lemma {:induction false} MembersAfter(s: State, t: State, c: nat, r: nat)
    requires c in t.callers && t.callers == s.callers[c := t.callers[c]]
    ensures Members(t, r) == if InRound(t.callers[c], r) then Members(s, r) + {c} else Members(s, r) - {c}
  {
  }

  /** Nobody gives up on a released round because the releases since are whole turns of the counter. */
  ghost predicate Timely(s: State, step: Step)
  {
    step.Wake? && (step.timedOut || step.expired) && step.c in s.callers && s.callers[step.c].Waiting? ==>
      s.callers[step.c].round < s.rounds ==> Wrap(s.rounds - s.callers[step.c].round) != 0
  }

  ghost predicate TimelyRun(s: State, steps: seq<Step>)
    requires CanRun(s, steps)
  {
    steps == [] || (TimelyRun(s, steps[..|steps| - 1]) && Timely(Run(s, steps[..|steps| - 1]), steps[|steps| - 1]))
  }

  /** Fewer than 2^64 releases in all is timely enough. */
  lemma {:induction false} FewRoundsAreTimely(steps: seq<Step>)
    requires CanRun(Init(), steps) && Run(Init(), steps).rounds < 0x1_0000_0000_0000_0000
    ensures TimelyRun(Init(), steps)
  {
    if steps != [] {
      FewRoundsAreTimely(steps[..|steps| - 1]);
    }
  }

  /** A waiter is told its round was released exactly when the releases since are not whole turns of the counter. */
  lemma {:induction false} ReleaseSeen(rounds: nat, round: nat)
    requires round <= rounds
    ensures Wrap(rounds) != Wrap(round) <==> Wrap(rounds - round) != 0
    ensures rounds - round < 0x1_0000_0000_0000_0000 ==> (Wrap(rounds) != Wrap(round) <==> round < rounds)
  {
  }

  /** Roll-back in the current round takes the caller out of it, and out of the count. */
  lemma {:induction false} RollbackKeepsInv(s: State, c: nat)
    requires Inv(s) && c in s.callers && s.callers[c] == Waiting(s.rounds)
    ensures s.arrived > 0
    ensures Inv(GiveUp(s, c, s.generation, s.rounds))
  {
    var t := GiveUp(s, c, s.generation, s.rounds);
    assert c in Members(s, s.rounds);
    forall r: nat {
      MembersAfter(s, t, c, r);
    }
  }

  /** A caller of a released round returns true and stays one of its callers. */
  lemma {:induction false} ReturnKeepsInv(s: State, c: nat, round: nat)
    requires Inv(s) && c in s.callers && s.callers[c] == Waiting(round) && round < s.rounds
    ensures Inv(Go(s, c, Returned(true, Some(round))))
  {
    var t := Go(s, c, Returned(true, Some(round)));
    forall r: nat ensures Members(t, r) == Members(s, r) {
      MembersAfter(s, t, c, r);
      assert r == round ==> c in Members(s, r);
      assert r != round ==> c !in Members(s, r);
    }
  }

  lemma {:induction false} WakeKeepsInv(s: State, c: nat, timedOut: bool, expired: bool)
    requires Inv(s) && Enabled(s, Wake(c, timedOut, expired)) && Timely(s, Wake(c, timedOut, expired))
    ensures Inv(Woken(s, c, timedOut, expired))
  {
    var round := s.callers[c].round;
    ReleaseSeen(s.rounds, round);
    if round == s.rounds {
      if timedOut || expired {
        RollbackKeepsInv(s, c);
      }
    } else if s.generation != Wrap(round) {
      ReturnKeepsInv(s, c, round);
    }
  }

  /** That guard is exact: a wakeup keeps the counts of all rounds if and only if it is timely. */
  lemma {:induction false} TimelyIsExact(s: State, c: nat, timedOut: bool, expired: bool)
    requires Inv(s) && Enabled(s, Wake(c, timedOut, expired))
    ensures Inv(Woken(s, c, timedOut, expired)) <==> Timely(s, Wake(c, timedOut, expired))
  {
    var round := s.callers[c].round;
    ReleaseSeen(s.rounds, round);
    if Timely(s, Wake(c, timedOut, expired)) {
      WakeKeepsInv(s, c, timedOut, expired);
    } else {
      var t := Woken(s, c, timedOut, expired);
      MembersAfter(s, t, c, round);
      assert c in Members(s, round) && t.rounds == s.rounds && t.expected == s.expected;
      assert |Members(t, round)| == |Members(s, round)| - 1;
    }
  }

  lemma {:induction false} NewcomerMembers(s: State, t: State, c: nat)
    requires c !in s.callers && c in t.callers && t.callers == s.callers[c := t.callers[c]]
    ensures forall r: nat :: Members(t, r) == if InRound(t.callers[c], r) then Members(s, r) + {c} else Members(s, r)
    ensures forall r: nat :: c !in Members(s, r)
  {
    forall r: nat
      ensures Members(t, r) == if InRound(t.callers[c], r) then Members(s, r) + {c} else Members(s, r)
    {
      MembersAfter(s, t, c, r);
    }
  }

  /** A caller that adds nobody to any round: refused, or counted and rolled back at once. */
  lemma {:induction false} OutsiderKeepsCounts(s: State, t: State, c: nat, round: Option<nat>)
    requires Counts(s) && c !in s.callers
    requires t == Go(s, c, Returned(false, round)).(expected := t.expected) && (s.expected.Some? ==> t.expected == s.expected)
    ensures Counts(t)
  {
    NewcomerMembers(s, t, c);
  }

  lemma {:induction false} JoinKeepsCounts(s: State, t: State, c: nat, target: nat)
    requires Counts(s) && c !in s.callers && (s.expected.None? || s.expected == Some(target)) && s.arrived + 1 < target
    requires t == Go(s, c, Waiting(s.rounds)).(expected := Some(target), arrived := s.arrived + 1)
    ensures Counts(t)
  {
    NewcomerMembers(s, t, c);
  }

  lemma {:induction false} NextGeneration(rounds: nat)
    ensures Wrap(Wrap(rounds) + 1) == Wrap(rounds + 1)
  {
  }

  lemma {:induction false} ReleaseKeepsCounts(s: State, t: State, c: nat, target: nat)
    requires Counts(s) && c !in s.callers && (s.expected.None? || s.expected == Some(target)) && s.arrived + 1 >= target
    requires t == State(0, Wrap(s.generation + 1), Some(target), s.rounds + 1, s.callers[c := Returned(true, Some(s.rounds))])
    ensures Counts(t)
  {
    NewcomerMembers(s, t, c);
    assert |Members(t, s.rounds)| == s.arrived + 1 == Size(target);
    forall r: nat | r < t.rounds
      ensures |Members(t, r)| == Size(target)
    {
      if r != s.rounds {
        assert Members(t, r) == Members(s, r);
      }
    }
    forall r: nat | r >= t.rounds
      ensures Members(t, r) == {}
    {
      assert Members(t, r) == Members(s, r);
    }
  }

  lemma {:induction false} ArriveKeepsInv(s: State, c: nat, target: nat, expired: bool)
    requires Inv(s) && c !in s.callers
    ensures Inv(Arrived(s, c, target, expired))
  {
    var t := Arrived(s, c, target, expired);
    if s.expected.Some? && s.expected.value != target {
      OutsiderKeepsCounts(s, t, c, None);
    } else if s.arrived + 1 >= target {
      ReleaseKeepsCounts(s, t, c, target);
      NextGeneration(s.rounds);
    } else if expired {
      OutsiderKeepsCounts(s, t, c, Some(s.rounds));
    } else {
      JoinKeepsCounts(s, t, c, target);
    }
  }

  lemma {:induction false} StepKeepsInv(s: State, step: Step)
    requires Inv(s) && Enabled(s, step) && Timely(s, step)
    ensures Inv(Apply(s, step))
  {
    match step {
      case Arrive(c, target, expired) => ArriveKeepsInv(s, c, target, expired);
      case Wake(c, timedOut, expired) => WakeKeepsInv(s, c, timedOut, expired);
    }
  }

  lemma {:induction false} InvAlways(steps: seq<Step>)
    requires CanRun(Init(), steps) && TimelyRun(Init(), steps)
    ensures Inv(Run(Init(), steps))
  {
    if steps == [] {
      assert forall r: nat :: Members(Init(), r) == {};
    } else {
      var front := steps[..|steps| - 1];
      InvAlways(front);
      StepKeepsInv(Run(Init(), front), steps[|steps| - 1]);
    }
  }

  /**
   * All or nothing. In every interleaving, with timeouts, spurious wakeups and
   * mismatched counts: `arrived` is the number of callers waiting in the current
   * round, and every released round consists of exactly `count` callers (one if the
   * count is zero), each of whom is still asleep or has returned true.
   */
  lemma {:induction false} AllOrNothing(steps: seq<Step>)
    requires CanRun(Init(), steps) && TimelyRun(Init(), steps)
    ensures var s := Run(Init(), steps);
            && s.arrived == |set c | c in s.callers && s.callers[c] == Waiting(s.rounds)|
            && (forall r: nat :: r < s.rounds ==> s.expected.Some? && |Members(s, r)| == Size(s.expected.value))
  {
    InvAlways(steps);
    var s := Run(Init(), steps);
    assert Members(s, s.rounds) == set c | c in s.callers && s.callers[c] == Waiting(s.rounds);
  }

  /** Once nobody of a released round is asleep, exactly that many have returned true. */
  lemma {:induction false} TrueExactlyCountTimes(steps: seq<Step>, r: nat)
    requires CanRun(Init(), steps) && TimelyRun(Init(), steps)
    requires r < Run(Init(), steps).rounds
    requires forall c :: c in Run(Init(), steps).callers ==> Run(Init(), steps).callers[c] != Waiting(r)
    ensures var s := Run(Init(), steps);
            s.expected.Some? && |set c | c in s.callers && s.callers[c] == Returned(true, Some(r))| == Size(s.expected.value)
  {
    InvAlways(steps);
    var s := Run(Init(), steps);
    assert Members(s, r) == set c | c in s.callers && s.callers[c] == Returned(true, Some(r));
  }

  lemma {:induction false} ReleasedWake(s: State, c: nat, timedOut: bool, expired: bool, r: nat)
    requires Inv(s) && Enabled(s, Wake(c, timedOut, expired)) && Timely(s, Wake(c, timedOut, expired)) && r < s.rounds
    ensures Members(Woken(s, c, timedOut, expired), r) == Members(s, r)
    ensures Woken(s, c, timedOut, expired).rounds == s.rounds
  {
    var round, t := s.callers[c].round, Woken(s, c, timedOut, expired);
    ReleaseSeen(s.rounds, round);
    MembersAfter(s, t, c, r);
    assert c in Members(s, r) <==> r == round;
    assert s.generation != Wrap(round) ==> t.callers[c] == Returned(true, Some(round));
  }

  lemma {:induction false} ReleasedArrival(s: State, c: nat, target: nat, expired: bool, r: nat)
    requires Inv(s) && c !in s.callers && r < s.rounds
    ensures Members(Arrived(s, c, target, expired), r) == Members(s, r)
    ensures s.rounds <= Arrived(s, c, target, expired).rounds
  {
    var t := Arrived(s, c, target, expired);
    MembersAfter(s, t, c, r);
    assert c !in Members(s, r) && !InRound(t.callers[c], r);
  }

  lemma {:induction false} ReleasedStep(s: State, step: Step, r: nat)
    requires Inv(s) && Enabled(s, step) && Timely(s, step) && r < s.rounds
    ensures Members(Apply(s, step), r) == Members(s, r) && s.rounds <= Apply(s, step).rounds
  {
    match step {
      case Wake(c, timedOut, expired) => ReleasedWake(s, c, timedOut, expired, r);
      case Arrive(c, target, expired) => ReleasedArrival(s, c, target, expired, r);
    }
  }

  /** A released round never changes: none of its callers ever returns false, and nobody joins it. */
  lemma {:induction false} ReleasedRoundIsFinal(s: State, steps: seq<Step>, r: nat)
    requires Inv(s) && r < s.rounds && CanRun(s, steps) && TimelyRun(s, steps)
    ensures Members(Run(s, steps), r) == Members(s, r)
    ensures Inv(Run(s, steps)) && s.rounds <= Run(s, steps).rounds
  {
    if steps != [] {
      var front := steps[..|steps| - 1];
      ReleasedRoundIsFinal(s, front, r);
      StepKeepsInv(Run(s, front), steps[|steps| - 1]);
      ReleasedStep(Run(s, front), steps[|steps| - 1], r);
    }
  }

  /** A caller that returned keeps its answer and is in no round it returned false from, ever after. */
  lemma {:induction false} GoneStaysGone(s: State, steps: seq<Step>, c: nat)
    requires CanRun(s, steps) && c in s.callers && s.callers[c].Returned?
    ensures c in Run(s, steps).callers && Run(s, steps).callers[c] == s.callers[c]
    ensures !s.callers[c].ok ==> forall r: nat :: c !in Members(Run(s, steps), r)
  {
    if steps != [] {
      GoneStaysGone(s, steps[..|steps| - 1], c);
    }
  }

  lemma {:induction false} CountIsFixed(s: State, steps: seq<Step>)
    requires CanRun(s, steps) && s.expected.Some?
    ensures Run(s, steps).expected == s.expected
  {
    if steps != [] { CountIsFixed(s, steps[..|steps| - 1]); }
  }

  /**
   * The first arrival fixes the count for good: whatever happens meanwhile, an arrival with a
   * different one is refused, changes no counter, and is in no round ever after.
   */
  lemma {:induction false} MismatchRefused(s: State, steps: seq<Step>, c: nat, target: nat, expired: bool, more: seq<Step>)
    requires CanRun(s, steps) && s.expected.Some? && s.expected.value != target && c !in Run(s, steps).callers
    requires CanRun(Arrived(Run(s, steps), c, target, expired), more)
    ensures var now := Run(s, steps);
            Arrived(now, c, target, expired) == now.(callers := now.callers[c := Returned(false, None)])
    ensures forall r: nat :: c !in Members(Run(Arrived(Run(s, steps), c, target, expired), more), r)
  {
    CountIsFixed(s, steps);
    GoneStaysGone(Arrived(Run(s, steps), c, target, expired), more, c);
  }

  // --- edges of the claim --------------------------------------------------------------

  /** A count of zero releases a round of one caller, not of none. */
  lemma {:induction false} CountZeroReleasesOne(c: nat)
    ensures var s := Arrived(Init(), c, 0, false); s.rounds == 1 && Members(s, 0) == {c}
  {
    var s := Arrived(Init(), c, 0, false);
    MembersAfter(Init(), s, c, 0);
    assert Members(Init(), 0) == {};
  }

  lemma {:induction false} Took(before: seq<Step>, step: Step) returns (steps: seq<Step>)
    requires CanRun(Init(), before) && Enabled(Run(Init(), before), step)
    ensures CanRun(Init(), steps) && Run(Init(), steps) == Apply(Run(Init(), before), step)
  {
    steps := before + [step];
    assert steps[..|before|] == before;
  }

  /** Caller 0 still asleep in round 0 after `k` releases, nobody else waiting to be counted. */
  ghost predicate Asleep(s: State, k: nat)
  {
    && s.rounds == k && s.generation == Wrap(k) && s.arrived == 0 && s.expected == Some(2)
    && 0 in s.callers && s.callers[0] == Waiting(0)
    && (forall c :: c in s.callers ==> c < 2 * k)
  }

  lemma {:induction false} OneMoreRound(before: seq<Step>, k: nat) returns (steps: seq<Step>)
    requires CanRun(Init(), before) && Asleep(Run(Init(), before), k) && k > 0
    ensures CanRun(Init(), steps) && Asleep(Run(Init(), steps), k + 1)
  {
    PairReleases(Run(Init(), before), k);
    steps := Took(before, Arrive(2 * k, 2, false));
    steps := Took(steps, Arrive(2 * k + 1, 2, false));
  }

  lemma {:induction false} PairReleases(s: State, k: nat)
    requires Asleep(s, k) && k > 0
    ensures 2 * k !in s.callers
    ensures var t := Arrived(s, 2 * k, 2, false);
            2 * k + 1 !in t.callers && Asleep(Arrived(t, 2 * k + 1, 2, false), k + 1)
  {
    NextGeneration(k);
    var t := Arrived(s, 2 * k, 2, false);
    assert t == s.(arrived := 1, callers := s.callers[2 * k := Waiting(k)]);
  }

  lemma {:induction false} SleepThrough(k: nat) returns (steps: seq<Step>)
    requires k > 0
    ensures CanRun(Init(), steps) && Asleep(Run(Init(), steps), k)
  {
    if k == 1 {
      steps := Took([], Arrive(0, 2, false));
      steps := Took(steps, Arrive(1, 2, false));
    } else {
      steps := SleepThrough(k - 1);
      steps := OneMoreRound(steps, k - 1);
    }
  }

  /** Timeliness is needed: a caller asleep through 2^64 releases sees its own generation
      again, and returns false although its round was released. */
  lemma {:induction false} WrapLosesRelease() returns (steps: seq<Step>)
    ensures CanRun(Init(), steps)
    ensures var s := Run(Init(), steps);
            0 in s.callers && s.callers[0] == Returned(false, Some(0)) && s.rounds > 0
  {
    steps := SleepThrough(0x1_0000_0000_0000_0000);
    steps := Took(steps, Wake(0, true, false));
  }
}
