/**
 * What the peer sees on the QMP socket (provium-qmp/src/connection.rs, and the
 * partial-write and line-reading loops of provium-qmp/src/deadline.rs).
 */
module QmpWire {
  import opened Bytes
  import opened Options
  import opened QmpCalls

  // --- the loops over the socket ---------------------------------------------------

  /** What one `write` on the socket may do; `Expired` is the budget running out before it. */
  datatype WriteOutcome = Wrote(n: nat) | Interrupted | Failed | Expired

  /** `deadline::send`: write until the line is out, whatever the socket takes each
      time. `outcomes` is what the socket and the clock do; past its end they behave. */
  method SendLine(line: bytes, outcomes: seq<WriteOutcome>) returns (ok: bool, written: bytes)
    ensures written <= line
    ensures ok ==> written == line
    ensures (forall o :: o in outcomes ==> o.Interrupted? || (o.Wrote? && o.n > 0)) ==> ok
  {
    written := [];
    var remaining, left := line, outcomes;
    while remaining != []
      invariant line == written + remaining
      invariant forall o :: o in left ==> o in outcomes
      decreases |left| + |remaining|
    {
      var outcome := Wrote(|remaining|);
      if left != [] {
        outcome, left := left[0], left[1..];
        assert outcome in outcomes;
      }
      match outcome {
        case Expired => return false, written;
        case Failed => return false, written;
        case Interrupted =>
        case Wrote(n) =>
          if n == 0 {
            return false, written;
          }
          var count := if n < |remaining| then n else |remaining|;
          written := written + remaining[..count];
          remaining := remaining[count..];
      }
    }
    // one last look at the budget, after the whole line is out
    ok := left == [] || left[0] != Expired;
    if !ok {
      assert left[0] in outcomes;
    }
  }

  /** The first line of a stream, newline included, if it has one. */
  function FirstLine(s: bytes): Option<bytes>
  {
    if s == [] then None
    else if s[0] == NEWLINE then Some([NEWLINE])
    else match FirstLine(s[1..])
      case None => None
      case Some(l) => Some([s[0]] + l)
  }

  lemma {:induction false} FirstLineOf(head: bytes, rest: bytes)
    requires NEWLINE !in head
    ensures FirstLine(head + [NEWLINE] + rest) == Some(head + [NEWLINE])
    ensures FirstLine(head) == None
  {
    if head == [] {
      assert head + [NEWLINE] + rest == [NEWLINE] + rest;
    } else {
      var s := head + [NEWLINE] + rest;
      assert s[1..] == head[1..] + [NEWLINE] + rest;
      assert NEWLINE !in head[1..];
      FirstLineOf(head[1..], rest);
      assert [head[0]] + (head[1..] + [NEWLINE]) == head + [NEWLINE];
    }
  }

  /** Index of the first `b`, or the length if there is none. */
  method Position(s: bytes, b: byte) returns (i: nat)
    ensures i <= |s| && b !in s[..i] && (i < |s| ==> s[i] == b)
  {
    i := 0;
    while i < |s| && s[i] != b
      invariant i <= |s| && b !in s[..i]
    {
      i := i + 1;
    }
  }

  datatype FillOutcome = Filled(n: nat) | FillInterrupted | FillFailed | FillExpired

  lemma {:induction false} LineFound(got: bytes, rest: bytes, end: nat)
    requires end < |rest| && rest[end] == NEWLINE && NEWLINE !in got && NEWLINE !in rest[..end]
    ensures FirstLine(got + rest) == Some(got + rest[..end + 1])
    ensures got + rest == got + rest[..end + 1] + rest[end + 1..]
  {
    var head := got + rest[..end];
    assert got + rest == head + [NEWLINE] + rest[end + 1..];
    assert got + rest[..end + 1] == head + [NEWLINE];
    FirstLineOf(head, rest[end + 1..]);
  }

  /** `deadline::read_line`: take buffered chunks until one holds a newline, and not a byte past it. */
  method ReadLine(stream: bytes, outcomes: seq<FillOutcome>) returns (line: Option<bytes>, rest: bytes)
    ensures line.Some? ==> line == FirstLine(stream) && stream == line.value + rest
    ensures FirstLine(stream).Some? && (forall o :: o in outcomes ==> o.Filled? || o.FillInterrupted?) ==> line.Some?
  {
    var got: bytes := [];
    rest := stream;
    var left := outcomes;
    while true
      invariant stream == got + rest && NEWLINE !in got
      invariant forall o :: o in left ==> o in outcomes
      decreases |left| + |rest|
    {
      var outcome := Filled(|rest|);
      if left != [] {
        outcome, left := left[0], left[1..];
        assert outcome in outcomes;
      }
      match outcome {
        case FillExpired => return None, rest;
        case FillFailed => return None, rest;
        case FillInterrupted =>
        case Filled(n) =>
          if rest == [] {
            FirstLineOf(got, []);
            assert stream == got;
            return None, rest;  // EOF during the handshake
          }
          var available := if n == 0 then rest[..1] else if n < |rest| then rest[..n] else rest;
          var end := Position(available, NEWLINE);
          if end < |available| {
            LineFound(got, rest, end);
            assert available[..end + 1] == rest[..end + 1];
            rest := rest[end + 1..];
            if left != [] && left[0] == FillExpired {
              assert left[0] in outcomes;
              return None, rest;
            }
            return Some(got + available[..end + 1]), rest;
          }
          got := got + available;
          rest := rest[|available|..];
      }
    }
  }

  // --- the socket under concurrent senders -------------------------------------------

  /** The lines of the callers in `cs`, end to end. */
  function Lines(line: map<nat, bytes>, cs: seq<nat>): bytes
    requires forall c :: c in cs ==> c in line
  {
    if cs == [] then [] else Lines(line, cs[..|cs| - 1]) + line[cs[|cs| - 1]]
  }

  /** What has been written since the last whole line. */
  function Tail(s: State): bytes
  {
    if s.owner.Some? && IsSending(s, s.owner.value) && s.owner.value in s.line
       && s.phase[s.owner.value].sent <= |s.line[s.owner.value]|
    then s.line[s.owner.value][..s.phase[s.owner.value].sent]
    else s.torn
  }

  /** The caller whose line the tail belongs to. */
  function Writer(s: State): Option<nat>
  {
    if s.failed.Some? then s.failed else s.owner
  }

  ghost predicate OnTheWire(s: State)
  {
    && (forall c :: c in s.line ==> c in s.phase && IsLine(s.line[c]))
    && (forall c :: c in s.whole ==> c in s.line)
    && s.wire == Lines(s.line, s.whole) + Tail(s)
    && (s.failed.None? ==> s.torn == [])
    && (s.failed.Some? ==> s.failed.value in s.line && s.torn <= s.line[s.failed.value])
  }

  lemma {:induction false} LinesKept(line: map<nat, bytes>, more: map<nat, bytes>, cs: seq<nat>)
    requires forall c :: c in cs ==> c in line && c in more && more[c] == line[c]
    ensures Lines(line, cs) == Lines(more, cs)
  {
    if cs != [] {
      LinesKept(line, more, cs[..|cs| - 1]);
    }
  }

  lemma {:induction false} WireUntouched(s: State, t: State)
    requires OnTheWire(s)
    requires t.line == s.line && t.whole == s.whole && t.wire == s.wire && t.torn == s.torn && t.failed == s.failed
    requires Tail(t) == Tail(s) && forall c :: c in s.phase ==> c in t.phase
    ensures OnTheWire(t)
  {
  }

  lemma {:induction false} RegisterKeepsWire(s: State, l: bytes)
    requires Shape(s) && OnTheWire(s) && IsLine(l)
    ensures OnTheWire(CallApply(s, Register(l)))
  {
    var t := CallApply(s, Register(l));
    LinesKept(s.line, t.line, s.whole);
    assert s.owner.Some? && s.owner.value == s.nextId ==> !IsSending(s, s.nextId) && !IsSending(t, s.nextId);
    assert Tail(t) == Tail(s);
  }

  lemma {:induction false} SenderOwns(s: State, c: nat)
    requires Permit(s) && ShutdownOrder(s) && IsSending(s, c)
    ensures s.owner == Some(c) && s.failed.None?
  {
  }

  lemma {:induction false} WriteKeepsWire(s: State, c: nat, n: nat)
    requires OnTheWire(s) && CallEnabled(s, Write(c, n)) && s.owner == Some(c)
    ensures OnTheWire(CallApply(s, Write(c, n)))
  {
    var t := CallApply(s, Write(c, n));
    var l, k := s.line[c], s.phase[c].sent;
    OneMorePiece(Lines(s.line, s.whole), l, k, n);
    assert Tail(s) == l[..k] && Tail(t) == l[..k + n];
  }

  lemma {:induction false} OneMorePiece(before: bytes, l: bytes, k: nat, n: nat)
    requires k + n <= |l|
    ensures (before + l[..k]) + l[k..k + n] == before + l[..k + n]
  {
    assert l[..k] + l[k..k + n] == l[..k + n];
  }

  lemma {:induction false} SendOkKeepsWire(s: State, c: nat)
    requires OnTheWire(s) && CallEnabled(s, SendOk(c)) && s.owner == Some(c) && s.failed.None?
    ensures OnTheWire(CallApply(s, SendOk(c)))
  {
    var t := CallApply(s, SendOk(c));
    assert t.whole[..|s.whole|] == s.whole;
    assert Tail(s) == s.line[c] && Tail(t) == [];
    assert Lines(t.line, t.whole) == Lines(s.line, s.whole) + s.line[c];
  }

  lemma {:induction false} SendFailsKeepsWire(s: State, c: nat)
    requires Shape(s) && Permit(s) && OnTheWire(s) && CallEnabled(s, SendFails(c))
    ensures OnTheWire(CallApply(s, SendFails(c)))
  {
    var t := CallApply(s, SendFails(c));
    assert Owns(s.phase[c]) && s.owner == Some(c);
    assert Tail(s) == t.torn == Tail(t);
  }

  lemma {:induction false} AcquireKeepsWire(s: State, c: nat)
    requires Shape(s) && Permit(s) && ShutdownOrder(s) && OnTheWire(s) && CallEnabled(s, Acquire(c))
    ensures OnTheWire(CallApply(s, Acquire(c)))
  {
    NoAcquireAfterFailure(s, c);
    var t := CallApply(s, Acquire(c));
    assert Tail(s) == [] && Tail(t) == s.line[c][..0] == [];
    WireUntouched(s, t);
  }

  lemma {:induction false} ReleaseKeepsWire(s: State, c: nat)
    requires Permit(s) && OnTheWire(s) && CallEnabled(s, Release(c))
    ensures OnTheWire(CallApply(s, Release(c)))
  {
    assert Owns(s.phase[c]) && s.owner == Some(c);
    WireUntouched(s, CallApply(s, Release(c)));
  }

  lemma {:induction false} QuietCallKeepsWire(s: State, step: CallStep)
    requires Permit(s) && OnTheWire(s) && CallEnabled(s, step)
    requires step.AcquireFails? || step.GiveUp? || step.Remove? || step.Receive?
    ensures OnTheWire(CallApply(s, step))
  {
    assert !Owns(s.phase[step.c]) && s.owner != Some(step.c);
    WireUntouched(s, CallApply(s, step));
  }

  lemma {:induction false} StepKeepsWire(s: State, step: Step)
    requires Inv(s) && OnTheWire(s) && Enabled(s, step)
    ensures OnTheWire(Apply(s, step))
  {
    match step {
      case Calling(Register(l)) => RegisterKeepsWire(s, l);
      case Calling(Write(c, n)) =>
        SenderOwns(s, c);
        WriteKeepsWire(s, c, n);
      case Calling(SendOk(c)) =>
        SenderOwns(s, c);
        SendOkKeepsWire(s, c);
      case Calling(SendFails(c)) => SendFailsKeepsWire(s, c);
      case Calling(Acquire(c)) => AcquireKeepsWire(s, c);
      case Calling(Release(c)) => ReleaseKeepsWire(s, c);
      case Calling(call) => QuietCallKeepsWire(s, call);
      case Reading(read) => ReadKeepsWire(s, read);
      case Closing(close) => CloseKeepsWire(s, close);
    }
  }

  lemma {:induction false} ReadKeepsWire(s: State, step: ReadStep)
    requires OnTheWire(s) && ReadEnabled(s, step)
    ensures OnTheWire(ReadApply(s, step))
  {
    var t := ReadApply(s, step);
    assert t.phase == s.phase && t.owner == s.owner;
    WireUntouched(s, t);
  }

  lemma {:induction false} CloseKeepsWire(s: State, step: CloseStep)
    requires Shape(s) && ShutdownOrder(s) && OnTheWire(s) && CloseEnabled(s, step)
    ensures OnTheWire(CloseApply(s, step))
  {
    if step.Return? {
      ReturnKeepsWire(s, step.who);
    } else {
      var t := CloseApply(s, step);
      assert t.owner == s.owner && t.phase == s.phase;
      WireUntouched(s, t);
    }
  }

  lemma {:induction false} ReturnKeepsWire(s: State, who: Who)
    requires Shape(s) && ShutdownOrder(s) && OnTheWire(s) && CloseEnabled(s, Return(who))
    ensures OnTheWire(CloseApply(s, Return(who)))
  {
    var t := CloseApply(s, Return(who));
    assert who.Caller? ==> s.phase[who.n] == Aborting;
    assert Tail(t) == Tail(s);
    WireUntouched(s, t);
  }

  // --- whole runs ---------------------------------------------------------------------

  lemma {:induction false} OnTheWireAlways(steps: seq<Step>)
    requires CanRun(Init(), steps)
    ensures OnTheWire(Run(Init(), steps))
  {
    if steps != [] {
      var front := steps[..|steps| - 1];
      OnTheWireAlways(front);
      InvAlways(front);
      StepKeepsWire(Run(Init(), front), steps[|steps| - 1]);
    }
  }

  /**
   * Wire integrity. With any number of concurrent senders the socket has carried the
   * whole lines of the callers whose sends succeeded, in that order, and after
   * them at most a prefix of one more line: the current sender's or the failed one's.
   */
  lemma {:induction false} WireIntegrity(steps: seq<Step>)
    requires CanRun(Init(), steps)
    ensures var s := Run(Init(), steps);
            && (forall c :: c in s.whole ==> c in s.line && IsLine(s.line[c]))
            && s.wire == Lines(s.line, s.whole) + Tail(s)
            && (Tail(s) != [] ==>
                  var w := Writer(s);
                  w.Some? && w.value in s.line && IsLine(s.line[w.value]) && Tail(s) <= s.line[w.value])
  {
    InvAlways(steps);
    OnTheWireAlways(steps);
  }

  /** After a failed send, or once the socket is severed, nothing is ever written again. */
  lemma {:induction false} NothingAfterFailure(s: State, more: seq<Step>)
    requires Inv(s) && (s.failed.Some? || s.severed) && CanRun(s, more)
    ensures Run(s, more).wire == s.wire
    ensures Inv(Run(s, more)) && (Run(s, more).failed.Some? || Run(s, more).severed)
  {
    if more != [] {
      var front := more[..|more| - 1];
      NothingAfterFailure(s, front);
      StepKeepsInv(Run(s, front), more[|more| - 1]);
      FrozenStep(Run(s, front), more[|more| - 1]);
    }
  }

  lemma {:induction false} FrozenCall(s: State, step: CallStep)
    requires ShutdownOrder(s) && (s.failed.Some? || s.severed) && CallEnabled(s, step)
    ensures CallApply(s, step).wire == s.wire && (CallApply(s, step).failed.Some? || CallApply(s, step).severed)
  {
  }

  lemma {:induction false} FrozenStep(s: State, step: Step)
    requires ShutdownOrder(s) && (s.failed.Some? || s.severed) && Enabled(s, step)
    ensures Apply(s, step).wire == s.wire && (Apply(s, step).failed.Some? || Apply(s, step).severed)
  {
    match step {
      case Calling(call) => FrozenCall(s, call);
      case Reading(read) => ReaderNeverWrites(s, read);
      case Closing(close) => ShutdownNeverWrites(s, close);
    }
  }

  /** Only callers write to the socket. */
  lemma {:induction false} ReaderNeverWrites(s: State, step: ReadStep)
    requires ReadEnabled(s, step)
    ensures var t := ReadApply(s, step); t.wire == s.wire && t.failed == s.failed && t.severed == s.severed
  {
  }

  lemma {:induction false} ShutdownNeverWrites(s: State, step: CloseStep)
    requires CloseEnabled(s, step)
    ensures var t := CloseApply(s, step); t.wire == s.wire && t.failed == s.failed && (s.severed ==> t.severed)
  {
    match step {
      case Return(who) =>
      case SeverSocket(who) =>
      case CloseSlot(who) =>
      case _ =>
    }
  }

  // --- the peer ------------------------------------------------------------------------

  /** A peer reading whole lines, and what it is left with. */
  function ReadLines(s: bytes): (seq<bytes>, bytes)
  {
    match FirstLine(s)
    case None => ([], s)
    case Some(l) =>
      FirstLineIsPrefix(s);
      var (more, rest) := ReadLines(s[|l|..]);
      ([l] + more, rest)
  }

  lemma {:induction false} FirstLineIsPrefix(s: bytes)
    ensures FirstLine(s).Some? ==> 0 < |FirstLine(s).value| <= |s|
  {
    if s != [] && s[0] != NEWLINE {
      FirstLineIsPrefix(s[1..]);
    }
  }

  function LineList(line: map<nat, bytes>, cs: seq<nat>): seq<bytes>
    requires forall c :: c in cs ==> c in line
  {
    seq(|cs|, i requires 0 <= i < |cs| => line[cs[i]])
  }

  /** However the lines were interleaved in time, the peer reads exactly those commands. */
  lemma {:induction false} PeerReadsCommands(ls: seq<bytes>, tail: bytes)
    requires (forall l :: l in ls ==> IsLine(l)) && NEWLINE !in tail
    ensures ReadLines(Joined(ls) + tail) == (ls, tail)
  {
    if ls == [] {
      assert Joined(ls) + tail == tail;
      FirstLineOf(tail, []);
    } else {
      var l, more := ls[0], Joined(ls[1..]) + tail;
      assert l in ls;
      var head := l[..|l| - 1];
      assert Joined(ls) + tail == head + [NEWLINE] + more;
      FirstLineOf(head, more);
      assert head + [NEWLINE] == l;
      assert (Joined(ls) + tail)[|l|..] == more;
      PeerReadsCommands(ls[1..], tail);
      assert [l] + ls[1..] == ls;
    }
  }

  function Joined(ls: seq<bytes>): bytes
  {
    if ls == [] then [] else ls[0] + Joined(ls[1..])
  }

  lemma {:induction false} JoinedSnoc(ls: seq<bytes>, l: bytes)
    ensures Joined(ls + [l]) == Joined(ls) + l
  {
    if ls == [] {
      assert [l][1..] == [];
    } else {
      JoinedSnoc(ls[1..], l);
      assert (ls + [l])[1..] == ls[1..] + [l];
    }
  }

  lemma {:induction false} LinesAreJoined(line: map<nat, bytes>, cs: seq<nat>)
    requires forall c :: c in cs ==> c in line
    ensures Lines(line, cs) == Joined(LineList(line, cs))
  {
    if cs != [] {
      var front := cs[..|cs| - 1];
      LinesAreJoined(line, front);
      JoinedSnoc(LineList(line, front), line[cs[|cs| - 1]]);
      assert LineList(line, cs) == LineList(line, front) + [line[cs[|cs| - 1]]];
    }
  }

  lemma {:induction false} SentLinesAreLines(s: State)
    requires (forall c :: c in s.whole ==> c in s.line && IsLine(s.line[c]))
    ensures forall l :: l in LineList(s.line, s.whole) ==> IsLine(l)
  {
    var ls := LineList(s.line, s.whole);
    forall l | l in ls ensures IsLine(l) {
      var i :| 0 <= i < |ls| && ls[i] == l;
      assert s.whole[i] in s.whole;
    }
  }

  /** A prefix of a line holds its newline only if it is the whole line. */
  lemma {:induction false} PrefixOfLine(l: bytes, t: bytes)
    requires IsLine(l) && t <= l
    ensures NEWLINE in t <==> t == l
  {
    if |t| < |l| {
      assert t <= l[..|l| - 1];
    }
  }

  lemma {:induction false} PeerReadsOneMore(ls: seq<bytes>, tail: bytes)
    requires (forall l :: l in ls ==> IsLine(l)) && IsLine(tail)
    ensures ReadLines(Joined(ls) + tail) == (ls + [tail], [])
  {
    JoinedSnoc(ls, tail);
    PeerReadsCommands(ls + [tail], []);
    assert Joined(ls + [tail]) + [] == Joined(ls) + tail;
  }

  /**
   * What the peer executes. In every interleaving it has read the commands of the
   * successful senders, in order, and one more exactly when the sender that has not
   * succeeded, still writing or failed, has its whole line out.
   */
  lemma {:induction false} PeerSeesSends(steps: seq<Step>)
    requires CanRun(Init(), steps)
    ensures var s := Run(Init(), steps);
            && (forall c :: c in s.whole ==> c in s.line)
            && ReadLines(s.wire) == (if NEWLINE in Tail(s) then (LineList(s.line, s.whole) + [Tail(s)], [])
                                     else (LineList(s.line, s.whole), Tail(s)))
            && (NEWLINE in Tail(s) <==>
                  Writer(s).Some? && Writer(s).value in s.line && Tail(s) == s.line[Writer(s).value])
  {
    WireIntegrity(steps);
    OnTheWireAlways(steps);
    var s := Run(Init(), steps);
    LinesAreJoined(s.line, s.whole);
    SentLinesAreLines(s);
    var ls := LineList(s.line, s.whole);
    if Tail(s) != [] {
      PrefixOfLine(s.line[Writer(s).value], Tail(s));
    }
    if NEWLINE in Tail(s) {
      PeerReadsOneMore(ls, Tail(s));
    } else {
      PeerReadsCommands(ls, Tail(s));
    }
  }

  /**
   * A send that fails may still be executed: its budget can run out after the last byte
   * is out. The peer has the command, and its caller was told it failed.
   */
  lemma {:induction false} FailedSendIsExecuted(l: bytes) returns (steps: seq<Step>)
    requires IsLine(l)
    ensures CanRun(Init(), steps)
    ensures var s := Run(Init(), steps);
            s.whole == [] && s.failed == Some(1) && s.wire == l && ReadLines(s.wire) == ([l], [])
  {
    steps := Took([], Calling(Register(l)));
    steps := Took(steps, Calling(Acquire(1)));
    steps := Took(steps, Calling(Write(1, |l|)));
    steps := Took(steps, Calling(SendFails(1)));
    assert l[0..|l|] == l && [] + l == l;
    PeerReadsOneMore([], l);
    assert [] + [l] == [l];
  }
}
