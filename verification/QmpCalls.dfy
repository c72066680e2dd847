/**
 * The QMP client's command path as a step relation (provium-qmp/src/connection.rs):
 * many callers, one writer permit, a pending-reply map, one reader thread,
 * and any number of threads running `shutdown`. Each step is one lock
 * section, one socket call or one channel operation of the code; a timeout
 * may strike wherever the code looks at its budget.
 */
module QmpCalls {
  import opened Bytes
  import opened Decimal
  import opened Options

  const NEWLINE: byte := 10

  /** Outcome of a command as the reader classifies it, or the connection's end. */
  datatype Message = Returned(value: string) | Rejected(cls: string, desc: string) | Closed

  /** A reply line: its id and whichever of `return` and `error` it carries. */
  datatype ReplyLine = ReplyLine(id: string, ret: Option<string>, err: Option<(Option<string>, Option<string>)>)

  function Or(o: Option<string>, default: string): string
  {
    match o
    case Some(s) => s
    case None => default
  }

  function Classify(line: ReplyLine): Message
  {
    if line.ret.Some? then Returned(line.ret.value)
    else if line.err.Some? then Rejected(Or(line.err.value.0, "Unknown"), Or(line.err.value.1, ""))
    else Rejected("MalformedResponse", "QMP reply had neither `return` nor `error`")
  }

  /** A part of an error, or what stands for it when it is absent. */
  predicate TellsPart(part: Option<string>, text: string, absent: string)
  {
    part == Some(text) || (part == None && text == absent)
  }

  /** What a reply line tells its caller. */
  predicate Tells(line: ReplyLine, m: Message)
  {
    match m
    case Returned(v) => line.ret == Some(v)
    case Rejected(cls, desc) =>
      && line.ret == None
      && (line.err == None ==> cls == "MalformedResponse")
      && (line.err.Some? ==> TellsPart(line.err.value.0, cls, "Unknown") && TellsPart(line.err.value.1, desc, ""))
    case Closed => false
  }

  /** Success only from a return, an error's own class and description, and nothing else. */
  lemma {:induction false} ClassifyTells(line: ReplyLine)
    ensures Tells(line, Classify(line))
    ensures Classify(line).Returned? <==> line.ret.Some?
  {
  }

  // --- command ids ------------------------------------------------------------

  function CommandId(n: nat): string
  {
    "c" + Digits(n)
  }

  /** A reply's id names at most one caller. */
  lemma {:induction false} CommandIdInjective(m: nat, n: nat)
    requires CommandId(m) == CommandId(n)
    ensures m == n
  {
    assert CommandId(m)[1..] == Digits(m) && CommandId(n)[1..] == Digits(n);
    DigitsInjective(m, n);
  }

  // --- state ------------------------------------------------------------------

  datatype Phase =
    | Registered           // its entry is in the pending map; wants the writer
    | Sending(sent: nat)   // owns the stream, this many bytes written
    | Aborting             // its send failed; it is running shutdown, still the owner
    | Releasing(ok: bool)  // about to give the writer back
    | Blocked              // waiting on its reply channel
    | Removing             // about to remove its own entry and return an error
    | Done

  /** A thread inside `shutdown`, by what it does next. */
  datatype Shutting = Sever | CloseWriter | CloseLog | Drain | Deliver(held: set<nat>) | Finished

  datatype Who = Caller(n: nat) | Closer(k: nat)

  datatype Reader = Idle | Holding(caller: nat, message: Message) | Gone

  datatype State = State(
    nextId: nat,
    line: map<nat, bytes>,         // each caller's request line
    phase: map<nat, Phase>,
    stream: bool,                  // WriterSlot.stream is Some
    owner: Option<nat>,            // WriterSlot.busy, and whose send it is
    closed: bool,                  // WriterSlot.closed
    severed: bool,                 // the socket has been shut down
    pending: set<nat>,
    sent: map<nat, seq<Message>>,  // everything ever sent on each reply channel
    reader: Reader,
    replies: set<ReplyLine>,       // reply lines read so far
    shutting: map<Who, Shutting>,
    wire: bytes,                   // everything ever written to the socket
    whole: seq<nat>,               // callers whose send returned Ok, in order
    failed: Option<nat>,           // the caller whose send failed, if any
    torn: bytes)                   // what that caller had written of its line

  function Init(): State
  {
    State(1, map[], map[], true, None, false, false, {}, map[], Idle, {}, map[], [], [], None, [])
  }

  /** A serialised request: no newline but the one that ends it. */
  predicate IsLine(l: bytes)
  {
    l != [] && l[|l| - 1] == NEWLINE && NEWLINE !in l[..|l| - 1]
  }

  /** What a caller inside `execute_timeout` does. */
  datatype CallStep =
    | Register(l: bytes)
    | Acquire(c: nat)
    | AcquireFails(c: nat)
    | Write(c: nat, n: nat)
    | SendOk(c: nat)
    | SendFails(c: nat)
    | Release(c: nat)
    | GiveUp(c: nat)
    | Remove(c: nat)
    | Receive(c: nat)

  /** What the reader thread does. */
  datatype ReadStep =
    | ReadReply(reply: ReplyLine, c: nat)
    | DropReply(reply: ReplyLine)
    | HandReply
    | ReaderExits(k: nat)

  /** What a thread inside `shutdown` does. */
  datatype CloseStep =
    | StartCloser(k: nat)
    | SeverSocket(who: Who)
    | CloseSlot(who: Who)
    | CloseEventLog(who: Who)
    | DrainPending(who: Who)
    | Hand(who: Who, c: nat)
    | Return(who: Who)

  datatype Step = Calling(call: CallStep) | Reading(read: ReadStep) | Closing(close: CloseStep)

  predicate At(s: State, c: nat, p: Phase)
  {
    c in s.phase && s.phase[c] == p
  }

  predicate IsSending(s: State, c: nat)
  {
    c in s.phase && s.phase[c].Sending?
  }

  /** Between taking the stream and giving it back. */
  predicate Owns(p: Phase)
  {
    p.Sending? || p.Aborting? || p.Releasing?
  }

  function Go(s: State, c: nat, p: Phase): State
  {
    s.(phase := s.phase[c := p])
  }

  predicate CallEnabled(s: State, step: CallStep)
  {
    match step
    case Register(l) => IsLine(l)
    case Acquire(c) => At(s, c, Registered) && s.owner.None? && !s.closed
    case AcquireFails(c) => At(s, c, Registered)
    case Write(c, n) =>
      IsSending(s, c) && c in s.line && !s.severed && 0 < n && s.phase[c].sent + n <= |s.line[c]|
    case SendOk(c) => IsSending(s, c) && c in s.line && s.phase[c].sent == |s.line[c]|
    case SendFails(c) => IsSending(s, c) && c in s.line && s.phase[c].sent <= |s.line[c]|
    case Release(c) => At(s, c, Releasing(true)) || At(s, c, Releasing(false))
    case GiveUp(c) => At(s, c, Blocked)
    case Remove(c) => At(s, c, Removing)
    case Receive(c) => At(s, c, Blocked) && c in s.sent && s.sent[c] != []
  }

  function CallApply(s: State, step: CallStep): State
    requires CallEnabled(s, step)
  {
    match step
    case Register(l) =>
      var c := s.nextId;
      s.(nextId := c + 1, line := s.line[c := l], phase := s.phase[c := Registered],
         pending := s.pending + {c}, sent := s.sent[c := []])
    case Acquire(c) => Go(s, c, Sending(0)).(stream := false, owner := Some(c))
    case AcquireFails(c) => Go(s, c, Removing)
    case Write(c, n) =>
      var k := s.phase[c].sent;
      Go(s, c, Sending(k + n)).(wire := s.wire + s.line[c][k..k + n])
    case SendOk(c) => Go(s, c, Releasing(true)).(whole := s.whole + [c])
    case SendFails(c) =>
      Go(s, c, Aborting).(shutting := s.shutting[Caller(c) := Sever], failed := Some(c),
                          torn := s.line[c][..s.phase[c].sent])
    case Release(c) =>
      Go(s, c, if s.phase[c].ok then Blocked else Removing).(stream := s.stream || !s.closed, owner := None)
    case GiveUp(c) => Go(s, c, Removing)
    case Remove(c) => Go(s, c, Done).(pending := s.pending - {c})
    case Receive(c) => Go(s, c, Done)
  }

  predicate ReadEnabled(s: State, step: ReadStep)
  {
    match step
    case ReadReply(reply, c) => s.reader == Idle && c in s.pending && reply.id == CommandId(c)
    case DropReply(reply) => s.reader == Idle && forall c :: c in s.pending ==> reply.id != CommandId(c)
    case HandReply => s.reader.Holding? && s.reader.caller in s.sent
    case ReaderExits(k) => s.reader == Idle && Closer(k) !in s.shutting
  }

  function ReadApply(s: State, step: ReadStep): State
    requires ReadEnabled(s, step)
  {
    match step
    case ReadReply(reply, c) =>
      s.(pending := s.pending - {c}, replies := s.replies + {reply}, reader := Holding(c, Classify(reply)))
    case DropReply(reply) => s.(replies := s.replies + {reply})
    case HandReply =>
      var c := s.reader.caller;
      s.(sent := s.sent[c := s.sent[c] + [s.reader.message]], reader := Idle)
    case ReaderExits(k) => s.(reader := Gone, shutting := s.shutting[Closer(k) := Sever])
  }

  predicate Reached(s: State, who: Who, next: Shutting)
  {
    who in s.shutting && s.shutting[who] == next
  }

  predicate CloseEnabled(s: State, step: CloseStep)
  {
    match step
    case StartCloser(k) => Closer(k) !in s.shutting
    case SeverSocket(who) => Reached(s, who, Sever)
    case CloseSlot(who) => Reached(s, who, CloseWriter)
    case CloseEventLog(who) => Reached(s, who, CloseLog)
    case DrainPending(who) => Reached(s, who, Drain)
    case Hand(who, c) => who in s.shutting && s.shutting[who].Deliver? && c in s.shutting[who].held && c in s.sent
    case Return(who) => Reached(s, who, Deliver({}))
  }

  function Then(s: State, who: Who, next: Shutting): State
  {
    s.(shutting := s.shutting[who := next])
  }

  function CloseApply(s: State, step: CloseStep): State
    requires CloseEnabled(s, step)
  {
    match step
    case StartCloser(k) => Then(s, Closer(k), Sever)
    case SeverSocket(who) => Then(s, who, CloseWriter).(severed := true)
    case CloseSlot(who) => Then(s, who, CloseLog).(closed := true, stream := false)
    case CloseEventLog(who) => Then(s, who, Drain)
    case DrainPending(who) => Then(s, who, Deliver(s.pending)).(pending := {})
    case Hand(who, c) =>
      Then(s, who, Deliver(s.shutting[who].held - {c})).(sent := s.sent[c := s.sent[c] + [Closed]])
    case Return(who) =>
      var t := Then(s, who, Finished);
      if who.Caller? then Go(t, who.n, Releasing(false)) else t
  }

  predicate Enabled(s: State, step: Step)
  {
    match step
    case Calling(call) => CallEnabled(s, call)
    case Reading(read) => ReadEnabled(s, read)
    case Closing(close) => CloseEnabled(s, close)
  }

  function Apply(s: State, step: Step): State
    requires Enabled(s, step)
  {
    match step
    case Calling(call) => CallApply(s, call)
    case Reading(read) => ReadApply(s, read)
    case Closing(close) => CloseApply(s, close)
  }

  /** `steps` can be taken one after another from `s`. */
  predicate CanRun(s: State, steps: seq<Step>)
    decreases |steps|, 0
  {
    steps == [] || (CanRun(s, steps[..|steps| - 1]) && Enabled(Run(s, steps[..|steps| - 1]), steps[|steps| - 1]))
  }

  function Run(s: State, steps: seq<Step>): State
    requires CanRun(s, steps)
    decreases |steps|, 1
  {
    if steps == [] then s else Apply(Run(s, steps[..|steps| - 1]), steps[|steps| - 1])
  }

  // --- invariants ---------------------------------------------------------------

  /** Callers are numbered below `nextId` and each has a line and a channel. */
  ghost predicate Shape(s: State)
  {
    && (forall c :: c in s.phase ==> c < s.nextId && c in s.line && c in s.sent)
    && (forall c :: c in s.phase && s.phase[c].Sending? ==> s.phase[c].sent <= |s.line[c]|)
    && (forall c :: c in s.pending || c in s.sent ==> c in s.phase)
  }

  /** The writer permit: one owner, and an idle open writer has its stream. */
  ghost predicate Permit(s: State)
  {
    && (forall c :: c in s.phase ==> (Owns(s.phase[c]) <==> s.owner == Some(c)))
    && (s.owner.Some? ==> s.owner.value in s.phase)
    && (s.stream <==> s.owner.None? && !s.closed)
  }

  /** How far each shutdown has got shows in the shared state. */
  ghost predicate ShutdownOrder(s: State)
  {
    && (forall w :: w in s.shutting && s.shutting[w] != Sever ==> s.severed)
    && (forall w :: w in s.shutting && !s.shutting[w].Sever? && !s.shutting[w].CloseWriter? ==> s.closed)
    && (forall c :: c in s.phase && s.phase[c] == Aborting ==> Caller(c) in s.shutting)
    && (forall w :: w in s.shutting && w.Caller? ==>
          w.n in s.phase && s.failed == Some(w.n) && (s.shutting[w] != Finished ==> s.phase[w.n] == Aborting))
    && (s.failed.Some? ==> Caller(s.failed.value) in s.shutting)
    && (s.failed.Some? ==> forall c :: c in s.phase ==> !s.phase[c].Sending?)
  }

  ghost predicate HeldBy(s: State, w: Who, c: nat)
  {
    w in s.shutting && s.shutting[w].Deliver? && c in s.shutting[w].held
  }

  /** Someone has taken the caller's entry and not yet sent on its channel. */
  ghost predicate InFlight(s: State, c: nat)
  {
    (s.reader.Holding? && s.reader.caller == c) || exists w :: HeldBy(s, w, c)
  }

  /** The sending half of a reply channel is in exactly one place, and used once. */
  ghost predicate OneSender(s: State)
    requires Shape(s)
  {
    && (forall c :: c in s.pending ==> s.sent[c] == [] && !InFlight(s, c))
    && (forall c :: InFlight(s, c) ==> c in s.sent && s.sent[c] == [])
    && (forall w, c :: HeldBy(s, w, c) ==> !(s.reader.Holding? && s.reader.caller == c))
    && (forall w, x, c :: HeldBy(s, w, c) && HeldBy(s, x, c) ==> w == x)
    && (forall c :: c in s.sent ==> |s.sent[c]| <= 1)
    && (forall c :: c in s.phase && s.phase[c] != Done ==> c in s.pending || InFlight(s, c) || s.sent[c] != [])
  }

  ghost predicate Drained(s: State)
  {
    exists w :: w in s.shutting && (s.shutting[w].Deliver? || s.shutting[w] == Finished)
  }

  /** Once drained, only callers that can no longer send are in the pending map. */
  ghost predicate DrainedForGood(s: State)
    requires Shape(s)
  {
    Drained(s) ==> forall c :: c in s.pending ==> s.phase[c] == Registered || s.phase[c] == Removing
  }

  ghost predicate FromReply(replies: set<ReplyLine>, c: nat, m: Message)
  {
    exists l :: l in replies && l.id == CommandId(c) && m == Classify(l)
  }

  ghost predicate Provenance(s: State)
  {
    && (s.reader.Holding? ==> FromReply(s.replies, s.reader.caller, s.reader.message))
    && (forall c :: c in s.sent ==> forall m :: m in s.sent[c] ==> m == Closed || FromReply(s.replies, c, m))
  }

  ghost predicate Inv(s: State)
  {
    Shape(s) && Permit(s) && ShutdownOrder(s) && OneSender(s) && DrainedForGood(s) && Provenance(s)
  }

  // --- every step keeps it: callers ---

  /** A caller going on by itself: all it changes is its phase and what it has written. */
  ghost predicate Moved(s: State, t: State, c: nat)
  {
    && c in s.phase && c in t.phase
    && t == s.(phase := s.phase[c := t.phase[c]], wire := t.wire, whole := t.whole)
    && s.phase[c] != Done && s.phase[c] != Aborting && t.phase[c] != Aborting
    && (Owns(t.phase[c]) <==> Owns(s.phase[c]))
    && (t.phase[c].Sending? ==> s.phase[c].Sending? && c in s.line && t.phase[c].sent <= |s.line[c]|)
    && (t.phase[c] == Removing || (s.phase[c] != Registered && s.phase[c] != Removing))
  }

  predicate Quiet(step: CallStep)
  {
    step.AcquireFails? || step.Write? || step.SendOk? || step.GiveUp? || step.Receive?
  }

  lemma {:induction false} QuietStepMoves(s: State, step: CallStep)
    requires Quiet(step) && CallEnabled(s, step)
    ensures Moved(s, CallApply(s, step), step.c)
  {
  }

  lemma {:induction false} MoveKeepsShape(s: State, t: State, c: nat)
    requires Shape(s) && Moved(s, t, c)
    ensures Shape(t)
  {
  }

  lemma {:induction false} RegisterKeepsShape(s: State, l: bytes)
    requires Shape(s) && IsLine(l)
    ensures Shape(CallApply(s, Register(l)))
  {
  }

  lemma {:induction false} AcquireKeepsShape(s: State, c: nat)
    requires Shape(s) && CallEnabled(s, Acquire(c))
    ensures Shape(CallApply(s, Acquire(c)))
  {
  }

  lemma {:induction false} SendFailsKeepsShape(s: State, c: nat)
    requires Shape(s) && CallEnabled(s, SendFails(c))
    ensures Shape(CallApply(s, SendFails(c)))
  {
  }

  lemma {:induction false} ReleaseKeepsShape(s: State, c: nat)
    requires Shape(s) && CallEnabled(s, Release(c))
    ensures Shape(CallApply(s, Release(c)))
  {
  }

  lemma {:induction false} RemoveKeepsShape(s: State, c: nat)
    requires Shape(s) && CallEnabled(s, Remove(c))
    ensures Shape(CallApply(s, Remove(c)))
  {
  }

  lemma {:induction false} CallKeepsShape(s: State, step: CallStep)
    requires Shape(s) && CallEnabled(s, step)
    ensures Shape(CallApply(s, step))
  {
    match step {
      case Register(l) => RegisterKeepsShape(s, l);
      case Acquire(c) => AcquireKeepsShape(s, c);
      case SendFails(c) => SendFailsKeepsShape(s, c);
      case Release(c) => ReleaseKeepsShape(s, c);
      case Remove(c) => RemoveKeepsShape(s, c);
      case _ =>
        QuietStepMoves(s, step);
        MoveKeepsShape(s, CallApply(s, step), step.c);
    }
  }

  /** A caller changes its phase but not whether it owns the writer. */
  lemma {:induction false} PermitUntouched(s: State, t: State, c: nat)
    requires Permit(s) && t.owner == s.owner && t.stream == s.stream && t.closed == s.closed
    requires c in t.phase && t.phase == s.phase[c := t.phase[c]]
    requires Owns(t.phase[c]) <==> s.owner == Some(c)
    ensures Permit(t)
  {
  }

  lemma {:induction false} RegisterKeepsPermit(s: State, l: bytes)
    requires Shape(s) && Permit(s) && IsLine(l)
    ensures Permit(CallApply(s, Register(l)))
  {
    PermitUntouched(s, CallApply(s, Register(l)), s.nextId);
  }

  lemma {:induction false} AcquireKeepsPermit(s: State, c: nat)
    requires Permit(s) && CallEnabled(s, Acquire(c))
    ensures Permit(CallApply(s, Acquire(c)))
  {
  }

  lemma {:induction false} SendFailsKeepsPermit(s: State, c: nat)
    requires Permit(s) && CallEnabled(s, SendFails(c))
    ensures Permit(CallApply(s, SendFails(c)))
  {
    PermitUntouched(s, CallApply(s, SendFails(c)), c);
  }

  lemma {:induction false} ReleaseKeepsPermit(s: State, c: nat)
    requires Permit(s) && CallEnabled(s, Release(c))
    ensures Permit(CallApply(s, Release(c)))
  {
  }

  lemma {:induction false} RemoveKeepsPermit(s: State, c: nat)
    requires Permit(s) && CallEnabled(s, Remove(c))
    ensures Permit(CallApply(s, Remove(c)))
  {
    PermitUntouched(s, CallApply(s, Remove(c)), c);
  }

  lemma {:induction false} CallKeepsPermit(s: State, step: CallStep)
    requires Shape(s) && Permit(s) && CallEnabled(s, step)
    ensures Permit(CallApply(s, step))
  {
    match step {
      case Register(l) => RegisterKeepsPermit(s, l);
      case Acquire(c) => AcquireKeepsPermit(s, c);
      case SendFails(c) => SendFailsKeepsPermit(s, c);
      case Release(c) => ReleaseKeepsPermit(s, c);
      case Remove(c) => RemoveKeepsPermit(s, c);
      case _ =>
        QuietStepMoves(s, step);
        PermitUntouched(s, CallApply(s, step), step.c);
    }
  }

  lemma {:induction false} SendFailsKeepsOrder(s: State, c: nat)
    requires Shape(s) && Permit(s) && ShutdownOrder(s) && CallEnabled(s, SendFails(c))
    ensures ShutdownOrder(CallApply(s, SendFails(c)))
  {
    assert s.failed.None?;
  }

  /** After a failed send nobody acquires the writer again. */
  lemma {:induction false} NoAcquireAfterFailure(s: State, c: nat)
    requires Shape(s) && Permit(s) && ShutdownOrder(s) && CallEnabled(s, Acquire(c))
    ensures s.failed.None?
  {
    assert s.failed.Some? ==> Caller(s.failed.value) in s.shutting;
  }

  /** A caller moving on, neither starting nor inside a shutdown. */
  lemma {:induction false} OrderUntouched(s: State, t: State, c: nat)
    requires ShutdownOrder(s) && !At(s, c, Aborting)
    requires t.shutting == s.shutting && t.failed == s.failed && t.severed == s.severed && t.closed == s.closed
    requires c in t.phase && t.phase == s.phase[c := t.phase[c]] && t.phase[c] != Aborting
    requires t.phase[c].Sending? ==> IsSending(s, c)
    ensures ShutdownOrder(t)
  {
  }

  lemma {:induction false} MoveKeepsOrder(s: State, t: State, c: nat)
    requires ShutdownOrder(s) && Moved(s, t, c)
    ensures ShutdownOrder(t)
  {
    OrderUntouched(s, t, c);
  }

  lemma {:induction false} RegisterKeepsOrder(s: State, l: bytes)
    requires Shape(s) && ShutdownOrder(s) && IsLine(l)
    ensures ShutdownOrder(CallApply(s, Register(l)))
  {
    OrderUntouched(s, CallApply(s, Register(l)), s.nextId);
  }

  lemma {:induction false} AcquireKeepsOrder(s: State, c: nat)
    requires Shape(s) && Permit(s) && ShutdownOrder(s) && CallEnabled(s, Acquire(c))
    ensures ShutdownOrder(CallApply(s, Acquire(c)))
  {
    NoAcquireAfterFailure(s, c);
  }

  lemma {:induction false} ReleaseKeepsOrder(s: State, c: nat)
    requires ShutdownOrder(s) && CallEnabled(s, Release(c))
    ensures ShutdownOrder(CallApply(s, Release(c)))
  {
    OrderUntouched(s, CallApply(s, Release(c)), c);
  }

  lemma {:induction false} RemoveKeepsOrder(s: State, c: nat)
    requires ShutdownOrder(s) && CallEnabled(s, Remove(c))
    ensures ShutdownOrder(CallApply(s, Remove(c)))
  {
    OrderUntouched(s, CallApply(s, Remove(c)), c);
  }

  lemma {:induction false} CallKeepsOrder(s: State, step: CallStep)
    requires Shape(s) && Permit(s) && ShutdownOrder(s) && CallEnabled(s, step)
    ensures ShutdownOrder(CallApply(s, step))
  {
    match step {
      case SendFails(c) => SendFailsKeepsOrder(s, c);
      case Acquire(c) => AcquireKeepsOrder(s, c);
      case Register(l) => RegisterKeepsOrder(s, l);
      case Release(c) => ReleaseKeepsOrder(s, c);
      case Remove(c) => RemoveKeepsOrder(s, c);
      case _ =>
        QuietStepMoves(s, step);
        MoveKeepsOrder(s, CallApply(s, step), step.c);
    }
  }

  /** Nobody new is pending, and the caller that moves is not pending or will remove itself. */
  lemma {:induction false} DrainedUntouched(s: State, t: State, c: nat)
    requires Shape(s) && Shape(t) && DrainedForGood(s)
    requires c in t.phase && t.phase == s.phase[c := t.phase[c]] && t.pending <= s.pending && t.shutting == s.shutting
    requires t.phase[c] == Removing || c !in t.pending || (c in s.phase && s.phase[c] != Registered && s.phase[c] != Removing)
    ensures DrainedForGood(t)
  {
  }

  lemma {:induction false} RegisterKeepsDrained(s: State, l: bytes)
    requires Shape(s) && DrainedForGood(s) && IsLine(l) && Shape(CallApply(s, Register(l)))
    ensures DrainedForGood(CallApply(s, Register(l)))
  {
    assert CallApply(s, Register(l)).shutting == s.shutting;
  }

  lemma {:induction false} AcquireKeepsDrained(s: State, c: nat)
    requires Shape(s) && ShutdownOrder(s) && CallEnabled(s, Acquire(c)) && Shape(CallApply(s, Acquire(c)))
    ensures DrainedForGood(CallApply(s, Acquire(c)))
  {
    assert CallApply(s, Acquire(c)).shutting == s.shutting;
    assert !Drained(s);
  }

  lemma {:induction false} SendFailsKeepsDrained(s: State, c: nat)
    requires Shape(s) && ShutdownOrder(s) && DrainedForGood(s)
    requires CallEnabled(s, SendFails(c)) && Shape(CallApply(s, SendFails(c)))
    ensures DrainedForGood(CallApply(s, SendFails(c)))
  {
    var t := CallApply(s, SendFails(c));
    assert forall w :: w in t.shutting && t.shutting[w] != Sever ==> w in s.shutting && s.shutting[w] == t.shutting[w];
    assert Drained(t) ==> Drained(s);
  }

  lemma {:induction false} ReleaseKeepsDrained(s: State, c: nat)
    requires Shape(s) && DrainedForGood(s) && CallEnabled(s, Release(c)) && Shape(CallApply(s, Release(c)))
    ensures DrainedForGood(CallApply(s, Release(c)))
  {
    DrainedUntouched(s, CallApply(s, Release(c)), c);
  }

  lemma {:induction false} RemoveKeepsDrained(s: State, c: nat)
    requires Shape(s) && DrainedForGood(s) && CallEnabled(s, Remove(c)) && Shape(CallApply(s, Remove(c)))
    ensures DrainedForGood(CallApply(s, Remove(c)))
  {
    DrainedUntouched(s, CallApply(s, Remove(c)), c);
  }

  lemma {:induction false} MoveKeepsDrained(s: State, t: State, c: nat)
    requires Shape(s) && Shape(t) && DrainedForGood(s) && Moved(s, t, c)
    ensures DrainedForGood(t)
  {
    DrainedUntouched(s, t, c);
  }

  lemma {:induction false} CallKeepsDrained(s: State, step: CallStep)
    requires Shape(s) && ShutdownOrder(s) && DrainedForGood(s) && CallEnabled(s, step) && Shape(CallApply(s, step))
    ensures DrainedForGood(CallApply(s, step))
  {
    match step {
      case Register(l) => RegisterKeepsDrained(s, l);
      case Acquire(c) => AcquireKeepsDrained(s, c);
      case SendFails(c) => SendFailsKeepsDrained(s, c);
      case Release(c) => ReleaseKeepsDrained(s, c);
      case Remove(c) => RemoveKeepsDrained(s, c);
      case _ =>
        QuietStepMoves(s, step);
        MoveKeepsDrained(s, CallApply(s, step), step.c);
    }
  }

  lemma {:induction false} CallKeepsProvenance(s: State, step: CallStep)
    requires Provenance(s) && CallEnabled(s, step)
    ensures Provenance(CallApply(s, step))
  {
  }

  // --- the reader ---

  lemma {:induction false} ReadKeepsShape(s: State, step: ReadStep)
    requires Shape(s) && Permit(s) && ReadEnabled(s, step)
    ensures Shape(ReadApply(s, step)) && Permit(ReadApply(s, step))
  {
  }

  lemma {:induction false} ReadKeepsOrder(s: State, step: ReadStep)
    requires Shape(s) && ShutdownOrder(s) && ReadEnabled(s, step)
    ensures ShutdownOrder(ReadApply(s, step))
  {
  }

  lemma {:induction false} ReadKeepsDrained(s: State, step: ReadStep)
    requires Shape(s) && DrainedForGood(s) && ReadEnabled(s, step) && Shape(ReadApply(s, step))
    ensures DrainedForGood(ReadApply(s, step))
  {
  }

  lemma {:induction false} ReadKeepsProvenance(s: State, step: ReadStep)
    requires Provenance(s) && ReadEnabled(s, step)
    ensures Provenance(ReadApply(s, step))
  {
  }

  // --- threads shutting down ---

  /** A shutdown that touches no caller. */
  lemma {:induction false} ShapeUntouched(s: State, t: State)
    requires Shape(s) && t.nextId == s.nextId && t.line == s.line && t.phase == s.phase
    requires t.pending <= s.pending && t.sent.Keys == s.sent.Keys
    ensures Shape(t)
  {
  }

  /** A caller's own shutdown returns: it goes on to give the writer back. */
  lemma {:induction false} ReturnMoves(s: State, who: Who)
    requires ShutdownOrder(s) && CloseEnabled(s, Return(who)) && who.Caller?
    ensures who.n in s.phase && s.phase[who.n] == Aborting
    ensures CloseApply(s, Return(who)) ==
            s.(shutting := s.shutting[who := Finished], phase := s.phase[who.n := Releasing(false)])
  {
  }

  lemma {:induction false} ReturnKeepsShape(s: State, who: Who)
    requires Shape(s) && ShutdownOrder(s) && CloseEnabled(s, Return(who))
    ensures Shape(CloseApply(s, Return(who)))
  {
    if who.Caller? { ReturnMoves(s, who); } else { ShapeUntouched(s, CloseApply(s, Return(who))); }
  }

  lemma {:induction false} CloseKeepsShape(s: State, step: CloseStep)
    requires Shape(s) && ShutdownOrder(s) && CloseEnabled(s, step)
    ensures Shape(CloseApply(s, step))
  {
    match step {
      case Return(who) => ReturnKeepsShape(s, who);
      case _ => ShapeUntouched(s, CloseApply(s, step));
    }
  }

  lemma {:induction false} ReturnKeepsPermit(s: State, who: Who)
    requires ShutdownOrder(s) && Permit(s) && CloseEnabled(s, Return(who))
    ensures Permit(CloseApply(s, Return(who)))
  {
    if who.Caller? {
      ReturnMoves(s, who);
      PermitUntouched(s, CloseApply(s, Return(who)), who.n);
    }
  }

  lemma {:induction false} CloseSlotKeepsPermit(s: State, who: Who)
    requires Permit(s) && CloseEnabled(s, CloseSlot(who))
    ensures Permit(CloseApply(s, CloseSlot(who)))
  {
  }

  lemma {:induction false} NobodyMovesKeepsPermit(s: State, t: State)
    requires Permit(s) && t.phase == s.phase && t.owner == s.owner && t.stream == s.stream && t.closed == s.closed
    ensures Permit(t)
  {
  }

  lemma {:induction false} CloseKeepsPermit(s: State, step: CloseStep)
    requires Shape(s) && ShutdownOrder(s) && Permit(s) && CloseEnabled(s, step)
    ensures Permit(CloseApply(s, step))
  {
    match step {
      case Return(who) => ReturnKeepsPermit(s, who);
      case CloseSlot(who) => CloseSlotKeepsPermit(s, who);
      case _ => NobodyMovesKeepsPermit(s, CloseApply(s, step));
    }
  }

  /** Shutdown `who` goes from one stage to the next, not the last; what it has done shows. */
  lemma {:induction false} OrderAdvances(s: State, t: State, who: Who)
    requires ShutdownOrder(s) && t.phase == s.phase && t.failed == s.failed
    requires who in t.shutting && t.shutting == s.shutting[who := t.shutting[who]] && t.shutting[who] != Finished
    requires who.Caller? ==> who in s.shutting && s.shutting[who] != Finished
    requires (s.severed ==> t.severed) && (t.shutting[who] != Sever ==> t.severed)
    requires (s.closed ==> t.closed) && (!t.shutting[who].Sever? && !t.shutting[who].CloseWriter? ==> t.closed)
    ensures ShutdownOrder(t)
  {
  }

  lemma {:induction false} ReturnKeepsOrder(s: State, who: Who)
    requires ShutdownOrder(s) && CloseEnabled(s, Return(who))
    ensures ShutdownOrder(CloseApply(s, Return(who)))
  {
    if who.Caller? { ReturnMoves(s, who); }
  }

  lemma {:induction false} CloseKeepsOrder(s: State, step: CloseStep)
    requires Shape(s) && ShutdownOrder(s) && CloseEnabled(s, step)
    ensures ShutdownOrder(CloseApply(s, step))
  {
    match step {
      case Return(who) => ReturnKeepsOrder(s, who);
      case StartCloser(k) => OrderAdvances(s, CloseApply(s, step), Closer(k));
      case _ => OrderAdvances(s, CloseApply(s, step), step.who);
    }
  }

  lemma {:induction false} ReturnKeepsDrained(s: State, who: Who)
    requires Shape(s) && ShutdownOrder(s) && DrainedForGood(s) && CloseEnabled(s, Return(who))
    requires Shape(CloseApply(s, Return(who)))
    ensures DrainedForGood(CloseApply(s, Return(who)))
  {
    assert Drained(s);
    if who.Caller? { ReturnMoves(s, who); }
  }

  /** Nobody is pending any more, or the set of drained shutdowns has not grown. */
  lemma {:induction false} CloseKeepsDrained(s: State, step: CloseStep)
    requires Shape(s) && ShutdownOrder(s) && DrainedForGood(s) && CloseEnabled(s, step) && Shape(CloseApply(s, step))
    ensures DrainedForGood(CloseApply(s, step))
  {
    match step {
      case Return(who) => ReturnKeepsDrained(s, who);
      case DrainPending(_) =>
      case Hand(who, _) => assert Drained(s);
      case StartCloser(k) => EarlyStageDrainsNothing(s, CloseApply(s, step), Closer(k));
      case _ => EarlyStageDrainsNothing(s, CloseApply(s, step), step.who);
    }
  }

  lemma {:induction false} EarlyStageDrainsNothing(s: State, t: State, who: Who)
    requires who in t.shutting && t.shutting == s.shutting[who := t.shutting[who]]
    requires !t.shutting[who].Deliver? && t.shutting[who] != Finished
    ensures Drained(t) ==> Drained(s)
  {
  }

  lemma {:induction false} ProvenanceUntouched(s: State, t: State)
    requires Provenance(s) && t.reader == s.reader && t.replies == s.replies && t.sent == s.sent
    ensures Provenance(t)
  {
  }

  lemma {:induction false} HandKeepsProvenance(s: State, who: Who, c: nat)
    requires Provenance(s) && CloseEnabled(s, Hand(who, c))
    ensures Provenance(CloseApply(s, Hand(who, c)))
  {
    var t := CloseApply(s, Hand(who, c));
    assert t.sent == s.sent[c := s.sent[c] + [Closed]];
  }

  lemma {:induction false} CloseKeepsProvenance(s: State, step: CloseStep)
    requires Provenance(s) && CloseEnabled(s, step)
    ensures Provenance(CloseApply(s, step))
  {
    match step {
      case Hand(who, c) => HandKeepsProvenance(s, who, c);
      case _ => ProvenanceUntouched(s, CloseApply(s, step));
    }
  }

  // --- one sender per channel ---

  /** A step that moves no entry, sends nothing and revives nobody. */
  lemma {:induction false} SendersUntouched(s: State, t: State)
    requires Shape(s) && Shape(t) && OneSender(s)
    requires t.pending == s.pending && t.sent == s.sent
    requires s.reader.Holding? || t.reader.Holding? ==> t.reader == s.reader
    requires forall w, c :: HeldBy(t, w, c) <==> HeldBy(s, w, c)
    requires forall c :: c in t.phase && t.phase[c] != Done ==> c in s.phase && s.phase[c] != Done
    ensures OneSender(t)
  {
    assert forall c :: InFlight(t, c) <==> InFlight(s, c);
  }

  lemma {:induction false} RegisterKeepsSender(s: State, l: bytes)
    requires Shape(s) && OneSender(s) && IsLine(l) && Shape(CallApply(s, Register(l)))
    ensures OneSender(CallApply(s, Register(l)))
  {
    var t := CallApply(s, Register(l));
    assert forall w, c :: HeldBy(t, w, c) <==> HeldBy(s, w, c);
    assert forall c :: InFlight(t, c) <==> InFlight(s, c);
    assert s.nextId !in s.phase && !InFlight(s, s.nextId);
  }

  lemma {:induction false} RemoveKeepsSender(s: State, c: nat)
    requires Shape(s) && OneSender(s) && CallEnabled(s, Remove(c)) && Shape(CallApply(s, Remove(c)))
    ensures OneSender(CallApply(s, Remove(c)))
  {
    var t := CallApply(s, Remove(c));
    assert forall w, d :: HeldBy(t, w, d) <==> HeldBy(s, w, d);
    assert forall d :: InFlight(t, d) <==> InFlight(s, d);
  }

  lemma {:induction false} MoveKeepsSender(s: State, t: State, c: nat)
    requires Shape(s) && Shape(t) && OneSender(s) && Moved(s, t, c)
    ensures OneSender(t)
  {
    SendersUntouched(s, t);
  }

  lemma {:induction false} AcquireKeepsSender(s: State, c: nat)
    requires Shape(s) && OneSender(s) && CallEnabled(s, Acquire(c)) && Shape(CallApply(s, Acquire(c)))
    ensures OneSender(CallApply(s, Acquire(c)))
  {
    SendersUntouched(s, CallApply(s, Acquire(c)));
  }

  lemma {:induction false} ReleaseKeepsSender(s: State, c: nat)
    requires Shape(s) && OneSender(s) && CallEnabled(s, Release(c)) && Shape(CallApply(s, Release(c)))
    ensures OneSender(CallApply(s, Release(c)))
  {
    SendersUntouched(s, CallApply(s, Release(c)));
  }

  lemma {:induction false} SendFailsKeepsSender(s: State, c: nat)
    requires Shape(s) && ShutdownOrder(s) && OneSender(s)
    requires CallEnabled(s, SendFails(c)) && Shape(CallApply(s, SendFails(c)))
    ensures OneSender(CallApply(s, SendFails(c)))
  {
    assert Caller(c) !in s.shutting;
    SendersUntouched(s, CallApply(s, SendFails(c)));
  }

  lemma {:induction false} CallKeepsSender(s: State, step: CallStep)
    requires Shape(s) && ShutdownOrder(s) && OneSender(s) && CallEnabled(s, step) && Shape(CallApply(s, step))
    ensures OneSender(CallApply(s, step))
  {
    match step {
      case Register(l) => RegisterKeepsSender(s, l);
      case Remove(c) => RemoveKeepsSender(s, c);
      case SendFails(c) => SendFailsKeepsSender(s, c);
      case Acquire(c) => AcquireKeepsSender(s, c);
      case Release(c) => ReleaseKeepsSender(s, c);
      case _ =>
        QuietStepMoves(s, step);
        MoveKeepsSender(s, CallApply(s, step), step.c);
    }
  }

  lemma {:induction false} ReadReplyKeepsSender(s: State, reply: ReplyLine, c: nat)
    requires Shape(s) && OneSender(s) && ReadEnabled(s, ReadReply(reply, c)) && Shape(ReadApply(s, ReadReply(reply, c)))
    ensures OneSender(ReadApply(s, ReadReply(reply, c)))
  {
    var t := ReadApply(s, ReadReply(reply, c));
    assert forall w, d :: HeldBy(t, w, d) <==> HeldBy(s, w, d);
    assert forall d :: InFlight(t, d) <==> InFlight(s, d) || d == c;
  }

  lemma {:induction false} HandReplyKeepsSender(s: State)
    requires Shape(s) && OneSender(s) && ReadEnabled(s, HandReply) && Shape(ReadApply(s, HandReply))
    ensures OneSender(ReadApply(s, HandReply))
  {
    var t, c := ReadApply(s, HandReply), s.reader.caller;
    assert InFlight(s, c);
    assert forall w, d :: HeldBy(t, w, d) <==> HeldBy(s, w, d);
    assert forall d :: InFlight(t, d) <==> InFlight(s, d) && d != c;
  }

  lemma {:induction false} ReadKeepsSender(s: State, step: ReadStep)
    requires Shape(s) && OneSender(s) && ReadEnabled(s, step) && Shape(ReadApply(s, step))
    ensures OneSender(ReadApply(s, step))
  {
    match step {
      case ReadReply(reply, c) => ReadReplyKeepsSender(s, reply, c);
      case HandReply => HandReplyKeepsSender(s);
      case _ => SendersUntouched(s, ReadApply(s, step));
    }
  }

  lemma {:induction false} DrainKeepsSender(s: State, who: Who)
    requires Shape(s) && OneSender(s) && CloseEnabled(s, DrainPending(who)) && Shape(CloseApply(s, DrainPending(who)))
    ensures OneSender(CloseApply(s, DrainPending(who)))
  {
    var t := CloseApply(s, DrainPending(who));
    assert forall w, c :: HeldBy(t, w, c) <==> HeldBy(s, w, c) || (w == who && c in s.pending);
    assert forall c :: InFlight(t, c) <==> InFlight(s, c) || c in s.pending by {
      forall c | c in s.pending ensures InFlight(t, c) { assert HeldBy(t, who, c); }
    }
  }

  lemma {:induction false} HandKeepsSender(s: State, who: Who, c: nat)
    requires Shape(s) && OneSender(s) && CloseEnabled(s, Hand(who, c)) && Shape(CloseApply(s, Hand(who, c)))
    ensures OneSender(CloseApply(s, Hand(who, c)))
  {
    var t := CloseApply(s, Hand(who, c));
    assert HeldBy(s, who, c);
    assert forall w, d :: HeldBy(t, w, d) <==> HeldBy(s, w, d) && d != c;
    assert forall d :: InFlight(t, d) <==> InFlight(s, d) && d != c;
  }

  /** A shutdown moving between stages in which it holds no entry. */
  lemma {:induction false} StageKeepsSender(s: State, t: State, who: Who)
    requires Shape(s) && Shape(t) && OneSender(s)
    requires t.pending == s.pending && t.sent == s.sent && t.reader == s.reader && t.phase == s.phase
    requires who in t.shutting && t.shutting == s.shutting[who := t.shutting[who]]
    requires !t.shutting[who].Deliver? && (who in s.shutting ==> !s.shutting[who].Deliver? || s.shutting[who].held == {})
    ensures OneSender(t)
  {
    SendersUntouched(s, t);
  }

  lemma {:induction false} ReturnKeepsSender(s: State, who: Who)
    requires Shape(s) && ShutdownOrder(s) && OneSender(s)
    requires CloseEnabled(s, Return(who)) && Shape(CloseApply(s, Return(who)))
    ensures OneSender(CloseApply(s, Return(who)))
  {
    if who.Caller? {
      ReturnMoves(s, who);
      SendersUntouched(s, CloseApply(s, Return(who)));
    } else {
      StageKeepsSender(s, CloseApply(s, Return(who)), who);
    }
  }

  lemma {:induction false} CloseKeepsSender(s: State, step: CloseStep)
    requires Shape(s) && ShutdownOrder(s) && OneSender(s) && CloseEnabled(s, step) && Shape(CloseApply(s, step))
    ensures OneSender(CloseApply(s, step))
  {
    match step {
      case DrainPending(who) => DrainKeepsSender(s, who);
      case Hand(who, c) => HandKeepsSender(s, who, c);
      case Return(who) => ReturnKeepsSender(s, who);
      case StartCloser(k) => StageKeepsSender(s, CloseApply(s, step), Closer(k));
      case _ => StageKeepsSender(s, CloseApply(s, step), step.who);
    }
  }

  // --- whole runs -----------------------------------------------------------------

  lemma {:induction false} StepKeepsInv(s: State, step: Step)
    requires Inv(s) && Enabled(s, step)
    ensures Inv(Apply(s, step))
  {
    match step {
      case Calling(call) =>
        CallKeepsShape(s, call);
        CallKeepsPermit(s, call);
        CallKeepsOrder(s, call);
        CallKeepsSender(s, call);
        CallKeepsDrained(s, call);
        CallKeepsProvenance(s, call);
      case Reading(read) =>
        ReadKeepsShape(s, read);
        ReadKeepsOrder(s, read);
        ReadKeepsSender(s, read);
        ReadKeepsDrained(s, read);
        ReadKeepsProvenance(s, read);
      case Closing(close) =>
        CloseKeepsShape(s, close);
        CloseKeepsPermit(s, close);
        CloseKeepsOrder(s, close);
        CloseKeepsSender(s, close);
        CloseKeepsDrained(s, close);
        CloseKeepsProvenance(s, close);
    }
  }

  lemma {:induction false} InvAlways(steps: seq<Step>)
    requires CanRun(Init(), steps)
    ensures Inv(Run(Init(), steps))
  {
    if steps != [] {
      InvAlways(steps[..|steps| - 1]);
      StepKeepsInv(Run(Init(), steps[..|steps| - 1]), steps[|steps| - 1]);
    }
  }

  /** `slot.stream.take().expect(..)` never fails: an idle open writer owns its stream. */
  lemma {:induction false} IdleWriterOwnsStream(steps: seq<Step>, c: nat)
    requires CanRun(Init(), steps) && CallEnabled(Run(Init(), steps), Acquire(c))
    ensures Run(Init(), steps).stream
  {
    InvAlways(steps);
  }

  /** In every interleaving no reply channel gets two messages, and a message that is
      not Closed tells what a reply line carrying that caller's own id says. */
  lemma {:induction false} AtMostOneOwnReply(steps: seq<Step>, c: nat)
    requires CanRun(Init(), steps) && c in Run(Init(), steps).sent
    ensures var s := Run(Init(), steps);
            && |s.sent[c]| <= 1
            && (s.sent[c] != [] ==>
                  s.sent[c][0] == Closed || exists l :: l in s.replies && l.id == CommandId(c) && Tells(l, s.sent[c][0]))
  {
    InvAlways(steps);
    var s := Run(Init(), steps);
    if s.sent[c] != [] {
      assert s.sent[c][0] in s.sent[c];
      if s.sent[c][0] != Closed {
        var l :| l in s.replies && l.id == CommandId(c) && s.sent[c][0] == Classify(l);
        ClassifyTells(l);
      }
    }
  }

  /** The other way: a reply read for a pending caller ends in its channel, telling what the line says. */
  lemma {:induction false} ReplyReachesCaller(s: State, reply: ReplyLine, c: nat) returns (m: Message)
    requires ReadEnabled(s, ReadReply(reply, c)) && c in s.sent
    ensures Tells(reply, m)
    ensures var read := ReadApply(s, ReadReply(reply, c));
            ReadEnabled(read, HandReply) && ReadApply(read, HandReply).sent == s.sent[c := s.sent[c] + [m]]
  {
    m := Classify(reply);
    ClassifyTells(reply);
  }

  /**
   * No stranded caller. In every interleaving, once some shutdown has drained the
   * pending map, a caller blocked on its channel has its one message exactly when
   * no other thread still holds its entry; and a thread that does hold it can
   * always send.
   */
  lemma {:induction false} NoStrandedCaller(steps: seq<Step>, c: nat)
    requires CanRun(Init(), steps)
    requires Drained(Run(Init(), steps)) && At(Run(Init(), steps), c, Blocked)
    ensures var s := Run(Init(), steps);
            && c in s.sent && (|s.sent[c]| == 1 <==> !InFlight(s, c))
            && (InFlight(s, c) ==> exists step :: Enabled(s, step) && |Apply(s, step).sent[c]| == 1)
  {
    InvAlways(steps);
    var s := Run(Init(), steps);
    assert c !in s.pending;
    if InFlight(s, c) {
      if s.reader.Holding? && s.reader.caller == c {
        assert Enabled(s, Reading(HandReply));
        assert |Apply(s, Reading(HandReply)).sent[c]| == 1;
      } else {
        var w :| HeldBy(s, w, c);
        assert Enabled(s, Closing(Hand(w, c)));
        assert |Apply(s, Closing(Hand(w, c))).sent[c]| == 1;
      }
    }
  }

  /** Once every shutdown begun has returned, no blocked caller is without its message. */
  lemma {:induction false} FinishedShutdownsStrandNobody(steps: seq<Step>, c: nat)
    requires CanRun(Init(), steps) && At(Run(Init(), steps), c, Blocked)
    requires Drained(Run(Init(), steps)) && !Run(Init(), steps).reader.Holding?
    requires var s := Run(Init(), steps); forall w :: w in s.shutting ==> s.shutting[w] == Finished
    ensures c in Run(Init(), steps).sent && |Run(Init(), steps).sent[c]| == 1
  {
    NoStrandedCaller(steps, c);
    assert forall w :: !HeldBy(Run(Init(), steps), w, c);
  }

  // --- the delivery in flight is a real exception ---

  lemma {:induction false} Took(before: seq<Step>, step: Step) returns (steps: seq<Step>)
    requires CanRun(Init(), before) && Enabled(Run(Init(), before), step)
    ensures CanRun(Init(), steps) && Run(Init(), steps) == Apply(Run(Init(), before), step)
  {
    steps := before + [step];
    assert steps[..|before|] == before;
  }

  /** A run in which caller 1 has sent its command and waits. */
  lemma {:induction false} CallerOneWaits() returns (steps: seq<Step>)
    ensures CanRun(Init(), steps)
    ensures var s := Run(Init(), steps);
            At(s, 1, Blocked) && s.pending == {1} && 1 in s.sent && s.sent[1] == [] && s.shutting == map[] && s.reader == Idle
  {
    steps := Took([], Calling(Register([NEWLINE])));
    steps := Took(steps, Calling(Acquire(1)));
    steps := Took(steps, Calling(Write(1, 1)));
    steps := Took(steps, Calling(SendOk(1)));
    steps := Took(steps, Calling(Release(1)));
  }

  /** What a shutdown does not touch before it delivers. */
  ghost predicate OnlyShutting(s: State, t: State, who: Who, stage: Shutting)
  {
    t.phase == s.phase && t.sent == s.sent && t.reader == s.reader && t.shutting == s.shutting[who := stage]
  }

  lemma {:induction false} CloserSevers(before: seq<Step>, k: nat) returns (steps: seq<Step>)
    requires CanRun(Init(), before) && Closer(k) !in Run(Init(), before).shutting
    ensures CanRun(Init(), steps)
    ensures var s, t := Run(Init(), before), Run(Init(), steps);
            OnlyShutting(s, t, Closer(k), CloseWriter) && t.pending == s.pending
  {
    steps := Took(before, Closing(StartCloser(k)));
    steps := Took(steps, Closing(SeverSocket(Closer(k))));
  }

  lemma {:induction false} CloserCloses(before: seq<Step>, k: nat) returns (steps: seq<Step>)
    requires CanRun(Init(), before) && Reached(Run(Init(), before), Closer(k), CloseWriter)
    ensures CanRun(Init(), steps)
    ensures var s, t := Run(Init(), before), Run(Init(), steps);
            OnlyShutting(s, t, Closer(k), Drain) && t.pending == s.pending
  {
    steps := Took(before, Closing(CloseSlot(Closer(k))));
    steps := Took(steps, Closing(CloseEventLog(Closer(k))));
  }

  lemma {:induction false} CloserTakes(before: seq<Step>, k: nat) returns (steps: seq<Step>)
    requires CanRun(Init(), before) && Reached(Run(Init(), before), Closer(k), Drain)
    ensures CanRun(Init(), steps)
    ensures var s, t := Run(Init(), before), Run(Init(), steps);
            OnlyShutting(s, t, Closer(k), Deliver(s.pending)) && t.pending == {}
  {
    steps := Took(before, Closing(DrainPending(Closer(k))));
  }

  /** Shutdown `k` runs up to its deliveries and so holds what was pending. */
  lemma {:induction false} CloserDrains(before: seq<Step>, k: nat) returns (steps: seq<Step>)
    requires CanRun(Init(), before) && Closer(k) !in Run(Init(), before).shutting
    ensures CanRun(Init(), steps)
    ensures var s, t := Run(Init(), before), Run(Init(), steps);
            OnlyShutting(s, t, Closer(k), Deliver(s.pending)) && t.pending == {}
  {
    steps := CloserSevers(before, k);
    steps := CloserCloses(steps, k);
    steps := CloserTakes(steps, k);
  }

  /**
   * That some shutdown has returned is not enough: a second shutdown finds an empty
   * map and returns while the first still holds the caller's entry unsent.
   */
  lemma {:induction false} AnyShutdownIsNotEnough() returns (steps: seq<Step>)
    ensures CanRun(Init(), steps)
    ensures var s := Run(Init(), steps);
            && At(s, 1, Blocked) && 1 in s.sent && s.sent[1] == []
            && Closer(2) in s.shutting && s.shutting[Closer(2)] == Finished
  {
    var waits := CallerOneWaits();
    var first := CloserDrains(waits, 1);
    var second := CloserDrains(first, 2);
    steps := Took(second, Closing(Return(Closer(2))));
  }

  /**
   * Nor that every shutdown begun has returned: the reader may have taken the caller's
   * entry before the drain and not have sent yet.
   */
  lemma {:induction false} EveryShutdownIsNotEnough() returns (steps: seq<Step>)
    ensures CanRun(Init(), steps)
    ensures var s := Run(Init(), steps);
            && At(s, 1, Blocked) && 1 in s.sent && s.sent[1] == [] && s.shutting == map[Closer(1) := Finished]
            && s.reader.Holding? && s.reader.caller == 1
  {
    var waits := CallerOneWaits();
    var reply := ReplyLine(CommandId(1), None, None);
    var taken := Took(waits, Reading(ReadReply(reply, 1)));
    assert Run(Init(), taken).pending == {};
    var drained := CloserDrains(taken, 1);
    steps := Took(drained, Closing(Return(Closer(1))));
  }
}
