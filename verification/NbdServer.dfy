/**
 * The command server over the mediated disk: the fault policy, one command at
 * a time, and what whole runs of commands, power cuts and policy changes keep
 * (provium-host/src/nbd.rs).
 */
module NbdServer {
  import opened Bytes
  import opened NbdDisk
  import opened Options

  const CMD_READ: nat := 0
  const CMD_WRITE: nat := 1
  const CMD_DISC: nat := 2
  const CMD_FLUSH: nat := 3

  const NBD_EIO: nat := 5
  const NBD_EINVAL: nat := 22

  datatype FaultPolicy = FaultPolicy(
    failReads: bool,
    failWrites: bool,
    failAfter: Option<nat>,
    failRange: Option<(nat, nat)>,
    delay: Option<nat>)

  const NO_FAULTS := FaultPolicy(false, false, None, None, None)

  datatype Request = Request(flags: nat, command: nat, cookie: nat, offset: nat, length: nat, payload: bytes)

  datatype Reply = Reply(error: nat, cookie: nat, data: bytes)

  /** Field widths of the 28-byte header; only a WRITE carries a payload. */
  predicate WellFormed(r: Request)
  {
    && r.flags < U16_LIMIT && r.command < U16_LIMIT && r.cookie < U64_LIMIT
    && r.offset < U64_LIMIT && r.length < U32_LIMIT
    && |r.payload| == if r.command == CMD_WRITE then r.length else 0
  }

  /** The range rule multiplies by the sector size in 64 bits. */
  predicate RangeFits(p: FaultPolicy)
  {
    p.failRange.Some? ==> p.failRange.value.0 * 512 < U64_LIMIT && p.failRange.value.1 * 512 < U64_LIMIT
  }

  predicate IsIo(command: nat)
  {
    command == CMD_READ || command == CMD_WRITE || command == CMD_FLUSH
  }

  /** `NBD_CMD_FLAG_FUA` is bit 0. */
  predicate Fua(r: Request)
  {
    r.flags % 2 == 1
  }

  // ---------------------------------------------------------------------
  // Fault rules, by their meaning
  // ---------------------------------------------------------------------

  /** Byte `b` belongs both to the command and to the failing sectors. The last
      address of the 64-bit space is outside every range: both ends saturate there. */
  predicate CommonByte(offset: nat, length: nat, sector: nat, count: nat, b: nat)
  {
    offset <= b < offset + length && sector * 512 <= b < (sector + count) * 512 && b < U64_LIMIT - 1
  }

  ghost predicate RuleMatches(p: FaultPolicy, command: nat, offset: nat, length: nat)
  {
    || (command == CMD_READ && p.failReads)
    || (command == CMD_WRITE && p.failWrites)
    || (p.failRange.Some? &&
        exists b: nat :: CommonByte(offset, length, p.failRange.value.0, p.failRange.value.1, b))
  }

  /** The verdict on a command that is the `seen`-th since the policy was armed. */
  ghost predicate Verdict(p: FaultPolicy, seen: nat, command: nat, offset: nat, length: nat)
  {
    p != NO_FAULTS && ((p.failAfter.Some? && seen >= p.failAfter.value) || RuleMatches(p, command, offset, length))
  }

  // ---------------------------------------------------------------------
  // One command
  // ---------------------------------------------------------------------

  datatype ServerView = ServerView(disk: DiskView, policy: FaultPolicy, ioCount: nat)

  datatype Served = Served(after: ServerView, reply: Reply)

  ghost predicate Fails(v: ServerView, r: Request)
  {
    IsIo(r.command) && Verdict(v.policy, v.ioCount + 1, r.command, r.offset, r.length)
  }

  ghost predicate Sound(v: ServerView)
  {
    Consistent(v.disk) && RangeFits(v.policy)
  }

  /** Only commands met by an armed policy are counted. */
  function Counted(v: ServerView, r: Request): ServerView
  {
    if IsIo(r.command) && v.policy != NO_FAULTS then v.(ioCount := v.ioCount + 1) else v
  }

  function ServeWrite(d: DiskView, r: Request): WriteOutcome
  {
    var w := WriteView(d, r.offset, r.payload);
    if w.ok && Fua(r) then WriteOutcome(true, Commit(w.after)) else w
  }

  ghost function Serve(v: ServerView, r: Request): Served
  {
    var v' := Counted(v, r);
    if Fails(v, r) then
      Served(v', Reply(NBD_EIO, r.cookie, []))
    else if r.command == CMD_READ then
      match ReadView(v.disk, r.offset, r.length)
      case Ok(data) => Served(v', Reply(0, r.cookie, data))
      case Err => Served(v', Reply(NBD_EIO, r.cookie, []))
    else if r.command == CMD_WRITE then
      var w := ServeWrite(v.disk, r);
      Served(v'.(disk := w.after), Reply(if w.ok then 0 else NBD_EIO, r.cookie, []))
    else if r.command == CMD_FLUSH then
      Served(v'.(disk := Commit(v.disk)), Reply(0, r.cookie, []))
    else
      Served(v', Reply(NBD_EINVAL, r.cookie, []))
  }

  class Shared {
    const disk: DiskState
    var policy: FaultPolicy
    var ioCount: nat

    ghost predicate Valid()
      reads this, disk, disk.file
    {
      disk.Valid() && RangeFits(policy)
    }

    ghost function View(): (v: ServerView)
      requires Valid()
      reads this, disk, disk.file
      ensures Sound(v)
    {
      ServerView(disk.View(), policy, ioCount)
    }

    constructor (image: array<byte>)
      requires image.Length < U64_LIMIT
      ensures Valid() && fresh(disk) && disk.file == image
      ensures View() == ServerView(DiskView(image[..], image[..], {}, 0), NO_FAULTS, 0)
    {
      disk := new DiskState(image);
      policy := NO_FAULTS;
      ioCount := 0;
    }

    method SetPolicy(p: FaultPolicy)
      requires Valid() && RangeFits(p)
      modifies this
      ensures Valid() && View() == old(View()).(policy := p, ioCount := 0)
    {
      policy := p;
      ioCount := 0;
    }

    method PowerCut()
      requires Valid()
      modifies disk
      ensures Valid() && View() == old(View()).(disk := PowerCutView(old(View()).disk))
    {
      disk.PowerCut();
    }

    method Consult(command: nat, offset: nat, length: nat) returns (fail: bool)
      requires Valid() && offset < U64_LIMIT
      modifies this`ioCount
      ensures ioCount == if policy == NO_FAULTS then old(ioCount) else old(ioCount) + 1
      ensures fail <==> Verdict(policy, old(ioCount) + 1, command, offset, length)
    {
      if policy == NO_FAULTS {
        return false;
      }
      ioCount := ioCount + 1;
      if policy.failAfter.Some? && ioCount >= policy.failAfter.value {
        return true;
      }
      if command == CMD_READ && policy.failReads {
        return true;
      }
      if command == CMD_WRITE && policy.failWrites {
        return true;
      }
      if policy.failRange.Some? {
        var (sector, count) := policy.failRange.value;
        if length > 0 && count > 0 {
          var start := sector * 512;
          var end := SaturatingAdd(start, count * 512);
          var commandEnd := SaturatingAdd(offset, length);
          OverlapHasCommonByte(offset, length, sector, count);
          if offset < end && start < commandEnd {
            return true;
          }
        }
      }
      return false;
    }

    /** The write and its FUA flush happen under one hold of the disk's lock. */
    method TakeWrite(r: Request) returns (ok: bool)
      requires Valid()
      modifies disk, disk.file
      ensures Valid() && View() == old(View()).(disk := ServeWrite(old(View()).disk, r).after)
      ensures ok == ServeWrite(old(View()).disk, r).ok
    {
      var result := disk.Write(r.offset, r.payload);
      if result.Ok? && r.flags % 2 == 1 {
        disk.Flush();
      }
      ok := result.Ok?;
    }

    method Handle(r: Request) returns (reply: Reply)
      requires Valid() && WellFormed(r) && r.command != CMD_DISC
      modifies this`ioCount, disk, disk.file
      ensures Valid()
      ensures Served(View(), reply) == Serve(old(View()), r)
    {
      if IsIo(r.command) {
        var fail := Consult(r.command, r.offset, r.length);
        if fail {
          return Reply(NBD_EIO, r.cookie, []);
        }
      }
      if r.command == CMD_READ {
        var result := disk.Read(r.offset, r.length);
        match result {
          case Ok(data) => reply := Reply(0, r.cookie, data);
          case Err => reply := Reply(NBD_EIO, r.cookie, []);
        }
      } else if r.command == CMD_WRITE {
        var ok := TakeWrite(r);
        reply := Reply(if ok then 0 else NBD_EIO, r.cookie, []);
      } else if r.command == CMD_FLUSH {
        disk.Flush();
        reply := Reply(0, r.cookie, []);
      } else {
        reply := Reply(NBD_EINVAL, r.cookie, []);
      }
    }
  }

  function SaturatingAdd(a: nat, b: nat): nat
  {
    if a + b < U64_LIMIT then a + b else U64_LIMIT - 1
  }

  /** The two saturating comparisons decide whether the ranges share a byte. */
  lemma {:induction false} OverlapHasCommonByte(offset: nat, length: nat, sector: nat, count: nat)
    requires length > 0 && count > 0 && offset < U64_LIMIT && sector * 512 < U64_LIMIT
    ensures (offset < SaturatingAdd(sector * 512, count * 512) && sector * 512 < SaturatingAdd(offset, length)) <==>
            exists b: nat :: CommonByte(offset, length, sector, count, b)
  {
    var b := if offset > sector * 512 then offset else sector * 512;
    if offset < SaturatingAdd(sector * 512, count * 512) && sector * 512 < SaturatingAdd(offset, length) {
      assert CommonByte(offset, length, sector, count, b);
    }
  }

  // ---------------------------------------------------------------------
  // Whole runs
  // ---------------------------------------------------------------------

  /** What can happen to a served disk: a guest command, or the test pulling the power or arming a policy. */
  datatype Event = Guest(request: Request) | PowerCut | SetPolicy(policy: FaultPolicy)

  ghost function Step(v: ServerView, e: Event): ServerView
  {
    match e
    case Guest(r) => Serve(v, r).after
    case PowerCut => v.(disk := PowerCutView(v.disk))
    case SetPolicy(p) => v.(policy := p, ioCount := 0)
  }

  ghost function Run(v: ServerView, es: seq<Event>): ServerView
  {
    if es == [] then v else Step(Run(v, es[..|es| - 1]), es[|es| - 1])
  }

  /** A command that makes everything visible durable: a FLUSH, an accepted FUA
      write, or a write that takes the unflushed sectors over the cap. */
  ghost predicate CommitPoint(v: ServerView, e: Event)
  {
    && e.Guest? && !Fails(v, e.request)
    && var r := e.request;
       || r.command == CMD_FLUSH
       || (r.command == CMD_WRITE && Acceptable(v.disk, r) && (Fua(r) || CrossesCap(v.disk, r)))
  }

  /** The write can be taken whole. */
  predicate Acceptable(d: DiskView, r: Request)
  {
    r.payload == [] || r.offset + |r.payload| <= WholeSectors(|d.visible|)
  }

  predicate CrossesCap(d: DiskView, r: Request)
  {
    r.payload != [] && |d.dirty + Touched(r.offset, |r.payload|)| * 512 > OVERLAY_CAP_BYTES
  }

  /** How many events of the run lie at or before its last commit point. */
  ghost function LastCommit(v: ServerView, es: seq<Event>): (n: nat)
    ensures n <= |es|
  {
    if es == [] then 0
    else if CommitPoint(Run(v, es[..|es| - 1]), es[|es| - 1]) then |es|
    else LastCommit(v, es[..|es| - 1])
  }

  lemma {:induction false} WriteKeepsConsistent(d: DiskView, offset: nat, data: bytes)
    requires Consistent(d)
    ensures Consistent(WriteView(d, offset, data).after)
    ensures |WriteView(d, offset, data).after.visible| == |d.visible|
  {
    WriteLands(d, offset, data);
    var n := Landed(|d.visible|, offset, |data|);
    if n > 0 { AcceptKeepsConsistent(d, offset, data[..n]); }
  }

  lemma {:induction false} AcceptKeepsConsistent(d: DiskView, offset: nat, data: bytes)
    requires Consistent(d) && data != [] && offset + |data| <= WholeSectors(|d.visible|)
    ensures Consistent(Accept(d, offset, data)) && Consistent(Commit(Accept(d, offset, data)))
  {
    var a := Accept(d, offset, data);
    forall i | 0 <= i < |a.visible| && SectorOf(i) !in a.dirty
      ensures a.visible[i] == a.durable[i]
    {
      assert SectorOf(i) !in Touched(offset, |data|);
      assert i < offset || offset + |data| <= i;
    }
  }

  lemma {:induction false} ServeWriteKeepsConsistent(d: DiskView, r: Request)
    requires Consistent(d)
    ensures Consistent(ServeWrite(d, r).after) && |ServeWrite(d, r).after.visible| == |d.visible|
  {
    WriteKeepsConsistent(d, r.offset, r.payload);
  }

  lemma {:induction false} StepKeepsConsistent(v: ServerView, e: Event)
    requires Consistent(v.disk)
    ensures Consistent(Step(v, e).disk) && |Step(v, e).disk.visible| == |v.disk.visible|
  {
    if e.Guest? {
      ServeWriteKeepsConsistent(v.disk, e.request);
    }
  }

  lemma {:induction false} RunKeepsConsistent(v: ServerView, es: seq<Event>)
    requires Consistent(v.disk)
    ensures Consistent(Run(v, es).disk) && |Run(v, es).disk.visible| == |v.disk.visible|
  {
    if es != [] {
      RunKeepsConsistent(v, es[..|es| - 1]);
      StepKeepsConsistent(Run(v, es[..|es| - 1]), es[|es| - 1]);
    }
  }

  /** Between commit points the backing file does not move; at one it becomes the visible disk. */
  lemma {:induction false} CommitOrKeep(v: ServerView, e: Event)
    requires Consistent(v.disk)
    ensures Step(v, e).disk.durable == if CommitPoint(v, e) then Step(v, e).disk.visible else v.disk.durable
  {
    if e.Guest? && e.request.command == CMD_WRITE && !Fails(v, e.request) {
      WriteCommits(v.disk, e.request);
    }
  }

  lemma {:induction false} WriteCommits(d: DiskView, r: Request)
    requires Consistent(d)
    ensures ServeWrite(d, r).ok <==> Acceptable(d, r)
    ensures var after := ServeWrite(d, r).after;
            after.durable == if Acceptable(d, r) && (Fua(r) || CrossesCap(d, r)) then after.visible else d.durable
  {
  }

  /**
   * Durability. Over every run from a disk with nothing unflushed, the backing
   * file is the visible disk as it stood at the last commit point.
   */
  lemma {:induction false} Durability(v: ServerView, es: seq<Event>)
    requires Consistent(v.disk) && v.disk.visible == v.disk.durable
    ensures Run(v, es).disk.durable == Run(v, es[..LastCommit(v, es)]).disk.visible
  {
    if es == [] {
      assert es[..LastCommit(v, es)] == [];
    } else {
      var front := es[..|es| - 1];
      RunKeepsConsistent(v, front);
      CommitOrKeep(Run(v, front), es[|es| - 1]);
      Durability(v, front);
      assert es[..|es|] == es;
      assert front[..LastCommit(v, front)] == es[..LastCommit(v, front)];
    }
  }

  /** After a power cut every read sees exactly the disk of the last commit point. */
  lemma {:induction false} PowerCutRestoresLastCommit(v: ServerView, es: seq<Event>, offset: nat, len: nat)
    requires Consistent(v.disk) && v.disk.visible == v.disk.durable
    ensures ReadView(Run(v, es + [PowerCut]).disk, offset, len)
         == ReadView(Run(v, es[..LastCommit(v, es)]).disk, offset, len)
  {
    Durability(v, es);
    assert (es + [PowerCut])[..|es|] == es;
  }

  // --- the flat reference --------------------------------------------------

  /** The bytes of the event that reach the disk: those of a write that no fault stops. */
  ghost function Arriving(v: ServerView, e: Event): bytes
  {
    if e.Guest? && e.request.command == CMD_WRITE && !Fails(v, e.request) then
      e.request.payload[..Landed(|v.disk.visible|, e.request.offset, |e.request.payload|)]
    else []
  }

  /**
   * The disk as a flat byte array: the bytes of each write that land spliced in, a
   * power cut going back to the array of the last commit point, and nothing else.
   */
  ghost function FlatDisk(v: ServerView, es: seq<Event>): (image: bytes)
    requires Consistent(v.disk)
    ensures |image| == |v.disk.visible|
    decreases |es|
  {
    if es == [] then v.disk.visible
    else
      var front, e := es[..|es| - 1], es[|es| - 1];
      RunKeepsConsistent(v, front);
      var data := Arriving(Run(v, front), e);
      if e == PowerCut then FlatDisk(v, front[..LastCommit(v, front)])
      else if data == [] then FlatDisk(v, front)
      else
        Splice(FlatDisk(v, front), e.request.offset, data)
  }

  /**
   * Cache refinement. Over every run, on an image of any size, what the guest reads is
   * the flat array: partial sectors, flushes, forced commits and injected faults leave
   * no trace.
   */
  lemma {:induction false} VisibleIsFlat(v: ServerView, es: seq<Event>)
    requires Consistent(v.disk) && v.disk.visible == v.disk.durable
    ensures Run(v, es).disk.visible == FlatDisk(v, es)
    decreases |es|
  {
    if es != [] {
      var front, e := es[..|es| - 1], es[|es| - 1];
      VisibleIsFlat(v, front);
      RunKeepsConsistent(v, front);
      if e == PowerCut {
        Durability(v, front);
        VisibleIsFlat(v, front[..LastCommit(v, front)]);
      } else {
        VisibleStep(Run(v, front), e);
      }
    }
  }

  /** One event other than a power cut: what arrives is spliced in, and nothing beside it changes. */
  lemma {:induction false} VisibleStep(v: ServerView, e: Event)
    requires Consistent(v.disk) && e != PowerCut
    ensures Step(v, e).disk.visible ==
            if Arriving(v, e) == [] then v.disk.visible else Splice(v.disk.visible, e.request.offset, Arriving(v, e))
  {
    if e.Guest? {
      WriteLands(v.disk, e.request.offset, e.request.payload);
    }
  }

  /** A write is acknowledged exactly when all of it arrives, and on whole sectors none of a refused one does. */
  lemma {:induction false} AcknowledgedArrives(v: ServerView, r: Request)
    requires Consistent(v.disk) && r.command == CMD_WRITE
    ensures Serve(v, r).reply.error == 0 <==> !Fails(v, r) && Arriving(v, Guest(r)) == r.payload
    ensures WholeSectors(|v.disk.visible|) == |v.disk.visible| && Serve(v, r).reply.error != 0 ==> Arriving(v, Guest(r)) == []
  {
    WriteLands(v.disk, r.offset, r.payload);
  }

  // --- what the guest is told ----------------------------------------------------------

  /**
   * A READ that no fault stops is answered with the bytes of the flat array at its own
   * offset, over every run; one that reaches past the end is answered with EIO and no data.
   */
  lemma {:induction false} ReadAnswers(v: ServerView, es: seq<Event>, r: Request)
    requires Consistent(v.disk) && v.disk.visible == v.disk.durable
    requires r.command == 0 && !Fails(Run(v, es), r)
    ensures var image, end := FlatDisk(v, es), r.offset + r.length;
            Serve(Run(v, es), r).reply ==
            if r.length == 0 then Reply(0, r.cookie, [])
            else if end <= |image| then Reply(0, r.cookie, image[r.offset..end])
            else Reply(5, r.cookie, [])
  {
    VisibleIsFlat(v, es);
  }

  /** Every other reply: EIO for an injected fault and a write that does not fit, EINVAL for an unknown command. */
  lemma {:induction false} OtherAnswers(v: ServerView, r: Request)
    requires Consistent(v.disk)
    ensures var reply := Serve(v, r).reply;
            && (Fails(v, r) ==> reply == Reply(5, r.cookie, []))
            && (!Fails(v, r) && r.command == 1 ==> reply == Reply(if Acceptable(v.disk, r) then 0 else 5, r.cookie, []))
            && (!Fails(v, r) && r.command == 3 ==> reply == Reply(0, r.cookie, []))
            && (r.command != 0 && r.command != 1 && r.command != 3 ==> reply == Reply(22, r.cookie, []))
  {
    WriteCommits(v.disk, r);
  }

  /** With no counter and no range armed, a policy fails exactly the commands of the kinds it names. */
  lemma {:induction false} KindRules(v: ServerView, r: Request)
    requires v.policy.failAfter == None && v.policy.failRange == None
    ensures Fails(v, r) <==> (r.command == 0 && v.policy.failReads) || (r.command == 1 && v.policy.failWrites)
  {}

  /** The FUA flag is the lowest bit, whatever the others are. */
  lemma {:induction false} FuaIsBitZero(r: Request, others: nat)
    ensures r.flags == 2 * others + 1 ==> Fua(r)
    ensures r.flags == 2 * others ==> !Fua(r)
  {
  }

  // --- the cap -----------------------------------------------------------------

  /** No write of the run is torn: each is taken whole or not at all. */
  ghost predicate Untorn(v: ServerView, es: seq<Event>)
  {
    forall i :: 0 <= i < |es| && es[i].Guest? ==> !Torn(Run(v, es[..i]), es[i].request)
  }

  /** A run without a torn write never holds more than the cap. */
  lemma {:induction false} CapHolds(v: ServerView, es: seq<Event>)
    requires Consistent(v.disk) && !OverCap(v.disk) && Untorn(v, es)
    ensures !OverCap(Run(v, es).disk)
  {
    if es != [] {
      var front, e := es[..|es| - 1], es[|es| - 1];
      assert forall i :: 0 <= i < |front| ==> front[..i] == es[..i];
      CapHolds(v, front);
      assert e.Guest? ==> !Torn(Run(v, front), e.request);
      StepKeepsCap(Run(v, front), e);
    }
  }

  /** One event keeps the cap unless it is a torn write. */
  lemma {:induction false} StepKeepsCap(v: ServerView, e: Event)
    requires !OverCap(v.disk) && (e.Guest? ==> !Torn(v, e.request))
    ensures !OverCap(Step(v, e).disk)
  {
    if e.Guest? { WriteLands(v.disk, e.request.offset, e.request.payload); }
  }

  /** On a disk of whole sectors no run has a torn write. */
  lemma {:induction false} WholeSectorsNeverTear(v: ServerView, es: seq<Event>)
    requires Consistent(v.disk) && WholeSectors(|v.disk.visible|) == |v.disk.visible|
    ensures Untorn(v, es)
  {
    forall i | 0 <= i < |es| && es[i].Guest? ensures !Torn(Run(v, es[..i]), es[i].request) {
      RunKeepsConsistent(v, es[..i]);
    }
  }

  /** Over one command, on any disk: the cap is kept by every command the guest is told succeeded. */
  lemma {:induction false} AcknowledgedKeepsCap(v: ServerView, r: Request)
    requires !OverCap(v.disk) && Serve(v, r).reply.error == 0
    ensures !OverCap(Serve(v, r).after.disk)
  {
  }

  /** A failed WRITE has changed what is visible just when it straddles the end of the
      last whole sector; every other failed command leaves the disk alone. */
  ghost predicate Torn(v: ServerView, r: Request)
  {
    && r.command == CMD_WRITE && !Fails(v, r) && r.payload != []
    && r.offset < WholeSectors(|v.disk.visible|) < r.offset + |r.payload| <= |v.disk.visible|
  }

  lemma {:induction false} FailedCommandLeavesDisk(v: ServerView, r: Request)
    requires Serve(v, r).reply.error != 0
    ensures !Torn(v, r) ==> Serve(v, r).after.disk == v.disk
    ensures Torn(v, r) ==> var n := WholeSectors(|v.disk.visible|) - r.offset;
                           Serve(v, r).after.disk == Accept(v.disk, r.offset, r.payload[..n])
  {
  }

  /** A torn write is exempt from the cap: one past 64 MiB on a 64 MiB + 513 byte image. */
  lemma {:induction false} TornWriteOverCap(image: bytes, data: bytes)
    requires |image| == |data| == OVERLAY_CAP_BYTES + 513
    ensures var v := ServerView(DiskView(image, image, {}, 0), NO_FAULTS, 0);
            var r := Request(0, CMD_WRITE, 1, 0, |data|, data);
            WellFormed(r) && Torn(v, r) && Serve(v, r).reply.error == NBD_EIO && OverCap(Serve(v, r).after.disk)
  {
    var v := ServerView(DiskView(image, image, {}, 0), NO_FAULTS, 0);
    var r := Request(0, CMD_WRITE, 1, 0, |data|, data);
    WholeSectorsAt(|image|, 131073);
    FailedCommandLeavesDisk(v, r);
    assert SectorOf(131073 * 512 - 1) == 131072;
    RangeSize(0, 131073);
    assert |Touched(0, 131073 * 512)| == 131073;
    assert {} + Touched(0, 131073 * 512) == Touched(0, 131073 * 512);
  }

  // --- fault policy ---------------------------------------------------------------

  /** READ, WRITE and FLUSH commands among `es`. */
  function IoCommands(es: seq<Event>): nat
  {
    if es == [] then 0
    else
      var e := es[|es| - 1];
      IoCommands(es[..|es| - 1]) + if e.Guest? && IsIo(e.request.command) then 1 else 0
  }

  ghost predicate NoRearm(es: seq<Event>)
  {
    forall e :: e in es ==> !e.SetPolicy?
  }

  lemma {:induction false} ArmedCounts(v: ServerView, p: FaultPolicy, es: seq<Event>)
    requires NoRearm(es) && p != NO_FAULTS
    ensures Run(Step(v, SetPolicy(p)), es).policy == p
    ensures Run(Step(v, SetPolicy(p)), es).ioCount == IoCommands(es)
  {
    if es != [] {
      ArmedCounts(v, p, es[..|es| - 1]);
    }
  }

  /**
   * After arming, and until armed again, a READ, WRITE or FLUSH fails through
   * the policy exactly when it is at or past the `fail_after` count, counted from
   * the arming, or a rule matches its own bytes.
   */
  lemma {:induction false} FaultsOverRuns(v: ServerView, p: FaultPolicy, es: seq<Event>, r: Request)
    requires NoRearm(es) && p != NO_FAULTS && IsIo(r.command)
    ensures Fails(Run(Step(v, SetPolicy(p)), es), r) <==>
            (p.failAfter.Some? && IoCommands(es) + 1 >= p.failAfter.value) || RuleMatches(p, r.command, r.offset, r.length)
  {
    ArmedCounts(v, p, es);
  }

  /** An empty policy never fails a command and never advances the counter. */
  lemma {:induction false} ClearedPolicyIsSilent(v: ServerView, es: seq<Event>, r: Request)
    requires NoRearm(es)
    ensures var now := Run(Step(v, SetPolicy(NO_FAULTS)), es);
            now.policy == NO_FAULTS && now.ioCount == 0 && !Fails(now, r)
  {
    if es != [] {
      ClearedPolicyIsSilent(v, es[..|es| - 1], r);
      var front := es[..|es| - 1];
      if es[|es| - 1].Guest? {
        ClearedPolicyIsSilent(v, front, es[|es| - 1].request);
      }
    }
  }

  /** A FLUSH that is well formed by the protocol (length zero) can only be failed by the counter. */
  lemma {:induction false} FlushFailsByCounterOnly(p: FaultPolicy, offset: nat, length: nat)
    ensures RuleMatches(p, CMD_FLUSH, offset, length) <==>
            p.failRange.Some? && exists b: nat :: CommonByte(offset, length, p.failRange.value.0, p.failRange.value.1, b)
    ensures length == 0 ==> !RuleMatches(p, CMD_FLUSH, offset, length)
  {
  }

  /** A FLUSH sent with a non-zero length is caught by a range rule and answered with an error. */
  lemma {:induction false} FlushWithLengthCanFail(disk: DiskView, cookie: nat)
    requires cookie < U64_LIMIT
    ensures var v := ServerView(disk, NO_FAULTS.(failRange := Some((0, 1))), 0);
            var r := Request(0, CMD_FLUSH, cookie, 0, 512, []);
            WellFormed(r) && Serve(v, r).reply == Reply(NBD_EIO, cookie, []) && Serve(v, r).after.disk == disk
  {
    assert CommonByte(0, 512, 0, 1, 0);
  }

  /** The last address of the 64-bit space is in no failing range, however wide. */
  lemma {:induction false} LastAddressNeverFails(p: FaultPolicy, command: nat)
    requires !(command == CMD_READ && p.failReads) && !(command == CMD_WRITE && p.failWrites)
    ensures !RuleMatches(p, command, 0xFFFF_FFFF_FFFF_FFFF, 1)
  {
  }
}
