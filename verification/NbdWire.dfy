/**
 * The byte protocol around the command server: the transmission loop and its
 * request and reply framing (provium-host/src/nbd.rs; NBD protocol,
 * "Transmission phase").
 */
module NbdWire {
  import opened Bytes
  import opened NbdServer

  const REQUEST_MAGIC: nat := 0x2560_9513
  const SIMPLE_REPLY_MAGIC: nat := 0x6744_6698

  // ---------------------------------------------------------------------
  // Requests, as a client writes them and the server reads them
  // ---------------------------------------------------------------------

  function RequestHead(r: Request): (s: bytes)
    ensures |s| == 28
  {
    ToBE(REQUEST_MAGIC, 4) + ToBE(r.flags, 2) + ToBE(r.command, 2) + ToBE(r.cookie, 8) + ToBE(r.offset, 8) + ToBE(r.length, 4)
  }

  function EncodeRequest(r: Request): bytes
  {
    RequestHead(r) + r.payload
  }

  function EncodeRequests(rs: seq<Request>): bytes
  {
    if rs == [] then [] else EncodeRequest(rs[0]) + EncodeRequests(rs[1..])
  }

  datatype Parse = Closed | Broken | Parsed(request: Request, rest: bytes)

  function BE(s: bytes, at: nat, k: nat): nat
    requires at + k <= |s|
  {
    FromBE(s[at..at + k])
  }

  /** One request off the stream: a stream that ends inside the magic is a
      disconnected client, one that ends later or has another magic is broken. */
  function ParseRequest(s: bytes): Parse
  {
    if |s| < 4 then Closed
    else if BE(s, 0, 4) != REQUEST_MAGIC || |s| < 28 then Broken
    else
      var flags, command, cookie, offset, length :=
        BE(s, 4, 2), BE(s, 6, 2), BE(s, 8, 8), BE(s, 16, 8), BE(s, 24, 4);
      var n := if command == CMD_WRITE then length else 0;
      if |s| < 28 + n then Broken
      else Parsed(Request(flags, command, cookie, offset, length, s[28..28 + n]), s[28 + n..])
  }

  /** A field of a header is not disturbed by what follows the header. */
  lemma {:induction false} FieldOf(head: bytes, tail: bytes, at: nat, n: nat, k: nat)
    requires at + k <= |head| && head[at..at + k] == ToBE(n, k) && n < Pow256(k)
    ensures BE(head + tail, at, k) == n
  {
    assert (head + tail)[at..at + k] == head[at..at + k];
    BERoundTrip(n, k);
  }

  /** The six header fields sit where the parser looks for them. */
  lemma {:induction false} HeaderFields(r: Request, tail: bytes)
    requires WellFormed(r)
    ensures var s := RequestHead(r) + tail;
            && BE(s, 0, 4) == 0x2560_9513 && BE(s, 4, 2) == r.flags && BE(s, 6, 2) == r.command
            && BE(s, 8, 8) == r.cookie && BE(s, 16, 8) == r.offset && BE(s, 24, 4) == r.length
  {
    Widths();
    var head := RequestHead(r);
    FieldOf(head, tail, 0, REQUEST_MAGIC, 4);
    FieldOf(head, tail, 4, r.flags, 2);
    FieldOf(head, tail, 6, r.command, 2);
    FieldOf(head, tail, 8, r.cookie, 8);
    FieldOf(head, tail, 16, r.offset, 8);
    FieldOf(head, tail, 24, r.length, 4);
  }

  /** The server reads back exactly the request sent and not a byte more. */
  lemma {:induction false} RequestRoundTrip(r: Request, rest: bytes)
    requires WellFormed(r)
    ensures ParseRequest(EncodeRequest(r) + rest) == Parsed(r, rest)
  {
    Pieces(RequestHead(r), r.payload, rest);
    HeaderFields(r, r.payload + rest);
    ParsedFrom(EncodeRequest(r) + rest, r, rest);
  }

  lemma {:induction false} ParsedFrom(s: bytes, r: Request, rest: bytes)
    requires WellFormed(r) && |s| == 28 + |r.payload| + |rest| && BE(s, 0, 4) == REQUEST_MAGIC
    requires BE(s, 4, 2) == r.flags && BE(s, 6, 2) == r.command && BE(s, 8, 8) == r.cookie
    requires BE(s, 16, 8) == r.offset && BE(s, 24, 4) == r.length
    requires s[28..28 + |r.payload|] == r.payload && s[28 + |r.payload|..] == rest
    ensures ParseRequest(s) == Parsed(r, rest)
  {
  }

  /** Whatever the bytes, a parsed request has fields of the protocol's widths. */
  lemma {:induction false} ParsedIsWellFormed(s: bytes)
    requires ParseRequest(s).Parsed?
    ensures WellFormed(ParseRequest(s).request) && |ParseRequest(s).rest| < |s|
  {
    Widths();
    FromBEBound(s[4..6]);
    FromBEBound(s[6..8]);
    FromBEBound(s[8..16]);
    FromBEBound(s[16..24]);
    FromBEBound(s[24..28]);
  }

  // ---------------------------------------------------------------------
  // Replies, as the server writes them and a client reads them
  // ---------------------------------------------------------------------

  function ReplyHead(r: Reply): (s: bytes)
    ensures |s| == 16
  {
    ToBE(SIMPLE_REPLY_MAGIC, 4) + ToBE(r.error, 4) + ToBE(r.cookie, 8)
  }

  function EncodeReply(r: Reply): bytes
  {
    ReplyHead(r) + r.data
  }

  function EncodeReplies(rs: seq<Reply>): bytes
  {
    if rs == [] then [] else EncodeReply(rs[0]) + EncodeReplies(rs[1..])
  }

  /** A simple reply carries no length: the client knows it from its own request and the error code. */
  function DataLength(r: Request, error: nat): nat
  {
    if r.command == CMD_READ && error == 0 then r.length else 0
  }

  datatype Received = Received(replies: seq<Reply>, rest: bytes) | Garbled

  /** A client reading one reply per outstanding request, in order. */
  function ReadReplies(s: bytes, outstanding: seq<Request>): Received
  {
    if outstanding == [] then Received([], s)
    else if |s| < 16 || BE(s, 0, 4) != SIMPLE_REPLY_MAGIC then Garbled
    else
      var error, cookie := BE(s, 4, 4), BE(s, 8, 8);
      var n := DataLength(outstanding[0], error);
      if |s| < 16 + n then Garbled
      else match ReadReplies(s[16 + n..], outstanding[1..])
        case Garbled => Garbled
        case Received(more, rest) => Received([Reply(error, cookie, s[16..16 + n])] + more, rest)
  }

  ghost predicate Answers(r: Request, reply: Reply)
  {
    && reply.cookie == r.cookie && reply.error < U32_LIMIT && reply.cookie < U64_LIMIT
    && |reply.data| == DataLength(r, reply.error)
  }

  lemma {:induction false} ServeAnswers(v: ServerView, r: Request)
    requires WellFormed(r)
    ensures Answers(r, Serve(v, r).reply)
  {
  }

  lemma {:induction false} RepliesRoundTrip(rs: seq<Request>, replies: seq<Reply>, rest: bytes)
    requires |rs| == |replies| && forall i :: 0 <= i < |rs| ==> Answers(rs[i], replies[i])
    ensures ReadReplies(EncodeReplies(replies) + rest, rs) == Received(replies, rest)
  {
    if rs == [] {
      assert EncodeReplies(replies) + rest == rest;
    } else {
      RepliesRoundTrip(rs[1..], replies[1..], rest);
      FirstReplyRead(rs, replies[0], EncodeReplies(replies[1..]) + rest);
      Pieces(EncodeReply(replies[0]), EncodeReplies(replies[1..]), rest);
      assert [replies[0]] + replies[1..] == replies;
    }
  }

  lemma {:induction false} FirstReplyRead(rs: seq<Request>, reply: Reply, more: bytes)
    requires rs != [] && Answers(rs[0], reply) && ReadReplies(more, rs[1..]).Received?
    ensures var later := ReadReplies(more, rs[1..]);
            ReadReplies(EncodeReply(reply) + more, rs) == Received([reply] + later.replies, later.rest)
  {
    Pieces(ReplyHead(reply), reply.data, more);
    ReplyFields(reply, reply.data + more);
    OneReplyRead(EncodeReply(reply) + more, rs, reply, more);
  }

  lemma {:induction false} OneReplyRead(s: bytes, rs: seq<Request>, reply: Reply, more: bytes)
    requires rs != [] && Answers(rs[0], reply) && |s| == 16 + |reply.data| + |more|
    requires BE(s, 0, 4) == 0x6744_6698 && BE(s, 4, 4) == reply.error && BE(s, 8, 8) == reply.cookie
    requires s[16..16 + |reply.data|] == reply.data && s[16 + |reply.data|..] == more
    requires ReadReplies(more, rs[1..]).Received?
    ensures var later := ReadReplies(more, rs[1..]);
            ReadReplies(s, rs) == Received([reply] + later.replies, later.rest)
  {
  }

  lemma {:induction false} ReplyFields(reply: Reply, tail: bytes)
    requires reply.error < U32_LIMIT && reply.cookie < U64_LIMIT
    ensures var s := ReplyHead(reply) + tail;
            BE(s, 0, 4) == 0x6744_6698 && BE(s, 4, 4) == reply.error && BE(s, 8, 8) == reply.cookie
  {
    Widths();
    var head := ReplyHead(reply);
    FieldOf(head, tail, 0, SIMPLE_REPLY_MAGIC, 4);
    FieldOf(head, tail, 4, reply.error, 4);
    FieldOf(head, tail, 8, reply.cookie, 8);
  }

  // ---------------------------------------------------------------------
  // The transmission loop
  // ---------------------------------------------------------------------

  /** What the test may do to the disk while a connection is served. */
  ghost predicate HandleOnly(ops: seq<Event>)
  {
    forall e :: e in ops ==> !e.Guest? && (e.SetPolicy? ==> RangeFits(e.policy))
  }

  type Interludes = seq<seq<Event>>

  ghost predicate Meddling(between: Interludes)
  {
    forall ops :: ops in between ==> HandleOnly(ops)
  }

  function First(between: Interludes): seq<Event>
  {
    if between == [] then [] else between[0]
  }

  function Later(between: Interludes): Interludes
  {
    if between == [] then [] else between[1..]
  }

  datatype Session = Session(after: ServerView, replies: seq<Reply>, clean: bool, unread: bytes)

  /** The loop over one input stream; `between` is what the test does before each request is taken. */
  ghost function Transmit(v: ServerView, input: bytes, between: Interludes): Session
    decreases |input|
  {
    var now := Run(v, First(between));
    match ParseRequest(input)
    case Closed => Session(now, [], true, input)
    case Broken => Session(now, [], false, input)
    case Parsed(r, rest) =>
      ParsedIsWellFormed(input);
      if r.command == CMD_DISC then Session(now, [], true, rest)
      else
        var served := Serve(now, r);
        var more := Transmit(served.after, rest, Later(between));
        more.(replies := [served.reply] + more.replies)
  }

  method Meddle(shared: Shared, ops: seq<Event>)
    requires shared.Valid() && HandleOnly(ops)
    modifies shared, shared.disk
    ensures shared.Valid() && shared.View() == Run(old(shared.View()), ops)
  {
    for i := 0 to |ops|
      invariant shared.Valid() && shared.View() == Run(old(shared.View()), ops[..i])
    {
      assert ops[..i + 1][..i] == ops[..i];
      assert ops[i] in ops;
      match ops[i] {
        case PowerCut => shared.PowerCut();
        case SetPolicy(p) => shared.SetPolicy(p);
      }
    }
    assert ops[..|ops|] == ops;
  }

  method Transmission(shared: Shared, input: bytes, between: Interludes) returns (out: bytes, clean: bool)
    requires shared.Valid() && Meddling(between)
    modifies shared, shared.disk, shared.disk.file
    ensures shared.Valid()
    ensures var s := Transmit(old(shared.View()), input, between);
            shared.View() == s.after && out == EncodeReplies(s.replies) && clean == s.clean
  {
    out := [];
    var rest, left := input, between;
    ghost var whole := Transmit(shared.View(), input, between);
    while true
      invariant shared.Valid() && Meddling(left)
      invariant var s := Transmit(shared.View(), rest, left);
                whole.after == s.after && whole.clean == s.clean &&
                EncodeReplies(whole.replies) == out + EncodeReplies(s.replies)
      decreases |rest|
    {
      ghost var s := Transmit(shared.View(), rest, left);
      Meddle(shared, First(left));
      left := Later(left);
      match ParseRequest(rest) {
        case Closed => return out, true;
        case Broken => return out, false;
        case Parsed(r, more) =>
          ParsedIsWellFormed(rest);
          if r.command == CMD_DISC {
            return out, true;
          }
          var reply := shared.Handle(r);
          assert s.replies[1..] == Transmit(shared.View(), more, left).replies;
          out := out + EncodeReply(reply);
          rest := more;
      }
    }
  }

  // ---------------------------------------------------------------------
  // The stream never loses its place
  // ---------------------------------------------------------------------

  ghost function ServeAll(v: ServerView, rs: seq<Request>, between: Interludes): (ServerView, seq<Reply>)
    decreases |rs|
  {
    if rs == [] then (v, [])
    else
      var served := Serve(Run(v, First(between)), rs[0]);
      var more := ServeAll(served.after, rs[1..], Later(between));
      (more.0, [served.reply] + more.1)
  }

  function Skip(between: Interludes, n: nat): Interludes
  {
    if n <= |between| then between[n..] else []
  }

  function Prepend(replies: seq<Reply>, s: Session): Session
  {
    s.(replies := replies + s.replies)
  }

  lemma {:induction false} TransmitOne(v: ServerView, r: Request, rest: bytes, between: Interludes)
    requires WellFormed(r) && r.command != CMD_DISC
    ensures var served := Serve(Run(v, First(between)), r);
            Transmit(v, EncodeRequest(r) + rest, between) ==
            Prepend([served.reply], Transmit(served.after, rest, Later(between)))
  {
    RequestRoundTrip(r, rest);
  }

  lemma {:induction false} PrependTwice(a: seq<Reply>, b: seq<Reply>, s: Session)
    ensures Prepend(a, Prepend(b, s)) == Prepend(a + b, s) && Prepend([], s) == s
  {
    assert a + (b + s.replies) == (a + b) + s.replies;
    assert [] + s.replies == s.replies;
  }

  /** Requests before the first DISC are each parsed back and answered; what follows them is met in place. */
  lemma {:induction false} InSync(v: ServerView, rs: seq<Request>, tail: bytes, between: Interludes)
    requires forall r :: r in rs ==> WellFormed(r) && r.command != CMD_DISC
    ensures var all := ServeAll(v, rs, between);
            Transmit(v, EncodeRequests(rs) + tail, between) ==
            Prepend(all.1, Transmit(all.0, tail, Skip(between, |rs|)))
    decreases |rs|
  {
    if rs == [] {
      assert EncodeRequests(rs) + tail == tail;
      PrependTwice([], [], Transmit(v, tail, between));
    } else {
      assert rs[0] in rs;
      var more := EncodeRequests(rs[1..]) + tail;
      assert EncodeRequests(rs) + tail == EncodeRequest(rs[0]) + more;
      TransmitOne(v, rs[0], more, between);
      var served := Serve(Run(v, First(between)), rs[0]);
      InSync(served.after, rs[1..], tail, Later(between));
      assert Skip(Later(between), |rs| - 1) == Skip(between, |rs|);
      var all := ServeAll(served.after, rs[1..], Later(between));
      PrependTwice([served.reply], all.1, Transmit(all.0, tail, Skip(between, |rs|)));
    }
  }

  lemma {:induction false} ServeAllAnswers(v: ServerView, rs: seq<Request>, between: Interludes)
    requires forall r :: r in rs ==> WellFormed(r)
    ensures var replies := ServeAll(v, rs, between).1;
            |replies| == |rs| && forall i :: 0 <= i < |rs| ==> Answers(rs[i], replies[i])
    decreases |rs|
  {
    if rs != [] {
      var now := Run(v, First(between));
      assert rs[0] in rs;
      ServeAnswers(now, rs[0]);
      ServeAllAnswers(Serve(now, rs[0]).after, rs[1..], Later(between));
    }
  }

  /**
   * For every sequence of requests, every disk and policy, and anything the
   * test does meanwhile: a client that sends the requests, and then a DISC
   * followed by any bytes at all, reads back one reply per request, in order, each
   * with its own cookie and the length its request and error code fix, and the
   * bytes after the DISC are never looked at.
   */
  lemma {:induction false} StreamNeverDesynchronises(
    v: ServerView, rs: seq<Request>, disc: Request, junk: bytes, between: Interludes)
    requires forall r :: r in rs ==> WellFormed(r) && r.command != CMD_DISC
    requires WellFormed(disc) && disc.command == CMD_DISC
    ensures var s := Transmit(v, EncodeRequests(rs) + (EncodeRequest(disc) + junk), between);
            && s.clean && s.unread == junk
            && |s.replies| == |rs| && (forall i :: 0 <= i < |rs| ==> Answers(rs[i], s.replies[i]))
            && ReadReplies(EncodeReplies(s.replies), rs) == Received(s.replies, [])
            && s.replies == ServeAll(v, rs, between).1
  {
    InSync(v, rs, EncodeRequest(disc) + junk, between);
    ServeAllAnswers(v, rs, between);
    RequestRoundTrip(disc, junk);
    var replies := ServeAll(v, rs, between).1;
    assert replies + [] == replies;
    RepliesRoundTrip(rs, replies, []);
    assert EncodeReplies(replies) + [] == EncodeReplies(replies);
  }

  /** A client that just goes away, even inside a request magic, ends the session cleanly. */
  lemma {:induction false} HangUpIsClean(v: ServerView, rs: seq<Request>, torn: bytes, between: Interludes)
    requires forall r :: r in rs ==> WellFormed(r) && r.command != CMD_DISC
    requires |torn| < 4
    ensures var s := Transmit(v, EncodeRequests(rs) + torn, between);
            s.clean && s.replies == ServeAll(v, rs, between).1
  {
    InSync(v, rs, torn, between);
    var replies := ServeAll(v, rs, between).1;
    assert replies + [] == replies;
  }
}
