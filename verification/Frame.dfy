/**
 * Length-prefixed framing (provium-protocol/src/frame.rs): the writer, and the
 * stateful decoder whose partial header and body survive timeouts. Message
 * bodies are opaque bytes; `decode` stands for the msgpack decoder.
 */
module Frame {
  import opened Bytes
  import opened Options

  // ---------------------------------------------------------------------
  // Frames, by their meaning
  // ---------------------------------------------------------------------

  /** What a byte stream starts with, under a body cap. */
  datatype Start =
    | AtEof
    | Cut(got: nat, expected: nat)     // the stream ends inside a header or a body
    | TooBig(len: nat)
    | Framed(body: bytes, rest: bytes)

  function FirstFrame(s: bytes, max: nat): Start
  {
    if s == [] then AtEof
    else if |s| < 4 then Cut(|s|, 4)
    else
      var n := FromBE(s[..4]);
      if n > max then TooBig(n)
      else if |s| - 4 < n then Cut(|s| - 4, n)
      else Framed(s[4..4 + n], s[4 + n..])
  }

  function Encode(body: bytes): bytes
  {
    ToBE(|body|, 4) + body
  }

  function EncodeAll(bodies: seq<bytes>): bytes
  {
    if bodies == [] then [] else Encode(bodies[0]) + EncodeAll(bodies[1..])
  }

  /** The decoder inverts the encoder and stops exactly at the end of the frame. */
  lemma {:induction false} FrameRoundTrip(body: bytes, rest: bytes, max: nat)
    requires |body| <= max && |body| < U32_LIMIT
    ensures FirstFrame(Encode(body) + rest, max) == Framed(body, rest)
  {
    Widths();
    var s := Encode(body) + rest;
    assert s[..4] == ToBE(|body|, 4);
    BERoundTrip(|body|, 4);
    assert s[4..4 + |body|] == body;
    assert s[4 + |body|..] == rest;
  }

  /** A frame cut short anywhere is seen to be, with what there is and what there should be. */
  lemma {:induction false} CutFrameIsSeen(body: bytes, n: nat, max: nat)
    requires |body| <= max && |body| < U32_LIMIT && n < |Encode(body)|
    ensures FirstFrame(Encode(body)[..n], max) ==
            if n == 0 then AtEof else if n < 4 then Cut(n, 4) else Cut(n - 4, |body|)
  {
    if n >= 4 {
      Widths();
      assert Encode(body)[..n][..4] == ToBE(|body|, 4);
      BERoundTrip(|body|, 4);
    }
  }

  /** A body over the cap is refused by its length alone, however much of it is there. */
  lemma {:induction false} OversizedIsRefused(body: bytes, n: nat, max: nat)
    requires max < |body| < U32_LIMIT && 4 <= n <= |Encode(body)|
    ensures FirstFrame(Encode(body)[..n], max) == TooBig(|body|)
  {
    Widths();
    assert Encode(body)[..n][..4] == ToBE(|body|, 4);
    BERoundTrip(|body|, 4);
  }

  // ---------------------------------------------------------------------
  // A byte source that delivers as it pleases
  // ---------------------------------------------------------------------

  /** What one `read` does: deliver up to `n` bytes, or fail one way or another. */
  datatype Delivery = Chunk(n: nat) | Interrupt | Block | Fail

  datatype ReadResult = Got(n: nat) | Interrupted | WouldBlock | Broken

  class Source {
    var remaining: bytes
    var script: seq<Delivery>  // past its end every read is served in full

    constructor (stream: bytes, plan: seq<Delivery>)
      ensures remaining == stream && script == plan
    {
      remaining, script := stream, plan;
    }

    /** Reads into `buf[at..]`. As for any reader, zero bytes means the end of the stream. */
    method Read(buf: array<byte>, at: nat) returns (r: ReadResult)
      requires at < buf.Length
      modifies this, buf
      ensures buf[..at] == old(buf[..at])
      ensures r.Got? ==> && r.n <= buf.Length - at && r.n <= |old(remaining)|
                         && buf[at..at + r.n] == old(remaining)[..r.n] && remaining == old(remaining)[r.n..]
                         && (r.n == 0 <==> old(remaining) == [])
      ensures !r.Got? ==> remaining == old(remaining) && old(script) != [] && script == old(script)[1..]
      ensures r.WouldBlock? ==> old(script) != [] && old(script)[0] == Block
      ensures r.Broken? ==> old(script) != [] && old(script)[0] == Fail
      ensures script == old(script) || (old(script) != [] && script == old(script)[1..])
    {
      var next := Chunk(buf.Length - at);
      if script != [] {
        next, script := script[0], script[1..];
      }
      match next {
        case Interrupt => return Interrupted;
        case Block => return WouldBlock;
        case Fail => return Broken;
        case Chunk(n) =>
          var room := buf.Length - at;
          var count := if n == 0 then 1 else n;
          count := if count < room then count else room;
          count := if count < |remaining| then count else |remaining|;
          CopyInto(buf, at, remaining[..count]);
          remaining := remaining[count..];
          return Got(count);
      }
    }
  }

  method CopyInto(buf: array<byte>, at: nat, chunk: bytes)
    requires at + |chunk| <= buf.Length
    modifies buf
    ensures buf[..at] == old(buf[..at]) && buf[at..at + |chunk|] == chunk
  {
    forall i | at <= i < at + |chunk| {
      buf[i] := chunk[i - at];
    }
  }

  datatype Filled = Done | Failed(kind: ReadResult)

  /** `read_full`: read until `buf` is full or the stream ends, keeping count in `total`
      even when an error cuts it short; interrupted reads are retried. */
  method ReadFull(src: Source, buf: array<byte>, start: nat) returns (total: nat, r: Filled)
    requires start <= buf.Length
    modifies src, buf
    ensures start <= total <= buf.Length && buf[..start] == old(buf[..start])
    ensures buf[..total] + src.remaining == old(buf[..start]) + old(src.remaining)
    ensures r.Done? ==> total == buf.Length || src.remaining == []
    ensures r.Failed? ==> r.kind == WouldBlock || r.kind == Broken
    ensures r.Failed? ==> total < buf.Length && |src.script| < |old(src.script)|
    ensures r == Failed(Broken) ==> Fail in old(src.script)
    ensures |src.script| <= |old(src.script)| && forall d :: d in src.script ==> d in old(src.script)
  {
    total := start;
    while total < buf.Length
      invariant start <= total <= buf.Length && buf[..start] == old(buf[..start])
      invariant buf[..total] + src.remaining == old(buf[..start]) + old(src.remaining)
      invariant |src.script| <= |old(src.script)| && forall d :: d in src.script ==> d in old(src.script)
      decreases |src.script| + buf.Length - total
    {
      ghost var head, before := buf[..total], src.remaining;
      var got := src.Read(buf, total);
      match got {
        case Interrupted =>
        case WouldBlock => return total, Failed(WouldBlock);
        case Broken => return total, Failed(Broken);
        case Got(n) =>
          if n == 0 {
            break;
          }
          assert before == before[..n] + before[n..];
          assert buf[..total + n] == head + before[..n];
          total := total + n;
      }
    }
    r := Done;
  }

  // ---------------------------------------------------------------------
  // The decoder
  // ---------------------------------------------------------------------

  lemma {:induction false} Regroup(a: bytes, b: bytes, c: bytes)
    ensures (a + b) + c == a + (b + c)
  {
  }

  datatype FrameError =
    | Eof
    | UnexpectedEof(bytesRead: nat, expected: nat)
    | FrameTooLarge(len: nat, max: nat)
    | Io(kind: ReadResult)
    | Undecodable

  datatype Result<T> = Ok(message: T) | Err(error: FrameError)

  class FrameReader<T> {
    const maxBody: nat
    const decode: bytes -> Option<T>
    const header: array<byte>
    var headerRead: nat
    var body: array<byte>
    var bodyRead: nat

    ghost predicate Valid()
      reads this, header, body
    {
      && header.Length == 4 && headerRead <= 4 && header != body
      && bodyRead <= body.Length
      && (bodyRead > 0 ==> headerRead == 4 && body.Length == FromBE(header[..]))
    }

    /** The bytes of the current frame received so far. */
    ghost function Buffered(): bytes
      requires Valid()
      reads this, header, body
    {
      header[..headerRead] + body[..bodyRead]
    }

    constructor (max: nat, decoder: bytes -> Option<T>)
      ensures Valid() && Buffered() == [] && maxBody == max && decode == decoder && fresh(header) && fresh(body)
    {
      maxBody, decode := max, decoder;
      header := new byte[4](_ => 0);
      body := new byte[0];
      headerRead, bodyRead := 0, 0;
    }

    /** What a result says about the frame the stream starts with, however it was delivered. */
    ghost predicate Reports(all: bytes, r: Result<T>, rest: bytes)
      requires Valid()
      reads this, header, body
    {
      match r
      case Ok(m) => exists b: bytes :: FirstFrame(all, maxBody) == Framed(b, rest) && decode(b) == Some(m) && Buffered() == []
      case Err(Eof) => all == [] && rest == []
      case Err(UnexpectedEof(n, e)) => FirstFrame(all, maxBody) == Cut(n, e) && rest == []
      case Err(FrameTooLarge(n, m)) => FirstFrame(all, maxBody) == TooBig(n) && m == maxBody
      case Err(Io(_)) => Buffered() + rest == all
      case Err(Undecodable) => exists b: bytes :: FirstFrame(all, maxBody) == Framed(b, rest) && decode(b) == None
    }

    /** A result advances the uninterrupted decoding by one message, or ends it. */
    lemma ReportsDecode(all: bytes, r: Result<T>, rest: bytes)
      requires Valid() && Reports(all, r, rest)
      ensures r.Ok? ==> |rest| < |all| && Buffered() == []
      ensures r.Ok? ==> var later := DecodeStream(rest, maxBody, decode);
                        DecodeStream(all, maxBody, decode) == later.(messages := [r.message] + later.messages)
      ensures r.Err? && !r.error.Io? ==> DecodeStream(all, maxBody, decode) == Decoded([], r.error)
    {
    }

    method FillHeader(src: Source) returns (r: Filled)
      requires Valid()
      modifies this`headerRead, header, src
      ensures Valid() && Buffered() + src.remaining == old(Buffered()) + old(src.remaining)
      ensures r.Done? ==> headerRead == 4 || (src.remaining == [] && bodyRead == 0)
      ensures r.Failed? ==> (r.kind == WouldBlock || r.kind == Broken) && |src.script| < |old(src.script)|
      ensures r == Failed(Broken) ==> Fail in old(src.script)
      ensures |src.script| <= |old(src.script)| && forall d :: d in src.script ==> d in old(src.script)
    {
      ghost var had, before := header[..headerRead], src.remaining;
      ghost var held := body[..bodyRead];
      headerRead, r := ReadFull(src, header, headerRead);
      if |had| == 4 {
        assert header[..4] == had;
        assert src.remaining == (had + before)[4..] == before;
        assert Buffered() == had + held;
      } else {
        assert held == [] && body[..bodyRead] == [];
        assert Buffered() == header[..headerRead] && had + held == had;
      }
    }

    /** `resize`, then fill: bytes already there are kept. */
    method FillBody(src: Source, len: nat) returns (r: Filled)
      requires Valid() && headerRead == 4 && len == FromBE(header[..])
      modifies this`body, this`bodyRead, body, src
      ensures Valid() && headerRead == 4 && len == FromBE(header[..]) && (body == old(body) || fresh(body))
      ensures body.Length == len && Buffered() + src.remaining == old(Buffered()) + old(src.remaining)
      ensures r.Done? ==> bodyRead == len || src.remaining == []
      ensures r.Failed? ==> (r.kind == WouldBlock || r.kind == Broken) && |src.script| < |old(src.script)|
      ensures r == Failed(Broken) ==> Fail in old(src.script)
      ensures |src.script| <= |old(src.script)| && forall d :: d in src.script ==> d in old(src.script)
    {
      ghost var held, before := body[..bodyRead], src.remaining;
      if body.Length != len {
        var was := body;
        body := new byte[len](i requires 0 <= i reads was => if i < was.Length then was[i] else 0);
      }
      assert body[..bodyRead] == held;
      bodyRead, r := ReadFull(src, body, bodyRead);
      Regroup(header[..4], body[..bodyRead], src.remaining);
      Regroup(header[..4], held, before);
    }

    method Read(src: Source) returns (r: Result<T>)
      requires Valid()
      modifies this, header, body, src
      ensures Valid() && (body == old(body) || fresh(body))
      ensures Reports(old(Buffered()) + old(src.remaining), r, src.remaining)
      ensures r.Err? && r.error.Io? ==> r.error.kind == Broken || r.error.kind == WouldBlock
      ensures r.Err? && r.error.Io? ==> |src.script| < |old(src.script)|
      ensures r.Err? && r.error == Io(Broken) ==> Fail in old(src.script)
      ensures |src.script| <= |old(src.script)| && forall d :: d in src.script ==> d in old(src.script)
    {
      ghost var all := Buffered() + src.remaining;
      var filled := FillHeader(src);
      if filled.Failed? {
        return Err(Io(filled.kind));
      }
      if headerRead == 0 {
        return Err(Eof);
      }
      if headerRead < 4 {
        return Err(UnexpectedEof(headerRead, 4));
      }
      var len := FromBE(header[..]);
      assert header[..4] == header[..] && all[..4] == header[..];
      if len > maxBody {
        return Err(FrameTooLarge(len, maxBody));
      }
      filled := FillBody(src, len);
      assert header[..4] + body[..bodyRead] + src.remaining == all;
      if filled.Failed? {
        return Err(Io(filled.kind));
      }
      assert header[..4] == header[..] && all[..4] == header[..];
      if bodyRead < len {
        return Err(UnexpectedEof(bodyRead, len));
      }
      assert body[..] == all[4..4 + len] && src.remaining == all[4 + len..];
      var decoded := decode(body[..]);
      if decoded.None? {
        return Err(Undecodable);
      }
      headerRead, bodyRead := 0, 0;
      body := new byte[0];
      return Ok(decoded.value);
    }
  }

  // ---------------------------------------------------------------------
  // Whole streams
  // ---------------------------------------------------------------------

  datatype Decoded<T> = Decoded(messages: seq<T>, ending: FrameError)

  /** All messages of a stream and how it ends, read in one go with no interruptions. */
  function DecodeStream<T>(s: bytes, max: nat, decode: bytes -> Option<T>): Decoded<T>
    decreases |s|
  {
    match FirstFrame(s, max)
    case AtEof => Decoded([], Eof)
    case Cut(n, e) => Decoded([], UnexpectedEof(n, e))
    case TooBig(n) => Decoded([], FrameTooLarge(n, max))
    case Framed(b, rest) =>
      match decode(b)
      case None => Decoded([], Undecodable)
      case Some(m) =>
        var more := DecodeStream(rest, max, decode);
        more.(messages := [m] + more.messages)
  }

  /**
   * A session that keeps calling `read`, calling again after every timeout. For
   * every way of splitting the stream into reads, with interrupts and timeouts
   * anywhere, it gets what one uninterrupted pass over the bytes gives; and if a
   * read fails for good, it has a prefix of that.
   */
  method ReadAll<T>(reader: FrameReader<T>, src: Source) returns (messages: seq<T>, ending: FrameError)
    requires reader.Valid()
    modifies reader, reader.header, reader.body, src
    ensures Fail !in old(src.script) ==>
      Decoded(messages, ending) ==
      DecodeStream(old(reader.Buffered()) + old(src.remaining), reader.maxBody, reader.decode)
    ensures messages <=
      DecodeStream(old(reader.Buffered()) + old(src.remaining), reader.maxBody, reader.decode).messages
    ensures ending == Eof ==> src.remaining == []
  {
    messages := [];
    ghost var all := reader.Buffered() + src.remaining;
    ghost var whole := DecodeStream(all, reader.maxBody, reader.decode);
    while true
      invariant reader.Valid() && (reader.body == old(reader.body) || fresh(reader.body))
      invariant all == reader.Buffered() + src.remaining
      invariant forall d :: d in src.script ==> d in old(src.script)
      invariant Ahead(whole, messages, DecodeStream(all, reader.maxBody, reader.decode))
      decreases |all| + |src.script|
    {
      var r := reader.Read(src);
      reader.ReportsDecode(all, r, src.remaining);
      match r {
        case Ok(m) =>
          AheadStep(whole, messages, m, DecodeStream(src.remaining, reader.maxBody, reader.decode));
          all := src.remaining;
          messages := messages + [m];
        case Err(Io(WouldBlock)) =>
        case Err(e) =>
          assert messages + [] == messages;
          return messages, e;
      }
    }
  }

  /** What has been read, followed by what is still to come, is the whole. */
  ghost predicate Ahead<T>(whole: Decoded<T>, messages: seq<T>, rest: Decoded<T>)
  {
    whole == rest.(messages := messages + rest.messages)
  }

  lemma {:induction false} AheadStep<T>(whole: Decoded<T>, messages: seq<T>, m: T, later: Decoded<T>)
    requires Ahead(whole, messages, later.(messages := [m] + later.messages))
    ensures Ahead(whole, messages + [m], later)
  {
    assert messages + ([m] + later.messages) == (messages + [m]) + later.messages;
  }

  lemma {:induction false} EncodedStreamDecodes(bodies: seq<bytes>, max: nat)
    requires forall b :: b in bodies ==> |b| <= max && |b| < U32_LIMIT
    ensures DecodeStream(EncodeAll(bodies), max, (b: bytes) => Some(b)) == Decoded(bodies, Eof)
  {
    if bodies != [] {
      assert bodies[0] in bodies;
      FrameRoundTrip(bodies[0], EncodeAll(bodies[1..]), max);
      EncodedStreamDecodes(bodies[1..], max);
      assert [bodies[0]] + bodies[1..] == bodies;
    }
  }

  /** `write_frame`: encode after a reserved header, then fill the header in and send both as one write. */
  method WriteFrame(message: bytes, maxBody: nat, sent: bytes) returns (r: Result<()>, out: bytes)
    ensures var cap := if maxBody < U32_LIMIT then maxBody else U32_LIMIT - 1;
            if |message| <= cap then r == Ok(()) && out == sent + Encode(message)
            else r == Err(FrameTooLarge(|message|, cap)) && out == sent
  {
    var buf := new byte[4 + |message|](i requires 0 <= i < 4 + |message| => if i < 4 then 0 else message[i - 4]);
    var len := buf.Length - 4;
    var cap := if maxBody < U32_LIMIT - 1 then maxBody else U32_LIMIT - 1;
    if len > cap {
      return Err(FrameTooLarge(len, cap)), sent;
    }
    var header := ToBE(len, 4);
    forall i | 0 <= i < 4 {
      buf[i] := header[i];
    }
    assert buf[..] == Encode(message);
    return Ok(()), sent + buf[..];
  }
}
