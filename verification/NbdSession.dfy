/**
 * One NBD connection from greeting to disconnect (`serve` in provium-host/src/nbd.rs):
 * negotiation and transmission over a single input stream.
 */
module NbdSession {
  import opened Bytes
  import opened NbdServer
  import opened NbdWire
  import NbdHandshake

  datatype Connected = Connected(out: bytes, after: ServerView, clean: bool, unread: bytes)

  function Answering(size: nat, flags: bytes): nat -> bytes
    requires |flags| >= 4
  {
    NbdHandshake.Answering(size, BE(flags, 0, 4) / 2 % 2 == 1)
  }

  ghost function Connection(v: ServerView, size: nat, input: bytes, between: Interludes): Connected
  {
    if |input| < 4 then Connected(NbdHandshake.Hello(), v, false, input)
    else
      var n := NbdHandshake.Negotiate(Answering(size, input), input[4..]);
      match n.outcome
      case Fault => Connected(NbdHandshake.Hello() + n.out, v, false, n.rest)
      case Refuse => Connected(NbdHandshake.Hello() + n.out, v, true, n.rest)
      case Proceed =>
        var s := Transmit(v, n.rest, between);
        Connected(NbdHandshake.Hello() + n.out + EncodeReplies(s.replies), s.after, s.clean, s.unread)
  }

  method ServeConnection(shared: Shared, input: bytes, between: Interludes) returns (out: bytes, clean: bool)
    requires shared.Valid() && Meddling(between)
    modifies shared, shared.disk, shared.disk.file
    ensures shared.Valid()
    ensures var c := Connection(old(shared.View()), shared.disk.file.Length, input, between);
            shared.View() == c.after && out == c.out && clean == c.clean
  {
    var hello, outcome, rest := NbdHandshake.Handshake(shared.disk.file.Length, input);
    match outcome {
      case Fault => return hello, false;
      case Refuse => return hello, true;
      case Proceed =>
        var replies, ended := Transmission(shared, rest, between);
        return hello + replies, ended;
    }
  }

  predicate IsOption(o: NbdHandshake.Opt)
  {
    NbdHandshake.WellFormedOpt(o) && !NbdHandshake.Ends(o)
  }

  /** All a client sends: its flags, any options, the one that starts transmission, its requests, a DISC. */
  function ClientBytes(flags: bytes, os: seq<NbdHandshake.Opt>, last: NbdHandshake.Opt, rs: seq<Request>, disc: Request): bytes
  {
    flags + (NbdHandshake.EncodeOpts(os) + (NbdHandshake.EncodeOpt(last) + (EncodeRequests(rs) + EncodeRequest(disc))))
  }

  lemma {:induction false} Appended(a: bytes, b: bytes, c: bytes, d: bytes, e: bytes, junk: bytes)
    ensures (a + (b + (c + (d + e)))) + junk == a + (b + (c + (d + (e + junk))))
  {
  }

  /**
   * A whole connection. Whatever options the client tries and whatever it asks for, under
   * every policy and disk state and with the test meddling between any two requests: every
   * option is answered, then every request, in order, and the bytes after the DISC are left.
   */
  lemma {:induction false} WholeSession(
    v: ServerView, size: nat, flags: bytes, os: seq<NbdHandshake.Opt>, last: NbdHandshake.Opt,
    rs: seq<Request>, disc: Request, junk: bytes, between: Interludes)
    requires |flags| == 4 && forall o :: o in os ==> IsOption(o)
    requires NbdHandshake.WellFormedOpt(last) && NbdHandshake.Ends(last) && last.option != NbdHandshake.OPT_ABORT
    requires forall r :: r in rs ==> WellFormed(r) && r.command != CMD_DISC
    requires WellFormed(disc) && disc.command == CMD_DISC
    ensures var c := Connection(v, size, ClientBytes(flags, os, last, rs, disc) + junk, between);
            var (after, replies) := ServeAll(v, rs, between);
            && c.clean && c.unread == junk
            && c.out == NbdHandshake.Hello() + NbdHandshake.Answers(Answering(size, flags), os + [last]) + EncodeReplies(replies)
            && |replies| == |rs| && (forall i :: 0 <= i < |rs| ==> Answers(rs[i], replies[i]))
            && ReadReplies(EncodeReplies(replies), rs) == Received(replies, [])
  {
    var rest := EncodeRequests(rs) + (EncodeRequest(disc) + junk);
    var options := NbdHandshake.EncodeOpts(os) + (NbdHandshake.EncodeOpt(last) + rest);
    var input := ClientBytes(flags, os, last, rs, disc) + junk;
    Appended(flags, NbdHandshake.EncodeOpts(os), NbdHandshake.EncodeOpt(last), EncodeRequests(rs), EncodeRequest(disc), junk);
    assert input == flags + options;
    FlagsRead(flags, options, size);
    NbdHandshake.NegotiationKeepsPlace(Answering(size, input), os, last, rest);
    StreamNeverDesynchronises(v, rs, disc, junk, between);
    ServeAllAnswers(v, rs, between);
  }

  lemma {:induction false} FlagsRead(flags: bytes, options: bytes, size: nat)
    requires |flags| == 4
    ensures (flags + options)[4..] == options && Answering(size, flags + options) == Answering(size, flags)
  {
    assert (flags + options)[0..4] == flags[0..4];
  }
}
