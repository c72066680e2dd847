/**
 * Fixed-newstyle option negotiation (provium-host/src/nbd.rs): which options end
 * it, what each is answered with, and that it hands the transmission phase
 * a stream positioned at its first request.
 */
module NbdHandshake {
  import opened Bytes
  import opened NbdWire

  const NBD_MAGIC: nat := 0x4e42_444d_4147_4943
  const IHAVEOPT: nat := 0x4948_4156_454f_5054
  const REP_MAGIC: nat := 0x0003_e889_0455_65a9
  const HANDSHAKE_FLAGS: nat := 3      // FIXED_NEWSTYLE | NO_ZEROES
  const TRANSMISSION_FLAGS: nat := 13  // HAS_FLAGS | SEND_FLUSH | SEND_FUA

  const OPT_EXPORT_NAME: nat := 1
  const OPT_ABORT: nat := 2
  const OPT_INFO: nat := 6
  const OPT_GO: nat := 7

  const REP_ACK: nat := 1
  const REP_INFO: nat := 3
  const REP_ERR_UNSUP: nat := 0x8000_0001

  datatype Opt = Opt(option: nat, data: bytes)

  predicate WellFormedOpt(o: Opt)
  {
    o.option < U32_LIMIT && |o.data| < U32_LIMIT
  }

  predicate Ends(o: Opt)
  {
    o.option == OPT_EXPORT_NAME || o.option == OPT_GO || o.option == OPT_ABORT
  }

  function OptHead(o: Opt): (s: bytes)
    ensures |s| == 16
  {
    ToBE(IHAVEOPT, 8) + ToBE(o.option, 4) + ToBE(|o.data|, 4)
  }

  function EncodeOpt(o: Opt): bytes
  {
    OptHead(o) + o.data
  }

  function EncodeOpts(os: seq<Opt>): bytes
  {
    if os == [] then [] else EncodeOpt(os[0]) + EncodeOpts(os[1..])
  }

  // --- the server's side of the stream --------------------------------------

  datatype OptParse = BadOpt | GotOpt(opt: Opt, rest: bytes)

  function ParseOpt(s: bytes): OptParse
  {
    if |s| < 16 || BE(s, 0, 8) != IHAVEOPT then BadOpt
    else
      var n := BE(s, 12, 4);
      if |s| < 16 + n then BadOpt
      else GotOpt(Opt(BE(s, 8, 4), s[16..16 + n]), s[16 + n..])
  }

  function ExportInfo(size: nat): bytes
  {
    ToBE(0, 2) + ToBE(size, 8) + ToBE(TRANSMISSION_FLAGS, 2)
  }

  function OptReplyHead(option: nat, kind: nat, length: nat): (s: bytes)
    ensures |s| == 20
  {
    ToBE(REP_MAGIC, 8) + ToBE(option, 4) + ToBE(kind, 4) + ToBE(length, 4)
  }

  function OptReply(option: nat, kind: nat, payload: bytes): bytes
  {
    OptReplyHead(option, kind, |payload|) + payload
  }

  /** What one option is answered with; only EXPORT_NAME is answered without framing. */
  function Answer(size: nat, noZeroes: bool, option: nat): bytes
  {
    if option == OPT_EXPORT_NAME then
      ToBE(size, 8) + ToBE(TRANSMISSION_FLAGS, 2) + if noZeroes then [] else seq(124, _ => 0)
    else if option == OPT_GO || option == OPT_INFO then
      OptReply(option, REP_INFO, ExportInfo(size)) + OptReply(option, REP_ACK, [])
    else if option == OPT_ABORT then OptReply(option, REP_ACK, [])
    else OptReply(option, REP_ERR_UNSUP, [])
  }

  function Answers(answer: nat -> bytes, os: seq<Opt>): bytes
  {
    if os == [] then [] else answer(os[0].option) + Answers(answer, os[1..])
  }

  datatype Outcome = Proceed | Refuse | Fault

  datatype Negotiation = Negotiation(out: bytes, outcome: Outcome, rest: bytes)

  function Negotiate(answer: nat -> bytes, input: bytes): Negotiation
    decreases |input|
  {
    match ParseOpt(input)
    case BadOpt => Negotiation([], Fault, input)
    case GotOpt(o, rest) =>
      if o.option == OPT_EXPORT_NAME || o.option == OPT_GO then Negotiation(answer(o.option), Proceed, rest)
      else if o.option == OPT_ABORT then Negotiation(answer(o.option), Refuse, rest)
      else
        var more := Negotiate(answer, rest);
        more.(out := answer(o.option) + more.out)
  }

  /** The option loop, answering each option with `answer`. */
  method Options(answer: nat -> bytes, input: bytes) returns (out: bytes, outcome: Outcome, rest: bytes)
    ensures Negotiation(out, outcome, rest) == Negotiate(answer, input)
  {
    out, rest := [], input;
    ghost var whole := Negotiate(answer, input);
    while true
      invariant SoFar(whole, out, Negotiate(answer, rest))
      decreases |rest|
    {
      match ParseOpt(rest) {
        case BadOpt => return out, Fault, rest;
        case GotOpt(o, more) =>
          OptionAnswered(answer, whole, out, rest);
          out := out + answer(o.option);
          rest := more;
          if o.option == OPT_EXPORT_NAME || o.option == OPT_GO {
            return out, Proceed, rest;
          }
          if o.option == OPT_ABORT {
            return out, Refuse, rest;
          }
      }
    }
  }

  /** What has been sent, followed by what is still to come, is the whole. */
  ghost predicate SoFar(whole: Negotiation, out: bytes, later: Negotiation)
  {
    whole == later.(out := out + later.out)
  }

  /** One option answered: the last, or one of several. */
  lemma {:induction false} OptionAnswered(answer: nat -> bytes, whole: Negotiation, out: bytes, input: bytes)
    requires ParseOpt(input).GotOpt? && SoFar(whole, out, Negotiate(answer, input))
    ensures |ParseOpt(input).rest| < |input|
    ensures var o, more := ParseOpt(input).opt, ParseOpt(input).rest;
            if Ends(o) then whole == Negotiation(out + answer(o.option), if o.option == OPT_ABORT then Refuse else Proceed, more)
            else SoFar(whole, out + answer(o.option), Negotiate(answer, more))
  {
    var o, more := ParseOpt(input).opt, ParseOpt(input).rest;
    if !Ends(o) {
      var later := Negotiate(answer, more).out;
      assert (out + answer(o.option)) + later == out + (answer(o.option) + later);
    }
  }

  function Hello(): bytes
  {
    ToBE(NBD_MAGIC, 8) + ToBE(IHAVEOPT, 8) + ToBE(HANDSHAKE_FLAGS, 2)
  }

  function Answering(size: nat, noZeroes: bool): nat -> bytes
  {
    (option: nat) => Answer(size, noZeroes, option)
  }

  method Handshake(size: nat, input: bytes) returns (out: bytes, outcome: Outcome, rest: bytes)
    ensures |input| < 4 ==> out == Hello() && outcome == Fault
    ensures |input| >= 4 ==>
      var n := Negotiate(Answering(size, BE(input, 0, 4) / 2 % 2 == 1), input[4..]);
      out == Hello() + n.out && outcome == n.outcome && rest == n.rest
  {
    if |input| < 4 {
      return Hello(), Fault, input;
    }
    var noZeroes := BE(input, 0, 4) / 2 % 2 == 1;
    out, outcome, rest := Options(Answering(size, noZeroes), input[4..]);
    out := Hello() + out;
  }

  lemma {:induction false} OptRoundTrip(o: Opt, rest: bytes)
    requires WellFormedOpt(o)
    ensures ParseOpt(EncodeOpt(o) + rest) == GotOpt(o, rest)
  {
    Pieces(OptHead(o), o.data, rest);
    OptFields(o, o.data + rest);
    OptParsedFrom(EncodeOpt(o) + rest, o, rest);
  }

  lemma {:induction false} OptFields(o: Opt, tail: bytes)
    requires WellFormedOpt(o)
    ensures var s := OptHead(o) + tail;
            BE(s, 0, 8) == IHAVEOPT && BE(s, 8, 4) == o.option && BE(s, 12, 4) == |o.data|
  {
    Widths();
    var head := OptHead(o);
    ThreeFields(ToBE(IHAVEOPT, 8), ToBE(o.option, 4), ToBE(|o.data|, 4));
    FieldOf(head, tail, 0, IHAVEOPT, 8);
    FieldOf(head, tail, 8, o.option, 4);
    FieldOf(head, tail, 12, |o.data|, 4);
  }

  lemma {:induction false} ThreeFields(a: bytes, b: bytes, c: bytes)
    ensures var s := a + b + c;
            && s[0..|a|] == a && s[|a|..|a| + |b|] == b && s[|a| + |b|..|a| + |b| + |c|] == c
  {
  }

  lemma {:induction false} OptParsedFrom(s: bytes, o: Opt, rest: bytes)
    requires |s| == 16 + |o.data| + |rest| && BE(s, 0, 8) == IHAVEOPT
    requires BE(s, 8, 4) == o.option && BE(s, 12, 4) == |o.data|
    requires s[16..16 + |o.data|] == o.data && s[16 + |o.data|..] == rest
    ensures ParseOpt(s) == GotOpt(o, rest)
  {
  }

  lemma {:induction false} LastOption(answer: nat -> bytes, input: bytes, last: Opt, rest: bytes)
    requires ParseOpt(input) == GotOpt(last, rest) && Ends(last)
    ensures Negotiate(answer, input) ==
            Negotiation(answer(last.option), if last.option == OPT_ABORT then Refuse else Proceed, rest)
  {}

  lemma {:induction false} FirstOption(answer: nat -> bytes, input: bytes, o: Opt, more: bytes)
    requires ParseOpt(input) == GotOpt(o, more) && !Ends(o)
    ensures var later := Negotiate(answer, more);
            Negotiate(answer, input) == Negotiation(answer(o.option) + later.out, later.outcome, later.rest)
  {}

  lemma {:induction false} AnswersOfOne(answer: nat -> bytes, last: Opt)
    ensures Answers(answer, [last]) == answer(last.option)
  {
    assert [last][1..] == [];
    assert Answers(answer, []) == [];
  }

  lemma {:induction false} AnswersOfMore(answer: nat -> bytes, os: seq<Opt>, last: Opt)
    requires os != []
    ensures Answers(answer, os + [last]) == answer(os[0].option) + Answers(answer, os[1..] + [last])
  {
    assert (os + [last])[1..] == os[1..] + [last];
  }

  /** The option that ends the negotiation, and nothing before it. */
  lemma {:induction false} LastOptionAnswered(answer: nat -> bytes, last: Opt, rest: bytes)
    requires WellFormedOpt(last) && Ends(last)
    ensures Negotiate(answer, EncodeOpt(last) + rest) ==
            Negotiation(Answers(answer, [last]), if last.option == OPT_ABORT then Refuse else Proceed, rest)
  {
    OptRoundTrip(last, rest);
    LastOption(answer, EncodeOpt(last) + rest, last, rest);
    AnswersOfOne(answer, last);
  }

  lemma {:induction false} FirstOptionAnswered(answer: nat -> bytes, os: seq<Opt>, tail: bytes)
    requires os != [] && WellFormedOpt(os[0]) && !Ends(os[0])
    ensures var later := Negotiate(answer, EncodeOpts(os[1..]) + tail);
            Negotiate(answer, EncodeOpts(os) + tail) ==
            Negotiation(answer(os[0].option) + later.out, later.outcome, later.rest)
  {
    var more := EncodeOpts(os[1..]) + tail;
    assert EncodeOpts(os) + tail == EncodeOpt(os[0]) + more;
    OptRoundTrip(os[0], more);
    FirstOption(answer, EncodeOpts(os) + tail, os[0], more);
  }

  /**
   * For every list of options before the one that ends the negotiation, each
   * is answered in turn and none is skipped; EXPORT_NAME and GO proceed and
   * ABORT refuses; and the bytes after it are left exactly for the next phase.
   */
  lemma {:induction false} NegotiationKeepsPlace(answer: nat -> bytes, os: seq<Opt>, last: Opt, rest: bytes)
    requires forall o :: o in os ==> WellFormedOpt(o) && !Ends(o)
    requires WellFormedOpt(last) && Ends(last)
    ensures Negotiate(answer, EncodeOpts(os) + (EncodeOpt(last) + rest)) ==
            Negotiation(Answers(answer, os + [last]), if last.option == OPT_ABORT then Refuse else Proceed, rest)
    decreases |os|
  {
    if os == [] {
      LastOptionAnswered(answer, last, rest);
      assert EncodeOpts(os) + (EncodeOpt(last) + rest) == EncodeOpt(last) + rest && os + [last] == [last];
    } else {
      assert os[0] in os;
      FirstOptionAnswered(answer, os, EncodeOpt(last) + rest);
      NegotiationKeepsPlace(answer, os[1..], last, rest);
      AnswersOfMore(answer, os, last);
    }
  }

  // --- the client's side of the stream ---------------------------------------

  datatype OptAnswer = NoAnswer | OptAnswer(option: nat, kind: nat, payload: bytes, rest: bytes)

  function ReadOptReply(s: bytes): OptAnswer
  {
    if |s| < 20 || BE(s, 0, 8) != REP_MAGIC then NoAnswer
    else
      var n := BE(s, 16, 4);
      if |s| < 20 + n then NoAnswer
      else OptAnswer(BE(s, 8, 4), BE(s, 12, 4), s[20..20 + n], s[20 + n..])
  }

  lemma {:induction false} OptReplyFields(option: nat, kind: nat, length: nat, tail: bytes)
    requires option < U32_LIMIT && kind < U32_LIMIT && length < U32_LIMIT
    ensures var s := OptReplyHead(option, kind, length) + tail;
            BE(s, 0, 8) == REP_MAGIC && BE(s, 8, 4) == option && BE(s, 12, 4) == kind && BE(s, 16, 4) == length
  {
    Widths();
    var head := OptReplyHead(option, kind, length);
    FourFields(ToBE(REP_MAGIC, 8), ToBE(option, 4), ToBE(kind, 4), ToBE(length, 4));
    FieldOf(head, tail, 0, REP_MAGIC, 8);
    FieldOf(head, tail, 8, option, 4);
    FieldOf(head, tail, 12, kind, 4);
    FieldOf(head, tail, 16, length, 4);
  }

  lemma {:induction false} OptReplyRoundTrip(option: nat, kind: nat, payload: bytes, rest: bytes)
    requires option < U32_LIMIT && kind < U32_LIMIT && |payload| < U32_LIMIT
    ensures ReadOptReply(OptReply(option, kind, payload) + rest) == OptAnswer(option, kind, payload, rest)
  {
    Pieces(OptReplyHead(option, kind, |payload|), payload, rest);
    OptReplyFields(option, kind, |payload|, payload + rest);
    OptReplyReadFrom(OptReply(option, kind, payload) + rest, option, kind, payload, rest);
  }

  lemma {:induction false} FourFields(a: bytes, b: bytes, c: bytes, d: bytes)
    ensures var s := a + b + c + d;
            && s[0..|a|] == a && s[|a|..|a| + |b|] == b && s[|a| + |b|..|a| + |b| + |c|] == c
            && s[|a| + |b| + |c|..|a| + |b| + |c| + |d|] == d
  {
  }

  lemma {:induction false} OptReplyReadFrom(s: bytes, option: nat, kind: nat, payload: bytes, rest: bytes)
    requires |s| == 20 + |payload| + |rest| && BE(s, 0, 8) == REP_MAGIC
    requires BE(s, 8, 4) == option && BE(s, 12, 4) == kind && BE(s, 16, 4) == |payload|
    requires s[20..20 + |payload|] == payload && s[20 + |payload|..] == rest
    ensures ReadOptReply(s) == OptAnswer(option, kind, payload, rest)
  {
  }

  lemma {:induction false} ExportInfoFields(size: nat)
    requires size < U64_LIMIT
    ensures var info := ExportInfo(size);
            && |info| == 12 && BE(info, 0, 2) == 0 && BE(info, 2, 8) == size && BE(info, 10, 2) == TRANSMISSION_FLAGS
  {
    Widths();
    var info := ExportInfo(size);
    assert info[0..2] == ToBE(0, 2) && info[2..10] == ToBE(size, 8) && info[10..12] == ToBE(TRANSMISSION_FLAGS, 2);
    BERoundTrip(0, 2);
    BERoundTrip(size, 8);
    BERoundTrip(TRANSMISSION_FLAGS, 2);
  }

  /** A client that asks GO or INFO reads the export's description, then the acknowledgement, and no more. */
  lemma {:induction false} ClientReadsExport(size: nat, noZeroes: bool, option: nat, rest: bytes)
    requires option == OPT_GO || option == OPT_INFO
    ensures var info := ReadOptReply(Answer(size, noZeroes, option) + rest);
            && info == OptAnswer(option, REP_INFO, ExportInfo(size), OptReply(option, REP_ACK, []) + rest)
            && ReadOptReply(info.rest) == OptAnswer(option, REP_ACK, [], rest)
  {
    var info, ack := ExportInfo(size), OptReply(option, REP_ACK, []);
    assert (OptReply(option, REP_INFO, info) + ack) + rest == OptReply(option, REP_INFO, info) + (ack + rest);
    OptReplyRoundTrip(option, REP_INFO, info, ack + rest);
    OptReplyRoundTrip(option, REP_ACK, [], rest);
  }

  /** EXPORT_NAME is answered with the bare size and flags, and 124 zeroes unless the client waived them. */
  lemma {:induction false} ExportNameAnswer(size: nat, noZeroes: bool)
    requires size < U64_LIMIT
    ensures var a := Answer(size, noZeroes, 1);
            && |a| == (if noZeroes then 10 else 134) && BE(a, 0, 8) == size && BE(a, 8, 2) == 13
            && forall i :: 10 <= i < |a| ==> a[i] == 0
  {
    Widths();
    var a := Answer(size, noZeroes, 1);
    assert a[0..8] == ToBE(size, 8) && a[8..10] == ToBE(13, 2);
    BERoundTrip(size, 8);
    BERoundTrip(13, 2);
  }

  /** ABORT is acknowledged, and what the server does not know it says it does not support. */
  lemma {:induction false} OtherOptionAnswers(size: nat, noZeroes: bool, option: nat, rest: bytes)
    requires option < U32_LIMIT && option != 1 && option != 6 && option != 7
    ensures ReadOptReply(Answer(size, noZeroes, option) + rest) ==
            OptAnswer(option, if option == 2 then 1 else 0x8000_0001, [], rest)
  {
    OptReplyRoundTrip(option, if option == 2 then 1 else 0x8000_0001, [], rest);
  }

  /** The greeting: both magics and the two handshake flags. */
  lemma {:induction false} HelloFields()
    ensures |Hello()| == 18
    ensures BE(Hello(), 0, 8) == 0x4e42_444d_4147_4943 && BE(Hello(), 8, 8) == 0x4948_4156_454f_5054 && BE(Hello(), 16, 2) == 3
  {
    Widths();
    ThreeFields(ToBE(NBD_MAGIC, 8), ToBE(IHAVEOPT, 8), ToBE(HANDSHAKE_FLAGS, 2));
    BERoundTrip(NBD_MAGIC, 8);
    BERoundTrip(IHAVEOPT, 8);
    BERoundTrip(HANDSHAKE_FLAGS, 2);
  }
}
