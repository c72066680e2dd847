/**
 * What the `ip` and `tc` commands of a bridge say: a reader of their argument lists, and for
 * each list the bridge issues what it is read as. The reader goes by the words of the command
 * line and knows nothing of how the lists are made.
 */
module BridgeCommands {
  import opened BridgeGraph
  import opened BridgeHost
  import opened Decimal
  import opened Options

  datatype Command =
    | AddBridge(dev: string)
    | AddTap(dev: string)
    | SetMaster(dev: string, master: string)
    | SetUp(dev: string)
    | DelLink(dev: string)
    | DelRoot(dev: string)
    | AddNetem(dev: string, latency: nat, drop: nat)
    | ChangeNetem(dev: string, latency: nat, drop: nat)
    | AddHtb(dev: string)
    | AddClass(dev: string, rate: nat, ceil: nat, burst: nat)
    | AddChild(dev: string, latency: nat, drop: nat)
    | ReplaceBucket(dev: string, rate: nat, burst: nat, limit: nat)
    | Other

  // --- the reader ----------------------------------------------------------------------

  function ReadIp(args: seq<string>): Command
  {
    if |args| == 5 && args[0] == "link" && args[1] == "add" && args[3] == "type" && args[4] == "bridge" then AddBridge(args[2])
    else if |args| == 4 && args[0] == "link" && args[1] == "del" && args[2] == "dev" then DelLink(args[3])
    else if |args| == 5 && args[0] == "link" && args[1] == "set" && args[2] == "dev" && args[4] == "up" then SetUp(args[3])
    else if |args| == 6 && args[0] == "link" && args[1] == "set" && args[2] == "dev" && args[4] == "master" then SetMaster(args[3], args[5])
    else if |args| >= 6 && args[0] == "tuntap" && args[1] == "add" && args[2] == "dev" && args[4] == "mode" && args[5] == "tap" then AddTap(args[3])
    else Other
  }

  /** Delay and loss, in any order; what is not mentioned is nothing. */
  function ReadClauses(args: seq<string>): Option<(nat, nat)>
  {
    if args == [] then Some((0, 0))
    else if |args| == 1 then None
    else match ReadClauses(args[2..])
      case None => None
      case Some(rest) =>
        if args[0] == "delay" then
          var v := ReadUnit(args[1], "ms"); if v.Some? then Some((v.value, rest.1)) else None
        else if args[0] == "loss" then
          var v := ReadUnit(args[1], "%"); if v.Some? then Some((rest.0, v.value)) else None
        else None
  }

  function ReadNetem(verb: string, dev: string, clauses: seq<string>): Command
  {
    match ReadClauses(clauses)
    case None => Other
    case Some(v) => if verb == "add" then AddNetem(dev, v.0, v.1) else if verb == "change" then ChangeNetem(dev, v.0, v.1) else Other
  }

  function ReadBucket(dev: string, rate: string, burst: string, limit: string): Command
  {
    var r, b, l := ReadUnit(rate, "bit"), ReadDecimal(burst), ReadDecimal(limit);
    if r.Some? && b.Some? && l.Some? then ReplaceBucket(dev, r.value, b.value, l.value) else Other
  }

  predicate RootBucket(args: seq<string>)
  {
    && |args| == 14 && args[1] == "replace" && args[6] == "1:" && args[7] == "tbf"
    && args[8] == "rate" && args[10] == "burst" && args[12] == "limit"
  }

  predicate RootHtb(args: seq<string>)
  {
    |args| == 10 && args[1] == "add" && args[6] == "1:" && args[7] == "htb" && args[8] == "default" && args[9] == "10"
  }

  /** Bare, a netem, or a root with a handle of its own: the class-based one or the token bucket. */
  function ReadRoot(args: seq<string>): Command
    requires |args| >= 5
  {
    if |args| == 5 then (if args[1] == "del" then DelRoot(args[3]) else Other)
    else if args[5] == "netem" then ReadNetem(args[1], args[3], args[6..])
    else if args[5] != "handle" then Other
    else if RootHtb(args) then AddHtb(args[3])
    else if RootBucket(args) then ReadBucket(args[3], args[9], args[11], args[13])
    else Other
  }

  /** A netem below the class that unclassified traffic falls to. */
  function ReadChild(args: seq<string>): Command
  {
    if |args| < 9 || args[1] != "add" || args[5] != "1:10" || args[6] != "handle" || args[7] != "10:" || args[8] != "netem" then Other
    else match ReadClauses(args[9..])
      case None => Other
      case Some(v) => AddChild(args[3], v.0, v.1)
  }

  function ReadLimits(dev: string, rate: string, ceil: string, burst: string): Command
  {
    var r, c, b := ReadUnit(rate, "bit"), ReadUnit(ceil, "bit"), ReadDecimal(burst);
    if r.Some? && c.Some? && b.Some? then AddClass(dev, r.value, c.value, b.value) else Other
  }

  /** That class. */
  predicate DefaultClass(args: seq<string>)
  {
    && |args| == 15 && args[1] == "add" && args[4] == "parent" && args[5] == "1:" && args[6] == "classid" && args[7] == "1:10"
    && args[8] == "htb" && args[9] == "rate" && args[11] == "ceil" && args[13] == "burst"
  }

  function ReadTc(args: seq<string>): Command
  {
    if |args| < 5 || args[2] != "dev" then Other
    else if args[0] == "class" then (if DefaultClass(args) then ReadLimits(args[3], args[10], args[12], args[14]) else Other)
    else if args[0] != "qdisc" then Other
    else if args[4] == "root" then ReadRoot(args)
    else if args[4] == "parent" then ReadChild(args)
    else Other
  }

  function Read(op: NetOp): Command
  {
    match op.program
    case Ip => ReadIp(op.args)
    case Tc => ReadTc(op.args)
    case Nft => Other
  }

  // --- what the bridge's commands are read as --------------------------------------------

  lemma {:induction false} Differ(a: string, b: string)
    requires |a| != |b| || (|a| > 0 && a[0] != b[0])
    ensures a != b
  {}

  lemma {:induction false} BridgeUpReads(bridge: string)
    ensures var ops := BridgeUp(bridge); |ops| == 2 && Read(ops[0]) == AddBridge(bridge) && Read(ops[1]) == SetUp(bridge)
  {
    Differ("add", "set");
    Differ("add", "del");
    Differ("set", "del");
  }

  lemma {:induction false} TapReads(tap: string, more: seq<string>)
    ensures Read(NetOp(Ip, ["tuntap", "add", "dev", tap, "mode", "tap"] + more)) == AddTap(tap)
  {
    Differ("tuntap", "link");
  }

  lemma {:induction false} JoinReads(tap: string, bridge: string)
    ensures var ops := TapJoin(tap, bridge); |ops| == 2 && Read(ops[0]) == SetMaster(tap, bridge) && Read(ops[1]) == SetUp(tap)
  {
    Differ("add", "set");
    Differ("set", "del");
  }

  lemma {:induction false} DelLinkReads(tap: string)
    ensures Read(NetOp(Ip, ["link", "del", "dev", tap])) == DelLink(tap)
  {}

  lemma {:induction false} LossReads(drop: nat)
    ensures ReadClauses(Clauses(0, drop)) == Some((0, drop))
  {
    if drop > 0 {
      UnitReads(drop, "%");
      Differ("loss", "delay");
      assert Clauses(0, drop) == ["loss", Digits(drop) + "%"];
      assert ["loss", Digits(drop) + "%"][2..] == [];
    }
  }

  /** The clauses carry the latency as the delay and the drop rate as the loss. */
  lemma {:induction false} ClausesRead(latency: nat, drop: nat)
    ensures ReadClauses(Clauses(latency, drop)) == Some((latency, drop))
  {
    LossReads(drop);
    if latency > 0 {
      UnitReads(latency, "ms");
      assert Clauses(latency, drop)[2..] == Clauses(0, drop);
    }
  }

  lemma {:induction false} ClearRootReads(dev: string)
    ensures Read(ClearRoot(dev)) == DelRoot(dev)
  {
    Differ("qdisc", "class");
  }

  lemma {:induction false} NetemRootReads(dev: string, latency: nat, drop: nat)
    ensures Read(NetemRoot("add", dev, latency, drop)) == AddNetem(dev, latency, drop)
    ensures Read(NetemRoot("change", dev, latency, drop)) == ChangeNetem(dev, latency, drop)
  {
    ClausesRead(latency, drop);
    NetemWords("add", dev, Clauses(latency, drop));
    NetemWords("change", dev, Clauses(latency, drop));
    Differ("add", "change");
  }

  lemma {:induction false} NetemWords(verb: string, dev: string, clauses: seq<string>)
    ensures ReadTc(["qdisc", verb, "dev", dev, "root", "netem"] + clauses) == ReadNetem(verb, dev, clauses)
  {
    Differ("qdisc", "class");
    assert (["qdisc", verb, "dev", dev, "root", "netem"] + clauses)[6..] == clauses;
  }

  lemma {:induction false} HtbRootReads(tap: string)
    ensures Read(HtbRoot(tap)) == AddHtb(tap)
  {
    Differ("qdisc", "class");
    Differ("netem", "handle");
  }

  lemma {:induction false} ClassWords(tap: string, rate: string, burst: string, r: nat, b: nat)
    requires ReadUnit(rate, "bit") == Some(r) && ReadDecimal(burst) == Some(b)
    ensures ReadTc(["class", "add", "dev", tap, "parent", "1:", "classid", "1:10", "htb", "rate", rate, "ceil", rate, "burst", burst])
            == AddClass(tap, r, r, b)
  {}

  /** The class carries the bandwidth as its rate and as its ceiling. */
  lemma {:induction false} HtbClassReads(tap: string, bandwidth: nat)
    ensures Read(HtbClass(tap, bandwidth)) == AddClass(tap, bandwidth, bandwidth, Burst(bandwidth))
  {
    UnitReads(bandwidth, "bit");
    DigitsRead(Burst(bandwidth));
    ClassWords(tap, Digits(bandwidth) + "bit", Digits(Burst(bandwidth)), bandwidth, Burst(bandwidth));
  }

  lemma {:induction false} ChildWords(tap: string, clauses: seq<string>, v: (nat, nat))
    requires ReadClauses(clauses) == Some(v)
    ensures ReadTc(["qdisc", "add", "dev", tap, "parent", "1:10", "handle", "10:", "netem"] + clauses) == AddChild(tap, v.0, v.1)
  {
    Differ("qdisc", "class");
    Differ("parent", "root");
    assert (["qdisc", "add", "dev", tap, "parent", "1:10", "handle", "10:", "netem"] + clauses)[9..] == clauses;
  }

  lemma {:induction false} NetemChildReads(tap: string, latency: nat, drop: nat)
    ensures Read(NetemChild(tap, latency, drop)) == AddChild(tap, latency, drop)
  {
    ClausesRead(latency, drop);
    ChildWords(tap, Clauses(latency, drop), (latency, drop));
  }

  lemma {:induction false} BucketWords(dev: string, rate: string, burst: string, limit: string, r: nat, b: nat, l: nat)
    requires ReadUnit(rate, "bit") == Some(r) && ReadDecimal(burst) == Some(b) && ReadDecimal(limit) == Some(l)
    ensures ReadTc(["qdisc", "replace", "dev", dev, "root", "handle", "1:", "tbf", "rate", rate, "burst", burst, "limit", limit])
            == ReplaceBucket(dev, r, b, l)
  {
    Differ("qdisc", "class");
    Differ("netem", "handle");
  }

  lemma {:induction false} TokenBucketReads(dev: string, bandwidth: nat)
    ensures Read(TokenBucket(dev, bandwidth)) == ReplaceBucket(dev, bandwidth, Burst(bandwidth), Max(bandwidth / 8, 1500))
  {
    var burst, limit := Burst(bandwidth), Max(bandwidth / 8, 1500);
    UnitReads(bandwidth, "bit");
    DigitsRead(burst);
    DigitsRead(limit);
    BucketWords(dev, Digits(bandwidth) + "bit", Digits(burst), Digits(limit), bandwidth, burst, limit);
  }

  /** Ten milliseconds' worth of bytes at the given bits a second, but never less than a frame. */
  lemma {:induction false} BurstIsTenMilliseconds(bandwidth: nat)
    ensures var b := Burst(bandwidth); b >= 1500 && bandwidth < 800 * (b + 1) && (b > 1500 ==> 800 * b <= bandwidth)
  {}

  /** One second's worth, but never less than a frame. */
  lemma {:induction false} LimitIsOneSecond(bandwidth: nat)
    ensures var l := Max(bandwidth / 8, 1500); l >= 1500 && bandwidth < 8 * (l + 1) && (l > 1500 ==> 8 * l <= bandwidth)
  {}
}
