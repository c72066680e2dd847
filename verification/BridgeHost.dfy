/**
 * Commands sent to the host for a bridge: what `realize_for_vm` issues for one VM
 * (provium-host/src/bridge.rs), what `plan_for` lists for the whole bridge
 * (provium-host/src/bridge_realize.rs), and why their `tc` commands agree.
 */
module BridgeHost {
  import opened BridgeGraph
  import opened Decimal
  import opened Options
  import opened StringOrder

  datatype Program = Ip | Tc | Nft

  datatype NetOp = NetOp(program: Program, args: seq<string>)

  /** The root queueing discipline the kernel has on the bridge's own interface. */
  datatype Root = Bare | Netem(latency: nat, drop: nat) | Bucket(rate: nat)

  /**
   * What the bridge remembers of the commands it has issued, and what the kernel has without
   * the bridge remembering: the root of its own interface and the chain on each VM's.
   */
  datatype Host = Host(
    realized: bool,
    taps: set<string>,
    netem: Option<(nat, nat)>,
    shaped: map<string, Impairment>,
    root: Root,
    chain: map<string, Impairment>)

  /** The bridge's interface, the user its TAPs belong to, and how they are called. */
  datatype Site = Site(name: string, uid: string, tap: Naming)

  const DOWN := Host(false, {}, None, map[], Bare, map[])

  // --- single commands -----------------------------------------------------------------

  function Clauses(latency: nat, drop: nat): seq<string>
  {
    (if latency > 0 then ["delay", Digits(latency) + "ms"] else [])
    + (if drop > 0 then ["loss", Digits(drop) + "%"] else [])
  }

  function NetemRoot(verb: string, dev: string, latency: nat, drop: nat): NetOp
  {
    NetOp(Tc, ["qdisc", verb, "dev", dev, "root", "netem"] + Clauses(latency, drop))
  }

  function ClearRoot(dev: string): NetOp
  {
    NetOp(Tc, ["qdisc", "del", "dev", dev, "root"])
  }

  function Burst(bandwidth: nat): nat
  {
    Max(bandwidth / 800, 1500)
  }

  function HtbRoot(tap: string): NetOp
  {
    NetOp(Tc, ["qdisc", "add", "dev", tap, "root", "handle", "1:", "htb", "default", "10"])
  }

  function HtbClass(tap: string, bandwidth: nat): NetOp
  {
    var rate := Digits(bandwidth) + "bit";
    NetOp(Tc, ["class", "add", "dev", tap, "parent", "1:", "classid", "1:10", "htb", "rate", rate,
                 "ceil", rate, "burst", Digits(Burst(bandwidth))])
  }

  function NetemChild(tap: string, latency: nat, drop: nat): NetOp
  {
    NetOp(Tc, ["qdisc", "add", "dev", tap, "parent", "1:10", "handle", "10:", "netem"] + Clauses(latency, drop))
  }

  /** The queueing chain for a shape: a netem root, or a rate class with netem below it. */
  function Install(tap: string, v: Impairment): seq<NetOp>
  {
    if v.bandwidth == 0 then [NetemRoot("add", tap, v.latency, v.drop)]
    else
      [HtbRoot(tap), HtbClass(tap, v.bandwidth)]
      + (if v.latency > 0 || v.drop > 0 then [NetemChild(tap, v.latency, v.drop)] else [])
  }

  function BridgeUp(bridge: string): seq<NetOp>
  {
    [NetOp(Ip, ["link", "add", bridge, "type", "bridge"]), NetOp(Ip, ["link", "set", "dev", bridge, "up"])]
  }

  function TapJoin(tap: string, bridge: string): seq<NetOp>
  {
    [NetOp(Ip, ["link", "set", "dev", tap, "master", bridge]), NetOp(Ip, ["link", "set", "dev", tap, "up"])]
  }

  // --- realising one VM ----------------------------------------------------------------

  /** What a graph asks of the host: one netem for the bridge and one shape for each VM. */
  datatype Aim = Aim(netem: Option<(nat, nat)>, shape: string -> Option<Impairment>)

  function NetemTarget(g: Graph): Option<(nat, nat)>
  {
    if g.latency > 0 || g.drop > 0 then Some((g.latency, g.drop)) else None
  }

  ghost function AimOf(g: Graph): Aim
  {
    Aim(NetemTarget(g), vm => Collapsed(g.directional, vm))
  }

  function NetemChange(bridge: string, current: Option<(nat, nat)>, target: Option<(nat, nat)>): seq<NetOp>
  {
    if current == target then []
    else match target
      case Some(v) => [NetemRoot(if current.Some? then "change" else "add", bridge, v.0, v.1)]
      case None => [ClearRoot(bridge)]
  }

  function Shape(h: Host, vm: string): Option<Impairment>
  {
    if vm in h.shaped then Some(h.shaped[vm]) else None
  }

  /** The chain the kernel has on the VM's interface. */
  function Chain(h: Host, vm: string): Option<Impairment>
  {
    if vm in h.chain then Some(h.chain[vm]) else None
  }

  /** What the commands of `ShapeChange` make of the kernel's chains. */
  function ChainAfter(chain: map<string, Impairment>, vm: string,
                      current: Option<Impairment>, target: Option<Impairment>): map<string, Impairment>
  {
    if current == target then chain
    else if target.Some? then chain[vm := target.value]
    else chain - {vm}
  }

  function ShapeChange(tap: string, current: Option<Impairment>, target: Option<Impairment>): seq<NetOp>
  {
    if current == target then []
    else
      (if current.Some? then [ClearRoot(tap)] else [])
      + (if target.Some? then Install(tap, target.value) else [])
  }

  function TapUp(tap: string, bridge: string, uid: string): seq<NetOp>
  {
    [NetOp(Ip, ["tuntap", "add", "dev", tap, "mode", "tap", "user", uid])] + TapJoin(tap, bridge)
  }

  /** The interfaces that are missing, and the bridge's netem. */
  function MakeOps(site: Site, netem: Option<(nat, nat)>, h: Host, vm: string): seq<NetOp>
  {
    (if h.realized then [] else BridgeUp(site.name))
    + NetemChange(site.name, h.netem, netem)
    + (if vm in h.taps then [] else TapUp(site.tap(vm), site.name, site.uid))
  }

  /** `tc` refuses to add a root where there is one, and to change one that is not netem. */
  predicate Refused(h: Host, netem: Option<(nat, nat)>)
  {
    h.netem != netem && netem.Some? && (if h.netem.None? then h.root != Bare else !h.root.Netem?)
  }

  function AcceptedOps(site: Site, netem: Option<(nat, nat)>, shape: Option<Impairment>, h: Host, vm: string): seq<NetOp>
  {
    MakeOps(site, netem, h, vm) + ShapeChange(site.tap(vm), Shape(h, vm), shape)
  }

  /** A refused command is the last one issued: the call returns its error. */
  function RefusedOps(site: Site, netem: Option<(nat, nat)>, h: Host): seq<NetOp>
  {
    (if h.realized then [] else BridgeUp(site.name)) + NetemChange(site.name, h.netem, netem)
  }

  function RealizeOps(site: Site, netem: Option<(nat, nat)>, shape: Option<Impairment>, h: Host, vm: string): seq<NetOp>
  {
    if Refused(h, netem) then RefusedOps(site, netem, h) else AcceptedOps(site, netem, shape, h, vm)
  }

  function AcceptedHost(netem: Option<(nat, nat)>, shape: Option<Impairment>, h: Host, vm: string): Host
  {
    Host(true, h.taps + {vm}, netem,
         if shape.Some? then h.shaped[vm := shape.value] else h.shaped - {vm},
         if h.netem == netem then h.root else if netem.Some? then Netem(netem.value.0, netem.value.1) else Bare,
         ChainAfter(if vm in h.taps then h.chain else h.chain - {vm}, vm, Shape(h, vm), shape))
  }

  /** Nothing is recorded when a command was refused. */
  function RealizedHost(netem: Option<(nat, nat)>, shape: Option<Impairment>, h: Host, vm: string): Host
  {
    if Refused(h, netem) then h else AcceptedHost(netem, shape, h, vm)
  }

  /** One VM after another. */
  function PassHost(aim: Aim, h: Host, order: seq<string>): Host
  {
    if order == [] then h
    else
      var last := order[|order| - 1];
      RealizedHost(aim.netem, aim.shape(last), PassHost(aim, h, order[..|order| - 1]), last)
  }

  function PassOps(site: Site, aim: Aim, h: Host, order: seq<string>): seq<NetOp>
  {
    if order == [] then []
    else
      var init, last := order[..|order| - 1], order[|order| - 1];
      PassOps(site, aim, h, init)
      + RealizeOps(site, aim.netem, aim.shape(last), PassHost(aim, h, init), last)
  }

  /** A pass that ends at the first refusal. */
  function StoppingPassOps(site: Site, aim: Aim, h: Host, order: seq<string>): seq<NetOp>
  {
    if order != [] && Refused(h, aim.netem) then RefusedOps(site, aim.netem, h) else PassOps(site, aim, h, order)
  }

  // --- the plan ------------------------------------------------------------------------

  function TapPlan(site: Site, order: seq<string>): seq<NetOp>
  {
    if order == [] then []
    else
      var tap := site.tap(order[|order| - 1]);
      TapPlan(site, order[..|order| - 1])
      + [NetOp(Ip, ["tuntap", "add", "dev", tap, "mode", "tap"])] + TapJoin(tap, site.name)
  }

  function NetemPlan(bridge: string, g: Graph): seq<NetOp>
  {
    if g.latency > 0 || g.drop > 0 then [NetemRoot("add", bridge, g.latency, g.drop)] else []
  }

  function ShapeFresh(site: Site, aim: Aim, vm: string): seq<NetOp>
  {
    if aim.shape(vm).Some? then Install(site.tap(vm), aim.shape(vm).value) else []
  }

  function ShapePlan(site: Site, aim: Aim, order: seq<string>): seq<NetOp>
  {
    if order == [] then [] else ShapePlan(site, aim, order[..|order| - 1]) + ShapeFresh(site, aim, order[|order| - 1])
  }

  /** Interfaces first, then the bridge's netem, then every VM's chain. */
  ghost function Plan(site: Site, g: Graph): seq<NetOp>
  {
    var members := Sorted(g.attached);
    BridgeUp(site.name) + TapPlan(site, members) + NetemPlan(site.name, g) + ShapePlan(site, AimOf(g), members)
  }

  // --- agreement -----------------------------------------------------------------------

  function TcOnly(ops: seq<NetOp>): seq<NetOp>
  {
    if ops == [] then []
    else TcOnly(ops[..|ops| - 1]) + (if ops[|ops| - 1].program == Tc then [ops[|ops| - 1]] else [])
  }

  lemma {:induction false} TcOnlyAdds(a: seq<NetOp>, b: seq<NetOp>)
    ensures TcOnly(a + b) == TcOnly(a) + TcOnly(b)
  {
    if b == [] {
      assert a + b == a;
    } else {
      assert (a + b)[..|a + b| - 1] == a + b[..|b| - 1];
      TcOnlyAdds(a, b[..|b| - 1]);
    }
  }

  predicate All(ops: seq<NetOp>, program: Program)
  {
    forall i :: 0 <= i < |ops| ==> ops[i].program == program
  }

  lemma {:induction false} TcOnlyOfTc(ops: seq<NetOp>)
    requires All(ops, Tc)
    ensures TcOnly(ops) == ops
  {
    if ops != [] {
      var init, last := ops[..|ops| - 1], ops[|ops| - 1];
      TcOnlyOfTc(init);
      assert last.program == Tc;
      assert TcOnly(ops) == init + [last];
      assert ops == init + [last];
    }
  }

  lemma {:induction false} TcOnlyOfIp(ops: seq<NetOp>)
    requires All(ops, Ip)
    ensures TcOnly(ops) == []
  {
    if ops != [] { TcOnlyOfIp(ops[..|ops| - 1]); }
  }

  lemma {:induction false} TapPlanIsIp(site: Site, order: seq<string>)
    ensures All(TapPlan(site, order), Ip)
  {
    if order != [] { TapPlanIsIp(site, order[..|order| - 1]); }
  }

  lemma {:induction false} InstallIsTc(tap: string, v: Impairment)
    ensures All(Install(tap, v), Tc)
  {}

  lemma {:induction false} AllTogether(a: seq<NetOp>, b: seq<NetOp>, program: Program)
    requires All(a, program) && All(b, program)
    ensures All(a + b, program)
  {}

  lemma {:induction false} ShapePlanIsTc(site: Site, aim: Aim, order: seq<string>)
    ensures All(ShapePlan(site, aim, order), Tc)
  {
    if order != [] {
      var init, last := order[..|order| - 1], order[|order| - 1];
      ShapePlanIsTc(site, aim, init);
      if aim.shape(last).Some? { InstallIsTc(site.tap(last), aim.shape(last).value); }
      AllTogether(ShapePlan(site, aim, init), ShapeFresh(site, aim, last), Tc);
    }
  }

  lemma {:induction false} TcOfTwo(a: seq<NetOp>, b: seq<NetOp>)
    requires All(a, Ip) && All(b, Tc)
    ensures TcOnly(a + b) == b
  {
    TcOnlyOfIp(a);
    TcOnlyOfTc(b);
    TcOnlyAdds(a, b);
  }

  lemma {:induction false} TcOfMixed(a: seq<NetOp>, b: seq<NetOp>, c: seq<NetOp>, d: seq<NetOp>)
    requires All(a, Ip) && All(b, Tc) && All(c, Ip) && All(d, Tc)
    ensures TcOnly(a + b + c + d) == b + d
  {
    TcOfTwo(a, b);
    TcOfTwo(c, d);
    TcOnlyAdds(a + b, c + d);
    assert a + b + c + d == (a + b) + (c + d);
  }

  lemma {:induction false} PlanTc(site: Site, g: Graph)
    ensures TcOnly(Plan(site, g)) == NetemPlan(site.name, g) + ShapePlan(site, AimOf(g), Sorted(g.attached))
  {
    var members := Sorted(g.attached);
    var ip, netem, shapes := BridgeUp(site.name) + TapPlan(site, members), NetemPlan(site.name, g), ShapePlan(site, AimOf(g), members);
    TapPlanIsIp(site, members);
    ShapePlanIsTc(site, AimOf(g), members);
    TcOfMixed(ip, netem, [], shapes);
    assert ip + netem + [] + shapes == Plan(site, g);
  }

  lemma {:induction false} NetemChangeIsTc(dev: string, current: Option<(nat, nat)>, target: Option<(nat, nat)>)
    ensures All(NetemChange(dev, current, target), Tc)
  {}

  lemma {:induction false} ShapeChangeIsTc(tap: string, current: Option<Impairment>, target: Option<Impairment>)
    ensures All(ShapeChange(tap, current, target), Tc)
  {
    var gone := if current.Some? then [ClearRoot(tap)] else [];
    var made := if target.Some? then Install(tap, target.value) else [];
    if target.Some? { InstallIsTc(tap, target.value); }
    AllTogether(gone, made, Tc);
  }

  lemma {:induction false} RealizeTc(site: Site, netem: Option<(nat, nat)>, shape: Option<Impairment>,
                                     h: Host, vm: string)
    requires !Refused(h, netem)
    ensures TcOnly(RealizeOps(site, netem, shape, h, vm)) ==
            NetemChange(site.name, h.netem, netem) + ShapeChange(site.tap(vm), Shape(h, vm), shape)
  {
    var up := if h.realized then [] else BridgeUp(site.name);
    var tap := if vm in h.taps then [] else TapUp(site.tap(vm), site.name, site.uid);
    assert All(up, Ip) && All(tap, Ip);
    NetemChangeIsTc(site.name, h.netem, netem);
    ShapeChangeIsTc(site.tap(vm), Shape(h, vm), shape);
    TcOfMixed(up, NetemChange(site.name, h.netem, netem), tap, ShapeChange(site.tap(vm), Shape(h, vm), shape));
  }

  lemma {:induction false} RealizedShape(netem: Option<(nat, nat)>, shape: Option<Impairment>, h: Host, vm: string)
    requires !Refused(h, netem)
    ensures forall x :: Shape(RealizedHost(netem, shape, h, vm), x) == if x == vm then shape else Shape(h, x)
  {}

  /** Once refused, always refused: the call leaves everything as it was. */
  lemma {:induction false} RefusedPass(aim: Aim, h: Host, order: seq<string>)
    requires Refused(h, aim.netem)
    ensures PassHost(aim, h, order) == h
  {
    if order != [] { RefusedPass(aim, h, order[..|order| - 1]); }
  }

  /** Once accepted, always accepted. */
  lemma {:induction false} AcceptedPass(aim: Aim, h: Host, order: seq<string>)
    requires !Refused(h, aim.netem)
    ensures !Refused(PassHost(aim, h, order), aim.netem)
    ensures order != [] ==> PassHost(aim, h, order).netem == aim.netem && PassHost(aim, h, order).realized
  {
    if order != [] { AcceptedPass(aim, h, order[..|order| - 1]); }
  }

  /** Where a pass leaves the host's record. */
  lemma {:induction false} PassShapes(aim: Aim, h: Host, order: seq<string>, vm: string)
    requires !Refused(h, aim.netem)
    ensures Shape(PassHost(aim, h, order), vm) == if vm in order then aim.shape(vm) else Shape(h, vm)
  {
    if order != [] {
      var init, last := order[..|order| - 1], order[|order| - 1];
      PassShapes(aim, h, init, vm);
      AcceptedPass(aim, h, init);
      RealizedShape(aim.netem, aim.shape(last), PassHost(aim, h, init), last);
      assert order == init + [last];
    }
  }

  lemma {:induction false} PassStep(site: Site, aim: Aim, h: Host, order: seq<string>, i: nat)
    requires i < |order|
    ensures PassHost(aim, h, order[..i + 1]) ==
            RealizedHost(aim.netem, aim.shape(order[i]), PassHost(aim, h, order[..i]), order[i])
    ensures PassOps(site, aim, h, order[..i + 1]) ==
            PassOps(site, aim, h, order[..i])
            + RealizeOps(site, aim.netem, aim.shape(order[i]), PassHost(aim, h, order[..i]), order[i])
  {
    assert order[..i + 1][..i] == order[..i];
  }

  lemma {:induction false} PassTaps(aim: Aim, h: Host, order: seq<string>)
    requires !Refused(h, aim.netem)
    ensures order != [] ==> PassHost(aim, h, order).realized && PassHost(aim, h, order).netem == aim.netem
    ensures forall vm :: vm in PassHost(aim, h, order).taps <==> vm in h.taps || vm in order
  {
    if order != [] {
      var init, last := order[..|order| - 1], order[|order| - 1];
      PassTaps(aim, h, init);
      AcceptedPass(aim, h, init);
      assert PassHost(aim, h, order).taps == PassHost(aim, h, init).taps + {last};
      assert order == init + [last];
    }
  }

  lemma {:induction false} PassLeaves(aim: Aim, h: Host, order: seq<string>)
    requires !Refused(h, aim.netem)
    ensures order != [] ==> PassHost(aim, h, order).realized && PassHost(aim, h, order).netem == aim.netem
    ensures forall vm :: vm in PassHost(aim, h, order).taps <==> vm in h.taps || vm in order
    ensures forall vm :: Shape(PassHost(aim, h, order), vm) ==
                         if vm in order then aim.shape(vm) else Shape(h, vm)
  {
    PassTaps(aim, h, order);
    forall vm ensures Shape(PassHost(aim, h, order), vm) ==
                      if vm in order then aim.shape(vm) else Shape(h, vm) {
      PassShapes(aim, h, order, vm);
    }
  }

  // --- record and kernel ---------------------------------------------------------------

  /** A chain is on an interface that is up, and on record. */
  predicate Backed(h: Host)
  {
    && (!h.realized ==> h.taps == {})
    && forall vm :: vm in h.chain ==> vm in h.taps && vm in h.shaped && h.shaped[vm] == h.chain[vm]
  }

  /** The VM's interface is up and the record says something else of it than the kernel. */
  predicate Leftover(h: Host, vm: string)
  {
    vm in h.taps && Chain(h, vm) != Shape(h, vm)
  }

  ghost predicate Truthful(h: Host)
  {
    forall vm :: !Leftover(h, vm)
  }

  /** No root on a VM's interface is ever refused: one that is there is on record and cleared first. */
  lemma {:induction false} TapRootIsFree(h: Host, vm: string)
    requires Backed(h)
    ensures Shape(h, vm) == None ==> Chain(h, vm) == None
    ensures Leftover(h, vm) ==> Chain(h, vm) == None && Shape(h, vm).Some?
  {
  }

  /**
   * When record and kernel agree, realising a VM keeps them so exactly unless it makes a new
   * interface for a shape that is on record already.
   */
  lemma {:induction false} RealizeKeepsTruth(netem: Option<(nat, nat)>, shape: Option<Impairment>, h: Host, vm: string)
    requires Truthful(h)
    ensures Truthful(RealizedHost(netem, shape, h, vm)) <==>
              Refused(h, netem) || vm in h.taps || shape == None || Shape(h, vm) != shape
  {
    var now := RealizedHost(netem, shape, h, vm);
    if !Refused(h, netem) {
      assert forall x :: x != vm && x in now.taps ==> x in h.taps && Chain(now, x) == Chain(h, x) && Shape(now, x) == Shape(h, x);
      assert forall x :: x != vm && Leftover(now, x) ==> Leftover(h, x);
      assert vm in h.taps ==> !Leftover(h, vm);
      assert Truthful(now) <==> !Leftover(now, vm);
    }
  }

  lemma {:induction false} RealizedChain(netem: Option<(nat, nat)>, shape: Option<Impairment>, h: Host, vm: string)
    requires !Refused(h, netem) && Backed(h)
    ensures Backed(RealizedHost(netem, shape, h, vm))
    ensures forall x :: Chain(RealizedHost(netem, shape, h, vm), x) ==
                        if x == vm && Shape(h, vm) != shape then shape else Chain(h, x)
  {
  }

  lemma {:induction false} PassBacked(aim: Aim, h: Host, order: seq<string>)
    requires Backed(h)
    ensures Backed(PassHost(aim, h, order))
  {
    if order != [] {
      var init, last := order[..|order| - 1], order[|order| - 1];
      PassBacked(aim, h, init);
      if !Refused(PassHost(aim, h, init), aim.netem) {
        RealizedChain(aim.netem, aim.shape(last), PassHost(aim, h, init), last);
      }
    }
  }

  /** A pass gives a VM's interface a new chain exactly when the record calls for one. */
  lemma {:induction false} PassChains(aim: Aim, h: Host, order: seq<string>, vm: string)
    requires !Refused(h, aim.netem) && Backed(h)
    ensures Chain(PassHost(aim, h, order), vm) ==
            if vm in order && Shape(h, vm) != aim.shape(vm) then aim.shape(vm) else Chain(h, vm)
  {
    if order != [] {
      var init, last := order[..|order| - 1], order[|order| - 1];
      PassChains(aim, h, init, vm);
      PassShapes(aim, h, init, vm);
      PassBacked(aim, h, init);
      AcceptedPass(aim, h, init);
      RealizedChain(aim.netem, aim.shape(last), PassHost(aim, h, init), last);
      assert order == init + [last];
    }
  }

  /** A pass over a bridge whose netem is on record leaves the root alone. */
  lemma {:induction false} PassKeepsRoot(aim: Aim, h: Host, order: seq<string>)
    requires h.netem == aim.netem
    ensures PassHost(aim, h, order).root == h.root && PassHost(aim, h, order).netem == h.netem
  {
    if order != [] { PassKeepsRoot(aim, h, order[..|order| - 1]); }
  }

  lemma {:induction false} FreshTc(site: Site, aim: Aim, h: Host, vm: string)
    requires Shape(h, vm) == None && !Refused(h, aim.netem)
    ensures h.netem == aim.netem ==> TcOnly(RealizeOps(site, aim.netem, aim.shape(vm), h, vm)) == ShapeFresh(site, aim, vm)
    ensures h.netem == None ==> TcOnly(RealizeOps(site, aim.netem, aim.shape(vm), h, vm)) ==
                                NetemChange(site.name, None, aim.netem) + ShapeFresh(site, aim, vm)
  {
    RealizeTc(site, aim.netem, aim.shape(vm), h, vm);
    assert ShapeChange(site.tap(vm), None, aim.shape(vm)) == ShapeFresh(site, aim, vm);
    assert NetemChange(site.name, aim.netem, aim.netem) == [];
  }

  lemma {:induction false} PassTc(site: Site, aim: Aim, order: seq<string>)
    requires Distinct(order)
    ensures TcOnly(PassOps(site, aim, DOWN, order)) ==
            (if order == [] then [] else NetemChange(site.name, None, aim.netem)) + ShapePlan(site, aim, order)
  {
    if order != [] {
      var init, last := order[..|order| - 1], order[|order| - 1];
      PassTc(site, aim, init);
      PassTaps(aim, DOWN, init);
      PassShapes(aim, DOWN, init, last);
      AcceptedPass(aim, DOWN, init);
      assert last !in init;
      var h := PassHost(aim, DOWN, init);
      FreshTc(site, aim, h, last);
      JoinTc(PassOps(site, aim, DOWN, init), RealizeOps(site, aim.netem, aim.shape(last), h, last), init == [],
             NetemChange(site.name, None, aim.netem), ShapePlan(site, aim, init), ShapeFresh(site, aim, last));
    }
  }

  lemma {:induction false} JoinTc(before: seq<NetOp>, now: seq<NetOp>, first: bool,
                                  netem: seq<NetOp>, shapes: seq<NetOp>, added: seq<NetOp>)
    requires first ==> before == [] && shapes == [] && TcOnly(now) == netem + added
    requires !first ==> TcOnly(before) == netem + shapes && TcOnly(now) == added
    ensures TcOnly(before + now) == netem + (shapes + added)
  {
    TcOnlyAdds(before, now);
    assert !first ==> (netem + shapes) + added == netem + (shapes + added);
    assert first ==> shapes + added == added;
  }

  /**
   * The plan and the live path agree: realising every member on a bridge that is down issues
   * exactly the plan's `tc` commands, in the plan's order.
   */
  lemma {:induction false} PlanMatchesLive(site: Site, g: Graph)
    requires g.attached != {}
    ensures TcOnly(Plan(site, g)) == TcOnly(PassOps(site, AimOf(g), DOWN, Sorted(g.attached)))
  {
    var vm :| vm in g.attached;
    assert vm in Sorted(g.attached);
    PlanTc(site, g);
    PassTc(site, AimOf(g), Sorted(g.attached));
    assert NetemPlan(site.name, g) == NetemChange(site.name, None, NetemTarget(g));
  }

  /** An empty bridge is never realised, so only a plan for one that has netem differs. */
  lemma {:induction false} EmptyBridgePlan(site: Site, g: Graph)
    requires g.attached == {}
    ensures TcOnly(Plan(site, g)) == TcOnly(PassOps(site, AimOf(g), DOWN, Sorted(g.attached)))
       <==> g.latency == 0 && g.drop == 0
  {
    assert Sorted(g.attached) == [];
    PlanTc(site, g);
  }

  /** A bridge with latency and nobody on it. */
  lemma {:induction false} EmptyBridgePlanDiffers(site: Site)
    ensures var g := EMPTY.(latency := 50);
            TcOnly(Plan(site, g)) != TcOnly(PassOps(site, AimOf(g), DOWN, Sorted(g.attached)))
  {
    EmptyBridgePlan(site, EMPTY.(latency := 50));
  }

  /** A host that already holds what the graph asks for gets no command at all. */
  predicate UpToDate(aim: Aim, h: Host)
  {
    h.realized && h.netem == aim.netem
  }

  lemma {:induction false} UpToDatePassIsSilent(site: Site, aim: Aim, h: Host, order: seq<string>)
    requires UpToDate(aim, h)
    requires forall vm :: vm in order ==> vm in h.taps && Shape(h, vm) == aim.shape(vm)
    ensures PassOps(site, aim, h, order) == []
  {
    if order != [] {
      var init, last := order[..|order| - 1], order[|order| - 1];
      assert order == init + [last];
      UpToDatePassIsSilent(site, aim, h, init);
      PassLeaves(aim, h, init);
    }
  }

  /** From any host state, a second pass over the same VMs issues nothing exactly when the first was not refused. */
  lemma {:induction false} SecondPassIsSilent(site: Site, aim: Aim, h: Host, order: seq<string>)
    ensures PassOps(site, aim, PassHost(aim, h, order), order) == [] <==> order == [] || !Refused(h, aim.netem)
  {
    if Refused(h, aim.netem) {
      RefusedPass(aim, h, order);
      if order != [] { RefusedPass(aim, h, order[..|order| - 1]); }
      assert |NetemChange(site.name, h.netem, aim.netem)| == 1;
    } else if order != [] {
      PassLeaves(aim, h, order);
      UpToDatePassIsSilent(site, aim, PassHost(aim, h, order), order);
    }
  }

  // --- refreshing a live bridge ---------------------------------------------------------

  function RefreshNetemOps(bridge: string, g: Graph, h: Host): seq<NetOp>
  {
    if !h.realized || (h.netem == None && NetemTarget(g) == None) then []
    else [ClearRoot(bridge)] + NetemPlan(bridge, g)
  }

  function RefreshedNetem(g: Graph, h: Host): Host
  {
    if !h.realized || (h.netem == None && NetemTarget(g) == None) then h
    else if NetemTarget(g) == None then h.(netem := None, root := Bare)
    else h.(root := Netem(g.latency, g.drop))
  }

  function TokenBucket(dev: string, bandwidth: nat): NetOp
  {
    NetOp(Tc, ["qdisc", "replace", "dev", dev, "root", "handle", "1:", "tbf", "rate", Digits(bandwidth) + "bit",
               "burst", Digits(Burst(bandwidth)), "limit", Digits(Max(bandwidth / 8, 1500))])
  }

  function RefreshBandwidthOps(bridge: string, g: Graph, h: Host): seq<NetOp>
  {
    if !h.realized then []
    else if g.bandwidth == 0 then
      [ClearRoot(bridge)] + (if NetemTarget(g).Some? then RefreshNetemOps(bridge, g, h) else [])
    else if NetemTarget(g).Some? then []
    else [TokenBucket(bridge, g.bandwidth)]
  }

  function RefreshedBandwidth(g: Graph, h: Host): Host
  {
    if !h.realized then h
    else if g.bandwidth == 0 then
      if NetemTarget(g).Some? then RefreshedNetem(g, h.(root := Bare)) else h.(root := Bare)
    else if NetemTarget(g).Some? then h
    else h.(root := Bucket(g.bandwidth))
  }

  /** How graph, record and kernel hang together after every operation. */
  predicate Sane(g: Graph, h: Host)
  {
    && (!h.realized ==> h.root == Bare && h.netem == None)
    && (h.netem.Some? ==> h.root.Netem? && NetemTarget(g).Some?)
    && (h.realized && NetemTarget(g).Some? ==> h.root == Netem(g.latency, g.drop))
  }

  /** Realising is refused exactly on a live bridge whose netem was never recorded. */
  lemma {:induction false} RefusedExactly(g: Graph, h: Host)
    requires Sane(g, h)
    ensures Refused(h, NetemTarget(g)) <==> h.realized && NetemTarget(g).Some? && h.netem == None
  {
  }

  lemma {:induction false} RealizeKeepsSane(g: Graph, shape: Option<Impairment>, h: Host, vm: string)
    requires Sane(g, h)
    ensures Sane(g, RealizedHost(NetemTarget(g), shape, h, vm))
  {
  }

  lemma {:induction false} PassKeepsSane(g: Graph, h: Host, order: seq<string>)
    requires Sane(g, h)
    ensures Sane(g, PassHost(AimOf(g), h, order))
  {
    if order != [] {
      var init, last := order[..|order| - 1], order[|order| - 1];
      PassKeepsSane(g, h, init);
      RealizeKeepsSane(g, AimOf(g).shape(last), PassHost(AimOf(g), h, init), last);
    }
  }

  /**
   * A refresh installs the bridge's netem but does not record it: the next VM is refused
   * exactly when netem is asked for and none was on record. The command refused is the very
   * one the refresh has just issued.
   */
  lemma {:induction false} RefreshedNetemRecord(bridge: string, g: Graph, h: Host)
    requires h.realized
    ensures Refused(RefreshedNetem(g, h), NetemTarget(g)) <==> NetemTarget(g).Some? && h.netem == None
    ensures NetemTarget(g).Some? && h.netem == None ==>
              NetemChange(bridge, RefreshedNetem(g, h).netem, NetemTarget(g)) == NetemPlan(bridge, g)
              && RefreshNetemOps(bridge, g, h) == [ClearRoot(bridge)] + NetemPlan(bridge, g)
  {
  }

  /** Latency set on a live bridge that had none, and then a VM. */
  lemma {:induction false} LatencyOnLiveBridgeStopsBoot(h: Host)
    requires h.realized && h.netem == None
    ensures var g := EMPTY.(latency := 50); Refused(RefreshedNetem(g, h), NetemTarget(g))
  {
  }

  /** Asking for no netem clears the kernel's root exactly when netem is on record or the root is bare. */
  lemma {:induction false} ClearedNetemGoes(g: Graph, h: Host)
    requires h.realized && NetemTarget(g) == None
    ensures RefreshedNetem(g, h).root == Bare <==> h.netem.Some? || h.root == Bare
  {
  }

  /** Latency set and cleared again on a live bridge stays in the kernel. */
  lemma {:induction false} ClearedLatencyStays(h: Host)
    requires h.realized && h.netem == None
    ensures RefreshedNetem(EMPTY, RefreshedNetem(EMPTY.(latency := 50), h)).root == Netem(50, 0)
  {
  }

  // --- a record that outlives its interface ---------------------------------------------

  /** `detach` deletes the interface, chain and all, but not the shape recorded for it. */
  function DetachedHost(h: Host, vm: string): Host
  {
    h.(taps := h.taps - {vm}, chain := h.chain - {vm})
  }

  predicate EndsWith(ops: seq<NetOp>, tail: seq<NetOp>)
  {
    |tail| <= |ops| && ops[|ops| - |tail|..] == tail
  }

  lemma {:induction false} ChangeInstalls(tap: string, current: Option<Impairment>, want: Impairment)
    ensures current == Some(want) ==> ShapeChange(tap, current, Some(want)) == []
    ensures current != Some(want) ==> EndsWith(ShapeChange(tap, current, Some(want)), Install(tap, want))
  {}

  /** The command names the interface it is about. */
  predicate About(op: NetOp, dev: string)
  {
    op.program == Tc && |op.args| > 3 && op.args[3] == dev
  }

  lemma {:induction false} NetemIsAbout(verb: string, dev: string, latency: nat, drop: nat)
    ensures About(NetemRoot(verb, dev, latency, drop), dev)
  {}

  lemma {:induction false} ChildIsAbout(tap: string, latency: nat, drop: nat)
    ensures About(NetemChild(tap, latency, drop), tap)
  {}

  lemma {:induction false} NetemInstallEnds(tap: string, v: Impairment)
    requires v.bandwidth == 0
    ensures var ops := Install(tap, v); ops != [] && About(ops[|ops| - 1], tap)
  {
    NetemIsAbout("add", tap, v.latency, v.drop);
  }

  lemma {:induction false} HtbInstallEnds(tap: string, v: Impairment)
    requires v.bandwidth > 0 && v.latency == 0 && v.drop == 0
    ensures var ops := Install(tap, v); ops != [] && About(ops[|ops| - 1], tap)
  {
    HtbIsAbout(tap, v.bandwidth);
    assert |Install(tap, v)| == 2 && Install(tap, v)[1] == HtbClass(tap, v.bandwidth);
  }

  lemma {:induction false} HtbIsAbout(tap: string, bandwidth: nat)
    ensures About(HtbClass(tap, bandwidth), tap)
  {}

  lemma {:induction false} ChildInstallEnds(tap: string, v: Impairment)
    requires v.bandwidth > 0 && (v.latency > 0 || v.drop > 0)
    ensures var ops := Install(tap, v); ops != [] && About(ops[|ops| - 1], tap)
  {
    ChildIsAbout(tap, v.latency, v.drop);
  }

  lemma {:induction false} InstallEnds(tap: string, v: Impairment)
    ensures var ops := Install(tap, v); ops != [] && About(ops[|ops| - 1], tap)
  {
    if v.bandwidth == 0 {
      NetemInstallEnds(tap, v);
    } else if v.latency > 0 || v.drop > 0 {
      ChildInstallEnds(tap, v);
    } else {
      HtbInstallEnds(tap, v);
    }
  }

  lemma {:induction false} EndsWithMore(front: seq<NetOp>, back: seq<NetOp>, tail: seq<NetOp>)
    requires EndsWith(back, tail)
    ensures EndsWith(front + back, tail)
  {
    assert (front + back)[|front + back| - |tail|..] == back[|back| - |tail|..];
  }

  /**
   * A fresh interface starts unshaped and needs the whole chain. It gets it exactly unless the
   * call is refused or a shape left over from an earlier interface of that VM equals the one
   * now wanted.
   */
  lemma {:induction false} FreshTapIsShaped(site: Site, netem: Option<(nat, nat)>, want: Impairment, h: Host, vm: string)
    requires vm !in h.taps && site.tap(vm) != site.name
    ensures EndsWith(RealizeOps(site, netem, Some(want), h, vm), Install(site.tap(vm), want))
       <==> !Refused(h, netem) && Shape(h, vm) != Some(want)
  {
    var ops, chain := RealizeOps(site, netem, Some(want), h, vm), Install(site.tap(vm), want);
    InstallEnds(site.tap(vm), want);
    if EndsWith(ops, chain) {
      assert ops[|ops| - 1] == chain[|chain| - 1];
    }
    if Refused(h, netem) {
      RefusedOpsEnd(site, netem, h);
    } else {
      MakeOpsEnd(site, netem, h, vm);
      ChangeInstalls(site.tap(vm), Shape(h, vm), want);
      if Shape(h, vm) != Some(want) {
        EndsWithMore(MakeOps(site, netem, h, vm), ShapeChange(site.tap(vm), Shape(h, vm), Some(want)), chain);
      }
    }
  }

  lemma {:induction false} RefusedOpsEnd(site: Site, netem: Option<(nat, nat)>, h: Host)
    requires Refused(h, netem)
    ensures var ops := RefusedOps(site, netem, h);
            ops != [] && About(ops[|ops| - 1], site.name)
  {
    var change := NetemChange(site.name, h.netem, netem);
    NetemIsAbout(if h.netem.Some? then "change" else "add", site.name, netem.value.0, netem.value.1);
    assert change[0] == NetemRoot(if h.netem.Some? then "change" else "add", site.name, netem.value.0, netem.value.1);
  }

  lemma {:induction false} MakeOpsEnd(site: Site, netem: Option<(nat, nat)>, h: Host, vm: string)
    requires vm !in h.taps
    ensures var ops := MakeOps(site, netem, h, vm); ops != [] && ops[|ops| - 1].program == Ip
  {}
}
