/**
 * The kernel's side of a bridge: the interfaces and queueing disciplines that the commands
 * issued so far have left, worked out from their argument lists alone, and why they are the
 * ones the bridge takes for granted.
 */
module BridgeKernel {
  import opened BridgeCommands
  import opened BridgeGraph
  import opened BridgeHost
  import opened Options
  import opened StringOrder

  datatype Limits = Limits(rate: nat, ceil: nat, burst: nat)

  datatype Queue =
    | NetemQueue(latency: nat, drop: nat)
    | HtbQueue(limits: Option<Limits>, child: Option<(nat, nat)>)
    | BucketQueue(rate: nat, burst: nat, limit: nat)

  datatype Device = Device(bridge: bool, master: Option<string>, up: bool, queue: Option<Queue>)

  type Kernel = map<string, Device>

  /** The root of an interface after a command; one that does not apply is refused and changes nothing. */
  function Requeued(q: Option<Queue>, c: Command): Option<Queue>
  {
    match c
    case DelRoot(_) => None
    case AddNetem(_, latency, drop) => if q.None? then Some(NetemQueue(latency, drop)) else q
    case ChangeNetem(_, latency, drop) => if q.Some? && q.value.NetemQueue? then Some(NetemQueue(latency, drop)) else q
    case AddHtb(_) => if q.None? then Some(HtbQueue(None, None)) else q
    case AddClass(_, rate, ceil, burst) =>
      if q == Some(HtbQueue(None, None)) then Some(HtbQueue(Some(Limits(rate, ceil, burst)), None)) else q
    case AddChild(_, latency, drop) =>
      if q.Some? && q.value.HtbQueue? && q.value.limits.Some? && q.value.child.None?
      then Some(HtbQueue(q.value.limits, Some((latency, drop)))) else q
    case ReplaceBucket(_, rate, burst, limit) => Some(BucketQueue(rate, burst, limit))
    case _ => q
  }

  function WithQueue(k: Kernel, dev: string, q: Option<Queue>): Kernel
  {
    if dev in k then k[dev := k[dev].(queue := q)] else k
  }

  function Exec(k: Kernel, c: Command): Kernel
  {
    match c
    case Other => k
    case AddBridge(dev) => if dev in k then k else k[dev := Device(true, None, false, None)]
    case AddTap(dev) => if dev in k then k else k[dev := Device(false, None, false, None)]
    case SetMaster(dev, master) =>
      if dev in k && master in k && k[master].bridge then k[dev := k[dev].(master := Some(master))] else k
    case SetUp(dev) => if dev in k then k[dev := k[dev].(up := true)] else k
    case DelLink(dev) => k - {dev}
    case _ => if c.dev in k then WithQueue(k, c.dev, Requeued(k[c.dev].queue, c)) else k
  }

  /** What the commands make of the kernel. */
  function Replay(k: Kernel, ops: seq<NetOp>): Kernel
  {
    if ops == [] then k else Exec(Replay(k, ops[..|ops| - 1]), Read(ops[|ops| - 1]))
  }

  lemma {:induction false} ReplayAdds(k: Kernel, a: seq<NetOp>, b: seq<NetOp>)
    ensures Replay(k, a + b) == Replay(Replay(k, a), b)
  {
    if b == [] {
      assert a + b == a;
    } else {
      assert (a + b)[..|a + b| - 1] == a + b[..|b| - 1];
      ReplayAdds(k, a, b[..|b| - 1]);
    }
  }

  lemma {:induction false} ReplayOne(k: Kernel, op: NetOp, c: Command)
    requires Read(op) == c
    ensures Replay(k, [op]) == Exec(k, c)
  {
    assert [op][..0] == [];
    assert Replay(k, []) == k;
  }

  lemma {:induction false} ReplayTwo(k: Kernel, ops: seq<NetOp>, c: Command, d: Command)
    requires |ops| == 2 && Read(ops[0]) == c && Read(ops[1]) == d
    ensures Replay(k, ops) == Exec(Exec(k, c), d)
  {
    ReplayAdds(k, [ops[0]], [ops[1]]);
    ReplayOne(k, ops[0], c);
    ReplayOne(Exec(k, c), ops[1], d);
    assert ops == [ops[0]] + [ops[1]];
  }

  /** `nft` has nothing to do with interfaces. */
  lemma {:induction false} NftKeepsKernel(k: Kernel, ops: seq<NetOp>)
    requires All(ops, Nft)
    ensures Replay(k, ops) == k
  {
    if ops != [] {
      NftKeepsKernel(k, ops[..|ops| - 1]);
      assert Read(ops[|ops| - 1]) == Other;
    }
  }

  // --- single changes ------------------------------------------------------------------

  lemma {:induction false} BridgeComesUp(k: Kernel, bridge: string)
    requires bridge !in k
    ensures Replay(k, BridgeUp(bridge)) == k[bridge := Device(true, None, true, None)]
  {
    BridgeUpReads(bridge);
    ReplayTwo(k, BridgeUp(bridge), AddBridge(bridge), SetUp(bridge));
  }

  lemma {:induction false} TapJoins(k: Kernel, tap: string, bridge: string)
    requires tap in k && bridge in k && k[bridge].bridge
    ensures Replay(k, TapJoin(tap, bridge)) == k[tap := k[tap].(master := Some(bridge), up := true)]
  {
    JoinReads(tap, bridge);
    ReplayTwo(k, TapJoin(tap, bridge), SetMaster(tap, bridge), SetUp(tap));
  }

  /** Whoever the interface is made for. */
  lemma {:induction false} TapComesUp(k: Kernel, tap: string, bridge: string, user: seq<string>)
    requires tap !in k && bridge in k && k[bridge].bridge
    ensures Replay(k, [NetOp(Ip, ["tuntap", "add", "dev", tap, "mode", "tap"] + user)] + TapJoin(tap, bridge)) ==
            k[tap := Device(false, Some(bridge), true, None)]
  {
    var op := NetOp(Ip, ["tuntap", "add", "dev", tap, "mode", "tap"] + user);
    TapReads(tap, user);
    ReplayOne(k, op, AddTap(tap));
    ReplayAdds(k, [op], TapJoin(tap, bridge));
    TapJoins(k[tap := Device(false, None, false, None)], tap, bridge);
  }

  lemma {:induction false} RootGoes(k: Kernel, dev: string)
    ensures Replay(k, [ClearRoot(dev)]) == WithQueue(k, dev, None)
  {
    ClearRootReads(dev);
    ReplayOne(k, ClearRoot(dev), DelRoot(dev));
  }

  lemma {:induction false} NetemComes(k: Kernel, dev: string, latency: nat, drop: nat)
    requires dev in k
    ensures Replay(k, [NetemRoot("add", dev, latency, drop)]) ==
            if k[dev].queue.None? then WithQueue(k, dev, Some(NetemQueue(latency, drop))) else k
  {
    NetemRootReads(dev, latency, drop);
    ReplayOne(k, NetemRoot("add", dev, latency, drop), AddNetem(dev, latency, drop));
  }

  lemma {:induction false} NetemTurns(k: Kernel, dev: string, latency: nat, drop: nat)
    requires dev in k
    ensures Replay(k, [NetemRoot("change", dev, latency, drop)]) ==
            if k[dev].queue.Some? && k[dev].queue.value.NetemQueue? then WithQueue(k, dev, Some(NetemQueue(latency, drop))) else k
  {
    NetemRootReads(dev, latency, drop);
    ReplayOne(k, NetemRoot("change", dev, latency, drop), ChangeNetem(dev, latency, drop));
  }

  lemma {:induction false} BucketComes(k: Kernel, dev: string, rate: nat)
    requires dev in k
    ensures Replay(k, [TokenBucket(dev, rate)]) == WithQueue(k, dev, RootQueue(Bucket(rate)))
  {
    TokenBucketReads(dev, rate);
    ReplayOne(k, TokenBucket(dev, rate), ReplaceBucket(dev, rate, Burst(rate), Max(rate / 8, 1500)));
  }

  // --- what is meant -------------------------------------------------------------------

  /** The discipline for the bridge's own interface. */
  function RootQueue(root: Root): Option<Queue>
  {
    match root
    case Bare => None
    case Netem(latency, drop) => Some(NetemQueue(latency, drop))
    case Bucket(rate) => Some(BucketQueue(rate, Burst(rate), Max(rate / 8, 1500)))
  }

  /** The discipline for a VM's interface. */
  function ShapeQueue(shape: Option<Impairment>): Option<Queue>
  {
    match shape
    case None => None
    case Some(v) =>
      if v.bandwidth == 0 then Some(NetemQueue(v.latency, v.drop))
      else Some(HtbQueue(Some(Limits(v.bandwidth, v.bandwidth, Burst(v.bandwidth))),
                         if v.latency > 0 || v.drop > 0 then Some((v.latency, v.drop)) else None))
  }

  /** How long a discipline holds a packet back, what part of them it loses, and at what rate it sends. */
  function Delay(q: Option<Queue>): nat
  {
    match q
    case Some(NetemQueue(latency, _)) => latency
    case Some(HtbQueue(_, Some(v))) => v.0
    case _ => 0
  }

  function Loss(q: Option<Queue>): nat
  {
    match q
    case Some(NetemQueue(_, drop)) => drop
    case Some(HtbQueue(_, Some(v))) => v.1
    case _ => 0
  }

  function Rate(q: Option<Queue>): Option<nat>
  {
    match q
    case Some(HtbQueue(Some(l), _)) => Some(l.rate)
    case Some(BucketQueue(rate, _, _)) => Some(rate)
    case _ => None
  }

  lemma {:induction false} LimitsSet(k: Kernel, tap: string, limits: Limits)
    requires tap in k && k[tap].queue == None
    ensures Exec(Exec(k, AddHtb(tap)), AddClass(tap, limits.rate, limits.ceil, limits.burst)) ==
            WithQueue(k, tap, Some(HtbQueue(Some(limits), None)))
  {
    assert Exec(k, AddHtb(tap)) == WithQueue(k, tap, Some(HtbQueue(None, None)));
  }

  lemma {:induction false} RateLimited(k: Kernel, tap: string, bandwidth: nat)
    requires tap in k && k[tap].queue == None
    ensures Replay(k, [HtbRoot(tap), HtbClass(tap, bandwidth)]) ==
            WithQueue(k, tap, Some(HtbQueue(Some(Limits(bandwidth, bandwidth, Burst(bandwidth))), None)))
  {
    HtbRootReads(tap);
    HtbClassReads(tap, bandwidth);
    ReplayTwo(k, [HtbRoot(tap), HtbClass(tap, bandwidth)], AddHtb(tap),
              AddClass(tap, bandwidth, bandwidth, Burst(bandwidth)));
    LimitsSet(k, tap, Limits(bandwidth, bandwidth, Burst(bandwidth)));
  }

  lemma {:induction false} ChildComes(k: Kernel, tap: string, limits: Limits, latency: nat, drop: nat)
    requires tap in k && k[tap].queue == Some(HtbQueue(Some(limits), None))
    ensures Replay(k, [NetemChild(tap, latency, drop)]) == WithQueue(k, tap, Some(HtbQueue(Some(limits), Some((latency, drop)))))
  {
    NetemChildReads(tap, latency, drop);
    ReplayOne(k, NetemChild(tap, latency, drop), AddChild(tap, latency, drop));
  }

  lemma {:induction false} LimitedNetemComes(k: Kernel, tap: string, v: Impairment)
    requires tap in k && k[tap].queue == None && v.bandwidth > 0 && (v.latency > 0 || v.drop > 0)
    ensures Replay(k, [HtbRoot(tap), HtbClass(tap, v.bandwidth)] + [NetemChild(tap, v.latency, v.drop)]) ==
            WithQueue(k, tap, ShapeQueue(Some(v)))
  {
    var limits := Limits(v.bandwidth, v.bandwidth, Burst(v.bandwidth));
    RateLimited(k, tap, v.bandwidth);
    ReplayAdds(k, [HtbRoot(tap), HtbClass(tap, v.bandwidth)], [NetemChild(tap, v.latency, v.drop)]);
    ChildComes(WithQueue(k, tap, Some(HtbQueue(Some(limits), None))), tap, limits, v.latency, v.drop);
  }

  /** The commands for a shape put exactly that shape on a bare interface. */
  lemma {:induction false} ShapeComes(k: Kernel, tap: string, v: Impairment)
    requires tap in k && k[tap].queue == None
    ensures Replay(k, Install(tap, v)) == WithQueue(k, tap, ShapeQueue(Some(v)))
  {
    if v.bandwidth == 0 {
      NetemComes(k, tap, v.latency, v.drop);
    } else if v.latency > 0 || v.drop > 0 {
      LimitedNetemComes(k, tap, v);
    } else {
      RateLimited(k, tap, v.bandwidth);
      assert Install(tap, v) == [HtbRoot(tap), HtbClass(tap, v.bandwidth)];
    }
  }

  /** First bare, then `q`. */
  lemma {:induction false} ByWayOfBare(k: Kernel, tap: string, gone: seq<NetOp>, made: seq<NetOp>, q: Option<Queue>)
    requires tap in k && Replay(k, gone) == WithQueue(k, tap, None)
    requires Replay(WithQueue(k, tap, None), made) == WithQueue(WithQueue(k, tap, None), tap, q)
    ensures Replay(k, gone + made) == WithQueue(k, tap, q)
  {
    ReplayAdds(k, gone, made);
  }

  lemma {:induction false} GoneIsBare(k: Kernel, tap: string, current: Option<Impairment>)
    requires tap in k && (current == None ==> k[tap].queue == None)
    ensures Replay(k, if current.Some? then [ClearRoot(tap)] else []) == WithQueue(k, tap, None)
  {
    if current.Some? { RootGoes(k, tap); }
  }

  lemma {:induction false} ShapeChanges(k: Kernel, tap: string, current: Option<Impairment>, target: Option<Impairment>)
    requires tap in k && (current == None ==> k[tap].queue == None)
    ensures Replay(k, ShapeChange(tap, current, target)) == if current == target then k else WithQueue(k, tap, ShapeQueue(target))
  {
    if current != target {
      var gone := if current.Some? then [ClearRoot(tap)] else [];
      var made := if target.Some? then Install(tap, target.value) else [];
      GoneIsBare(k, tap, current);
      if target.Some? { ShapeComes(WithQueue(k, tap, None), tap, target.value); }
      ByWayOfBare(k, tap, gone, made, ShapeQueue(target));
    }
  }

  lemma {:induction false} NetemChanges(k: Kernel, bridge: string, h: Host, target: Option<(nat, nat)>)
    requires bridge in k && k[bridge].queue == RootQueue(h.root)
    ensures Replay(k, NetemChange(bridge, h.netem, target)) ==
            if Refused(h, target) || h.netem == target then k
            else WithQueue(k, bridge, RootQueue(if target.Some? then Netem(target.value.0, target.value.1) else Bare))
  {
    if h.netem != target {
      if target.None? {
        RootGoes(k, bridge);
      } else if h.netem.None? {
        NetemComes(k, bridge, target.value.0, target.value.1);
      } else {
        NetemTurns(k, bridge, target.value.0, target.value.1);
      }
    }
  }

  // --- agreement -----------------------------------------------------------------------

  /** No two of the VMs share an interface, and none has the bridge's. */
  ghost predicate Distinguished(site: Site, vms: set<string>)
  {
    TapsDiffer(vms, site.tap) && forall vm :: vm in vms ==> site.tap(vm) != site.name
  }

  /**
   * The kernel is what the bridge takes it for: there is the bridge's interface and one for
   * each VM that is up, enslaved to it, all of them up and with the right queueing disciplines,
   * and nothing else.
   */
  ghost predicate Agrees(site: Site, k: Kernel, h: Host)
  {
    && Distinguished(site, h.taps)
    && (site.name in k <==> h.realized)
    && (h.realized ==> k[site.name] == Device(true, None, true, RootQueue(h.root)))
    && (forall vm :: vm in h.taps ==>
          site.tap(vm) in k && k[site.tap(vm)] == Device(false, Some(site.name), true, ShapeQueue(Chain(h, vm))))
    && (forall dev :: dev in k ==> dev == site.name || dev in TapsOf(h.taps, site.tap))
  }

  lemma {:induction false} BridgeUpAgrees(site: Site, k: Kernel, h: Host)
    requires Agrees(site, k, h) && (!h.realized ==> h.root == Bare && h.taps == {})
    ensures Agrees(site, Replay(k, if h.realized then [] else BridgeUp(site.name)), h.(realized := true))
  {
    if !h.realized { BridgeComesUp(k, site.name); }
  }

  lemma {:induction false} RootAgrees(site: Site, k: Kernel, h: Host, root: Root)
    requires Agrees(site, k, h) && h.realized
    ensures Agrees(site, WithQueue(k, site.name, RootQueue(root)), h.(root := root))
  {
    var now := h.(root := root);
    assert forall vm :: Chain(now, vm) == Chain(h, vm);
  }

  lemma {:induction false} NetemAgrees(site: Site, k: Kernel, h: Host, target: Option<(nat, nat)>)
    requires Agrees(site, k, h) && h.realized
    ensures var root := if Refused(h, target) || h.netem == target then h.root
                        else if target.Some? then Netem(target.value.0, target.value.1) else Bare;
            Agrees(site, Replay(k, NetemChange(site.name, h.netem, target)), h.(root := root))
  {
    NetemChanges(k, site.name, h, target);
    if !Refused(h, target) && h.netem != target {
      RootAgrees(site, k, h, if target.Some? then Netem(target.value.0, target.value.1) else Bare);
    }
  }

  lemma {:induction false} NewTapAgrees(site: Site, k: Kernel, h: Host, vm: string)
    requires Agrees(site, k, h) && h.realized && vm !in h.taps && Distinguished(site, h.taps + {vm})
    ensures site.tap(vm) !in k
    ensures Agrees(site, k[site.tap(vm) := Device(false, Some(site.name), true, None)],
                   h.(taps := h.taps + {vm}, chain := h.chain - {vm}))
  {
    var now := h.(taps := h.taps + {vm}, chain := h.chain - {vm});
    forall x | x in h.taps ensures site.tap(x) != site.tap(vm) && Chain(now, x) == Chain(h, x) {}
    assert TapsOf(now.taps, site.tap) == TapsOf(h.taps, site.tap) + {site.tap(vm)};
  }

  lemma {:induction false} TapUpAgrees(site: Site, k: Kernel, h: Host, vm: string)
    requires Agrees(site, k, h) && h.realized && vm !in h.taps && Distinguished(site, h.taps + {vm})
    ensures Agrees(site, Replay(k, TapUp(site.tap(vm), site.name, site.uid)), h.(taps := h.taps + {vm}, chain := h.chain - {vm}))
  {
    var words := ["tuntap", "add", "dev", site.tap(vm), "mode", "tap"];
    NewTapAgrees(site, k, h, vm);
    TapComesUp(k, site.tap(vm), site.name, ["user", site.uid]);
    assert words + ["user", site.uid] == ["tuntap", "add", "dev", site.tap(vm), "mode", "tap", "user", site.uid];
  }

  lemma {:induction false} QueueAgrees(site: Site, k: Kernel, h: Host, vm: string, now: Host)
    requires Agrees(site, k, h) && vm in h.taps && h.realized
    requires now.taps == h.taps && now.realized && now.root == h.root
    requires forall x :: x != vm ==> Chain(now, x) == Chain(h, x)
    ensures Agrees(site, WithQueue(k, site.tap(vm), ShapeQueue(Chain(now, vm))), now)
  {
    forall x | x in h.taps && x != vm ensures site.tap(x) != site.tap(vm) {}
  }

  lemma {:induction false} ShapeAgrees(site: Site, k: Kernel, h: Host, vm: string,
                                       current: Option<Impairment>, target: Option<Impairment>)
    requires Agrees(site, k, h) && h.realized && vm in h.taps
    requires current == None ==> Chain(h, vm) == None
    ensures Agrees(site, Replay(k, ShapeChange(site.tap(vm), current, target)), h.(chain := ChainAfter(h.chain, vm, current, target)))
  {
    var now := h.(chain := ChainAfter(h.chain, vm, current, target));
    ShapeChanges(k, site.tap(vm), current, target);
    if current != target { QueueAgrees(site, k, h, vm, now); }
  }

  /** Only what the bridge takes the kernel to be matters. */
  lemma {:induction false} AgreesAlike(site: Site, k: Kernel, h: Host, now: Host)
    requires Agrees(site, k, h)
    requires now.realized == h.realized && now.taps == h.taps && now.root == h.root
    requires forall vm :: vm in h.taps ==> Chain(now, vm) == Chain(h, vm)
    ensures Agrees(site, k, now)
  {}

  /** It fixes the kernel. */
  lemma {:induction false} AgreesOnOne(site: Site, k: Kernel, l: Kernel, h: Host)
    requires Agrees(site, k, h) && Agrees(site, l, h) && (h.taps != {} ==> h.realized)
    ensures k == l
  {
    forall dev ensures dev in k <==> dev in l {}
    forall dev | dev in k ensures k[dev] == l[dev] {
      if dev != site.name {
        var vm :| vm in h.taps && site.tap(vm) == dev;
      }
    }
  }

  // --- realising -----------------------------------------------------------------------

  /** A bridge that is down has nothing, so nothing is refused on it. */
  predicate Fit(h: Host)
  {
    Backed(h) && (!h.realized ==> h.root == Bare && h.netem == None)
  }

  lemma {:induction false} RootStage(site: Site, netem: Option<(nat, nat)>, h: Host, k: Kernel)
    requires Fit(h) && Agrees(site, k, h)
    ensures var root := if Refused(h, netem) || h.netem == netem then h.root
                        else if netem.Some? then Netem(netem.value.0, netem.value.1) else Bare;
            Agrees(site, Replay(k, RefusedOps(site, netem, h)), h.(realized := true, root := root))
  {
    var up := if h.realized then [] else BridgeUp(site.name);
    BridgeUpAgrees(site, k, h);
    ReplayAdds(k, up, NetemChange(site.name, h.netem, netem));
    NetemAgrees(site, Replay(k, up), h.(realized := true), netem);
  }

  lemma {:induction false} TapStage(site: Site, h: Host, k: Kernel, vm: string)
    requires Agrees(site, k, h) && h.realized && Distinguished(site, h.taps + {vm})
    ensures var ops := if vm in h.taps then [] else TapUp(site.tap(vm), site.name, site.uid);
            var chain := if vm in h.taps then h.chain else h.chain - {vm};
            Agrees(site, Replay(k, ops), h.(taps := h.taps + {vm}, chain := chain))
  {
    if vm in h.taps {
      assert h.taps + {vm} == h.taps;
    } else {
      TapUpAgrees(site, k, h, vm);
    }
  }

  lemma {:induction false} ShapeStage(site: Site, netem: Option<(nat, nat)>, shape: Option<Impairment>, h: Host, vm: string,
                                      made: Host, k: Kernel)
    requires Backed(h) && !Refused(h, netem) && Agrees(site, k, made)
    requires made.realized && made.taps == h.taps + {vm} && made.root == AcceptedHost(netem, shape, h, vm).root
    requires made.chain == if vm in h.taps then h.chain else h.chain - {vm}
    ensures Agrees(site, Replay(k, ShapeChange(site.tap(vm), Shape(h, vm), shape)), AcceptedHost(netem, shape, h, vm))
  {
    TapRootIsFree(h, vm);
    ShapeAgrees(site, k, made, vm, Shape(h, vm), shape);
    AgreesAlike(site, Replay(k, ShapeChange(site.tap(vm), Shape(h, vm), shape)),
                made.(chain := ChainAfter(made.chain, vm, Shape(h, vm), shape)), AcceptedHost(netem, shape, h, vm));
  }

  lemma {:induction false} AcceptedAgrees(site: Site, netem: Option<(nat, nat)>, shape: Option<Impairment>, h: Host, vm: string, k: Kernel)
    requires Fit(h) && !Refused(h, netem) && Agrees(site, k, h) && Distinguished(site, h.taps + {vm})
    ensures Agrees(site, Replay(k, AcceptedOps(site, netem, shape, h, vm)), AcceptedHost(netem, shape, h, vm))
  {
    var front := RefusedOps(site, netem, h);
    var rooted := h.(realized := true, root := AcceptedHost(netem, shape, h, vm).root);
    RootStage(site, netem, h, k);
    var k1 := Replay(k, front);
    assert Agrees(site, k1, rooted);
    var tap := if vm in h.taps then [] else TapUp(site.tap(vm), site.name, site.uid);
    var made := rooted.(taps := h.taps + {vm}, chain := if vm in h.taps then h.chain else h.chain - {vm});
    TapStage(site, rooted, k1, vm);
    ReplayAdds(k, front, tap);
    ShapeStage(site, netem, shape, h, vm, made, Replay(k1, tap));
    ReplayAdds(k, front + tap, ShapeChange(site.tap(vm), Shape(h, vm), shape));
  }

  /**
   * Realising a VM keeps the bridge and the kernel of one mind, whether or not it is refused:
   * the commands issued have, one by one, the effect the bridge counts on.
   */
  lemma {:induction false} RealizeAgrees(site: Site, netem: Option<(nat, nat)>, shape: Option<Impairment>, h: Host, vm: string, k: Kernel)
    requires Fit(h) && Agrees(site, k, h) && Distinguished(site, h.taps + {vm})
    ensures Agrees(site, Replay(k, RealizeOps(site, netem, shape, h, vm)), RealizedHost(netem, shape, h, vm))
  {
    if Refused(h, netem) {
      RootStage(site, netem, h, k);
      assert h.realized;
      AgreesAlike(site, Replay(k, RefusedOps(site, netem, h)), h.(realized := true), h);
    } else {
      AcceptedAgrees(site, netem, shape, h, vm, k);
    }
  }

  lemma {:induction false} RealizeKeepsFit(netem: Option<(nat, nat)>, shape: Option<Impairment>, h: Host, vm: string)
    requires Fit(h)
    ensures Fit(RealizedHost(netem, shape, h, vm)) && RealizedHost(netem, shape, h, vm).taps <= h.taps + {vm}
  {
    if !Refused(h, netem) { RealizedChain(netem, shape, h, vm); }
  }

  lemma {:induction false} FewerDistinguished(site: Site, few: set<string>, many: set<string>)
    requires few <= many && Distinguished(site, many)
    ensures Distinguished(site, few)
  {}

  lemma {:induction false} PassAgrees(site: Site, aim: Aim, h: Host, order: seq<string>, k: Kernel, vms: set<string>)
    requires Fit(h) && Agrees(site, k, h) && Distinguished(site, vms) && h.taps <= vms && forall vm :: vm in order ==> vm in vms
    ensures Agrees(site, Replay(k, PassOps(site, aim, h, order)), PassHost(aim, h, order))
    ensures Fit(PassHost(aim, h, order)) && PassHost(aim, h, order).taps <= vms
  {
    if order != [] {
      var init, last := order[..|order| - 1], order[|order| - 1];
      PassAgrees(site, aim, h, init, k, vms);
      var now, ops := PassHost(aim, h, init), PassOps(site, aim, h, init);
      FewerDistinguished(site, now.taps + {last}, vms);
      RealizeAgrees(site, aim.netem, aim.shape(last), now, last, Replay(k, ops));
      RealizeKeepsFit(aim.netem, aim.shape(last), now, last);
      ReplayAdds(k, ops, RealizeOps(site, aim.netem, aim.shape(last), now, last));
    }
  }

  lemma {:induction false} StoppingPassAgrees(site: Site, aim: Aim, h: Host, order: seq<string>, k: Kernel)
    requires Fit(h) && Agrees(site, k, h) && forall vm :: vm in order ==> vm in h.taps
    ensures Agrees(site, Replay(k, StoppingPassOps(site, aim, h, order)), PassHost(aim, h, order))
  {
    if order != [] && Refused(h, aim.netem) {
      RefusedPass(aim, h, order);
      RootStage(site, aim.netem, h, k);
      AgreesAlike(site, Replay(k, RefusedOps(site, aim.netem, h)), h.(realized := true), h);
    } else {
      PassAgrees(site, aim, h, order, k, h.taps);
    }
  }

  // --- refreshing and detaching ----------------------------------------------------------

  lemma {:induction false} NetemRenewed(site: Site, g: Graph, h: Host, k: Kernel)
    requires Agrees(site, k, h) && h.realized
    ensures var root := if NetemTarget(g).None? then Bare else Netem(g.latency, g.drop);
            Agrees(site, Replay(k, [ClearRoot(site.name)] + NetemPlan(site.name, g)), h.(root := root))
  {
    var bare := WithQueue(k, site.name, None);
    RootGoes(k, site.name);
    RootAgrees(site, k, h, Bare);
    ReplayAdds(k, [ClearRoot(site.name)], NetemPlan(site.name, g));
    if NetemTarget(g).Some? {
      NetemComes(bare, site.name, g.latency, g.drop);
      RootAgrees(site, bare, h.(root := Bare), Netem(g.latency, g.drop));
    }
  }

  lemma {:induction false} RefreshNetemAgrees(site: Site, g: Graph, h: Host, k: Kernel)
    requires Agrees(site, k, h)
    ensures Agrees(site, Replay(k, RefreshNetemOps(site.name, g, h)), RefreshedNetem(g, h))
  {
    if h.realized && (h.netem.Some? || NetemTarget(g).Some?) {
      NetemRenewed(site, g, h, k);
      AgreesAlike(site, Replay(k, RefreshNetemOps(site.name, g, h)),
                  h.(root := if NetemTarget(g).None? then Bare else Netem(g.latency, g.drop)), RefreshedNetem(g, h));
    }
  }

  lemma {:induction false} RefreshBandwidthAgrees(site: Site, g: Graph, h: Host, k: Kernel)
    requires Agrees(site, k, h)
    ensures Agrees(site, Replay(k, RefreshBandwidthOps(site.name, g, h)), RefreshedBandwidth(g, h))
  {
    if h.realized {
      if g.bandwidth == 0 {
        var bare := h.(root := Bare);
        var more := if NetemTarget(g).Some? then RefreshNetemOps(site.name, g, h) else [];
        RootGoes(k, site.name);
        RootAgrees(site, k, h, Bare);
        ReplayAdds(k, [ClearRoot(site.name)], more);
        RefreshNetemAgrees(site, g, bare, Replay(k, [ClearRoot(site.name)]));
      } else if NetemTarget(g).None? {
        BucketComes(k, site.name, g.bandwidth);
        RootAgrees(site, k, h, Bucket(g.bandwidth));
      }
    }
  }

  lemma {:induction false} DetachAgrees(site: Site, h: Host, vm: string, k: Kernel)
    requires Agrees(site, k, h) && vm in h.taps
    ensures Agrees(site, Replay(k, [NetOp(Ip, ["link", "del", "dev", site.tap(vm)])]), DetachedHost(h, vm))
  {
    var now := DetachedHost(h, vm);
    DelLinkReads(site.tap(vm));
    ReplayOne(k, NetOp(Ip, ["link", "del", "dev", site.tap(vm)]), DelLink(site.tap(vm)));
    forall x | x in now.taps ensures site.tap(x) != site.tap(vm) && Chain(now, x) == Chain(h, x) {}
    FewerDistinguished(site, now.taps, h.taps);
  }

  // --- the plan ------------------------------------------------------------------------

  lemma {:induction false} TapPlanStep(site: Site, order: seq<string>, k: Kernel)
    requires order != []
    ensures var tap := site.tap(order[|order| - 1]);
            Replay(k, TapPlan(site, order)) ==
            Replay(Replay(k, TapPlan(site, order[..|order| - 1])),
                   [NetOp(Ip, ["tuntap", "add", "dev", tap, "mode", "tap"] + [])] + TapJoin(tap, site.name))
  {
    var tap := site.tap(order[|order| - 1]);
    var init, words := TapPlan(site, order[..|order| - 1]), ["tuntap", "add", "dev", tap, "mode", "tap"];
    assert words + [] == words;
    ReplayAdds(k, init, [NetOp(Ip, words)] + TapJoin(tap, site.name));
    assert TapPlan(site, order) == init + ([NetOp(Ip, words)] + TapJoin(tap, site.name));
  }

  lemma {:induction false} PlainTapAgrees(site: Site, k: Kernel, h: Host, vm: string)
    requires Agrees(site, k, h) && h.realized && vm !in h.taps && h.chain == map[] && Distinguished(site, h.taps + {vm})
    ensures Agrees(site, Replay(k, [NetOp(Ip, ["tuntap", "add", "dev", site.tap(vm), "mode", "tap"] + [])] + TapJoin(site.tap(vm), site.name)),
                   h.(taps := h.taps + {vm}))
  {
    NewTapAgrees(site, k, h, vm);
    TapComesUp(k, site.tap(vm), site.name, []);
    assert h.chain - {vm} == h.chain;
  }

  lemma {:induction false} TapPlanAgrees(site: Site, order: seq<string>, vms: set<string>, k: Kernel)
    requires Distinguished(site, vms) && Distinct(order) && forall vm :: vm in order ==> vm in vms
    requires Agrees(site, k, DOWN.(realized := true))
    ensures Agrees(site, Replay(k, TapPlan(site, order)), DOWN.(realized := true, taps := set vm | vm in order))
  {
    if order != [] {
      var init, last := order[..|order| - 1], order[|order| - 1];
      TapPlanAgrees(site, init, vms, k);
      assert order == init + [last] && last !in init;
      var before, all := set vm | vm in init, set vm | vm in order;
      assert all == before + {last};
      FewerDistinguished(site, all, vms);
      TapPlanStep(site, order, k);
      PlainTapAgrees(site, Replay(k, TapPlan(site, init)), DOWN.(realized := true, taps := before), last);
    }
  }

  lemma {:induction false} NetemPlanAgrees(site: Site, g: Graph, h: Host, k: Kernel)
    requires Agrees(site, k, h) && h.realized && h.root == Bare
    ensures var root := if NetemTarget(g).None? then Bare else Netem(g.latency, g.drop);
            Agrees(site, Replay(k, NetemPlan(site.name, g)), h.(root := root))
  {
    if NetemTarget(g).Some? {
      NetemComes(k, site.name, g.latency, g.drop);
      RootAgrees(site, k, h, Netem(g.latency, g.drop));
    }
  }

  /** Each VM's chain, one after another. */
  function PlannedHost(aim: Aim, h: Host, order: seq<string>): Host
  {
    if order == [] then h
    else
      var now, last := PlannedHost(aim, h, order[..|order| - 1]), order[|order| - 1];
      now.(chain := ChainAfter(now.chain, last, None, aim.shape(last)))
  }

  lemma {:induction false} PlannedChains(aim: Aim, h: Host, order: seq<string>)
    requires h.chain == map[] && Distinct(order)
    ensures var now := PlannedHost(aim, h, order);
            && now == h.(chain := now.chain)
            && forall vm :: Chain(now, vm) == if vm in order then aim.shape(vm) else None
  {
    if order != [] {
      var init, last := order[..|order| - 1], order[|order| - 1];
      PlannedChains(aim, h, init);
      assert order == init + [last] && last !in init;
    }
  }

  lemma {:induction false} ShapePlanAgrees(site: Site, aim: Aim, h: Host, order: seq<string>, k: Kernel)
    requires Agrees(site, k, h) && h.realized && h.chain == map[] && Distinct(order) && forall vm :: vm in order ==> vm in h.taps
    ensures Agrees(site, Replay(k, ShapePlan(site, aim, order)), PlannedHost(aim, h, order))
  {
    if order != [] {
      var init, last := order[..|order| - 1], order[|order| - 1];
      ShapePlanAgrees(site, aim, h, init, k);
      PlannedChains(aim, h, init);
      assert last !in init;
      ReplayAdds(k, ShapePlan(site, aim, init), ShapeFresh(site, aim, last));
      assert ShapeChange(site.tap(last), None, aim.shape(last)) == ShapeFresh(site, aim, last);
      ShapeAgrees(site, Replay(k, ShapePlan(site, aim, init)), PlannedHost(aim, h, init), last, None, aim.shape(last));
    }
  }

  /** What a pass over a bridge that is down makes of it. */
  lemma {:induction false} FreshPass(aim: Aim, order: seq<string>)
    requires order != []
    ensures var now := PassHost(aim, DOWN, order);
            && now.realized && (forall vm :: vm in now.taps <==> vm in order)
            && now.root == (if aim.netem.Some? then Netem(aim.netem.value.0, aim.netem.value.1) else Bare)
            && forall vm :: Chain(now, vm) == if vm in order then aim.shape(vm) else None
  {
    PassTaps(aim, DOWN, order);
    FreshRoot(aim, order);
    forall vm ensures Chain(PassHost(aim, DOWN, order), vm) == if vm in order then aim.shape(vm) else None {
      PassChains(aim, DOWN, order, vm);
    }
  }

  lemma {:induction false} FreshRoot(aim: Aim, order: seq<string>)
    requires order != []
    ensures PassHost(aim, DOWN, order).root == if aim.netem.Some? then Netem(aim.netem.value.0, aim.netem.value.1) else Bare
  {
    var init := order[..|order| - 1];
    AcceptedPass(aim, DOWN, init);
    if init != [] { FreshRoot(aim, init); }
  }

  lemma {:induction false} DownAgrees(site: Site)
    ensures Agrees(site, map[], DOWN)
  {}

  lemma {:induction false} PlanSplits(site: Site, g: Graph)
    ensures var members := Sorted(g.attached);
            Replay(map[], Plan(site, g)) ==
            Replay(Replay(Replay(Replay(map[], BridgeUp(site.name)), TapPlan(site, members)), NetemPlan(site.name, g)),
                   ShapePlan(site, AimOf(g), members))
  {
    var members := Sorted(g.attached);
    var up, taps, netem := BridgeUp(site.name), TapPlan(site, members), NetemPlan(site.name, g);
    ReplayAdds(map[], up + taps + netem, ShapePlan(site, AimOf(g), members));
    ReplayAdds(map[], up + taps, netem);
    ReplayAdds(map[], up, taps);
  }

  /** The plan's commands leave the kernel the way the bridge says it is once every member is up. */
  lemma {:induction false} PlanAgrees(site: Site, g: Graph)
    requires g.attached != {} && Distinguished(site, g.attached)
    ensures Agrees(site, Replay(map[], Plan(site, g)), PassHost(AimOf(g), DOWN, Sorted(g.attached)))
  {
    var members, up := Sorted(g.attached), DOWN.(realized := true);
    var root := if NetemTarget(g).None? then Bare else Netem(g.latency, g.drop);
    var joined := up.(taps := set vm | vm in members);
    DownAgrees(site);
    BridgeUpAgrees(site, map[], DOWN);
    var k1 := Replay(map[], BridgeUp(site.name));
    TapPlanAgrees(site, members, g.attached, k1);
    var k2 := Replay(k1, TapPlan(site, members));
    NetemPlanAgrees(site, g, joined, k2);
    var k3 := Replay(k2, NetemPlan(site.name, g));
    ShapePlanAgrees(site, AimOf(g), joined.(root := root), members, k3);
    PlanSplits(site, g);
    PlanIsPass(site, g, joined.(root := root), Replay(map[], Plan(site, g)));
  }

  lemma {:induction false} PlanIsPass(site: Site, g: Graph, h: Host, k: Kernel)
    requires g.attached != {} && Agrees(site, k, PlannedHost(AimOf(g), h, Sorted(g.attached)))
    requires h.realized && h.taps == (set vm | vm in Sorted(g.attached)) && h.chain == map[]
    requires h.root == if NetemTarget(g).None? then Bare else Netem(g.latency, g.drop)
    ensures Agrees(site, k, PassHost(AimOf(g), DOWN, Sorted(g.attached)))
  {
    var vm :| vm in g.attached;
    assert vm in Sorted(g.attached);
    PlannedChains(AimOf(g), h, Sorted(g.attached));
    FreshPass(AimOf(g), Sorted(g.attached));
    AgreesAlike(site, k, PlannedHost(AimOf(g), h, Sorted(g.attached)), PassHost(AimOf(g), DOWN, Sorted(g.attached)));
  }

  /** And so do the commands of the live path: plan and live path build the very same network. */
  lemma {:induction false} PlanBuildsLive(site: Site, g: Graph)
    requires g.attached != {} && Distinguished(site, g.attached)
    ensures Replay(map[], Plan(site, g)) == Replay(map[], PassOps(site, AimOf(g), DOWN, Sorted(g.attached)))
  {
    var vm :| vm in g.attached;
    assert vm in Sorted(g.attached);
    PlanAgrees(site, g);
    DownAgrees(site);
    PassAgrees(site, AimOf(g), DOWN, Sorted(g.attached), map[], g.attached);
    FreshPass(AimOf(g), Sorted(g.attached));
    AgreesOnOne(site, Replay(map[], Plan(site, g)), Replay(map[], PassOps(site, AimOf(g), DOWN, Sorted(g.attached))),
                PassHost(AimOf(g), DOWN, Sorted(g.attached)));
  }

  // --- what it comes to ------------------------------------------------------------------

  /** The interface impairs what goes through it by `w`, axis by axis. */
  predicate Impairs(q: Option<Queue>, w: Impairment)
  {
    Delay(q) == w.latency && Loss(q) == w.drop && Rate(q) == if w.bandwidth == 0 then None else Some(w.bandwidth)
  }

  lemma {:induction false} ShapeMeans(d: map<Pair, Impairment>, vm: string)
    ensures Impairs(ShapeQueue(Collapsed(d, vm)), Worst(d, vm)) && IsWorst(d, vm, Worst(d, vm))
  {}

  /** There is an interface `tap` on the bridge, up, that impairs by the worst recorded of what `vm` sends. */
  ghost predicate Carries(k: Kernel, bridge: string, tap: string, d: map<Pair, Impairment>, vm: string)
  {
    && tap in k && k[tap].master == Some(bridge) && k[tap].up
    && exists w :: IsWorst(d, vm, w) && Impairs(k[tap].queue, w)
  }

  lemma {:induction false} AgreedCarries(site: Site, k: Kernel, h: Host, d: map<Pair, Impairment>, vm: string)
    requires Agrees(site, k, h) && vm in h.taps && Chain(h, vm) == Collapsed(d, vm)
    ensures Carries(k, site.name, site.tap(vm), d, vm)
  {
    ShapeMeans(d, vm);
  }

  lemma {:induction false} AgreedRoot(site: Site, k: Kernel, h: Host, g: Graph)
    requires Agrees(site, k, h) && h.realized
    requires h.root == if NetemTarget(g).Some? then Netem(g.latency, g.drop) else Bare
    ensures site.name in k && k[site.name].up && Impairs(k[site.name].queue, Impairment(g.latency, g.drop, 0))
  {}

  lemma {:induction false} BuiltMeans(site: Site, g: Graph, vm: string, k: Kernel)
    requires vm in g.attached && Agrees(site, k, PassHost(AimOf(g), DOWN, Sorted(g.attached)))
    ensures Carries(k, site.name, site.tap(vm), g.directional, vm)
    ensures site.name in k && k[site.name].up && Impairs(k[site.name].queue, Impairment(g.latency, g.drop, 0))
  {
    var aim, members := AimOf(g), Sorted(g.attached);
    var h := PassHost(aim, DOWN, members);
    assert vm in members;
    FreshPass(aim, members);
    assert aim.shape(vm) == Collapsed(g.directional, vm);
    AgreedCarries(site, k, h, g.directional, vm);
    AgreedRoot(site, k, h, g);
  }

  /**
   * What plan and live path build for any graph: each member's interface impairs by the worst
   * of what it sends, and the bridge's own delays and loses what the graph says. It limits no
   * rate, whatever the graph's bandwidth.
   */
  lemma {:induction false} PlanMeans(site: Site, g: Graph, vm: string)
    requires Distinguished(site, g.attached) && vm in g.attached
    ensures var k := Replay(map[], Plan(site, g));
            && k == Replay(map[], PassOps(site, AimOf(g), DOWN, Sorted(g.attached)))
            && Carries(k, site.name, site.tap(vm), g.directional, vm)
            && site.name in k && k[site.name].up && Impairs(k[site.name].queue, Impairment(g.latency, g.drop, 0))
  {
    PlanAgrees(site, g);
    PlanBuildsLive(site, g);
    BuiltMeans(site, g, vm, Replay(map[], Plan(site, g)));
  }
}
