/**
 * The bridge object: recorded graph, record of the host, and the commands issued so far
 * (`Bridge` in provium-host/src/bridge.rs), and the plan drawn from it
 * (`plan_for` in provium-host/src/bridge_realize.rs).
 */
module Bridges {
  import opened BridgeGraph
  import opened BridgeHost
  import opened BridgeKernel
  import opened BridgeRules
  import opened Decimal
  import opened Options
  import opened StringOrder
  import opened TapName

  function Detached(g: Graph, vm: string): Graph
  {
    g.(attached := g.attached - {vm}, isolated := g.isolated - {vm},
       partitions := (set p | p in g.partitions && p.0 != vm && p.1 != vm),
       oneWay := (set p | p in g.oneWay && p.0 != vm && p.1 != vm),
       directional := (map p | p in g.directional && p.0 != vm && p.1 != vm :: g.directional[p]))
  }

  /** Impairments and partitions go; topology and isolation stay. */
  function Cleared(g: Graph): Graph
  {
    EMPTY.(attached := g.attached, isolated := g.isolated, routes := g.routes, uplink := g.uplink)
  }

  lemma {:induction false} RecordedKeeps(g: Graph, k: Pair, v: Impairment)
    requires Kept(g) && v.drop <= 100
    ensures Kept(g.(directional := Recorded(g.directional, k, v)))
  {}

  lemma {:induction false} DetachedKeeps(g: Graph, vm: string)
    requires Kept(g) && Canonical(g)
    ensures Kept(Detached(g, vm)) && Canonical(Detached(g, vm))
  {}

  lemma {:induction false} PartitionKeeps(g: Graph, a: string, b: string)
    requires Canonical(g)
    ensures Canonical(g.(partitions := g.partitions + {CanonicalPair(a, b)}))
  {
    CanonicalPairForgetsOrder(a, b, CanonicalPair(a, b).0, CanonicalPair(a, b).1);
  }

  /** A detached VM is mentioned nowhere; nothing about any other is lost. */
  lemma {:induction false} DetachedForgets(g: Graph, vms: set<string>, vm: string)
    ensures var now := Detached(g, vm);
            && vm !in now.attached && vm !in Names(now, vms - {vm})
            && now.attached + {vm} == g.attached + {vm} && now.isolated + {vm} == g.isolated + {vm}
            && (forall p :: p in now.directional ==> p.0 != vm && p.1 != vm)
            && (forall p: Pair :: p.0 != vm && p.1 != vm ==> Entry(now.directional, p) == Entry(g.directional, p))
            && now.fully == g.fully && now.latency == g.latency && now.drop == g.drop && now.bandwidth == g.bandwidth
            && now.routes == g.routes && now.uplink == g.uplink
  {}

  /** Between others the same traffic is cut as before; to and from the VM, none but by a whole-bridge cut. */
  lemma {:induction false} DetachedSevers(g: Graph, vm: string, a: string, b: string)
    ensures Severed(Detached(g, vm), a, b) <==>
              if a != vm && b != vm then Severed(g, a, b)
              else g.fully || (a != vm && a in g.isolated) || (b != vm && b in g.isolated)
  {
    CanonicalPairForgetsOrder(a, b, CanonicalPair(a, b).0, CanonicalPair(a, b).1);
  }

  /** A reset leaves only isolation in force, and no impairment. */
  lemma {:induction false} ClearedSevers(g: Graph, a: string, b: string)
    ensures Severed(Cleared(g), a, b) <==> a in g.isolated || b in g.isolated
    ensures NetemTarget(Cleared(g)) == None && Collapsed(Cleared(g).directional, a) == None && Cleared(g).bandwidth == 0
    ensures Cleared(g).attached == g.attached && Cleared(g).routes == g.routes && Cleared(g).uplink == g.uplink
  {
    assert Worst(map[], a) == UNIMPAIRED;
  }

  method WithClauses(args: seq<string>, latency: nat, drop: nat) returns (r: seq<string>)
    ensures r == args + Clauses(latency, drop)
  {
    r := args;
    if latency > 0 { r := r + ["delay", Digits(latency) + "ms"]; }
    if drop > 0 { r := r + ["loss", Digits(drop) + "%"]; }
  }

  lemma {:induction false} Regrouped(a: seq<NetOp>, b: seq<NetOp>, c: seq<NetOp>)
    ensures (a + b) + c == a + (b + c)
  {}

  /** Only `nft` commands have been issued since. */
  ghost predicate NftAdded(before: seq<NetOp>, now: seq<NetOp>)
  {
    before <= now && forall i :: |before| <= i < |now| ==> now[i].program == Program.Nft
  }

  lemma {:induction false} NftLeavesKernel(before: seq<NetOp>, now: seq<NetOp>)
    requires NftAdded(before, now)
    ensures Replay(map[], now) == Replay(map[], before)
  {
    var more := now[|before|..];
    assert now == before + more;
    ReplayAdds(map[], before, more);
    NftKeepsKernel(Replay(map[], before), more);
  }

  class Bridge {
    const site: Site
    var graph: Graph
    var host: Host
    var trace: seq<NetOp>

    ghost predicate Valid()
      reads this
    {
      Clean(site.tap) && Kept(graph) && Canonical(graph) && Sane(graph, host) && Backed(host)
    }

    /** The bridge's own table, as its commands have left it. */
    ghost function TableNow(): Table
      reads this
    {
      TableIn(TableOf(site.name), trace)
    }

    ghost predicate Hooked()
      reads this
    {
      TableNow().Table? && TableNow().hooked
    }

    /** The rules in force. */
    ghost function Rules(): set<string>
      reads this
    {
      InForce(TableNow())
    }

    /** The interfaces and queueing disciplines that the commands issued so far have left. */
    ghost function KernelNow(): Kernel
      reads this
    {
      Replay(map[], trace)
    }

    /** They are the ones the bridge takes for granted. */
    ghost predicate Mirrored()
      reads this
    {
      Agrees(site, KernelNow(), host)
    }

    /** The host's rules are the ones the graph calls for. */
    ghost predicate Enforced()
      reads this
    {
      host.realized ==> Rules() == Texts(Cut(graph, host.taps, site.tap))
    }

    /** Every interface that is up carries, in the kernel, the shape the graph calls for. */
    ghost predicate Shaped()
      reads this
    {
      FitsChains(graph, host)
    }

    /** The record says so. */
    ghost predicate OnRecord()
      reads this
    {
      FitsShapes(graph, host)
    }

    /** What the record says is so exactly when no interface stands on a leftover record. */
    lemma OnRecordIsShaped()
      requires OnRecord()
      ensures Shaped() <==> Truthful(host)
    {
      RecordIsTrue(graph, host);
    }

    /** The bridge is up and its netem was never recorded: nothing can be realised on it. */
    ghost predicate Stuck()
      reads this
    {
      host.realized && NetemTarget(graph).Some? && host.netem == None
    }

    constructor (name: string, uid: string)
      ensures Valid() && Enforced() && Mirrored() && site.name == name && site.uid == uid
      ensures forall vm :: site.tap(vm) == Tap(vm, name)
      ensures graph == EMPTY && host == DOWN && trace == []
    {
      site := Site(name, uid, vm => Tap(vm, name));
      graph, host, trace := EMPTY, DOWN, [];
      new;
      DownAgrees(site);
    }

    // --- rules -------------------------------------------------------------------------

    method Nft(op: NetOp)
      modifies this`trace
      requires op.program == Program.Nft
      ensures NftAdded(old(trace), trace) && TableNow() == After(old(TableNow()), TableOf(site.name), op)
    {
      TableAfterOne(TableOf(site.name), trace, op);
      trace := trace + [op];
    }

    method DropRule(i: string, o: string)
      requires Hooked()
      modifies this`trace
      ensures Hooked()
      ensures NftAdded(old(trace), trace) && Rules() == old(Rules()) + Texts({(i, o)})
    {
      EffectOfRule(TableNow(), TableOf(site.name), RuleText(i, o));
      assert Texts({(i, o)}) == {RuleText(i, o)};
      Nft(AddRule(TableOf(site.name), RuleText(i, o)));
    }

    method DropBoth(i: string, o: string)
      requires Hooked()
      modifies this`trace
      ensures Hooked()
      ensures NftAdded(old(trace), trace) && Rules() == old(Rules()) + Texts({(i, o), (o, i)})
    {
      TextsTogether({(i, o)}, {(o, i)});
      assert {(i, o)} + {(o, i)} == {(i, o), (o, i)};
      DropRule(i, o);
      DropRule(o, i);
    }

    /** Drop everything from `a` to each other interface of `taps`. */
    method CutOut(a: string, taps: seq<string>)
      requires Hooked()
      modifies this`trace
      ensures Hooked()
      ensures NftAdded(old(trace), trace)
      ensures Rules() == old(Rules()) + Texts(Across({a}, Elements(taps)))
    {
      for i := 0 to |taps|
        invariant NftAdded(old(trace), trace) && Hooked()
        invariant Rules() == old(Rules()) + Texts(Across({a}, Elements(taps[..i])))
      {
        OutTextsGrow(a, taps, i);
        if a != taps[i] { DropRule(a, taps[i]); }
      }
      assert taps[..|taps|] == taps;
    }

    /** Drop everything between `a` and each other interface of `taps`. */
    method CutAround(a: string, taps: seq<string>)
      requires Hooked()
      modifies this`trace
      ensures Hooked()
      ensures NftAdded(old(trace), trace)
      ensures Rules() == old(Rules()) + Texts(IsolationCut({a}, Elements(taps)))
    {
      AroundNobody(a);
      for i := 0 to |taps|
        invariant NftAdded(old(trace), trace) && Hooked()
        invariant Rules() == old(Rules()) + Texts(IsolationCut({a}, Elements(taps[..i])))
      {
        AroundTextsGrow(a, taps, i);
        if a != taps[i] { DropBoth(a, taps[i]); }
      }
      assert taps[..|taps|] == taps;
    }

    method CutApart(taps: seq<string>)
      requires Hooked()
      modifies this`trace
      ensures Hooked()
      ensures NftAdded(old(trace), trace)
      ensures Rules() == old(Rules()) + Texts(Across(Elements(taps), Elements(taps)))
    {
      for i := 0 to |taps|
        invariant NftAdded(old(trace), trace) && Hooked()
        invariant Rules() == old(Rules()) + Texts(Across(Elements(taps[..i]), Elements(taps)))
      {
        ElementsGrow(taps, i);
        AcrossTogether(Elements(taps[..i]), {taps[i]}, Elements(taps));
        TextsTogether(Across(Elements(taps[..i]), Elements(taps)), Across({taps[i]}, Elements(taps)));
        CutOut(taps[i], taps);
      }
      assert taps[..|taps|] == taps;
    }

    method CutPairs(pairs: set<Pair>)
      requires Hooked()
      modifies this`trace
      ensures Hooked()
      ensures NftAdded(old(trace), trace)
      ensures Rules() == old(Rules()) + Texts(PairCut(pairs, site.tap))
    {
      var todo := pairs;
      NoPairsNoTexts(site.tap);
      assert pairs - todo == {};
      while todo != {}
        invariant NftAdded(old(trace), trace) && Hooked() && todo <= pairs
        invariant Rules() == old(Rules()) + Texts(PairCut(pairs - todo, site.tap))
        decreases todo
      {
        var p :| p in todo;
        PairTextsGrow(pairs, todo, p, site.tap);
        DropBoth(site.tap(p.0), site.tap(p.1));
        todo := todo - {p};
      }
      assert pairs - todo == pairs;
    }

    method CutOneWay(pairs: set<Pair>)
      requires Hooked()
      modifies this`trace
      ensures Hooked()
      ensures NftAdded(old(trace), trace)
      ensures Rules() == old(Rules()) + Texts(OneWayCut(pairs, site.tap))
    {
      var todo := pairs;
      NoPairsNoTexts(site.tap);
      assert pairs - todo == {};
      while todo != {}
        invariant NftAdded(old(trace), trace) && Hooked() && todo <= pairs
        invariant Rules() == old(Rules()) + Texts(OneWayCut(pairs - todo, site.tap))
        decreases todo
      {
        var p :| p in todo;
        OneWayTextsGrow(pairs, todo, p, site.tap);
        DropRule(site.tap(p.0), site.tap(p.1));
        todo := todo - {p};
      }
      assert pairs - todo == pairs;
    }

    method CutIsolated(vms: set<string>, taps: seq<string>)
      requires Hooked()
      modifies this`trace
      ensures Hooked()
      ensures NftAdded(old(trace), trace)
      ensures Rules() == old(Rules()) + Texts(IsolationCut(TapsOf(vms, site.tap), Elements(taps)))
    {
      var todo := vms;
      assert vms - todo == {} && IsolationCut({}, Elements(taps)) == {};
      while todo != {}
        invariant NftAdded(old(trace), trace) && Hooked() && todo <= vms
        invariant Rules() == old(Rules()) + Texts(IsolationCut(TapsOf(vms - todo, site.tap), Elements(taps)))
        decreases todo
      {
        var v :| v in todo;
        IsolationTextsGrow(vms, todo, v, site.tap, Elements(taps));
        CutAround(site.tap(v), taps);
        todo := todo - {v};
      }
      assert vms - todo == vms;
    }

    method TapNames(vms: set<string>) returns (taps: seq<string>)
      ensures Elements(taps) == TapsOf(vms, site.tap)
    {
      var order := InOrder(vms);
      taps := [];
      for i := 0 to |order|
        invariant Elements(taps) == TapsOf(Elements(order[..i]), site.tap)
      {
        TapNamesGrow(order, i, taps, site.tap);
        taps := taps + [site.tap(order[i])];
      }
      assert order[..|order|] == order && Elements(order) == vms;
    }

    method InstallCuts(taps: seq<string>)
      requires Elements(taps) == TapsOf(host.taps, site.tap) && Hooked() && Rules() == {} && !graph.fully
      modifies this`trace
      ensures NftAdded(old(trace), trace) && Rules() == Texts(Cut(graph, host.taps, site.tap))
    {
      CutPairs(graph.partitions);
      CutOneWay(graph.oneWay);
      CutIsolated(graph.isolated, taps);
      CutTexts(graph, host.taps, site.tap);
    }

    /** Wipe the table and rebuild it from the graph; nothing on a bridge that is not up. */
    method RefreshPartitions()
      modifies this`trace
      ensures NftAdded(old(trace), trace) && Enforced() && KernelNow() == old(KernelNow())
      ensures !host.realized ==> trace == old(trace)
    {
      RebuildTable();
      NftLeavesKernel(old(trace), trace);
    }

    method RebuildTable()
      modifies this`trace
      ensures NftAdded(old(trace), trace) && Enforced()
      ensures !host.realized ==> trace == old(trace)
    {
      var taps := TapNames(host.taps);
      if !host.realized { return; }
      Wipe();
      if !graph.fully && graph.partitions == {} && graph.oneWay == {} && graph.isolated == {} {
        NothingToCut(graph, host.taps, site.tap);
        return;
      }
      Rebuild(taps);
    }

    method Wipe()
      modifies this`trace
      ensures NftAdded(old(trace), trace) && TableNow() == Absent
    {
      EffectOfDelete(TableNow(), TableOf(site.name));
      Nft(DeleteTable(TableOf(site.name)));
    }

    method Rebuild(taps: seq<string>)
      requires Elements(taps) == TapsOf(host.taps, site.tap) && TableNow() == Absent
      modifies this`trace
      ensures NftAdded(old(trace), trace) && Rules() == Texts(Cut(graph, host.taps, site.tap))
    {
      EffectOfTable(TableOf(site.name));
      EffectOfChain(Table(false, {}), TableOf(site.name));
      Nft(AddTable(TableOf(site.name)));
      Nft(AddChain(TableOf(site.name)));
      if graph.fully {
        CutApart(taps);
      } else {
        InstallCuts(taps);
      }
    }

    /** While the rules are the graph's, they drop exactly the frames of the traffic it severs. */
    lemma EnforcedRulesAreExact(a: string, b: string)
      requires Valid() && Enforced() && host.realized
      requires a != b && a in host.taps && b in host.taps && TapsDiffer(Names(graph, host.taps), site.tap)
      ensures Drops(Rules(), site.tap(a), site.tap(b)) <==> Severed(graph, a, b)
    {
      RulesAreExact(graph, host.taps, site.tap, a, b);
    }

    /** They say nothing of a VM that is mentioned nowhere, such as one just detached. */
    lemma UnmentionedIsUnruledNow(vm: string, other: string)
      requires Valid() && Enforced() && host.realized
      requires vm !in Names(graph, host.taps) && TapsDiffer(Names(graph, host.taps) + {vm}, site.tap)
      ensures !Drops(Rules(), site.tap(vm), other) && !Drops(Rules(), other, site.tap(vm))
    {
      UnmentionedIsUnruled(graph, host.taps, site.tap, vm, other);
    }

    /**
     * While the kernel is what the bridge takes it for, an interface that carries the shape the
     * graph calls for impairs by the worst recorded of what its VM sends, and a bridge-wide
     * latency or drop rate is on the bridge's own.
     */
    lemma MirroredShapes(vm: string)
      requires Valid() && Mirrored() && Shaped() && vm in host.taps
      ensures Carries(KernelNow(), site.name, site.tap(vm), graph.directional, vm)
      ensures site.name in KernelNow()
      ensures NetemTarget(graph).Some? ==> Impairs(KernelNow()[site.name].queue, Impairment(graph.latency, graph.drop, 0))
    {
      AgreedCarries(site, KernelNow(), host, graph.directional, vm);
    }

    // --- shaping -----------------------------------------------------------------------

    method Run(op: NetOp)
      modifies this`trace
      ensures trace == old(trace) + [op]
    {
      trace := trace + [op];
    }

    method InstallNetemRoot(tap: string, latency: nat, drop: nat)
      modifies this`trace
      ensures trace == old(trace) + Install(tap, Impairment(latency, drop, 0))
    {
      var args := ["qdisc", "add", "dev", tap, "root", "netem"];
      args := WithClauses(args, latency, drop);
      Run(NetOp(Tc, args));
    }

    method InstallHtb(tap: string, latency: nat, drop: nat, bandwidth: nat)
      requires bandwidth > 0
      modifies this`trace
      ensures trace == old(trace) + Install(tap, Impairment(latency, drop, bandwidth))
    {
      Run(NetOp(Tc, ["qdisc", "add", "dev", tap, "root", "handle", "1:", "htb", "default", "10"]));
      var rate := Digits(bandwidth) + "bit";
      var burst := Digits(Max(bandwidth / 800, 1500));
      Run(NetOp(Tc, ["class", "add", "dev", tap, "parent", "1:", "classid", "1:10", "htb", "rate", rate,
                     "ceil", rate, "burst", burst]));
      if latency > 0 || drop > 0 {
        var args := ["qdisc", "add", "dev", tap, "parent", "1:10", "handle", "10:", "netem"];
        args := WithClauses(args, latency, drop);
        Run(NetOp(Tc, args));
      }
    }

    /** The kernel refuses to add a second root and to change one that is not netem. */
    method ChangeNetem(target: Option<(nat, nat)>) returns (ok: bool)
      modifies this`trace, this`host
      ensures trace == old(trace) + NetemChange(site.name, old(host).netem, target)
      ensures ok == !Refused(old(host), target)
      ensures host == if !ok || old(host).netem == target then old(host)
                      else old(host).(root := if target.Some? then Netem(target.value.0, target.value.1) else Bare)
    {
      if host.netem == target { return true; }
      match target {
        case Some(v) =>
          var args := ["qdisc", if host.netem.Some? then "change" else "add", "dev", site.name, "root", "netem"];
          args := WithClauses(args, v.0, v.1);
          Run(NetOp(Tc, args));
          ok := if host.netem.Some? then host.root.Netem? else host.root == Bare;
          if ok { host := host.(root := Netem(v.0, v.1)); }
        case None =>
          Run(NetOp(Tc, ["qdisc", "del", "dev", site.name, "root"]));
          host := host.(root := Bare);
          ok := true;
      }
    }

    method ChangeShape(vm: string, current: Option<Impairment>, target: Option<Impairment>)
      modifies this`trace, this`host
      ensures trace == old(trace) + ShapeChange(site.tap(vm), current, target)
      ensures host == old(host).(chain := ChainAfter(old(host).chain, vm, current, target))
    {
      if current == target { return; }
      ghost var gone := if current.Some? then [ClearRoot(site.tap(vm))] else [];
      if target.Some? { Regrouped(trace, gone, Install(site.tap(vm), target.value)); }
      if current.Some? {
        Run(ClearRoot(site.tap(vm)));
        host := host.(chain := host.chain - {vm});
      }
      assert trace == old(trace) + gone;
      if target.Some? {
        InstallShape(site.tap(vm), target.value);
        assert host.chain[vm := target.value] == old(host).chain[vm := target.value];
        host := host.(chain := host.chain[vm := target.value]);
      }
    }

    method InstallShape(tap: string, v: Impairment)
      modifies this`trace
      ensures trace == old(trace) + Install(tap, v)
    {
      if v.bandwidth > 0 {
        InstallHtb(tap, v.latency, v.drop, v.bandwidth);
      } else {
        InstallNetemRoot(tap, v.latency, v.drop);
      }
    }

    method MakeBridge()
      modifies this`trace
      ensures trace == old(trace) + BridgeUp(site.name)
    {
      Run(NetOp(Ip, ["link", "add", site.name, "type", "bridge"]));
      Run(NetOp(Ip, ["link", "set", "dev", site.name, "up"]));
    }

    /** A new interface has no chain. */
    method MakeTap(vm: string)
      modifies this`trace, this`host
      ensures trace == old(trace) + TapUp(site.tap(vm), site.name, site.uid)
      ensures host == old(host).(chain := old(host).chain - {vm})
    {
      var tap := site.tap(vm);
      Run(NetOp(Ip, ["tuntap", "add", "dev", tap, "mode", "tap", "user", site.uid]));
      Run(NetOp(Ip, ["link", "set", "dev", tap, "master", site.name]));
      Run(NetOp(Ip, ["link", "set", "dev", tap, "up"]));
      host := host.(chain := host.chain - {vm});
    }

    method Realize(vm: string, netem: Option<(nat, nat)>, shape: Option<Impairment>) returns (ok: bool)
      modifies this`host, this`trace
      ensures ok == !Refused(old(host), netem)
      ensures host == RealizedHost(netem, shape, old(host), vm)
      ensures trace == old(trace) + RealizeOps(site, netem, shape, old(host), vm)
    {
      ghost var before := host;
      ghost var up := if host.realized then [] else BridgeUp(site.name);
      Regrouped(trace, up, NetemChange(site.name, host.netem, netem));
      if !host.realized { MakeBridge(); }
      assert trace == old(trace) + up;
      ok := ChangeNetem(netem);
      if ok { Finish(before, up, vm, netem, shape); }
    }

    /** What is left once the bridge has its netem: the interface, its shape, and the record. */
    method Finish(ghost before: Host, ghost up: seq<NetOp>, vm: string, netem: Option<(nat, nat)>, shape: Option<Impairment>)
      requires host == before.(root := AcceptedHost(netem, shape, before, vm).root)
      requires up == if before.realized then [] else BridgeUp(site.name)
      modifies this`host, this`trace
      ensures host == AcceptedHost(netem, shape, before, vm)
      ensures forall t :: old(trace) == t + (up + NetemChange(site.name, before.netem, netem)) ==>
                          trace == t + AcceptedOps(site, netem, shape, before, vm)
    {
      ghost var tap := if vm in host.taps then [] else TapUp(site.tap(vm), site.name, site.uid);
      ghost var change := ShapeChange(site.tap(vm), Shape(host, vm), shape);
      ghost var made := up + NetemChange(site.name, before.netem, netem);
      forall t | old(trace) == t + made ensures (old(trace) + tap) + change == t + ((made + tap) + change) {
        Regrouped(t, made, tap);
        Regrouped(t, made + tap, change);
      }
      if vm !in host.taps { MakeTap(vm); }
      assert trace == old(trace) + tap;
      ChangeShape(vm, Shape(host, vm), shape);
      host := Host(true, host.taps + {vm}, netem,
                   if shape.Some? then host.shaped[vm := shape.value] else host.shaped - {vm}, host.root, host.chain);
    }

    /** Make what is missing for `vm` and bring the shaping in line with the graph, unless refused. */
    method RealizeForVm(vm: string) returns (tap: Option<string>)
      modifies this`host, this`trace
      ensures tap == if Refused(old(host), NetemTarget(graph)) then None else Some(site.tap(vm))
      ensures host == RealizedHost(NetemTarget(graph), Collapsed(graph.directional, vm), old(host), vm)
      ensures trace == old(trace) + RealizeOps(site, NetemTarget(graph), Collapsed(graph.directional, vm), old(host), vm)
      ensures old(Mirrored()) && Fit(old(host)) && Distinguished(site, old(host).taps + {vm}) ==> Mirrored()
    {
      if Mirrored() && Fit(host) && Distinguished(site, host.taps + {vm}) {
        RealizeMirrors(site, NetemTarget(graph), Collapsed(graph.directional, vm), host, vm, trace);
      }
      var shape := CollapsedFor(graph.directional, vm);
      var netem := if graph.latency > 0 || graph.drop > 0 then Some((graph.latency, graph.drop)) else None;
      var ok := Realize(vm, netem, shape);
      tap := if ok then Some(site.tap(vm)) else None;
    }

    /** One VM after another, as a restore does: it goes on after a refusal. */
    method RealizeEach(order: seq<string>)
      modifies this`host, this`trace
      ensures host == PassHost(AimOf(graph), old(host), order)
      ensures trace == old(trace) + PassOps(site, AimOf(graph), old(host), order)
      ensures Rules() == old(Rules())
      ensures forall vms :: old(Mirrored()) && Fit(old(host)) && Covers(site, vms, old(host).taps, order) ==> Mirrored()
    {
      PassKeepsRules(TableOf(site.name), trace, site, AimOf(graph), host, order);
      EachMirrors(site, graph, host, order, trace);
      PassOverAll(order);
    }

    method PassOverAll(order: seq<string>)
      modifies this`host, this`trace
      ensures host == PassHost(AimOf(graph), old(host), order)
      ensures trace == old(trace) + PassOps(site, AimOf(graph), old(host), order)
    {
      for i := 0 to |order|
        invariant host == PassHost(AimOf(graph), old(host), order[..i])
        invariant trace == old(trace) + PassOps(site, AimOf(graph), old(host), order[..i])
      {
        PassTurn(site, graph, old(host), old(trace), order, i);
        var _ := RealizeForVm(order[i]);
      }
      assert order[..|order|] == order;
    }

    /** One VM after another, up to the first refusal: `n` of them. It is the first VM's or nobody's. */
    method RealizeWhileAccepted(order: seq<string>) returns (n: nat)
      modifies this`host, this`trace
      ensures n == if order != [] && Refused(old(host), NetemTarget(graph)) then 1 else |order|
      ensures host == PassHost(AimOf(graph), old(host), order[..n])
      ensures trace == old(trace) + PassOps(site, AimOf(graph), old(host), order[..n])
    {
      n := 0;
      var refused := false;
      while n < |order| && !refused
        invariant n <= |order| && (refused <==> n > 0 && Refused(old(host), NetemTarget(graph))) && (refused ==> n == 1)
        invariant host == PassHost(AimOf(graph), old(host), order[..n])
        invariant trace == old(trace) + PassOps(site, AimOf(graph), old(host), order[..n])
      {
        PassTurn(site, graph, old(host), old(trace), order, n);
        var tap := RealizeForVm(order[n]);
        refused := tap.None?;
        n := n + 1;
      }
    }

    /** The pass of a refresh. */
    method RealizeUntilRefused(order: seq<string>)
      modifies this`host, this`trace
      ensures host == PassHost(AimOf(graph), old(host), order)
      ensures trace == old(trace) + StoppingPassOps(site, AimOf(graph), old(host), order)
      ensures Rules() == old(Rules())
    {
      StoppingPassKeepsRules(TableOf(site.name), trace, site, AimOf(graph), host, order);
      PassUntilRefused(order);
    }

    method PassUntilRefused(order: seq<string>)
      modifies this`host, this`trace
      ensures host == PassHost(AimOf(graph), old(host), order)
      ensures trace == old(trace) + StoppingPassOps(site, AimOf(graph), old(host), order)
    {
      var n := RealizeWhileAccepted(order);
      StoppingPass(site, graph, old(host), order, n);
    }

    method RefreshDirectional()
      modifies this`host, this`trace
      ensures host == if old(host).realized then PassHost(AimOf(graph), old(host), Sorted(old(host).taps)) else old(host)
      ensures trace == old(trace) + if old(host).realized
                                    then StoppingPassOps(site, AimOf(graph), old(host), Sorted(old(host).taps)) else []
      ensures Rules() == old(Rules()) && host.realized == old(host).realized && host.taps == old(host).taps
      ensures old(Mirrored()) && Fit(old(host)) ==> Mirrored()
    {
      if Mirrored() && Fit(host) { RefreshMirrors(site, AimOf(graph), host, trace); }
      var vms := InOrder(host.taps);
      if !host.realized { return; }
      PassKeepsTaps(AimOf(graph), host);
      RealizeUntilRefused(vms);
    }

    method RefreshNetem()
      modifies this`host, this`trace
      ensures host == RefreshedNetem(graph, old(host))
      ensures trace == old(trace) + RefreshNetemOps(site.name, graph, old(host))
      ensures Rules() == old(Rules()) && (old(Mirrored()) ==> Mirrored())
    {
      NetemKeepsRules(TableOf(site.name), trace, site.name, graph, host);
      if Mirrored() { NetemMirrors(site, graph, host, trace); }
      RenewNetem();
    }

    method RenewNetem()
      modifies this`host, this`trace
      ensures host == RefreshedNetem(graph, old(host))
      ensures trace == old(trace) + RefreshNetemOps(site.name, graph, old(host))
    {
      if !host.realized || (host.netem == None && graph.latency == 0 && graph.drop == 0) { return; }
      Run(NetOp(Tc, ["qdisc", "del", "dev", site.name, "root"]));
      if graph.latency == 0 && graph.drop == 0 {
        host := host.(netem := None, root := Bare);
        return;
      }
      AddNetem();
      host := host.(root := Netem(graph.latency, graph.drop));
    }

    method AddNetem()
      requires graph.latency > 0 || graph.drop > 0
      modifies this`trace
      ensures trace == old(trace) + NetemPlan(site.name, graph)
    {
      var args := ["qdisc", "add", "dev", site.name, "root", "netem"];
      args := WithClauses(args, graph.latency, graph.drop);
      Run(NetOp(Tc, args));
    }

    method RefreshBandwidth()
      modifies this`host, this`trace
      ensures host == RefreshedBandwidth(graph, old(host))
      ensures trace == old(trace) + RefreshBandwidthOps(site.name, graph, old(host))
      ensures Rules() == old(Rules()) && (old(Mirrored()) ==> Mirrored())
    {
      BandwidthKeepsRules(TableOf(site.name), trace, site.name, graph, host);
      if Mirrored() { BandwidthMirrors(site, graph, host, trace); }
      RenewBandwidth();
    }

    method RenewBandwidth()
      modifies this`host, this`trace
      ensures host == RefreshedBandwidth(graph, old(host))
      ensures trace == old(trace) + RefreshBandwidthOps(site.name, graph, old(host))
    {
      if !host.realized { return; }
      if graph.bandwidth == 0 {
        ClearBandwidth();
        return;
      }
      if graph.latency > 0 || graph.drop > 0 { return; }
      AddBucket();
    }

    method ClearBandwidth()
      requires host.realized && graph.bandwidth == 0
      modifies this`host, this`trace
      ensures host == RefreshedBandwidth(graph, old(host))
      ensures trace == old(trace) + RefreshBandwidthOps(site.name, graph, old(host))
    {
      ghost var cleared := host.(root := Bare);
      Regrouped(trace, [ClearRoot(site.name)], RefreshNetemOps(site.name, graph, cleared));
      Run(NetOp(Tc, ["qdisc", "del", "dev", site.name, "root"]));
      host := host.(root := Bare);
      if graph.latency > 0 || graph.drop > 0 { RenewNetem(); }
    }

    method AddBucket()
      requires host.realized && graph.bandwidth > 0 && graph.latency == 0 && graph.drop == 0
      modifies this`host, this`trace
      ensures host == RefreshedBandwidth(graph, old(host))
      ensures trace == old(trace) + RefreshBandwidthOps(site.name, graph, old(host))
    {
      var burst, limit := Max(graph.bandwidth / 800, 1500), Max(graph.bandwidth / 8, 1500);
      Run(NetOp(Tc, ["qdisc", "replace", "dev", site.name, "root", "handle", "1:", "tbf", "rate",
                     Digits(graph.bandwidth) + "bit", "burst", Digits(burst), "limit", Digits(limit)]));
      host := host.(root := Bucket(graph.bandwidth));
    }

    // --- membership and partitions -----------------------------------------------------

    method Attach(vm: string)
      requires Valid()
      modifies this`graph
      ensures Valid() && (old(Enforced()) ==> Enforced())
      ensures graph == old(graph).(attached := old(graph).attached + {vm})
    {
      graph := graph.(attached := graph.attached + {vm});
    }

    /** Forget a VM, its partitions and its interface. The shape recorded for it stays. */
    method Detach(vm: string)
      requires Valid()
      modifies this`graph, this`host, this`trace
      ensures Valid() && Enforced() && (old(Mirrored()) ==> Mirrored())
      ensures graph == Detached(old(graph), vm) && host == DetachedHost(old(host), vm)
      ensures old(host).realized && vm in old(host).taps ==>
                old(trace) + [NetOp(Ip, ["link", "del", "dev", site.tap(vm)])] <= trace
    {
      DetachedKeeps(graph, vm);
      graph := Detached(graph, vm);
      DropTap(vm);
      RefreshPartitions();
    }

    method DropTap(vm: string)
      requires Backed(host)
      modifies this`host, this`trace
      ensures host == DetachedHost(old(host), vm)
      ensures trace == old(trace) + if old(host).realized && vm in old(host).taps
                                    then [NetOp(Ip, ["link", "del", "dev", site.tap(vm)])] else []
      ensures old(Mirrored()) ==> Mirrored()
    {
      TapGone(site, host, vm, trace);
      var hadTap := vm in host.taps;
      host := host.(taps := host.taps - {vm});
      if host.realized && hadTap {
        Run(NetOp(Ip, ["link", "del", "dev", site.tap(vm)]));
        host := host.(chain := host.chain - {vm});
      }
      assert host.chain == old(host).chain - {vm};
    }

    method Partition(a: string, b: string)
      requires Valid()
      modifies this`graph, this`trace
      ensures Valid() && Enforced() && (old(Mirrored()) ==> Mirrored())
      ensures graph == old(graph).(partitions := old(graph).partitions + {CanonicalPair(a, b)})
    {
      PartitionKeeps(graph, a, b);
      graph := graph.(partitions := graph.partitions + {CanonicalPair(a, b)});
      RefreshPartitions();
    }

    method Unpartition(a: string, b: string)
      requires Valid()
      modifies this`graph, this`trace
      ensures Valid() && Enforced() && (old(Mirrored()) ==> Mirrored())
      ensures graph == old(graph).(partitions := old(graph).partitions - {CanonicalPair(a, b)})
    {
      graph := graph.(partitions := graph.partitions - {CanonicalPair(a, b)});
      RefreshPartitions();
    }

    method PartitionDirectional(from: string, to: string)
      requires Valid()
      modifies this`graph, this`trace
      ensures Valid() && Enforced() && (old(Mirrored()) ==> Mirrored())
      ensures graph == old(graph).(oneWay := old(graph).oneWay + {(from, to)})
    {
      graph := graph.(oneWay := graph.oneWay + {(from, to)});
      RefreshPartitions();
    }

    method UnpartitionDirectional(from: string, to: string)
      requires Valid()
      modifies this`graph, this`trace
      ensures Valid() && Enforced() && (old(Mirrored()) ==> Mirrored())
      ensures graph == old(graph).(oneWay := old(graph).oneWay - {(from, to)})
    {
      graph := graph.(oneWay := graph.oneWay - {(from, to)});
      RefreshPartitions();
    }

    /** `partition_all` and `restore_all`. */
    method SetFully(cut: bool)
      requires Valid()
      modifies this`graph, this`trace
      ensures Valid() && Enforced() && (old(Mirrored()) ==> Mirrored())
      ensures graph == old(graph).(fully := cut)
    {
      graph := graph.(fully := cut);
      RefreshPartitions();
    }

    method Isolate(vm: string)
      requires Valid()
      modifies this`graph, this`trace
      ensures Valid() && Enforced() && (old(Mirrored()) ==> Mirrored())
      ensures graph == old(graph).(isolated := old(graph).isolated + {vm})
    {
      graph := graph.(isolated := graph.isolated + {vm});
      RefreshPartitions();
    }

    method Unisolate(vm: string)
      requires Valid()
      modifies this`graph, this`trace
      ensures Valid() && Enforced() && (old(Mirrored()) ==> Mirrored())
      ensures graph == old(graph).(isolated := old(graph).isolated - {vm})
    {
      graph := graph.(isolated := graph.isolated - {vm});
      RefreshPartitions();
    }

    // --- impairments and topology ------------------------------------------------------

    method Route(other: string)
      requires Valid()
      modifies this`graph
      ensures Valid() && (old(Enforced()) ==> Enforced())
      ensures graph == old(graph).(routes := old(graph).routes + {other})
    {
      graph := graph.(routes := graph.routes + {other});
    }

    /** `enable_uplink` and `disable_uplink`, as far as the graph goes. */
    method SetUplink(want: bool)
      requires Valid()
      modifies this`graph
      ensures Valid() && (old(Enforced()) ==> Enforced())
      ensures graph == old(graph).(uplink := want)
    {
      graph := graph.(uplink := want);
    }

    method AddLatency(ms: nat)
      requires Valid()
      modifies this
      ensures Valid() && (old(Enforced()) ==> Enforced()) && (old(Mirrored()) ==> Mirrored())
      ensures graph == old(graph).(latency := ms) && host == RefreshedNetem(graph, old(host))
      ensures trace == old(trace) + RefreshNetemOps(site.name, graph, old(host))
    {
      NetemRefreshKeepsSane(graph, graph.(latency := ms), host);
      graph := graph.(latency := ms);
      RefreshNetem();
    }

    method DropRate(percent: nat)
      requires Valid()
      modifies this
      ensures Valid() && (old(Enforced()) ==> Enforced()) && (old(Mirrored()) ==> Mirrored())
      ensures graph == old(graph).(drop := if percent < 100 then percent else 100)
      ensures host == RefreshedNetem(graph, old(host))
      ensures trace == old(trace) + RefreshNetemOps(site.name, graph, old(host))
    {
      ghost var next := graph.(drop := if percent < 100 then percent else 100);
      NetemRefreshKeepsSane(graph, next, host);
      graph := graph.(drop := if percent < 100 then percent else 100);
      RefreshNetem();
    }

    method BandwidthLimit(bps: nat)
      requires Valid()
      modifies this
      ensures Valid() && (old(Enforced()) ==> Enforced()) && (old(Mirrored()) ==> Mirrored())
      ensures graph == old(graph).(bandwidth := bps) && host == RefreshedBandwidth(graph, old(host))
      ensures trace == old(trace) + RefreshBandwidthOps(site.name, graph, old(host))
    {
      BandwidthRefreshKeepsSane(graph.(bandwidth := bps), host);
      graph := graph.(bandwidth := bps);
      RefreshBandwidth();
    }

    /**
     * One axis of one direction. On a bridge that is stuck nothing reaches the host. On any
     * other the record then fits the graph, and the kernel does exactly unless some interface
     * stands on a leftover record that the graph happens to call for.
     */
    method Impair(k: Pair, v: Impairment)
      requires Valid() && v.drop <= 100
      modifies this
      ensures Valid() && (old(Enforced()) ==> Enforced()) && (old(Mirrored()) ==> Mirrored())
      ensures graph == old(graph).(directional := Recorded(old(graph).directional, k, v))
      ensures host.realized == old(host).realized && host.taps == old(host).taps && Stuck() == old(Stuck())
      ensures if Stuck() then host == old(host)
              else OnRecord() && (Shaped() <==> forall vm :: !Stands(graph, old(host), vm))
      ensures old(Truthful(host)) ==> Truthful(host)
      ensures forall vm :: vm !in host.taps ==> Shape(host, vm) == Shape(old(host), vm)
    {
      RecordedKeeps(graph, k, v);
      graph := graph.(directional := if v == UNIMPAIRED then graph.directional - {k} else graph.directional[k := v]);
      CutIgnoresImpairments(old(graph), graph, host.taps, site.tap);
      RefusedExactly(graph, host);
      PushDirectional();
      RefusedExactly(graph, host);
    }

    /** A directional refresh, by what it does to the record. */
    method PushDirectional()
      requires Sane(graph, host) && Backed(host)
      modifies this`host, this`trace
      ensures Sane(graph, host) && Backed(host) && Rules() == old(Rules())
      ensures host.realized == old(host).realized && host.taps == old(host).taps
      ensures Refused(host, NetemTarget(graph)) == Refused(old(host), NetemTarget(graph))
      ensures if Refused(host, NetemTarget(graph)) then host == old(host)
              else FitsShapes(graph, host) && (FitsChains(graph, host) <==> forall vm :: !Stands(graph, old(host), vm))
      ensures old(Truthful(host)) ==> Truthful(host)
      ensures forall vm :: vm !in host.taps ==> Shape(host, vm) == Shape(old(host), vm)
      ensures old(Mirrored()) ==> Mirrored()
    {
      DirectionalRefresh(graph, host);
      if !host.realized { DownRefresh(graph, host); }
      RefreshDirectional();
    }

    method AddDirectionalLatency(from: string, to: string, ms: nat)
      requires Valid()
      modifies this
      ensures Valid() && (old(Enforced()) ==> Enforced()) && (old(Mirrored()) ==> Mirrored())
      ensures graph == old(graph).(directional := Recorded(old(graph).directional, (from, to),
                                                           Entry(old(graph).directional, (from, to)).(latency := ms)))
      ensures host.realized == old(host).realized && host.taps == old(host).taps && Stuck() == old(Stuck())
      ensures if Stuck() then host == old(host)
              else OnRecord() && (Shaped() <==> forall vm :: !Stands(graph, old(host), vm))
      ensures old(Truthful(host)) ==> Truthful(host)
      ensures forall vm :: vm !in host.taps ==> Shape(host, vm) == Shape(old(host), vm)
    {
      Impair((from, to), Entry(graph.directional, (from, to)).(latency := ms));
    }

    method SetDirectionalBandwidth(from: string, to: string, bps: nat)
      requires Valid()
      modifies this
      ensures Valid() && (old(Enforced()) ==> Enforced()) && (old(Mirrored()) ==> Mirrored())
      ensures graph == old(graph).(directional := Recorded(old(graph).directional, (from, to),
                                                           Entry(old(graph).directional, (from, to)).(bandwidth := bps)))
      ensures host.realized == old(host).realized && host.taps == old(host).taps && Stuck() == old(Stuck())
      ensures if Stuck() then host == old(host)
              else OnRecord() && (Shaped() <==> forall vm :: !Stands(graph, old(host), vm))
      ensures old(Truthful(host)) ==> Truthful(host)
      ensures forall vm :: vm !in host.taps ==> Shape(host, vm) == Shape(old(host), vm)
    {
      Impair((from, to), Entry(graph.directional, (from, to)).(bandwidth := bps));
    }

    method DirectionalDropRate(from: string, to: string, percent: nat)
      requires Valid()
      modifies this
      ensures Valid() && (old(Enforced()) ==> Enforced()) && (old(Mirrored()) ==> Mirrored())
      ensures graph == old(graph).(directional := Recorded(old(graph).directional, (from, to),
                                                           Entry(old(graph).directional, (from, to)).(drop := if percent < 100 then percent else 100)))
      ensures host.realized == old(host).realized && host.taps == old(host).taps && Stuck() == old(Stuck())
      ensures if Stuck() then host == old(host)
              else OnRecord() && (Shaped() <==> forall vm :: !Stands(graph, old(host), vm))
      ensures old(Truthful(host)) ==> Truthful(host)
      ensures forall vm :: vm !in host.taps ==> Shape(host, vm) == Shape(old(host), vm)
    {
      Impair((from, to), Entry(graph.directional, (from, to)).(drop := if percent < 100 then percent else 100));
    }

    /** Drop every impairment and partition, on the host too. */
    method Reset()
      requires Valid()
      modifies this
      ensures Valid() && Enforced() && (old(Mirrored()) ==> Mirrored())
      ensures graph == Cleared(old(graph)) && host.taps == old(host).taps && host.realized == old(host).realized
      ensures Shaped() && OnRecord() && (host.realized ==> host.netem == None && host.root == Bare)
    {
      graph := graph.(partitions := {}, oneWay := {}, latency := 0, drop := 0, bandwidth := 0,
                      directional := map[], fully := false);
      RefreshPartitions();
      PushCleared(old(graph));
    }

    /** The refreshes of a graph with nothing left in it, by what they do to the record. */
    method PushCleared(ghost was: Graph)
      requires Sane(was, host) && Backed(host)
      requires graph.latency == 0 && graph.drop == 0 && graph.bandwidth == 0 && graph.directional == map[]
      modifies this`host, this`trace
      ensures Sane(graph, host) && Backed(host) && Rules() == old(Rules())
      ensures host.realized == old(host).realized && host.taps == old(host).taps
      ensures FitsShapes(graph, host) && FitsChains(graph, host)
      ensures host.realized ==> host.netem == None && host.root == Bare
      ensures old(Mirrored()) ==> Mirrored()
    {
      ResetLeaves(was, graph, host);
      RefreshShaping();
    }

    method RefreshShaping()
      requires Fit(host) && Fit(RefreshedBandwidth(graph, RefreshedNetem(graph, host)))
      modifies this`host, this`trace
      ensures Rules() == old(Rules()) && host.taps == old(host).taps && host.realized == old(host).realized
      ensures host == if host.realized
                      then PassHost(AimOf(graph), RefreshedBandwidth(graph, RefreshedNetem(graph, old(host))), Sorted(host.taps))
                      else old(host)
      ensures old(Mirrored()) ==> Mirrored()
    {
      RefreshRoot();
      RefreshDirectional();
    }

    method RefreshRoot()
      modifies this`host, this`trace
      ensures host == RefreshedBandwidth(graph, RefreshedNetem(graph, old(host)))
      ensures Rules() == old(Rules()) && host.taps == old(host).taps && host.realized == old(host).realized
      ensures old(Mirrored()) ==> Mirrored()
    {
      PushNetem();
      PushBandwidth();
    }

    method PushNetem()
      modifies this`host, this`trace
      ensures host == RefreshedNetem(graph, old(host)) && Rules() == old(Rules())
      ensures host.taps == old(host).taps && host.realized == old(host).realized
      ensures old(Mirrored()) ==> Mirrored()
    {
      RefreshNetem();
    }

    method PushBandwidth()
      modifies this`host, this`trace
      ensures host == RefreshedBandwidth(graph, old(host)) && Rules() == old(Rules())
      ensures host.taps == old(host).taps && host.realized == old(host).realized
      ensures old(Mirrored()) ==> Mirrored()
    {
      RefreshBandwidth();
    }

    // --- queries -----------------------------------------------------------------------

    /** Whether a pair is cut does not depend on the order it is asked in. */
    method IsPartitionedNow(a: string, b: string) returns (cut: bool)
      ensures cut <==> IsPartitioned(graph, a, b)
      ensures cut <==> IsPartitioned(graph, b, a)
    {
      CanonicalPairForgetsOrder(a, b, b, a);
      cut := graph.fully || CanonicalPair(a, b) in graph.partitions;
    }
  }

  /** The interfaces of the VMs that are up and of those to come can be told apart. */
  ghost predicate Covers(site: Site, vms: set<string>, taps: set<string>, order: seq<string>)
  {
    Distinguished(site, vms) && taps <= vms && forall vm :: vm in order ==> vm in vms
  }

  lemma {:induction false} RealizeMirrors(site: Site, netem: Option<(nat, nat)>, shape: Option<Impairment>, h: Host, vm: string, t: seq<NetOp>)
    requires Fit(h) && Agrees(site, Replay(map[], t), h) && Distinguished(site, h.taps + {vm})
    ensures Agrees(site, Replay(map[], t + RealizeOps(site, netem, shape, h, vm)), RealizedHost(netem, shape, h, vm))
  {
    ReplayAdds(map[], t, RealizeOps(site, netem, shape, h, vm));
    RealizeAgrees(site, netem, shape, h, vm, Replay(map[], t));
  }

  lemma {:induction false} PassMirrors(site: Site, aim: Aim, h: Host, order: seq<string>, vms: set<string>, t: seq<NetOp>)
    requires Fit(h) && Agrees(site, Replay(map[], t), h) && Covers(site, vms, h.taps, order)
    ensures Agrees(site, Replay(map[], t + PassOps(site, aim, h, order)), PassHost(aim, h, order))
  {
    ReplayAdds(map[], t, PassOps(site, aim, h, order));
    PassAgrees(site, aim, h, order, Replay(map[], t), vms);
  }

  lemma {:induction false} EachMirrors(site: Site, g: Graph, h: Host, order: seq<string>, t: seq<NetOp>)
    ensures forall vms :: Agrees(site, Replay(map[], t), h) && Fit(h) && Covers(site, vms, h.taps, order) ==>
              Agrees(site, Replay(map[], t + PassOps(site, AimOf(g), h, order)), PassHost(AimOf(g), h, order))
  {
    forall vms | Agrees(site, Replay(map[], t), h) && Fit(h) && Covers(site, vms, h.taps, order)
      ensures Agrees(site, Replay(map[], t + PassOps(site, AimOf(g), h, order)), PassHost(AimOf(g), h, order)) {
      PassMirrors(site, AimOf(g), h, order, vms, t);
    }
  }

  lemma {:induction false} RefreshMirrors(site: Site, aim: Aim, h: Host, t: seq<NetOp>)
    requires Fit(h) && Agrees(site, Replay(map[], t), h)
    ensures Agrees(site, Replay(map[], t + StoppingPassOps(site, aim, h, Sorted(h.taps))), PassHost(aim, h, Sorted(h.taps)))
  {
    ReplayAdds(map[], t, StoppingPassOps(site, aim, h, Sorted(h.taps)));
    StoppingPassAgrees(site, aim, h, Sorted(h.taps), Replay(map[], t));
  }

  lemma {:induction false} NetemMirrors(site: Site, g: Graph, h: Host, t: seq<NetOp>)
    requires Agrees(site, Replay(map[], t), h)
    ensures Agrees(site, Replay(map[], t + RefreshNetemOps(site.name, g, h)), RefreshedNetem(g, h))
  {
    ReplayAdds(map[], t, RefreshNetemOps(site.name, g, h));
    RefreshNetemAgrees(site, g, h, Replay(map[], t));
  }

  lemma {:induction false} BandwidthMirrors(site: Site, g: Graph, h: Host, t: seq<NetOp>)
    requires Agrees(site, Replay(map[], t), h)
    ensures Agrees(site, Replay(map[], t + RefreshBandwidthOps(site.name, g, h)), RefreshedBandwidth(g, h))
  {
    ReplayAdds(map[], t, RefreshBandwidthOps(site.name, g, h));
    RefreshBandwidthAgrees(site, g, h, Replay(map[], t));
  }

  lemma {:induction false} TapGone(site: Site, h: Host, vm: string, t: seq<NetOp>)
    requires Backed(h)
    ensures vm in h.taps && Agrees(site, Replay(map[], t), h) ==>
              Agrees(site, Replay(map[], t + [NetOp(Ip, ["link", "del", "dev", site.tap(vm)])]), DetachedHost(h, vm))
    ensures vm !in h.taps ==> DetachedHost(h, vm) == h
  {
    if vm in h.taps && Agrees(site, Replay(map[], t), h) {
      ReplayAdds(map[], t, [NetOp(Ip, ["link", "del", "dev", site.tap(vm)])]);
      DetachAgrees(site, h, vm, Replay(map[], t));
    }
    if vm !in h.taps { assert h.taps - {vm} == h.taps && h.chain - {vm} == h.chain; }
  }

  lemma {:induction false} CutIgnoresImpairments(g: Graph, next: Graph, vms: set<string>, tap: Naming)
    requires next.partitions == g.partitions && next.oneWay == g.oneWay
    requires next.isolated == g.isolated && next.fully == g.fully
    ensures Cut(next, vms, tap) == Cut(g, vms, tap)
  {}

  /** One more VM in a pass from `h`. */
  lemma {:induction false} PassTurn(site: Site, g: Graph, h: Host, t: seq<NetOp>, order: seq<string>, i: nat)
    requires i < |order|
    ensures var vm, aim := order[i], AimOf(g);
            var now, shape := PassHost(aim, h, order[..i]), Collapsed(g.directional, vm);
            var ops := RealizeOps(site, NetemTarget(g), shape, now, vm);
            && PassHost(aim, h, order[..i + 1]) == RealizedHost(NetemTarget(g), shape, now, vm)
            && (t + PassOps(site, aim, h, order[..i])) + ops == t + PassOps(site, aim, h, order[..i + 1])
            && (Refused(now, NetemTarget(g)) <==> Refused(h, NetemTarget(g)))
  {
    var vm, aim := order[i], AimOf(g);
    assert aim.shape(vm) == Collapsed(g.directional, vm);
    PassStep(site, aim, h, order, i);
    Regrouped(t, PassOps(site, aim, h, order[..i]),
              RealizeOps(site, aim.netem, aim.shape(vm), PassHost(aim, h, order[..i]), vm));
    if Refused(h, aim.netem) { RefusedPass(aim, h, order[..i]); } else { AcceptedPass(aim, h, order[..i]); }
  }

  /** A pass that ends at the first refusal leaves what the whole one would. */
  lemma {:induction false} StoppingPass(site: Site, g: Graph, h: Host, order: seq<string>, n: nat)
    requires n == if order != [] && Refused(h, NetemTarget(g)) then 1 else |order|
    ensures PassHost(AimOf(g), h, order[..n]) == PassHost(AimOf(g), h, order)
    ensures PassOps(site, AimOf(g), h, order[..n]) == StoppingPassOps(site, AimOf(g), h, order)
  {
    if order != [] && Refused(h, NetemTarget(g)) {
      FirstRefused(site, AimOf(g), h, order);
    } else {
      assert order[..n] == order;
    }
  }

  lemma {:induction false} FirstRefused(site: Site, aim: Aim, h: Host, order: seq<string>)
    requires order != [] && Refused(h, aim.netem)
    ensures PassHost(aim, h, order[..1]) == PassHost(aim, h, order)
    ensures PassOps(site, aim, h, order[..1]) == RefusedOps(site, aim.netem, h)
  {
    RefusedPass(aim, h, order);
    RefusedPass(aim, h, order[..1]);
    PassStep(site, aim, h, order, 0);
    assert order[..0] == [] && [] + RefusedOps(site, aim.netem, h) == RefusedOps(site, aim.netem, h);
  }

  lemma {:induction false} StoppingPassKeepsRules(table: string, t: seq<NetOp>, site: Site, aim: Aim, h: Host, order: seq<string>)
    ensures TableIn(table, t + StoppingPassOps(site, aim, h, order)) == TableIn(table, t)
  {
    if order != [] && Refused(h, aim.netem) {
      RealizeKeepsRules(table, t, site, aim.netem, aim.shape(order[0]), h, order[0]);
    } else {
      PassKeepsRules(table, t, site, aim, h, order);
    }
  }

  lemma {:induction false} PassKeepsRules(table: string, t: seq<NetOp>, site: Site, aim: Aim, h: Host, order: seq<string>)
    ensures TableIn(table, t + PassOps(site, aim, h, order)) == TableIn(table, t)
  {
    if order == [] {
      assert t + [] == t;
    } else {
      var init, last := order[..|order| - 1], order[|order| - 1];
      PassKeepsRules(table, t, site, aim, h, init);
      var before, now := PassOps(site, aim, h, init), PassHost(aim, h, init);
      RealizeKeepsRules(table, t + before, site, aim.netem, aim.shape(last), now, last);
      Regrouped(t, before, RealizeOps(site, aim.netem, aim.shape(last), now, last));
    }
  }

  lemma {:induction false} NetemRefreshKeepsSane(g: Graph, next: Graph, h: Host)
    requires Sane(g, h)
    ensures Sane(next, RefreshedNetem(next, h))
  {}

  lemma {:induction false} BandwidthRefreshKeepsSane(g: Graph, h: Host)
    requires Sane(g, h)
    ensures Sane(g, RefreshedBandwidth(g, h))
  {}

  lemma {:induction false} PassKeepsTaps(aim: Aim, h: Host)
    requires h.realized
    ensures var now := PassHost(aim, h, Sorted(h.taps)); now.realized && now.taps == h.taps
  {
    if Refused(h, aim.netem) {
      RefusedPass(aim, h, Sorted(h.taps));
    } else {
      PassTaps(aim, h, Sorted(h.taps));
    }
  }

  ghost predicate FitsShapes(g: Graph, h: Host)
  {
    forall vm :: vm in h.taps ==> Shape(h, vm) == Collapsed(g.directional, vm)
  }

  ghost predicate FitsChains(g: Graph, h: Host)
  {
    forall vm :: vm in h.taps ==> Chain(h, vm) == Collapsed(g.directional, vm)
  }

  /** The VM's interface stands on a leftover record, and the graph calls for what it says. */
  ghost predicate Stands(g: Graph, h: Host, vm: string)
  {
    Leftover(h, vm) && Shape(h, vm) == Collapsed(g.directional, vm)
  }

  lemma {:induction false} RecordIsTrue(g: Graph, h: Host)
    requires FitsShapes(g, h)
    ensures FitsChains(g, h) <==> Truthful(h)
  {
    if FitsChains(g, h) {
      forall vm ensures !Leftover(h, vm) {}
    }
    if Truthful(h) {
      forall vm | vm in h.taps ensures Chain(h, vm) == Collapsed(g.directional, vm) {
        assert !Leftover(h, vm);
      }
    }
  }

  /** A refresh cures an interface of its leftover record exactly when the graph calls for something else. */
  lemma {:induction false} RefreshCures(g: Graph, h: Host, vm: string)
    requires Backed(h) && !Refused(h, NetemTarget(g)) && vm in h.taps
    ensures var now := PassHost(AimOf(g), h, Sorted(h.taps));
            Shape(now, vm) == Collapsed(g.directional, vm) && (Chain(now, vm) != Shape(now, vm) <==> Stands(g, h, vm))
  {
    assert AimOf(g).shape(vm) == Collapsed(g.directional, vm);
    PassShapes(AimOf(g), h, Sorted(h.taps), vm);
    PassChains(AimOf(g), h, Sorted(h.taps), vm);
  }

  lemma {:induction false} RefreshedChains(g: Graph, h: Host)
    requires Backed(h) && !Refused(h, NetemTarget(g))
    ensures var now := PassHost(AimOf(g), h, Sorted(h.taps));
            && now.taps == h.taps && FitsShapes(g, now)
            && (FitsChains(g, now) <==> forall vm :: !Stands(g, h, vm))
            && (Truthful(h) ==> Truthful(now))
  {
    var now := PassHost(AimOf(g), h, Sorted(h.taps));
    PassTaps(AimOf(g), h, Sorted(h.taps));
    assert now.taps == h.taps;
    forall vm | vm in h.taps
      ensures Shape(now, vm) == Collapsed(g.directional, vm) && (Leftover(now, vm) <==> Stands(g, h, vm)) {
      RefreshCures(g, h, vm);
    }
    RecordIsTrue(g, now);
    assert Truthful(now) <==> forall vm :: !Stands(g, h, vm);
  }

  /** What a directional refresh does to a live bridge. */
  lemma {:induction false} DirectionalRefresh(g: Graph, h: Host)
    requires Sane(g, h) && Backed(h)
    ensures var now := PassHost(AimOf(g), h, Sorted(h.taps));
            && Sane(g, now) && Backed(now)
            && (if Refused(h, NetemTarget(g)) then now == h
                else now.taps == h.taps && FitsShapes(g, now) && !Refused(now, NetemTarget(g))
                     && (FitsChains(g, now) <==> forall vm :: !Stands(g, h, vm)))
            && (Truthful(h) ==> Truthful(now))
            && forall vm :: vm !in h.taps ==> Shape(now, vm) == Shape(h, vm)
  {
    PassKeepsSane(g, h, Sorted(h.taps));
    PassBacked(AimOf(g), h, Sorted(h.taps));
    if Refused(h, NetemTarget(g)) {
      RefusedPass(AimOf(g), h, Sorted(h.taps));
    } else {
      AcceptedPass(AimOf(g), h, Sorted(h.taps));
      RefreshedChains(g, h);
      forall vm | vm !in h.taps ensures Shape(PassHost(AimOf(g), h, Sorted(h.taps)), vm) == Shape(h, vm) {
        PassShapes(AimOf(g), h, Sorted(h.taps), vm);
      }
    }
  }

  /** Nothing is up on a bridge that is down. */
  lemma {:induction false} DownRefresh(g: Graph, h: Host)
    requires Backed(h) && !h.realized
    ensures FitsShapes(g, h) && FitsChains(g, h) && forall vm :: !Stands(g, h, vm)
  {}

  /** With nothing left in the graph, no record and so no chain is left either. */
  lemma {:induction false} NothingAsked(g: Graph, h: Host)
    requires Backed(h) && FitsShapes(g, h) && g.directional == map[]
    ensures FitsChains(g, h)
  {
    forall vm | vm in h.taps ensures Chain(h, vm) == Collapsed(g.directional, vm) {
      assert Worst(map[], vm) == UNIMPAIRED;
      TapRootIsFree(h, vm);
    }
  }

  lemma {:induction false} ResetLeaves(was: Graph, g: Graph, h: Host)
    requires Sane(was, h) && Backed(h)
    requires g.latency == 0 && g.drop == 0 && g.bandwidth == 0 && g.directional == map[]
    ensures var clear := RefreshedBandwidth(g, RefreshedNetem(g, h));
            var now := if h.realized then PassHost(AimOf(g), clear, Sorted(h.taps)) else h;
            && clear.taps == h.taps && clear.realized == h.realized
            && Sane(g, now) && Backed(now) && FitsShapes(g, now) && FitsChains(g, now) && now.taps == h.taps
            && (h.realized ==> now.netem == None && now.root == Bare)
  {
    NetemRefreshKeepsSane(was, g, h);
    var clear := RefreshedBandwidth(g, RefreshedNetem(g, h));
    BandwidthRefreshKeepsSane(g, RefreshedNetem(g, h));
    if h.realized {
      DirectionalRefresh(g, clear);
      PassKeepsRoot(AimOf(g), clear, Sorted(h.taps));
      NothingAsked(g, PassHost(AimOf(g), clear, Sorted(h.taps)));
    } else {
      DownRefresh(g, h);
    }
  }

  predicate NoNft(ops: seq<NetOp>)
  {
    forall i :: 0 <= i < |ops| ==> ops[i].program != Nft
  }

  lemma {:induction false} NoNftTogether(a: seq<NetOp>, b: seq<NetOp>)
    requires NoNft(a) && NoNft(b)
    ensures NoNft(a + b)
  {}

  lemma {:induction false} RealizeHasNoNft(site: Site, netem: Option<(nat, nat)>, shape: Option<Impairment>, h: Host, vm: string)
    ensures NoNft(RealizeOps(site, netem, shape, h, vm))
  {
    var up := if h.realized then [] else BridgeUp(site.name);
    var change := NetemChange(site.name, h.netem, netem);
    NetemChangeIsTc(site.name, h.netem, netem);
    NoNftTogether(up, change);
    if !Refused(h, netem) {
      var tap := if vm in h.taps then [] else TapUp(site.tap(vm), site.name, site.uid);
      ShapeChangeIsTc(site.tap(vm), Shape(h, vm), shape);
      NoNftTogether(up + change, tap);
      NoNftTogether(MakeOps(site, netem, h, vm), ShapeChange(site.tap(vm), Shape(h, vm), shape));
    }
  }

  lemma {:induction false} RealizeKeepsRules(table: string, trace: seq<NetOp>, site: Site,
                                             netem: Option<(nat, nat)>, shape: Option<Impairment>, h: Host, vm: string)
    ensures TableIn(table, trace + RealizeOps(site, netem, shape, h, vm)) == TableIn(table, trace)
  {
    RealizeHasNoNft(site, netem, shape, h, vm);
    OtherProgramsKeepRules(table, trace, RealizeOps(site, netem, shape, h, vm));
  }

  lemma {:induction false} NetemKeepsRules(table: string, trace: seq<NetOp>, bridge: string, g: Graph, h: Host)
    ensures TableIn(table, trace + RefreshNetemOps(bridge, g, h)) == TableIn(table, trace)
  {
    OtherProgramsKeepRules(table, trace, RefreshNetemOps(bridge, g, h));
  }

  lemma {:induction false} BandwidthKeepsRules(table: string, trace: seq<NetOp>, bridge: string, g: Graph, h: Host)
    ensures TableIn(table, trace + RefreshBandwidthOps(bridge, g, h)) == TableIn(table, trace)
  {
    OtherProgramsKeepRules(table, trace, RefreshBandwidthOps(bridge, g, h));
  }

  // --- a record that outlives its interface ---------------------------------------------

  lemma {:induction false} OnlyEntryIsWorst(g: Graph, vm: string, to: string, ms: nat)
    requires ms > 0
    ensures var d := Recorded(Detached(g, vm).directional, (vm, to), UNIMPAIRED.(latency := ms));
            (vm, to) !in Detached(g, vm).directional && Collapsed(d, vm) == Some(Impairment(ms, 0, 0))
  {
    var d := Recorded(Detached(g, vm).directional, (vm, to), UNIMPAIRED.(latency := ms));
    assert (vm, to) in d && d[(vm, to)] == Impairment(ms, 0, 0);
    assert forall k :: k in d && k.0 == vm ==> k == (vm, to);
    assert IsWorst(d, vm, Impairment(ms, 0, 0));
    WorstIsUnique(d, vm, Worst(d, vm), Impairment(ms, 0, 0));
  }

  lemma {:induction false} KnownShapeEndsWithTap(site: Site, netem: Option<(nat, nat)>, shape: Option<Impairment>, h: Host, vm: string)
    requires vm !in h.taps && !Refused(h, netem) && Shape(h, vm) == shape
    ensures EndsWith(RealizeOps(site, netem, shape, h, vm), TapUp(site.tap(vm), site.name, site.uid))
  {
    var front := (if h.realized then [] else BridgeUp(site.name)) + NetemChange(site.name, h.netem, netem);
    var tap := TapUp(site.tap(vm), site.name, site.uid);
    assert RealizeOps(site, netem, shape, h, vm) == front + tap;
    EndsWithMore(front, tap, tap);
  }

  /**
   * A VM is detached, attached again and impaired as before. Its new interface comes up and
   * nothing is issued after that: it is left unshaped, while the record says it is shaped.
   */
  method ReattachUnshaped(b: Bridge, vm: string, to: string, ms: nat)
    requires b.Valid() && b.host.realized && !b.Stuck() && vm in b.host.taps
    requires ms > 0 && Shape(b.host, vm) == Some(Impairment(ms, 0, 0))
    modifies b
    ensures b.Valid() && vm in b.graph.attached && vm in b.host.taps
    ensures Collapsed(b.graph.directional, vm) == Some(Impairment(ms, 0, 0)) == Shape(b.host, vm)
    ensures Chain(b.host, vm) == None && Leftover(b.host, vm) && !b.Shaped()
    ensures EndsWith(b.trace, TapUp(b.site.tap(vm), b.site.name, b.site.uid))
  {
    Reattach(b, vm, to, ms);
    RefusedExactly(b.graph, b.host);
    ghost var shape := Collapsed(b.graph.directional, vm);
    KnownShapeEndsWithTap(b.site, NetemTarget(b.graph), shape, b.host, vm);
    EndsWithMore(b.trace, RealizeOps(b.site, NetemTarget(b.graph), shape, b.host, vm),
                 TapUp(b.site.tap(vm), b.site.name, b.site.uid));
    RealizeKeepsSane(b.graph, shape, b.host, vm);
    RealizedChain(NetemTarget(b.graph), shape, b.host, vm);
    TapRootIsFree(b.host, vm);
    var _ := b.RealizeForVm(vm);
  }

  method Reattach(b: Bridge, vm: string, to: string, ms: nat)
    requires b.Valid() && b.host.realized && !b.Stuck() && vm in b.host.taps
    requires ms > 0 && Shape(b.host, vm) == Some(Impairment(ms, 0, 0))
    modifies b
    ensures b.Valid() && b.host.realized && !b.Stuck() && vm in b.graph.attached && vm !in b.host.taps
    ensures Collapsed(b.graph.directional, vm) == Some(Impairment(ms, 0, 0)) == Shape(b.host, vm)
  {
    OnlyEntryIsWorst(b.graph, vm, to, ms);
    b.Detach(vm);
    b.Attach(vm);
    b.AddDirectionalLatency(vm, to, ms);
  }

  // --- the plan ------------------------------------------------------------------------

  method PlanTaps(site: Site, members: seq<string>) returns (ops: seq<NetOp>)
    ensures ops == TapPlan(site, members)
  {
    ops := [];
    for i := 0 to |members|
      invariant ops == TapPlan(site, members[..i])
    {
      assert members[..i + 1][..i] == members[..i];
      var tap := site.tap(members[i]);
      ops := ops + [NetOp(Ip, ["tuntap", "add", "dev", tap, "mode", "tap"])];
      ops := ops + [NetOp(Ip, ["link", "set", "dev", tap, "master", site.name]), NetOp(Ip, ["link", "set", "dev", tap, "up"])];
    }
    assert members[..|members|] == members;
  }

  method PlanShape(tap: string, v: Impairment) returns (ops: seq<NetOp>)
    ensures ops == Install(tap, v)
  {
    if v.bandwidth > 0 {
      var rate := Digits(v.bandwidth) + "bit";
      var burst := Max(v.bandwidth / 800, 1500);
      ops := [NetOp(Tc, ["qdisc", "add", "dev", tap, "root", "handle", "1:", "htb", "default", "10"]),
              NetOp(Tc, ["class", "add", "dev", tap, "parent", "1:", "classid", "1:10", "htb", "rate", rate,
                         "ceil", rate, "burst", Digits(burst)])];
      if v.latency > 0 || v.drop > 0 {
        var netem := ["qdisc", "add", "dev", tap, "parent", "1:10", "handle", "10:", "netem"];
        netem := WithClauses(netem, v.latency, v.drop);
        ops := ops + [NetOp(Tc, netem)];
      }
    } else {
      var netem := ["qdisc", "add", "dev", tap, "root", "netem"];
      netem := WithClauses(netem, v.latency, v.drop);
      ops := [NetOp(Tc, netem)];
    }
  }

  method PlanShapes(site: Site, g: Graph, members: seq<string>) returns (ops: seq<NetOp>)
    ensures ops == ShapePlan(site, AimOf(g), members)
  {
    ops := [];
    for i := 0 to |members|
      invariant ops == ShapePlan(site, AimOf(g), members[..i])
    {
      assert members[..i + 1][..i] == members[..i];
      var shape := CollapsedFor(g.directional, members[i]);
      assert shape == AimOf(g).shape(members[i]);
      if shape.Some? {
        var more := PlanShape(site.tap(members[i]), shape.value);
        ops := ops + more;
      }
    }
    assert members[..|members|] == members;
  }

  method PlanFor(b: Bridge) returns (ops: seq<NetOp>)
    ensures ops == Plan(b.site, b.graph)
  {
    var site, bridge, g := b.site, b.site.name, b.graph;
    var members := InOrder(g.attached);
    ops := [NetOp(Ip, ["link", "add", bridge, "type", "bridge"]), NetOp(Ip, ["link", "set", "dev", bridge, "up"])];
    var taps := PlanTaps(site, members);
    ops := ops + taps;
    if g.latency > 0 || g.drop > 0 {
      var netem := ["qdisc", "add", "dev", bridge, "root", "netem"];
      netem := WithClauses(netem, g.latency, g.drop);
      ops := ops + [NetOp(Tc, netem)];
    }
    var shapes := PlanShapes(site, g, members);
    ops := ops + shapes;
  }
}
