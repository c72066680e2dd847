/**
 * Saving a bridge and putting it back (the bridge parts of `lab_snapshot` and `lab_restore`
 * in provium-host/src/lab.rs).
 */
module BridgeSnapshot {
  import opened BridgeGraph
  import opened BridgeHost
  import opened BridgeKernel
  import opened BridgeRules
  import opened Bridges
  import opened Options
  import opened StringOrder

  datatype Directional = Directional(pair: Pair, value: Impairment)

  datatype Snapshot = Snapshot(
    members: seq<string>,
    latency: nat,
    drop: nat,
    bandwidth: nat,
    uplink: bool,
    routes: seq<string>,
    isolated: seq<string>,
    partitions: seq<Pair>,
    oneWay: seq<Pair>,
    directional: seq<Directional>,
    fully: bool)

  // --- saving --------------------------------------------------------------------------

  /** The pairs of members, earlier one first, that a graph cuts one by one. */
  ghost predicate ListsCutPairs(g: Graph, members: seq<string>, pairs: seq<Pair>)
  {
    forall p :: p in pairs <==>
      !g.fully && CanonicalPair(p.0, p.1) in g.partitions
      && exists i, j :: 0 <= i < j < |members| && p == (members[i], members[j])
  }

  ghost predicate ListsDirectional(d: map<Pair, Impairment>, entries: seq<Directional>)
  {
    && (forall i :: 0 <= i < |entries| ==> entries[i].pair in d && d[entries[i].pair] == entries[i].value && entries[i].value != UNIMPAIRED)
    && (forall k :: k in d && d[k] != UNIMPAIRED ==> Directional(k, d[k]) in entries)
    && (forall i, j :: 0 <= i < j < |entries| ==> entries[i].pair != entries[j].pair)
  }

  ghost predicate SnapshotOf(g: Graph, s: Snapshot)
  {
    && s.members == Sorted(g.attached) && s.routes == Sorted(g.routes)
    && s.latency == g.latency && s.drop == g.drop && s.bandwidth == g.bandwidth
    && s.uplink == g.uplink && s.fully == g.fully
    && (forall vm :: vm in s.isolated <==> vm in g.attached && vm in g.isolated)
    && ListsCutPairs(g, s.members, s.partitions)
    && Elements(s.oneWay) == g.oneWay
    && ListsDirectional(g.directional, s.directional)
  }

  method ListCutPairs(g: Graph, members: seq<string>) returns (pairs: seq<Pair>)
    ensures ListsCutPairs(g, members, pairs)
  {
    pairs := [];
    if g.fully { return; }
    for i := 0 to |members|
      invariant forall p :: p in pairs <==>
        CanonicalPair(p.0, p.1) in g.partitions
        && exists m, n :: 0 <= m < n < |members| && m < i && p == (members[m], members[n])
    {
      var row := CutRow(g, members, i);
      pairs := pairs + row;
    }
  }

  method CutRow(g: Graph, members: seq<string>, i: nat) returns (row: seq<Pair>)
    requires i < |members| && !g.fully
    ensures forall p :: p in row <==>
      CanonicalPair(p.0, p.1) in g.partitions && exists n :: i < n < |members| && p == (members[i], members[n])
  {
    row := [];
    for j := i + 1 to |members|
      invariant forall p :: p in row <==>
        CanonicalPair(p.0, p.1) in g.partitions && exists n :: i < n < j && p == (members[i], members[n])
    {
      if CanonicalPair(members[i], members[j]) in g.partitions {
        row := row + [(members[i], members[j])];
      }
    }
  }

  method ListIsolated(g: Graph, members: seq<string>) returns (isolated: seq<string>)
    ensures forall vm :: vm in isolated <==> vm in members && vm in g.isolated
  {
    isolated := [];
    for i := 0 to |members|
      invariant forall vm :: vm in isolated <==> vm in members[..i] && vm in g.isolated
    {
      assert members[..i + 1] == members[..i] + [members[i]];
      if members[i] in g.isolated { isolated := isolated + [members[i]]; }
    }
    assert members[..|members|] == members;
  }

  method ListPairs(pairs: set<Pair>) returns (list: seq<Pair>)
    ensures Elements(list) == pairs
  {
    list := [];
    var todo := pairs;
    while todo != {}
      invariant todo <= pairs && Elements(list) == pairs - todo
      decreases todo
    {
      var p :| p in todo;
      assert Elements(list + [p]) == Elements(list) + {p};
      list := list + [p];
      todo := todo - {p};
    }
  }

  method ListDirectional(d: map<Pair, Impairment>) returns (entries: seq<Directional>)
    ensures ListsDirectional(d, entries)
  {
    entries := [];
    var todo := d.Keys;
    while todo != {}
      invariant todo <= d.Keys
      invariant forall i :: 0 <= i < |entries| ==>
        entries[i].pair in d && entries[i].pair !in todo && d[entries[i].pair] == entries[i].value && entries[i].value != UNIMPAIRED
      invariant forall k :: k in d && k !in todo && d[k] != UNIMPAIRED ==> Directional(k, d[k]) in entries
      invariant forall i, j :: 0 <= i < j < |entries| ==> entries[i].pair != entries[j].pair
      decreases todo
    {
      var k :| k in todo;
      if d[k] != UNIMPAIRED { entries := entries + [Directional(k, d[k])]; }
      todo := todo - {k};
    }
  }

  method TakeSnapshot(b: Bridge) returns (s: Snapshot)
    ensures SnapshotOf(b.graph, s)
  {
    var g := b.graph;
    var members := InOrder(g.attached);
    var routes := InOrder(g.routes);
    var partitions := ListCutPairs(g, members);
    var isolated := ListIsolated(g, members);
    var oneWay := ListPairs(g.oneWay);
    var directional := ListDirectional(g.directional);
    s := Snapshot(members, g.latency, g.drop, g.bandwidth, g.uplink, routes, isolated, partitions, oneWay, directional, g.fully);
  }

  // --- putting back --------------------------------------------------------------------

  function OneAxis(d: map<Pair, Impairment>, k: Pair, set_: bool, v: Impairment): map<Pair, Impairment>
  {
    if set_ then Recorded(d, k, v) else d
  }

  function Percent(n: nat): nat
  {
    if n < 100 then n else 100
  }

  /** The three calls a saved direction is put back with; each only when its axis is set. */
  function Imposed(d: map<Pair, Impairment>, e: Directional): map<Pair, Impairment>
  {
    var d1 := OneAxis(d, e.pair, e.value.latency > 0, Entry(d, e.pair).(latency := e.value.latency));
    var d2 := OneAxis(d1, e.pair, e.value.drop > 0, Entry(d1, e.pair).(drop := Percent(e.value.drop)));
    OneAxis(d2, e.pair, e.value.bandwidth > 0, Entry(d2, e.pair).(bandwidth := e.value.bandwidth))
  }

  function ImposedAll(d: map<Pair, Impairment>, entries: seq<Directional>): map<Pair, Impairment>
  {
    if entries == [] then d else Imposed(ImposedAll(d, entries[..|entries| - 1]), entries[|entries| - 1])
  }

  ghost function Canonicals(pairs: seq<Pair>): set<Pair>
  {
    set p | p in pairs :: CanonicalPair(p.0, p.1)
  }

  /** What putting `s` back makes of the graph `g`. */
  ghost function Restored(g: Graph, s: Snapshot): Graph
  {
    Graph(
      g.attached + Elements(s.members),
      g.partitions + Canonicals(s.partitions),
      g.oneWay + Elements(s.oneWay),
      g.isolated + Elements(s.isolated),
      g.fully || s.fully,
      if s.latency > 0 then s.latency else g.latency,
      if s.drop > 0 then Percent(s.drop) else g.drop,
      if s.bandwidth > 0 then s.bandwidth else g.bandwidth,
      ImposedAll(g.directional, s.directional),
      g.routes + Elements(s.routes),
      g.uplink || s.uplink)
  }

  method AttachAll(b: Bridge, members: seq<string>)
    requires b.Valid()
    modifies b`graph
    ensures b.Valid() && b.graph == old(b.graph).(attached := old(b.graph).attached + Elements(members))
  {
    for i := 0 to |members|
      invariant b.Valid() && b.graph == old(b.graph).(attached := old(b.graph).attached + Elements(members[..i]))
    {
      ElementsGrow(members, i);
      b.Attach(members[i]);
    }
    assert members[..|members|] == members;
  }

  method RouteAll(b: Bridge, routes: seq<string>)
    requires b.Valid()
    modifies b`graph
    ensures b.Valid() && (old(b.Enforced()) ==> b.Enforced()) && (old(b.Mirrored()) ==> b.Mirrored())
    ensures b.graph == old(b.graph).(routes := old(b.graph).routes + Elements(routes))
  {
    for i := 0 to |routes|
      invariant b.Valid() && (old(b.Enforced()) ==> b.Enforced()) && (old(b.Mirrored()) ==> b.Mirrored())
      invariant b.graph == old(b.graph).(routes := old(b.graph).routes + Elements(routes[..i]))
    {
      ElementsGrow(routes, i);
      b.Route(routes[i]);
    }
    assert routes[..|routes|] == routes;
  }

  method IsolateAll(b: Bridge, vms: seq<string>)
    requires b.Valid()
    modifies b`graph, b`trace
    ensures b.Valid() && (old(b.Enforced()) ==> b.Enforced()) && (old(b.Mirrored()) ==> b.Mirrored())
    ensures b.graph == old(b.graph).(isolated := old(b.graph).isolated + Elements(vms))
  {
    for i := 0 to |vms|
      invariant b.Valid() && (old(b.Enforced()) ==> b.Enforced()) && (old(b.Mirrored()) ==> b.Mirrored())
      invariant b.graph == old(b.graph).(isolated := old(b.graph).isolated + Elements(vms[..i]))
    {
      ElementsGrow(vms, i);
      b.Isolate(vms[i]);
    }
    assert vms[..|vms|] == vms;
  }

  lemma {:induction false} CanonicalsGrow(pairs: seq<Pair>, i: nat)
    requires i < |pairs|
    ensures Canonicals(pairs[..i + 1]) == Canonicals(pairs[..i]) + {CanonicalPair(pairs[i].0, pairs[i].1)}
  {
    assert pairs[..i + 1] == pairs[..i] + [pairs[i]];
  }

  method PartitionAll(b: Bridge, pairs: seq<Pair>)
    requires b.Valid()
    modifies b`graph, b`trace
    ensures b.Valid() && (old(b.Enforced()) ==> b.Enforced()) && (old(b.Mirrored()) ==> b.Mirrored())
    ensures b.graph == old(b.graph).(partitions := old(b.graph).partitions + Canonicals(pairs))
  {
    for i := 0 to |pairs|
      invariant b.Valid() && (old(b.Enforced()) ==> b.Enforced()) && (old(b.Mirrored()) ==> b.Mirrored())
      invariant b.graph == old(b.graph).(partitions := old(b.graph).partitions + Canonicals(pairs[..i]))
    {
      CanonicalsGrow(pairs, i);
      b.Partition(pairs[i].0, pairs[i].1);
    }
    assert pairs[..|pairs|] == pairs;
  }

  method OneWayAll(b: Bridge, pairs: seq<Pair>)
    requires b.Valid()
    modifies b`graph, b`trace
    ensures b.Valid() && (old(b.Enforced()) ==> b.Enforced()) && (old(b.Mirrored()) ==> b.Mirrored())
    ensures b.graph == old(b.graph).(oneWay := old(b.graph).oneWay + Elements(pairs))
  {
    for i := 0 to |pairs|
      invariant b.Valid() && (old(b.Enforced()) ==> b.Enforced()) && (old(b.Mirrored()) ==> b.Mirrored())
      invariant b.graph == old(b.graph).(oneWay := old(b.graph).oneWay + Elements(pairs[..i]))
    {
      ElementsGrow(pairs, i);
      b.PartitionDirectional(pairs[i].0, pairs[i].1);
    }
    assert pairs[..|pairs|] == pairs;
  }

  method ImpairOne(b: Bridge, e: Directional)
    requires b.Valid()
    modifies b
    ensures b.Valid() && (old(b.Enforced()) ==> b.Enforced()) && (old(b.Mirrored()) ==> b.Mirrored())
    ensures b.host.taps == old(b.host).taps && b.host.realized == old(b.host).realized && b.Stuck() == old(b.Stuck())
    ensures if b.Stuck() then b.host == old(b.host) else old(b.OnRecord()) ==> b.OnRecord()
    ensures old(Truthful(b.host)) ==> Truthful(b.host)
    ensures b.graph == old(b.graph).(directional := Imposed(old(b.graph).directional, e))
  {
    var v := e.value;
    if v.latency > 0 { b.AddDirectionalLatency(e.pair.0, e.pair.1, v.latency); }
    if v.drop > 0 { b.DirectionalDropRate(e.pair.0, e.pair.1, v.drop); }
    if v.bandwidth > 0 { b.SetDirectionalBandwidth(e.pair.0, e.pair.1, v.bandwidth); }
  }

  method ImpairAll(b: Bridge, entries: seq<Directional>)
    requires b.Valid()
    modifies b
    ensures b.Valid() && (old(b.Enforced()) ==> b.Enforced()) && (old(b.Mirrored()) ==> b.Mirrored())
    ensures b.host.taps == old(b.host).taps && b.host.realized == old(b.host).realized && b.Stuck() == old(b.Stuck())
    ensures if b.Stuck() then b.host == old(b.host) else old(b.OnRecord()) ==> b.OnRecord()
    ensures old(Truthful(b.host)) ==> Truthful(b.host)
    ensures b.graph == old(b.graph).(directional := ImposedAll(old(b.graph).directional, entries))
  {
    for i := 0 to |entries|
      invariant b.Valid() && (old(b.Enforced()) ==> b.Enforced()) && (old(b.Mirrored()) ==> b.Mirrored())
      invariant b.host.taps == old(b.host).taps && b.host.realized == old(b.host).realized && b.Stuck() == old(b.Stuck())
      invariant if b.Stuck() then b.host == old(b.host) else old(b.OnRecord()) ==> b.OnRecord()
      invariant old(Truthful(b.host)) ==> Truthful(b.host)
      invariant b.graph == old(b.graph).(directional := ImposedAll(old(b.graph).directional, entries[..i]))
    {
      assert entries[..i + 1][..i] == entries[..i];
      ImpairOne(b, entries[i]);
    }
    assert entries[..|entries|] == entries;
  }

  /** The bridge-wide settings. They change nothing on the host but the root of the bridge's own interface. */
  method ReapplyWhole(b: Bridge, s: Snapshot)
    requires b.Valid()
    modifies b
    ensures b.Valid() && (old(b.Enforced()) ==> b.Enforced()) && (old(b.Mirrored()) ==> b.Mirrored())
    ensures b.host.(root := old(b.host).root, netem := old(b.host).netem) == old(b.host)
    ensures old(b.host).netem == None && NetemTarget(old(b.graph)) == None ==>
              (b.Stuck() <==> b.host.realized && SavesNetem(s))
    ensures (old(b.OnRecord()) ==> b.OnRecord()) && (old(Truthful(b.host)) ==> Truthful(b.host))
    ensures b.graph == old(b.graph).(latency := if s.latency > 0 then s.latency else old(b.graph).latency,
                                     drop := if s.drop > 0 then Percent(s.drop) else old(b.graph).drop,
                                     bandwidth := if s.bandwidth > 0 then s.bandwidth else old(b.graph).bandwidth)
  {
    ReapplyNetem(b, s);
    if s.bandwidth > 0 { b.BandwidthLimit(s.bandwidth); }
    SameInterfaces(old(b.host), b.host);
  }

  lemma {:induction false} SameInterfaces(h: Host, now: Host)
    requires now.taps == h.taps && now.shaped == h.shaped && now.chain == h.chain
    ensures Truthful(h) ==> Truthful(now)
    ensures forall vm :: Shape(now, vm) == Shape(h, vm)
  {
    assert forall vm :: Leftover(now, vm) <==> Leftover(h, vm);
  }

  method ReapplyNetem(b: Bridge, s: Snapshot)
    requires b.Valid()
    modifies b
    ensures b.Valid() && (old(b.Enforced()) ==> b.Enforced()) && (old(b.Mirrored()) ==> b.Mirrored())
    ensures b.host.(root := old(b.host).root, netem := old(b.host).netem) == old(b.host)
    ensures old(b.host).netem == None ==> b.host.netem == None
    ensures b.graph == old(b.graph).(latency := if s.latency > 0 then s.latency else old(b.graph).latency,
                                     drop := if s.drop > 0 then Percent(s.drop) else old(b.graph).drop)
  {
    if s.latency > 0 { b.AddLatency(s.latency); }
    if s.drop > 0 { b.DropRate(s.drop); }
  }

  method ReapplyCuts(b: Bridge, s: Snapshot)
    requires b.Valid()
    modifies b`graph, b`trace
    ensures b.Valid() && (old(b.Enforced()) ==> b.Enforced()) && (old(b.Mirrored()) ==> b.Mirrored())
    ensures b.graph == old(b.graph).(routes := old(b.graph).routes + Elements(s.routes),
                                     isolated := old(b.graph).isolated + Elements(s.isolated),
                                     partitions := old(b.graph).partitions + Canonicals(s.partitions),
                                     oneWay := old(b.graph).oneWay + Elements(s.oneWay))
  {
    RouteAll(b, s.routes);
    IsolateAll(b, s.isolated);
    PartitionAll(b, s.partitions);
    OneWayAll(b, s.oneWay);
  }

  predicate SavesNetem(s: Snapshot)
  {
    s.latency > 0 || s.drop > 0
  }

  /**
   * Everything recorded, in the source's order. Setting latency or drop on a live bridge that
   * had none leaves it stuck, and the impairments after it reach no interface. On any other the
   * record stays in line with the graph, and the interfaces carry what it says exactly when none
   * of them stands on a leftover record; no interface comes to do so.
   */
  method Reapply(b: Bridge, s: Snapshot)
    requires b.Valid()
    modifies b
    ensures b.Valid() && (old(b.Enforced()) ==> b.Enforced()) && (old(b.Mirrored()) ==> b.Mirrored())
    ensures b.graph == Restored(old(b.graph), s).(attached := old(b.graph).attached)
    ensures b.host.taps == old(b.host).taps && b.host.realized == old(b.host).realized
    ensures if b.Stuck() then b.host.shaped == old(b.host).shaped && b.host.chain == old(b.host).chain
            else old(b.OnRecord()) ==> b.OnRecord() && (b.Shaped() <==> Truthful(b.host))
    ensures old(Truthful(b.host)) ==> Truthful(b.host)
    ensures old(b.host).netem == None && NetemTarget(old(b.graph)) == None ==>
              (b.Stuck() <==> b.host.realized && SavesNetem(s))
  {
    ReapplyAll(b, s);
    if b.OnRecord() { b.OnRecordIsShaped(); }
  }

  method ReapplyAll(b: Bridge, s: Snapshot)
    requires b.Valid()
    modifies b
    ensures b.Valid() && (old(b.Enforced()) ==> b.Enforced()) && (old(b.Mirrored()) ==> b.Mirrored())
    ensures b.graph == Restored(old(b.graph), s).(attached := old(b.graph).attached)
    ensures b.host.taps == old(b.host).taps && b.host.realized == old(b.host).realized
    ensures if b.Stuck() then b.host.shaped == old(b.host).shaped && b.host.chain == old(b.host).chain
            else old(b.OnRecord()) ==> b.OnRecord()
    ensures old(Truthful(b.host)) ==> Truthful(b.host)
    ensures old(b.host).netem == None && NetemTarget(old(b.graph)) == None ==>
              (b.Stuck() <==> b.host.realized && SavesNetem(s))
  {
    ReapplyFirst(b, s);
    ImpairAll(b, s.directional);
    ReapplyFlags(b, s);
  }

  /** Everything up to the impairments; the interfaces and what is on record of them stay. */
  method ReapplyFirst(b: Bridge, s: Snapshot)
    requires b.Valid()
    modifies b
    ensures b.Valid() && (old(b.Enforced()) ==> b.Enforced()) && (old(b.Mirrored()) ==> b.Mirrored())
    ensures b.host.(root := old(b.host).root, netem := old(b.host).netem) == old(b.host)
    ensures (old(b.OnRecord()) ==> b.OnRecord()) && (old(Truthful(b.host)) ==> Truthful(b.host))
    ensures old(b.host).netem == None && NetemTarget(old(b.graph)) == None ==>
              (b.Stuck() <==> b.host.realized && SavesNetem(s))
    ensures b.graph == Restored(old(b.graph), s).(attached := old(b.graph).attached, directional := old(b.graph).directional,
                                                  fully := old(b.graph).fully, uplink := old(b.graph).uplink)
  {
    ReapplyWhole(b, s);
    ghost var stuck := b.Stuck();
    ReapplyCuts(b, s);
    assert b.Stuck() == stuck;
  }

  method ReapplyFlags(b: Bridge, s: Snapshot)
    requires b.Valid()
    modifies b`graph, b`trace
    ensures b.Valid() && (old(b.Enforced()) ==> b.Enforced()) && (old(b.Mirrored()) ==> b.Mirrored())
    ensures (old(b.OnRecord()) ==> b.OnRecord()) && b.Stuck() == old(b.Stuck())
    ensures b.graph == old(b.graph).(fully := old(b.graph).fully || s.fully, uplink := old(b.graph).uplink || s.uplink)
  {
    if s.fully { b.SetFully(true); }
    if s.uplink { b.SetUplink(true); }
  }

  ghost predicate Blank(b: Bridge)
    reads b
  {
    b.graph == EMPTY && b.host == DOWN && b.trace == []
  }

  /** Members up on a bridge without a record, with nothing asked of them. */
  lemma {:induction false} PopulatedHost(members: seq<string>, attached: set<string>)
    ensures var g := EMPTY.(attached := attached);
            var h := PassHost(AimOf(g), DOWN, members);
            && Sane(g, h) && Backed(h) && h.netem == None && (h.realized <==> members != []) && h.taps == Elements(members)
            && forall vm :: Chain(h, vm) == Shape(h, vm) == None == Collapsed(g.directional, vm)
  {
    var g := EMPTY.(attached := attached);
    PassKeepsSane(g, DOWN, members);
    forall vm ensures AimOf(g).shape(vm) == None == Collapsed(g.directional, vm) { NobodyImpaired(vm); }
    PopulatedBy(AimOf(g), members);
  }

  lemma {:induction false} PopulatedBy(aim: Aim, members: seq<string>)
    requires aim.netem == None && forall vm :: aim.shape(vm) == None
    ensures var h := PassHost(aim, DOWN, members);
            && Backed(h) && h.netem == None && (h.realized <==> members != []) && h.taps == Elements(members)
            && forall vm :: Chain(h, vm) == Shape(h, vm) == None
  {
    PassBacked(aim, DOWN, members);
    PassLeaves(aim, DOWN, members);
    NoRecordNoChain(PassHost(aim, DOWN, members));
  }

  lemma {:induction false} NobodyImpaired(vm: string)
    ensures Collapsed(map[], vm) == None
  {
    assert Worst(map[], vm) == UNIMPAIRED;
  }

  lemma {:induction false} NoRecordNoChain(h: Host)
    requires Backed(h) && forall vm :: Shape(h, vm) == None
    ensures forall vm :: Chain(h, vm) == None
  {
    forall vm ensures Chain(h, vm) == None { TapRootIsFree(h, vm); }
  }

  method Populate(b: Bridge, members: seq<string>)
    requires b.Valid()
    modifies b
    ensures b.Valid() && b.graph == old(b.graph).(attached := old(b.graph).attached + Elements(members))
    ensures old(Blank(b)) ==>
              && b.Enforced() && b.Shaped() && b.OnRecord() && Truthful(b.host) && b.host.netem == None
              && (b.host.realized <==> members != []) && b.host.taps == Elements(members)
              && forall vm :: Chain(b.host, vm) == None
    ensures old(Blank(b)) && Distinguished(b.site, Elements(members)) ==> b.Mirrored()
  {
    AttachAll(b, members);
    PopulatedHost(members, b.graph.attached);
    BringUp(b, members);
    NothingToCut(EMPTY.(attached := b.graph.attached), b.host.taps, b.site.tap);
  }

  method BringUp(b: Bridge, members: seq<string>)
    requires b.Valid()
    modifies b`host, b`trace
    ensures b.Valid() && b.host == PassHost(AimOf(b.graph), old(b.host), members) && b.Rules() == old(b.Rules())
    ensures old(b.host) == DOWN && old(b.trace) == [] && Distinguished(b.site, Elements(members)) ==> b.Mirrored()
  {
    PassKeepsSane(b.graph, b.host, members);
    PassBacked(AimOf(b.graph), b.host, members);
    DownAgrees(b.site);
    assert b.host == DOWN && Distinguished(b.site, Elements(members)) ==> Covers(b.site, Elements(members), b.host.taps, members);
    b.RealizeEach(members);
  }

  /** Restoring onto a new bridge gives every member's interface the chain the graph calls for. */
  ghost predicate RestoresShapes(s: Snapshot)
  {
    !SavesNetem(s) || forall vm :: vm in s.members ==> Collapsed(ImposedAll(map[], s.directional), vm) == None
  }

  /**
   * Put a snapshot back: members, their interfaces, then everything recorded. On a new bridge
   * the rules then enforce the restored graph, the kernel is what the bridge takes it for, and the
   * chains are what the graph says exactly when the snapshot has no bridge-wide netem or impairs
   * no member.
   */
  method Restore(b: Bridge, s: Snapshot)
    requires b.Valid()
    modifies b
    ensures b.Valid() && b.graph == Restored(old(b.graph), s)
    ensures old(Blank(b)) ==> b.Enforced() && (b.Shaped() <==> RestoresShapes(s))
    ensures old(Blank(b)) && Distinguished(b.site, Elements(s.members)) ==> b.Mirrored()
  {
    Populate(b, s.members);
    ghost var populated := b.host;
    Reapply(b, s);
    if old(Blank(b)) {
      assert b.Stuck() ==> forall vm :: Chain(b.host, vm) == Chain(populated, vm);
      RestoreOutcome(b.graph, b.host, s);
    }
  }

  lemma {:induction false} RestoreOutcome(g: Graph, h: Host, s: Snapshot)
    requires g.directional == ImposedAll(map[], s.directional) && h.taps == Elements(s.members)
    requires if s.members != [] && SavesNetem(s) then forall vm :: Chain(h, vm) == None else FitsChains(g, h)
    ensures FitsChains(g, h) <==> RestoresShapes(s)
  {
    assert forall vm :: vm in h.taps <==> vm in s.members;
  }

  /** One VM, 50 ms on the bridge and 50 ms from the VM: what comes back does not shape the VM. */
  lemma {:induction false} RestoreLosesShape(to: string)
    ensures !RestoresShapes(Snapshot(["vm"], 50, 0, 0, false, [], [], [], [], [Directional(("vm", to), Impairment(50, 0, 0))], false))
  {
    var e := Directional(("vm", to), Impairment(50, 0, 0));
    ImposedOnNothing(map[], e);
    var d := ImposedAll(map[], [e]);
    assert [e][..|[e]| - 1] == [] && d == Imposed(ImposedAll(map[], []), e);
    assert ("vm", to) in d && d[("vm", to)] == Impairment(50, 0, 0);
    assert IsWorst(d, "vm", Worst(d, "vm")) && d[("vm", to)].latency == 50;
    assert Worst(d, "vm") != UNIMPAIRED;
    assert "vm" in ["vm"];
  }

  // --- round trip ----------------------------------------------------------------------

  lemma {:induction false} ImposedOnNothing(d: map<Pair, Impairment>, e: Directional)
    requires e.pair !in d && e.value.drop <= 100 && e.value != UNIMPAIRED
    ensures Imposed(d, e) == d[e.pair := e.value]
  {}

  lemma {:induction false} ImposedAllCollects(entries: seq<Directional>)
    requires forall i :: 0 <= i < |entries| ==> entries[i].value.drop <= 100 && entries[i].value != UNIMPAIRED
    requires forall i, j :: 0 <= i < j < |entries| ==> entries[i].pair != entries[j].pair
    ensures forall i :: 0 <= i < |entries| ==>
              entries[i].pair in ImposedAll(map[], entries) && ImposedAll(map[], entries)[entries[i].pair] == entries[i].value
    ensures forall k :: k in ImposedAll(map[], entries) ==> exists i :: 0 <= i < |entries| && entries[i].pair == k
  {
    if entries != [] {
      var init, last := entries[..|entries| - 1], entries[|entries| - 1];
      ImposedAllCollects(init);
      ImposedOnNothing(ImposedAll(map[], init), last);
    }
  }

  lemma {:induction false} DirectionalRebuilt(g: Graph, entries: seq<Directional>)
    requires Kept(g) && ListsDirectional(g.directional, entries)
    ensures ImposedAll(map[], entries) == g.directional
  {
    ImposedAllCollects(entries);
    var made := ImposedAll(map[], entries);
    forall k | k in g.directional ensures k in made && made[k] == g.directional[k] {
      var i :| 0 <= i < |entries| && entries[i] == Directional(k, g.directional[k]);
    }
    forall k | k in made ensures k in g.directional {}
  }

  lemma {:induction false} PairsRebuilt(g: Graph, s: Snapshot, p: Pair)
    requires SnapshotOf(g, s) && Canonical(g) && p == CanonicalPair(p.0, p.1)
    ensures p in Canonicals(s.partitions) <==>
              !g.fully && p in g.partitions && p.0 in g.attached && p.1 in g.attached && p.0 != p.1
  {
    if p in Canonicals(s.partitions) {
      var q :| q in s.partitions && CanonicalPair(q.0, q.1) == p;
    }
    if !g.fully && p in g.partitions && p.0 in g.attached && p.1 in g.attached && p.0 != p.1 {
      var i :| 0 <= i < |s.members| && s.members[i] == p.0;
      var j :| 0 <= j < |s.members| && s.members[j] == p.1;
      var q := if i < j then p else (p.1, p.0);
      CanonicalPairForgetsOrder(p.0, p.1, q.0, q.1);
      assert q in s.partitions;
    }
  }

  /** Everything else a snapshot keeps comes back as it was. */
  lemma {:induction false} RoundTripFields(g: Graph, s: Snapshot)
    requires Kept(g) && Canonical(g) && SnapshotOf(g, s)
    ensures var r := Restored(EMPTY, s);
            && r.attached == g.attached && r.routes == g.routes && r.uplink == g.uplink && r.fully == g.fully
            && r.latency == g.latency && r.drop == g.drop && r.bandwidth == g.bandwidth
            && r.oneWay == g.oneWay && r.directional == g.directional
            && r.isolated == g.isolated * g.attached
  {
    DirectionalRebuilt(g, s.directional);
    assert Elements(s.members) == g.attached && Elements(s.routes) == g.routes;
    assert Elements(s.isolated) == g.isolated * g.attached;
  }

  /** A restored bridge answers every question about its members as the saved one did. */
  lemma {:induction false} RoundTripAnswers(g: Graph, s: Snapshot, a: string, b: string)
    requires Kept(g) && Canonical(g) && SnapshotOf(g, s)
    requires a != b && a in g.attached && b in g.attached
    ensures IsPartitioned(Restored(EMPTY, s), a, b) <==> IsPartitioned(g, a, b)
    ensures a in Restored(EMPTY, s).isolated <==> a in g.isolated
    ensures Severed(Restored(EMPTY, s), a, b) <==> Severed(g, a, b)
    ensures Collapsed(Restored(EMPTY, s).directional, a) == Collapsed(g.directional, a)
  {
    RoundTripFields(g, s);
    var p := CanonicalPair(a, b);
    CanonicalPairForgetsOrder(a, b, p.0, p.1);
    PairsRebuilt(g, s, p);
  }

  /** Nothing is recorded about VMs that are not members, or under a whole-bridge cut. */
  predicate SelfContained(g: Graph)
  {
    && g.isolated <= g.attached
    && (g.fully ==> g.partitions == {})
    && (forall p :: p in g.partitions ==> p.0 in g.attached && p.1 in g.attached && p.0 != p.1)
  }

  lemma {:induction false} RestoredPairsAreCanonical(s: Snapshot)
    ensures Canonical(Restored(EMPTY, s))
  {
    forall p | p in Canonicals(s.partitions) ensures p == CanonicalPair(p.0, p.1) {
      var q :| q in s.partitions && CanonicalPair(q.0, q.1) == p;
      CanonicalPairForgetsOrder(q.0, q.1, p.0, p.1);
    }
  }

  /** The round trip is the identity exactly on the graphs that are self-contained. */
  lemma {:induction false} RoundTripIsIdentity(g: Graph, s: Snapshot)
    requires Kept(g) && Canonical(g) && SnapshotOf(g, s)
    ensures Restored(EMPTY, s) == g <==> SelfContained(g)
    ensures SelfContained(Restored(EMPTY, s))
  {
    RoundTripFields(g, s);
    RestoredPairsAreCanonical(s);
    var r := Restored(EMPTY, s);
    forall p | p in g.partitions || p in r.partitions
      ensures p in r.partitions <==>
              !g.fully && p in g.partitions && p.0 in g.attached && p.1 in g.attached && p.0 != p.1 {
      PairsRebuilt(g, s, p);
    }
    if SelfContained(g) {
      assert r.partitions == g.partitions;
      assert r.isolated == g.isolated;
    }
  }

  /** An isolated VM that is not a member is forgotten. */
  lemma {:induction false} NonMemberIsForgotten(s: Snapshot)
    requires SnapshotOf(EMPTY.(isolated := {"vm"}), s)
    ensures Restored(EMPTY, s) == EMPTY != EMPTY.(isolated := {"vm"})
  {
    var g := EMPTY.(isolated := {"vm"});
    RoundTripFields(g, s);
    RoundTripIsIdentity(g, s);
    RestoredPairsAreCanonical(s);
    forall p ensures p !in Restored(EMPTY, s).partitions {
      if p in Restored(EMPTY, s).partitions { PairsRebuilt(g, s, p); }
    }
    assert Restored(EMPTY, s).partitions == {};
  }

  /** Saving a restored bridge and restoring that gives the very same graph. */
  lemma {:induction false} SecondTripIsExact(g: Graph, s: Snapshot, again: Snapshot)
    requires Kept(g) && Canonical(g) && SnapshotOf(g, s) && SnapshotOf(Restored(EMPTY, s), again)
    ensures Restored(EMPTY, again) == Restored(EMPTY, s)
  {
    RoundTripFields(g, s);
    RestoredPairsAreCanonical(s);
    RoundTripIsIdentity(g, s);
    RoundTripIsIdentity(Restored(EMPTY, s), again);
  }
}
