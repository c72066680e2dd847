/**
 * The recorded state of a virtual bridge and what it asks of the host: which pairs of
 * interfaces are cut and how each VM's interface is shaped (provium-host/src/bridge.rs).
 */
module BridgeGraph {
  import opened Options
  import opened StringOrder
  import opened TapName

  type Pair = (string, string)

  /** How the interface of each VM is called. */
  type Naming = string -> string

  datatype Impairment = Impairment(latency: nat, drop: nat, bandwidth: nat)

  datatype Graph = Graph(
    attached: set<string>,
    partitions: set<Pair>,
    oneWay: set<Pair>,
    isolated: set<string>,
    fully: bool,
    latency: nat,
    drop: nat,
    bandwidth: nat,
    directional: map<Pair, Impairment>,
    routes: set<string>,
    uplink: bool)

  const UNIMPAIRED := Impairment(0, 0, 0)

  const EMPTY := Graph({}, {}, {}, {}, false, 0, 0, 0, map[], {}, false)

  /** What every operation keeps: percentages are percentages, and no all-zero entry stays. */
  predicate Kept(g: Graph)
  {
    g.drop <= 100 && forall k :: k in g.directional ==> g.directional[k].drop <= 100 && g.directional[k] != UNIMPAIRED
  }

  predicate IsPartitioned(g: Graph, a: string, b: string)
  {
    g.fully || CanonicalPair(a, b) in g.partitions
  }

  // --- impairments ---------------------------------------------------------------------

  /** An entry with one axis changed; an entry with nothing left in it goes. */
  function Recorded(d: map<Pair, Impairment>, k: Pair, v: Impairment): map<Pair, Impairment>
  {
    if v == UNIMPAIRED then d - {k} else d[k := v]
  }

  function Entry(d: map<Pair, Impairment>, k: Pair): Impairment
  {
    if k in d then d[k] else UNIMPAIRED
  }

  lemma {:induction false} RecordedReads(d: map<Pair, Impairment>, k: Pair, v: Impairment, j: Pair)
    ensures Entry(Recorded(d, k, v), j) == if j == k then v else Entry(d, j)
    ensures j in Recorded(d, k, v) <==> if j == k then v != UNIMPAIRED else j in d
  {}

  function Max(a: nat, b: nat): nat
  {
    if a < b then b else a
  }

  function Merge(v: Impairment, w: Impairment): Impairment
  {
    Impairment(Max(v.latency, w.latency), Max(v.drop, w.drop), Max(v.bandwidth, w.bandwidth))
  }

  /** On each axis `w` is the largest value of any entry leaving `vm`, or 0 when there is none. */
  ghost predicate IsWorst(d: map<Pair, Impairment>, vm: string, w: Impairment)
  {
    && (forall k :: k in d && k.0 == vm ==>
          d[k].latency <= w.latency && d[k].drop <= w.drop && d[k].bandwidth <= w.bandwidth)
    && (w.latency == 0 || exists k :: k in d && k.0 == vm && d[k].latency == w.latency)
    && (w.drop == 0 || exists k :: k in d && k.0 == vm && d[k].drop == w.drop)
    && (w.bandwidth == 0 || exists k :: k in d && k.0 == vm && d[k].bandwidth == w.bandwidth)
  }

  lemma {:induction false} WorstIsUnique(d: map<Pair, Impairment>, vm: string, v: Impairment, w: Impairment)
    requires IsWorst(d, vm, v) && IsWorst(d, vm, w)
    ensures v == w
  {}

  lemma {:induction false} WorstGrows(d: map<Pair, Impairment>, vm: string, k: Pair, w: Impairment)
    requires k in d && IsWorst(d - {k}, vm, w)
    ensures IsWorst(d, vm, if k.0 == vm then Merge(w, d[k]) else w)
  {
    var rest := d - {k};
    forall j | j in d ensures j == k || (j in rest && rest[j] == d[j]) {}
    assert forall j :: j in rest ==> j in d && d[j] == rest[j];
  }

  ghost function Worst(d: map<Pair, Impairment>, vm: string): (w: Impairment)
    ensures IsWorst(d, vm, w)
    decreases |d|
  {
    if |d| == 0 then UNIMPAIRED else
      var k :| k in d;
      var rest := d - {k};
      assert |rest| < |d| by { assert rest.Keys == d.Keys - {k} && |rest.Keys| == |rest| && |d.Keys| == |d|; }
      var w := Worst(rest, vm);
      WorstGrows(d, vm, k, w);
      if k.0 == vm then Merge(w, d[k]) else w
  }

  /** The shape of `vm`'s interface: the worst of everything it sends, if that is anything. */
  ghost function Collapsed(d: map<Pair, Impairment>, vm: string): Option<Impairment>
  {
    if Worst(d, vm) == UNIMPAIRED then None else Some(Worst(d, vm))
  }

  lemma {:induction false} WorstStep(d: map<Pair, Impairment>, vm: string, todo: set<Pair>, k: Pair)
    requires k in todo && todo <= d.Keys
    ensures Worst(d - (todo - {k}), vm) ==
            if k.0 == vm then Merge(Worst(d - todo, vm), d[k]) else Worst(d - todo, vm)
  {
    var more := d - (todo - {k});
    assert more - {k} == d - todo;
    var w := Worst(d - todo, vm);
    WorstGrows(more, vm, k, w);
    WorstIsUnique(more, vm, Worst(more, vm), if k.0 == vm then Merge(w, d[k]) else w);
  }

  method CollapsedFor(d: map<Pair, Impairment>, vm: string) returns (shape: Option<Impairment>)
    ensures shape == Collapsed(d, vm)
  {
    var acc: Option<Impairment> := None;
    var todo := d.Keys;
    assert d - todo == map[];
    while todo != {}
      invariant todo <= d.Keys
      invariant Worst(d - todo, vm) == if acc.None? then UNIMPAIRED else acc.value
      decreases todo
    {
      var k :| k in todo;
      WorstStep(d, vm, todo, k);
      if k.0 == vm {
        acc := Some(Merge(if acc.None? then UNIMPAIRED else acc.value, d[k]));
      }
      todo := todo - {k};
    }
    assert d - todo == d;
    shape := if acc.Some? && acc.value == UNIMPAIRED then None else acc;
  }

  // --- cuts ----------------------------------------------------------------------------

  function TapsOf(vms: set<string>, tap: Naming): set<string>
  {
    set vm | vm in vms :: tap(vm)
  }

  function Across(s: set<string>, t: set<string>): set<Pair>
  {
    set a, b | a in s && b in t && a != b :: (a, b)
  }

  function Flip(p: Pair): Pair
  {
    (p.1, p.0)
  }

  function TapPair(p: Pair, tap: Naming): Pair
  {
    (tap(p.0), tap(p.1))
  }

  function OneWayCut(oneWay: set<Pair>, tap: Naming): set<Pair>
  {
    set p | p in oneWay :: TapPair(p, tap)
  }

  function Flipped(pairs: set<Pair>): set<Pair>
  {
    set p | p in pairs :: Flip(p)
  }

  /** A symmetric partition is a one-way cut each way. */
  function PairCut(partitions: set<Pair>, tap: Naming): set<Pair>
  {
    OneWayCut(partitions, tap) + Flipped(OneWayCut(partitions, tap))
  }

  function IsolationCut(isolated: set<string>, taps: set<string>): set<Pair>
  {
    Across(isolated, taps) + Across(taps, isolated)
  }

  /** The ordered pairs of interfaces between which a bridge whose VMs `vms` are up drops traffic. */
  function Cut(g: Graph, vms: set<string>, tap: Naming): set<Pair>
  {
    var taps := TapsOf(vms, tap);
    if g.fully then Across(taps, taps)
    else PairCut(g.partitions, tap) + OneWayCut(g.oneWay, tap) + IsolationCut(TapsOf(g.isolated, tap), taps)
  }

  function Texts(cut: set<Pair>): set<string>
  {
    set p | p in cut :: RuleText(p.0, p.1)
  }

  /** Every VM name the graph or the running set mentions. */
  ghost function Names(g: Graph, vms: set<string>): set<string>
  {
    vms + g.isolated
    + (set p | p in g.partitions :: p.0) + (set p | p in g.partitions :: p.1)
    + (set p | p in g.oneWay :: p.0) + (set p | p in g.oneWay :: p.1)
  }

  ghost predicate TapsDiffer(names: set<string>, tap: Naming)
  {
    forall a, b :: a in names && b in names && tap(a) == tap(b) ==> a == b
  }

  /** Only canonical pairs are recorded. */
  predicate Canonical(g: Graph)
  {
    forall p :: p in g.partitions ==> p == CanonicalPair(p.0, p.1)
  }

  predicate Plain(cut: set<Pair>)
  {
    forall p :: p in cut ==> '"' !in p.0 && '"' !in p.1
  }

  /** Some rule drops a frame that comes in on `input` and goes out on `output`. */
  ghost predicate Drops(rules: set<string>, input: string, output: string)
  {
    exists t :: t in rules && ReadRule(t) == Some(DropRule(input, output))
  }

  lemma {:induction false} TextsDropPairs(cut: set<Pair>, i: string, o: string)
    requires Plain(cut)
    ensures Drops(Texts(cut), i, o) <==> (i, o) in cut
  {
    if Drops(Texts(cut), i, o) {
      var t :| t in Texts(cut) && ReadRule(t) == Some(DropRule(i, o));
      var p :| p in cut && RuleText(p.0, p.1) == t;
      RuleReads(p.0, p.1);
      assert p == (i, o);
    }
    if (i, o) in cut {
      var p := (i, o);
      RuleReads(p.0, p.1);
      assert RuleText(p.0, p.1) in Texts(cut);
    }
  }

  /** No interface name holds a quote; `Tap` sees to that. */
  ghost predicate Clean(tap: Naming)
  {
    forall vm :: '"' !in tap(vm)
  }

  predicate Unquoted(s: set<string>)
  {
    forall x :: x in s ==> '"' !in x
  }

  lemma {:induction false} TapsUnquoted(vms: set<string>, tap: Naming)
    requires Clean(tap)
    ensures Unquoted(TapsOf(vms, tap))
  {}

  lemma {:induction false} AcrossIsPlain(s: set<string>, t: set<string>)
    requires Unquoted(s) && Unquoted(t)
    ensures Plain(Across(s, t))
  {}

  lemma {:induction false} RecordedPairsArePlain(pairs: set<Pair>, tap: Naming)
    requires Clean(tap)
    ensures Plain(PairCut(pairs, tap)) && Plain(OneWayCut(pairs, tap))
  {
    PlainTogether(OneWayCut(pairs, tap), Flipped(OneWayCut(pairs, tap)));
  }

  lemma {:induction false} PlainTogether(s: set<Pair>, t: set<Pair>)
    requires Plain(s) && Plain(t)
    ensures Plain(s + t)
  {}

  lemma {:induction false} CutIsPlain(g: Graph, vms: set<string>, tap: Naming)
    requires Clean(tap)
    ensures Plain(Cut(g, vms, tap))
  {
    var taps, alone := TapsOf(vms, tap), TapsOf(g.isolated, tap);
    TapsUnquoted(vms, tap);
    TapsUnquoted(g.isolated, tap);
    AcrossIsPlain(taps, taps);
    if !g.fully {
      AcrossIsPlain(taps, alone);
      AcrossIsPlain(alone, taps);
      PlainTogether(Across(alone, taps), Across(taps, alone));
      RecordedPairsArePlain(g.partitions, tap);
      RecordedPairsArePlain(g.oneWay, tap);
      var recorded := PairCut(g.partitions, tap) + OneWayCut(g.oneWay, tap);
      PlainTogether(PairCut(g.partitions, tap), OneWayCut(g.oneWay, tap));
      PlainTogether(recorded, IsolationCut(alone, taps));
    }
  }

  lemma {:induction false} InAcross(s: set<string>, t: set<string>, i: string, o: string)
    requires i != o
    ensures (i, o) in Across(s, t) <==> i in s && o in t
  {}

  lemma {:induction false} OneWayCutExact(oneWay: set<Pair>, tap: Naming, names: set<string>, a: string, b: string)
    requires TapsDiffer(names, tap) && a in names && b in names
    requires forall p :: p in oneWay ==> p.0 in names && p.1 in names
    ensures (tap(a), tap(b)) in OneWayCut(oneWay, tap) <==> (a, b) in oneWay
  {
    var q := (tap(a), tap(b));
    if q in OneWayCut(oneWay, tap) {
      var p :| p in oneWay && TapPair(p, tap) == q;
      assert p == (a, b);
    }
    if (a, b) in oneWay {
      assert TapPair((a, b), tap) == q;
    }
  }

  lemma {:induction false} InFlipped(pairs: set<Pair>, p: Pair)
    ensures p in Flipped(pairs) <==> Flip(p) in pairs
  {
    assert Flip(Flip(p)) == p;
  }

  lemma {:induction false} PairCutExact(g: Graph, tap: Naming, names: set<string>, a: string, b: string)
    requires Canonical(g) && TapsDiffer(names, tap) && a in names && b in names
    requires forall p :: p in g.partitions ==> p.0 in names && p.1 in names
    ensures (tap(a), tap(b)) in PairCut(g.partitions, tap) <==> CanonicalPair(a, b) in g.partitions
  {
    OneWayCutExact(g.partitions, tap, names, a, b);
    OneWayCutExact(g.partitions, tap, names, b, a);
    InFlipped(OneWayCut(g.partitions, tap), (tap(a), tap(b)));
    CanonicalPairForgetsOrder(a, b, b, a);
  }

  lemma {:induction false} TapIn(vms: set<string>, tap: Naming, names: set<string>, a: string)
    requires TapsDiffer(names, tap) && a in names && vms <= names
    ensures tap(a) in TapsOf(vms, tap) <==> a in vms
  {}

  lemma {:induction false} PairsUseNames(pairs: set<Pair>, tap: Naming, names: set<string>)
    requires forall p :: p in pairs ==> p.0 in names && p.1 in names
    ensures forall q :: q in PairCut(pairs, tap) || q in OneWayCut(pairs, tap) ==>
              q.0 in TapsOf(names, tap) && q.1 in TapsOf(names, tap)
  {
    assert forall q :: q in OneWayCut(pairs, tap) ==> q.0 in TapsOf(names, tap) && q.1 in TapsOf(names, tap);
  }

  lemma {:induction false} CutUsesNames(g: Graph, vms: set<string>, tap: Naming)
    ensures forall q :: q in Cut(g, vms, tap) ==>
              q.0 in TapsOf(Names(g, vms), tap) && q.1 in TapsOf(Names(g, vms), tap)
  {
    var names := Names(g, vms);
    PairsUseNames(g.partitions, tap, names);
    PairsUseNames(g.oneWay, tap, names);
    assert TapsOf(vms, tap) <= TapsOf(names, tap) && TapsOf(g.isolated, tap) <= TapsOf(names, tap);
  }

  /** No rule is about the interface of a VM that nothing mentions. */
  lemma {:induction false} UnmentionedIsUnruled(g: Graph, vms: set<string>, tap: Naming, vm: string, other: string)
    requires Clean(tap) && vm !in Names(g, vms) && TapsDiffer(Names(g, vms) + {vm}, tap)
    ensures !Drops(Texts(Cut(g, vms, tap)), tap(vm), other) && !Drops(Texts(Cut(g, vms, tap)), other, tap(vm))
  {
    CutIsPlain(g, vms, tap);
    CutUsesNames(g, vms, tap);
    TapIn(Names(g, vms), tap, Names(g, vms) + {vm}, vm);
    TextsDropPairs(Cut(g, vms, tap), tap(vm), other);
    TextsDropPairs(Cut(g, vms, tap), other, tap(vm));
  }

  /** The traffic the graph says is cut. */
  predicate Severed(g: Graph, a: string, b: string)
  {
    IsPartitioned(g, a, b) || (a, b) in g.oneWay || a in g.isolated || b in g.isolated
  }

  /** What a rule set compiled for the VMs `vms` says about the pair, whether or not both are up. */
  lemma {:induction false} CutExact(g: Graph, vms: set<string>, tap: Naming, a: string, b: string)
    requires Clean(tap) && a != b && Canonical(g) && TapsDiffer(Names(g, vms) + {a, b}, tap)
    ensures Drops(Texts(Cut(g, vms, tap)), tap(a), tap(b)) <==>
              if g.fully then a in vms && b in vms
              else
                || CanonicalPair(a, b) in g.partitions
                || (a, b) in g.oneWay
                || (a in g.isolated && b in vms)
                || (b in g.isolated && a in vms)
  {
    var names := Names(g, vms) + {a, b};
    var i, o := tap(a), tap(b);
    assert i != o;
    CutIsPlain(g, vms, tap);
    TextsDropPairs(Cut(g, vms, tap), i, o);
    var taps, alone := TapsOf(vms, tap), TapsOf(g.isolated, tap);
    InAcross(taps, taps, i, o);
    InAcross(taps, alone, i, o);
    InAcross(alone, taps, i, o);
    NamesCover(g, vms);
    PairCutExact(g, tap, names, a, b);
    OneWayCutExact(g.oneWay, tap, names, a, b);
    TapIn(vms, tap, names, a);
    TapIn(vms, tap, names, b);
    TapIn(g.isolated, tap, names, a);
    TapIn(g.isolated, tap, names, b);
  }

  lemma {:induction false} NamesCover(g: Graph, vms: set<string>)
    ensures forall p :: p in g.partitions ==> p.0 in Names(g, vms) && p.1 in Names(g, vms)
    ensures forall p :: p in g.oneWay ==> p.0 in Names(g, vms) && p.1 in Names(g, vms)
  {}

  /** The rules drop `a` to `b` exactly when the graph says so, for any two VMs that are up. */
  lemma {:induction false} RulesAreExact(g: Graph, vms: set<string>, tap: Naming, a: string, b: string)
    requires Clean(tap) && a != b && a in vms && b in vms && Canonical(g) && TapsDiffer(Names(g, vms), tap)
    ensures Drops(Texts(Cut(g, vms, tap)), tap(a), tap(b)) <==> Severed(g, a, b)
  {
    assert Names(g, vms) + {a, b} == Names(g, vms);
    CutExact(g, vms, tap, a, b);
  }

  /**
   * Any two VMs, up now or not, against rules compiled when the VMs `vms` were up: the rules
   * are right about traffic from `a` to `b` exactly when that traffic is not cut, is cut by a
   * recorded pair, or both ends a cut needs were up by then: the two of them for a
   * whole-bridge partition, the other one for an isolated VM.
   */
  lemma {:induction false} CompiledRulesStayExact(g: Graph, vms: set<string>, tap: Naming, a: string, b: string)
    requires Clean(tap) && a != b && Canonical(g) && TapsDiffer(Names(g, vms) + {a, b}, tap)
    ensures (Drops(Texts(Cut(g, vms, tap)), tap(a), tap(b)) <==> Severed(g, a, b))
       <==> (if g.fully then a in vms && b in vms
             else
               || CanonicalPair(a, b) in g.partitions || (a, b) in g.oneWay
               || (a in g.isolated && b in vms) || (b in g.isolated && a in vms)
               || (a !in g.isolated && b !in g.isolated))
  {
    CutExact(g, vms, tap, a, b);
  }

  /** A VM that comes up on a fully partitioned bridge talks to the others until the next refresh. */
  lemma {:induction false} LateVmEscapesPartition(tap: Naming)
    ensures var g := EMPTY.(fully := true);
            Texts(Cut(g, {"a"}, tap)) == {} && Severed(g, "a", "b") && Severed(g, "b", "a")
  {
    var g := EMPTY.(fully := true);
    assert TapsOf({"a"}, tap) == {tap("a")};
    assert Cut(g, {"a"}, tap) == {};
  }

  /** So does one that comes up beside an isolated VM. */
  lemma {:induction false} LateVmEscapesIsolation(tap: Naming)
    ensures var g := EMPTY.(isolated := {"a"});
            Texts(Cut(g, {"a"}, tap)) == {} && Severed(g, "a", "b") && Severed(g, "b", "a")
  {
    var g := EMPTY.(isolated := {"a"});
    assert TapsOf({"a"}, tap) == {tap("a")};
    assert OneWayCut({}, tap) == {} && Flipped({}) == {};
    assert IsolationCut({tap("a")}, {tap("a")}) == {};
    assert Cut(g, {"a"}, tap) == {};
  }
}
