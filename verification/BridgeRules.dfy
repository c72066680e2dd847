/**
 * The nftables commands a bridge issues and the rule set they leave in its table.
 */
module BridgeRules {
  import opened BridgeGraph
  import opened BridgeHost
  import opened TapName

  function Sanitized(s: string): string
  {
    if s == [] then [] else [if Word(s[0]) then s[0] else '_'] + Sanitized(s[1..])
  }

  function TableOf(bridge: string): string
  {
    "provium_" + Sanitized(bridge)
  }

  lemma {:induction false} SanitizedAt(s: string, i: nat)
    requires i < |s|
    ensures |Sanitized(s)| == |s| && Sanitized(s)[i] == if Word(s[i]) then s[i] else '_'
  {
    if |s| > 1 { SanitizedAt(s[1..], if i == 0 then 0 else i - 1); }
  }

  /** The two characters look the same in a table's name. */
  predicate Alike(c: char, d: char)
  {
    c == d || ((c == '_' || !Word(c)) && (d == '_' || !Word(d)))
  }

  /** Two bridges have one table between them exactly when their names differ in punctuation only. */
  lemma {:induction false} TablesCollide(a: string, b: string)
    ensures TableOf(a) == TableOf(b) <==> |a| == |b| && forall i :: 0 <= i < |a| ==> Alike(a[i], b[i])
  {
    var s, t := Sanitized(a), Sanitized(b);
    SanitizedLength(a);
    SanitizedLength(b);
    assert TableOf(a)[8..] == s && TableOf(b)[8..] == t;
    if |a| == |b| {
      forall i | 0 <= i < |a| ensures s[i] == t[i] <==> Alike(a[i], b[i]) {
        SanitizedAt(a, i);
        SanitizedAt(b, i);
      }
      assert s == t <==> forall i :: 0 <= i < |a| ==> s[i] == t[i];
    }
  }

  lemma {:induction false} SanitizedLength(s: string)
    ensures |Sanitized(s)| == |s|
  {
    if s != [] { SanitizedAt(s, 0); }
  }

  function DeleteTable(table: string): NetOp
  {
    NetOp(Nft, ["delete", "table", "bridge", table])
  }

  function AddTable(table: string): NetOp
  {
    NetOp(Nft, ["add", "table", "bridge", table])
  }

  function AddChain(table: string): NetOp
  {
    NetOp(Nft, ["add", "chain", "bridge", table, "forward", "{ type filter hook forward priority 0 ; }"])
  }

  function AddRule(table: string, rule: string): NetOp
  {
    NetOp(Nft, ["add", "rule", "bridge", table, "forward", rule])
  }

  /** A table of the bridge family: absent, or its rules, which act once a chain is hooked in. */
  datatype Table = Absent | Table(hooked: bool, rules: set<string>)

  const HOOK := "{ type filter hook forward priority 0 ; }"

  /** What one command does to `table`. Commands on a table or chain that is not there fail. */
  function After(t: Table, table: string, op: NetOp): Table
  {
    if op.program != Nft || |op.args| < 4 || op.args[2] != "bridge" || op.args[3] != table then t
    else if op.args[0] == "delete" && op.args[1] == "table" && |op.args| == 4 then Absent
    else if op.args[0] != "add" then t
    else if op.args[1] == "table" && |op.args| == 4 then (if t.Absent? then Table(false, {}) else t)
    else if t.Absent? || |op.args| != 6 || op.args[4] != "forward" then t
    else if op.args[1] == "chain" && op.args[5] == HOOK then t.(hooked := true)
    else if op.args[1] == "rule" && t.hooked then t.(rules := t.rules + {op.args[5]})
    else t
  }

  function TableIn(table: string, trace: seq<NetOp>): Table
  {
    if trace == [] then Absent else After(TableIn(table, trace[..|trace| - 1]), table, trace[|trace| - 1])
  }

  /** The rules in force. */
  function InForce(t: Table): set<string>
  {
    if t.Table? && t.hooked then t.rules else {}
  }

  lemma {:induction false} TableAfterOne(table: string, trace: seq<NetOp>, op: NetOp)
    ensures TableIn(table, trace + [op]) == After(TableIn(table, trace), table, op)
  {
    assert (trace + [op])[..|trace|] == trace;
  }

  lemma {:induction false} Words()
    ensures "delete" != "add" && "table" != "chain" && "table" != "rule" && "chain" != "rule"
  {
    assert |"delete"| == 6 && |"add"| == 3 && |"table"| == 5 && |"chain"| == 5 && |"rule"| == 4;
    assert "table"[0] == 't' && "chain"[0] == 'c';
  }

  lemma {:induction false} EffectOfDelete(t: Table, table: string)
    ensures After(t, table, DeleteTable(table)) == Absent
  {}

  lemma {:induction false} EffectOfTable(table: string)
    ensures After(Absent, table, AddTable(table)) == Table(false, {})
  {
    Words();
  }

  lemma {:induction false} EffectOfChain(t: Table, table: string)
    requires t.Table?
    ensures After(t, table, AddChain(table)) == t.(hooked := true)
  {
    Words();
  }

  lemma {:induction false} EffectOfRule(t: Table, table: string, rule: string)
    requires t.Table? && t.hooked
    ensures After(t, table, AddRule(table, rule)) == t.(rules := t.rules + {rule})
  {
    Words();
  }

  /** A refresh of "lab_a" wipes the rules of "lab-a", whatever they are. */
  lemma {:induction false} SharedTableIsWiped(trace: seq<NetOp>)
    ensures TableIn(TableOf("lab-a"), trace + [DeleteTable(TableOf("lab_a"))]) == Absent
  {
    TablesCollide("lab-a", "lab_a");
    TableAfterOne(TableOf("lab-a"), trace, DeleteTable(TableOf("lab_a")));
    EffectOfDelete(TableIn(TableOf("lab-a"), trace), TableOf("lab-a"));
  }

  /** Commands of other programs leave every table alone. */
  lemma {:induction false} OtherProgramsKeepRules(table: string, trace: seq<NetOp>, ops: seq<NetOp>)
    requires forall i :: 0 <= i < |ops| ==> ops[i].program != Nft
    ensures TableIn(table, trace + ops) == TableIn(table, trace)
  {
    if ops == [] {
      assert trace + ops == trace;
    } else {
      var init, last := ops[..|ops| - 1], ops[|ops| - 1];
      OtherProgramsKeepRules(table, trace, init);
      TableAfterOne(table, trace + init, last);
      assert trace + ops == (trace + init) + [last];
    }
  }

  ghost function Elements<T>(s: seq<T>): set<T>
  {
    set x | x in s
  }

  lemma {:induction false} TextsTogether(s: set<Pair>, t: set<Pair>)
    ensures Texts(s + t) == Texts(s) + Texts(t)
  {}

  lemma {:induction false} AcrossTogether(s: set<string>, s': set<string>, t: set<string>)
    ensures Across(s + s', t) == Across(s, t) + Across(s', t)
    ensures Across(t, s + s') == Across(t, s) + Across(t, s')
  {}

  lemma {:induction false} AcrossOne(a: string, b: string)
    ensures Across({a}, {b}) == if a == b then {} else {(a, b)}
  {}

  lemma {:induction false} ElementsGrow<T>(s: seq<T>, i: nat)
    requires i < |s|
    ensures Elements(s[..i + 1]) == Elements(s[..i]) + {s[i]}
  {
    assert s[..i + 1] == s[..i] + [s[i]];
  }

  lemma {:induction false} OneWayCutGrows(pairs: set<Pair>, p: Pair, tap: Naming)
    ensures OneWayCut(pairs + {p}, tap) == OneWayCut(pairs, tap) + {TapPair(p, tap)}
  {}

  lemma {:induction false} FlippedGrows(pairs: set<Pair>, p: Pair)
    ensures Flipped(pairs + {p}) == Flipped(pairs) + {Flip(p)}
  {}

  lemma {:induction false} PairCutGrows(pairs: set<Pair>, p: Pair, tap: Naming)
    ensures PairCut(pairs + {p}, tap) == PairCut(pairs, tap) + {TapPair(p, tap)} + {Flip(TapPair(p, tap))}
  {
    OneWayCutGrows(pairs, p, tap);
    FlippedGrows(OneWayCut(pairs, tap), TapPair(p, tap));
  }

  lemma {:induction false} TapsGrow(vms: set<string>, vm: string, tap: Naming)
    ensures TapsOf(vms + {vm}, tap) == TapsOf(vms, tap) + {tap(vm)}
  {}

  lemma {:induction false} OutTextsGrow(a: string, taps: seq<string>, i: nat)
    requires i < |taps|
    ensures Texts(Across({a}, Elements(taps[..i + 1]))) ==
            Texts(Across({a}, Elements(taps[..i]))) + (if a == taps[i] then {} else Texts({(a, taps[i])}))
  {
    var s, b := Elements(taps[..i]), taps[i];
    ElementsGrow(taps, i);
    AcrossTogether(s, {b}, {a});
    AcrossOne(a, b);
    TextsTogether(Across({a}, s), Across({a}, {b}));
  }

  lemma {:induction false} AroundNobody(a: string)
    ensures Texts(IsolationCut({a}, Elements<string>([]))) == {}
  {
    assert IsolationCut({a}, {}) == {};
  }

  lemma {:induction false} IsolationFromOne(a: string, s: set<string>, b: string)
    ensures IsolationCut({a}, s + {b}) == IsolationCut({a}, s) + (if a == b then {} else {(a, b), (b, a)})
  {
    AcrossTogether(s, {b}, {a});
    AcrossOne(a, b);
    AcrossOne(b, a);
  }

  lemma {:induction false} AroundTextsGrow(a: string, taps: seq<string>, i: nat)
    requires i < |taps|
    ensures Texts(IsolationCut({a}, Elements(taps[..i + 1]))) ==
            Texts(IsolationCut({a}, Elements(taps[..i])))
            + (if a == taps[i] then {} else Texts({(a, taps[i]), (taps[i], a)}))
  {
    var s, b := Elements(taps[..i]), taps[i];
    ElementsGrow(taps, i);
    IsolationFromOne(a, s, b);
    TextsTogether(IsolationCut({a}, s), {(a, b), (b, a)});
  }

  lemma {:induction false} PairTextsGrow(pairs: set<Pair>, todo: set<Pair>, p: Pair, tap: Naming)
    requires p in todo && todo <= pairs
    ensures Texts(PairCut(pairs - (todo - {p}), tap)) ==
            Texts(PairCut(pairs - todo, tap))
            + Texts({(tap(p.0), tap(p.1)), (tap(p.1), tap(p.0))})
  {
    var t, done := TapPair(p, tap), pairs - todo;
    assert pairs - (todo - {p}) == done + {p};
    PairCutGrows(done, p, tap);
    assert PairCut(done, tap) + {t} + {Flip(t)} == PairCut(done, tap) + {t, Flip(t)};
    TextsTogether(PairCut(done, tap), {t, Flip(t)});
  }

  lemma {:induction false} NoPairsNoTexts(tap: Naming)
    ensures Texts(PairCut({}, tap)) == {} && Texts(OneWayCut({}, tap)) == {}
  {
    assert OneWayCut({}, tap) == {} && Flipped({}) == {};
  }

  lemma {:induction false} OneWayTextsGrow(pairs: set<Pair>, todo: set<Pair>, p: Pair, tap: Naming)
    requires p in todo && todo <= pairs
    ensures Texts(OneWayCut(pairs - (todo - {p}), tap)) ==
            Texts(OneWayCut(pairs - todo, tap)) + Texts({(tap(p.0), tap(p.1))})
  {
    assert pairs - (todo - {p}) == (pairs - todo) + {p};
    OneWayCutGrows(pairs - todo, p, tap);
    TextsTogether(OneWayCut(pairs - todo, tap), {TapPair(p, tap)});
  }

  lemma {:induction false} IsolationTextsGrow(vms: set<string>, todo: set<string>, v: string, tap: Naming, taps: set<string>)
    requires v in todo && todo <= vms
    ensures Texts(IsolationCut(TapsOf(vms - (todo - {v}), tap), taps)) ==
            Texts(IsolationCut(TapsOf(vms - todo, tap), taps)) + Texts(IsolationCut({tap(v)}, taps))
  {
    var s, t := TapsOf(vms - todo, tap), {tap(v)};
    assert vms - (todo - {v}) == (vms - todo) + {v};
    TapsGrow(vms - todo, v, tap);
    AcrossTogether(s, t, taps);
    assert IsolationCut(s + t, taps) == IsolationCut(s, taps) + IsolationCut(t, taps);
    TextsTogether(IsolationCut(s, taps), IsolationCut(t, taps));
  }

  lemma {:induction false} CutTexts(g: Graph, vms: set<string>, tap: Naming)
    requires !g.fully
    ensures Texts(Cut(g, vms, tap)) ==
            Texts(PairCut(g.partitions, tap)) + Texts(OneWayCut(g.oneWay, tap))
            + Texts(IsolationCut(TapsOf(g.isolated, tap), TapsOf(vms, tap)))
  {
    var p, o := PairCut(g.partitions, tap), OneWayCut(g.oneWay, tap);
    TextsTogether(p, o);
    TextsTogether(p + o, IsolationCut(TapsOf(g.isolated, tap), TapsOf(vms, tap)));
  }

  lemma {:induction false} TapNamesGrow(order: seq<string>, i: nat, taps: seq<string>, tap: Naming)
    requires i < |order| && Elements(taps) == TapsOf(Elements(order[..i]), tap)
    ensures Elements(taps + [tap(order[i])]) == TapsOf(Elements(order[..i + 1]), tap)
  {
    ElementsGrow(order, i);
    TapsGrow(Elements(order[..i]), order[i], tap);
    var more := taps + [tap(order[i])];
    assert more[..|taps|] == taps;
    ElementsGrow(more, |taps|);
    assert more[..|more|] == more;
  }

  lemma {:induction false} NothingToCut(g: Graph, vms: set<string>, tap: Naming)
    requires !g.fully && g.partitions == {} && g.oneWay == {} && g.isolated == {}
    ensures Texts(Cut(g, vms, tap)) == {}
  {
    assert TapsOf({}, tap) == {} && OneWayCut({}, tap) == {} && Flipped({}) == {};
    assert IsolationCut({}, TapsOf(vms, tap)) == {};
  }
}
