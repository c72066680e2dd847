/**
 * Flattening a lab tree into `sub/lab/vm` names and rebuilding it from them
 * (`gather_into`, `split_sub_lab_path`, `descend_or_create` and the VM part of
 * `lab_restore` in provium-host/src/lab.rs). A lab is a value here; maps are
 * walked in no particular order.
 */
module LabTree {
  datatype Lab = Lab(vms: set<string>, subs: map<string, Lab>)

  const EMPTY := Lab({}, map[])

  /** Where a VM is: the sub-labs on the way down, then its own name. */
  type Path = seq<string>

  predicate HasVm(t: Lab, p: Path)
  {
    if |p| == 0 then false
    else if |p| == 1 then p[0] in t.vms
    else p[0] in t.subs && HasVm(t.subs[p[0]], p[1..])
  }

  ghost predicate SlashFree(t: Lab)
  {
    && (forall n :: n in t.vms ==> '/' !in n)
    && (forall k :: k in t.subs ==> '/' !in k && SlashFree(t.subs[k]))
  }

  predicate SlashFreePath(p: Path)
  {
    p != [] && forall i :: 0 <= i < |p| ==> '/' !in p[i]
  }

  lemma {:induction false} VmsAreSlashFree(t: Lab, p: Path)
    requires SlashFree(t) && HasVm(t, p)
    ensures SlashFreePath(p)
  {
    if |p| > 1 {
      VmsAreSlashFree(t.subs[p[0]], p[1..]);
      forall i | 0 <= i < |p| ensures '/' !in p[i] {
        assert i > 0 ==> p[i] == p[1..][i - 1];
      }
    }
  }

  /** The path without the empty names it starts with; its last name stays. */
  function Strip(p: Path): (r: Path)
    requires p != []
    ensures r != [] && (|r| == 1 || r[0] != "")
    ensures r == p <==> |p| == 1 || p[0] != ""
  {
    if |p| > 1 && p[0] == "" then Strip(p[1..]) else p
  }

  // --- names ---------------------------------------------------------------------------

  /** A name under a prefix; an empty prefix adds nothing, not even a slash. */
  function Under(prefix: string, name: string): string
  {
    if prefix == "" then name else prefix + "/" + name
  }

  /** The name `gather_into` gives the VM at `p`, descending with a growing prefix. */
  function Flat(prefix: string, p: Path): string
    requires p != []
    decreases |p|
  {
    if |p| == 1 then Under(prefix, p[0]) else Flat(Under(prefix, p[0]), p[1..])
  }

  function Split(s: string): (parts: seq<string>)
    ensures parts != []
  {
    if s == [] then [[]]
    else
      var rest := Split(s[1..]);
      if s[0] == '/' then [[]] + rest else [[s[0]] + rest[0]] + rest[1..]
  }

  /** `split_sub_lab_path`: everything before the last slash, and what follows it. */
  function SplitSubLabPath(flat: string): (Path, string)
  {
    var parts := Split(flat);
    (parts[..|parts| - 1], parts[|parts| - 1])
  }

  lemma {:induction false} SplitHead(a: string, s: string)
    requires '/' !in a
    ensures Split(a + "/" + s) == [a] + Split(s)
    ensures Split(a) == [a]
  {
    if a == [] {
      assert a + "/" + s == "/" + s && ("/" + s)[1..] == s;
    } else {
      var w := a + "/" + s;
      assert w[1..] == a[1..] + "/" + s;
      assert '/' !in a[1..];
      SplitHead(a[1..], s);
      assert [a[0]] + a[1..] == a;
      assert ([a[1..]] + Split(s))[1..] == Split(s);
    }
  }

  /** Descending from a prefix that is not empty. */
  lemma {:induction false} SplitFlat(prefix: string, p: Path) returns (rest: string)
    requires SlashFreePath(p) && prefix != ""
    ensures Flat(prefix, p) == prefix + "/" + rest && Split(rest) == p
    decreases |p|
  {
    if |p| == 1 {
      rest := p[0];
      SplitHead(p[0], []);
    } else {
      TailIsSlashFree(p);
      var below := SplitFlat(Under(prefix, p[0]), p[1..]);
      rest := p[0] + "/" + below;
      SplitHead(p[0], below);
      Slashes(prefix, p[0], below);
      assert [p[0]] + p[1..] == p;
    }
  }

  lemma {:induction false} Slashes(a: string, b: string, c: string)
    ensures (a + "/" + b) + "/" + c == a + "/" + (b + "/" + c)
  {
  }

  lemma {:induction false} TailIsSlashFree(p: Path)
    requires SlashFreePath(p) && |p| > 1
    ensures SlashFreePath(p[1..])
  {
  }

  /** A flat name splits into the path it came from, less its leading empty names. */
  lemma {:induction false} SplitFlatStrips(p: Path)
    requires SlashFreePath(p)
    ensures Split(Flat("", p)) == Strip(p)
    decreases |p|
  {
    if |p| == 1 {
      SplitHead(p[0], []);
      assert p == [p[0]];
    } else {
      TailIsSlashFree(p);
      if p[0] == "" {
        SplitFlatStrips(p[1..]);
      } else {
        var rest := SplitFlat(p[0], p[1..]);
        SplitHead(p[0], rest);
        assert [p[0]] + p[1..] == p;
      }
    }
  }

  /** It splits back into its own path exactly when no leading sub-lab name is empty. */
  lemma {:induction false} SplitInvertsFlat(p: Path)
    requires SlashFreePath(p)
    ensures Split(Flat("", p)) == p <==> |p| == 1 || p[0] != ""
    ensures var (subs, leaf) := SplitSubLabPath(Flat("", p)); subs + [leaf] == Strip(p)
  {
    SplitFlatStrips(p);
    var parts := Strip(p);
    assert parts[..|parts| - 1] + [parts[|parts| - 1]] == parts;
  }

  /** Two places share a flat name exactly when they differ in leading empty names alone. */
  lemma {:induction false} FlatNamesCollide(p: Path, q: Path)
    requires SlashFreePath(p) && SlashFreePath(q)
    ensures Flat("", p) == Flat("", q) <==> Strip(p) == Strip(q)
  {
    SplitFlatStrips(p);
    SplitFlatStrips(q);
    if Strip(p) == Strip(q) {
      FlatStripped(p);
      FlatStripped(q);
    }
  }

  lemma {:induction false} FlatStripped(p: Path)
    requires p != []
    ensures Flat("", Strip(p)) == Flat("", p)
    decreases |p|
  {
    if |p| > 1 && p[0] == "" { FlatStripped(p[1..]); }
  }

  // --- gathering --------------------------------------------------------------------------

  ghost predicate Distinct<T(!new)>(s: seq<T>)
  {
    forall i, j :: 0 <= i < j < |s| ==> s[i] != s[j]
  }

  ghost predicate Proper(ps: seq<Path>)
  {
    forall i :: 0 <= i < |ps| ==> ps[i] != []
  }

  ghost function FlatAll(prefix: string, ps: seq<Path>): seq<string>
    requires Proper(ps)
  {
    if ps == [] then [] else FlatAll(prefix, ps[..|ps| - 1]) + [Flat(prefix, ps[|ps| - 1])]
  }

  lemma {:induction false} FlatAllConcat(prefix: string, a: seq<Path>, b: seq<Path>)
    requires Proper(a) && Proper(b)
    ensures FlatAll(prefix, a + b) == FlatAll(prefix, a) + FlatAll(prefix, b)
  {
    if b == [] {
      assert a + b == a;
    } else {
      var front, last := b[..|b| - 1], b[|b| - 1];
      assert (a + b)[..|a + b| - 1] == a + front;
      FlatAllConcat(prefix, a, front);
    }
  }

  /** What has been gathered when these direct VMs and sub-labs are still to come. */
  ghost predicate Gathered(t: Lab, vms: set<string>, subs: set<string>, ps: seq<Path>)
  {
    && Distinct(ps)
    && forall p :: p in ps <==> HasVm(t, p) && (if |p| == 1 then p[0] !in vms else p[0] !in subs)
  }

  lemma {:induction false} AddVm(t: Lab, vms: set<string>, subs: set<string>, ps: seq<Path>, name: string)
    requires Gathered(t, vms, subs, ps) && name in vms && vms <= t.vms
    ensures Gathered(t, vms - {name}, subs, ps + [[name]])
  {
    assert [name] !in ps;
    forall p
      ensures p in ps + [[name]] <==> p in ps || p == [name]
    {
    }
  }

  ghost function Below(k: string, ps: seq<Path>): seq<Path>
  {
    if ps == [] then [] else Below(k, ps[..|ps| - 1]) + [[k] + ps[|ps| - 1]]
  }

  lemma {:induction false} BelowMembers(k: string, ps: seq<Path>)
    ensures |Below(k, ps)| == |ps|
    ensures forall i :: 0 <= i < |ps| ==> Below(k, ps)[i] == [k] + ps[i]
  {
    if ps != [] {
      BelowMembers(k, ps[..|ps| - 1]);
    }
  }

  lemma {:induction false} BelowIsDistinct(k: string, ps: seq<Path>)
    requires Distinct(ps)
    ensures Distinct(Below(k, ps))
    ensures forall p :: p in Below(k, ps) <==> |p| > 0 && p[0] == k && p[1..] in ps
  {
    BelowMembers(k, ps);
    var b := Below(k, ps);
    forall i, j | 0 <= i < j < |b|
      ensures b[i] != b[j]
    {
      assert b[i][1..] == ps[i] && b[j][1..] == ps[j];
    }
    forall p | |p| > 0 && p[0] == k && p[1..] in ps
      ensures p in b
    {
      var i :| 0 <= i < |ps| && ps[i] == p[1..];
      assert p == [k] + p[1..] == b[i];
    }
    forall p | p in b
      ensures |p| > 0 && p[0] == k && p[1..] in ps
    {
      var i :| 0 <= i < |b| && b[i] == p;
      assert p[1..] == ps[i];
    }
  }

  lemma {:induction false} AddSubMember(t: Lab, subs: set<string>, ps: seq<Path>, k: string, b: seq<Path>, below: seq<Path>, p: Path)
    requires Gathered(t, {}, subs, ps) && k in subs && k in t.subs && Gathered(t.subs[k], {}, {}, below)
    requires forall q :: q in b <==> |q| > 0 && q[0] == k && q[1..] in below
    ensures p in ps + b <==> HasVm(t, p) && (|p| == 1 || p[0] !in subs - {k})
  {
    assert p in ps + b <==> p in ps || p in b;
    assert p in b ==> p[1..] != [];
  }

  lemma {:induction false} AddSub(t: Lab, subs: set<string>, ps: seq<Path>, k: string, below: seq<Path>)
    requires Gathered(t, {}, subs, ps) && k in subs && k in t.subs
    requires Gathered(t.subs[k], {}, {}, below)
    ensures Gathered(t, {}, subs - {k}, ps + Below(k, below))
  {
    BelowIsDistinct(k, below);
    var b := Below(k, below);
    forall p ensures p in ps + b <==> HasVm(t, p) && (|p| == 1 || p[0] !in subs - {k}) {
      AddSubMember(t, subs, ps, k, b, below, p);
    }
    AddSubDistinct(t, subs, ps, k, b, below);
  }

  lemma {:induction false} AddSubDistinct(t: Lab, subs: set<string>, ps: seq<Path>, k: string, b: seq<Path>, below: seq<Path>)
    requires Gathered(t, {}, subs, ps) && k in subs && k in t.subs && Gathered(t.subs[k], {}, {}, below) && Distinct(b)
    requires forall q :: q in b <==> |q| > 0 && q[0] == k && q[1..] in below
    ensures Distinct(ps + b)
  {
    forall i, j | 0 <= i < |ps| && 0 <= j < |b| ensures ps[i] != b[j] {
      assert ps[i] in ps && b[j] in b;
      assert b[j][1..] != [];
    }
  }

  lemma {:induction false} FlatBelow(prefix: string, k: string, ps: seq<Path>)
    requires Proper(ps)
    ensures Proper(Below(k, ps))
    ensures FlatAll(prefix, Below(k, ps)) == FlatAll(Under(prefix, k), ps)
  {
    BelowMembers(k, ps);
    if ps != [] {
      FlatBelow(prefix, k, ps[..|ps| - 1]);
      var last := ps[|ps| - 1];
      assert ([k] + last)[1..] == last;
    }
  }

  lemma {:induction false} NameOfVm(prefix: string, out: seq<string>, ps: seq<Path>, name: string)
    requires Proper(ps)
    ensures Proper(ps + [[name]])
    ensures out + FlatAll(prefix, ps) + [Under(prefix, name)] == out + FlatAll(prefix, ps + [[name]])
  {
    var more := ps + [[name]];
    assert more[..|more| - 1] == ps && more[|more| - 1] == [name];
    assert FlatAll(prefix, more) == FlatAll(prefix, ps) + [Under(prefix, name)];
  }

  method GatherVms(t: Lab, prefix: string, out: seq<string>) returns (all: seq<string>, ghost ps: seq<Path>)
    ensures Gathered(t, {}, t.subs.Keys, ps) && Proper(ps)
    ensures all == out + FlatAll(prefix, ps)
  {
    all, ps := out, [];
    var vms := t.vms;
    while vms != {}
      invariant vms <= t.vms && Gathered(t, vms, t.subs.Keys, ps)
      invariant Proper(ps) && all == out + FlatAll(prefix, ps)
      decreases |vms|
    {
      var name :| name in vms;
      all := all + [Under(prefix, name)];
      AddVm(t, vms, t.subs.Keys, ps, name);
      NameOfVm(prefix, out, ps, name);
      ps := ps + [[name]];
      vms := vms - {name};
    }
  }

  lemma {:induction false} NamesOfSub(prefix: string, out: seq<string>, ps: seq<Path>, k: string, below: seq<Path>)
    requires Proper(ps) && Proper(below)
    ensures Proper(ps + Below(k, below))
    ensures out + FlatAll(prefix, ps) + FlatAll(Under(prefix, k), below) == out + FlatAll(prefix, ps + Below(k, below))
  {
    FlatBelow(prefix, k, below);
    FlatAllConcat(prefix, ps, Below(k, below));
    var a, b := FlatAll(prefix, ps), FlatAll(prefix, Below(k, below));
    assert (out + a) + b == out + (a + b);
  }

  method GatherInto(t: Lab, prefix: string, out: seq<string>) returns (all: seq<string>, ghost ps: seq<Path>)
    ensures Gathered(t, {}, {}, ps) && Proper(ps)
    ensures all == out + FlatAll(prefix, ps)
    decreases t
  {
    all, ps := GatherVms(t, prefix, out);
    var subs := t.subs.Keys;
    while subs != {}
      invariant subs <= t.subs.Keys && Gathered(t, {}, subs, ps)
      invariant Proper(ps) && all == out + FlatAll(prefix, ps)
      decreases |subs|
    {
      var k :| k in subs;
      ghost var below;
      all, below := GatherInto(t.subs[k], Under(prefix, k), all);
      AddSub(t, subs, ps, k, below);
      NamesOfSub(prefix, out, ps, k, below);
      ps := ps + Below(k, below);
      subs := subs - {k};
    }
  }

  /** An empty name directly under the root loses its level: two VMs, one flat name. */
  lemma {:induction false} EmptySubLabNameCollides()
    ensures var t := Lab({"vm"}, map["" := Lab({"vm"}, map[])]);
            HasVm(t, ["vm"]) && HasVm(t, ["", "vm"]) && Flat("", ["vm"]) == Flat("", ["", "vm"])
  {
    assert ["", "vm"][1..] == ["vm"];
  }

  // --- rebuilding ----------------------------------------------------------------------------

  /** `descend_or_create`: walk down, making what is missing. */
  function CreatePath(t: Lab, parts: Path): Lab
    decreases |parts|
  {
    if parts == [] then t
    else
      var sub := if parts[0] in t.subs then t.subs[parts[0]] else EMPTY;
      t.(subs := t.subs[parts[0] := CreatePath(sub, parts[1..])])
  }

  /** Put a VM where its path says, making the sub-labs on the way. */
  function PutVm(t: Lab, p: Path): Lab
    requires p != []
    decreases |p|
  {
    if |p| == 1 then t.(vms := t.vms + {p[0]})
    else
      var sub := if p[0] in t.subs then t.subs[p[0]] else EMPTY;
      t.(subs := t.subs[p[0] := PutVm(sub, p[1..])])
  }

  lemma {:induction false} CreatePathAddsNoVm(t: Lab, parts: Path, q: Path)
    ensures HasVm(CreatePath(t, parts), q) <==> HasVm(t, q)
    decreases |parts|
  {
    if parts != [] && |q| > 1 && q[0] == parts[0] {
      var sub := if parts[0] in t.subs then t.subs[parts[0]] else EMPTY;
      CreatePathAddsNoVm(sub, parts[1..], q[1..]);
      if parts[0] !in t.subs {
        EmptyHasNoVm(q[1..]);
      }
    }
  }

  lemma {:induction false} EmptyHasNoVm(q: Path)
    ensures !HasVm(EMPTY, q)
  {
  }

  lemma {:induction false} PutVmAddsOne(t: Lab, p: Path, q: Path)
    requires p != []
    ensures HasVm(PutVm(t, p), q) <==> HasVm(t, q) || q == p
    decreases |p|
  {
    if |p| > 1 && |q| > 1 && q[0] == p[0] {
      var sub := if p[0] in t.subs then t.subs[p[0]] else EMPTY;
      PutVmAddsOne(sub, p[1..], q[1..]);
      if p[0] !in t.subs {
        EmptyHasNoVm(q[1..]);
      }
      assert q == [q[0]] + q[1..] && p == [p[0]] + p[1..];
    } else if |p| == 1 && |q| == 1 {
      assert q == [q[0]] && p == [p[0]];
    }
  }

  datatype Result = Ok(lab: Lab) | DuplicateVmName(name: string)

  /** Two of the names mean the same place. */
  ghost predicate Repeats(names: seq<string>)
  {
    exists i, j :: 0 <= i < j < |names| && Split(names[i]) == Split(names[j])
  }

  ghost predicate Occupied(t: Lab, names: seq<string>)
  {
    exists i :: 0 <= i < |names| && HasVm(t, Split(names[i]))
  }

  /** Make every sub-lab on the way, and refuse if any VM is already there. */
  method Preflight(t: Lab, names: seq<string>) returns (r: Result)
    ensures r.DuplicateVmName? <==> Occupied(t, names)
    ensures r.Ok? ==> forall q :: HasVm(r.lab, q) <==> HasVm(t, q)
  {
    var lab := t;
    for i := 0 to |names|
      invariant forall q :: HasVm(lab, q) <==> HasVm(t, q)
      invariant forall j :: 0 <= j < i ==> !HasVm(t, Split(names[j]))
    {
      var (parts, leaf) := SplitSubLabPath(names[i]);
      forall q
        ensures HasVm(CreatePath(lab, parts), q) <==> HasVm(t, q)
      {
        CreatePathAddsNoVm(lab, parts, q);
      }
      lab := CreatePath(lab, parts);
      assert parts + [leaf] == Split(names[i]);
      if HasVm(lab, parts + [leaf]) {
        return DuplicateVmName(names[i]);
      }
    }
    return Ok(lab);
  }

  ghost predicate Listed(names: seq<string>, q: Path)
  {
    exists i :: 0 <= i < |names| && q == Split(names[i])
  }

  /** Exactly these places are added. */
  ghost predicate Grown(lab: Lab, t: Lab, names: seq<string>)
  {
    forall q :: HasVm(lab, q) <==> HasVm(t, q) || Listed(names, q)
  }

  lemma {:induction false} GrownByOne(lab: Lab, t: Lab, names: seq<string>, i: nat)
    requires i < |names| && Grown(lab, t, names[..i])
    ensures Grown(PutVm(lab, Split(names[i])), t, names[..i + 1])
  {
    var a, b := names[..i], names[..i + 1];
    assert b == a + [names[i]];
    forall q
      ensures HasVm(PutVm(lab, Split(names[i])), q) <==> HasVm(t, q) || Listed(b, q)
    {
      PutVmAddsOne(lab, Split(names[i]), q);
      if q == Split(names[i]) {
        assert q == Split(b[i]);
      }
      if j :| 0 <= j < |a| && q == Split(a[j]) {
        assert q == Split(b[j]);
      }
      assert forall j :: 0 <= j < |b| && q == Split(b[j]) ==> j == i || q == Split(a[j]);
    }
  }

  lemma {:induction false} NoRepeatYet(names: seq<string>, i: nat)
    requires i < |names| && !Repeats(names[..i])
    requires forall j :: 0 <= j < i ==> Split(names[..i][j]) != Split(names[i])
    ensures !Repeats(names[..i + 1])
  {
    var a, b := names[..i], names[..i + 1];
    forall j, k | 0 <= j < k < |b| ensures Split(b[j]) != Split(b[k]) {
      assert b[j] == a[j];
      if k < i { assert b[k] == a[k]; }
    }
  }

  /** The VM part of `lab_restore`: check everything first, then put each VM back. */
  method RestoreVms(t: Lab, names: seq<string>) returns (r: Result)
    ensures r.DuplicateVmName? <==> Occupied(t, names) || Repeats(names)
    ensures r.Ok? ==> Grown(r.lab, t, names)
  {
    r := Preflight(t, names);
    if r.Ok? { r := PutVms(r.lab, t, names); }
  }

  method PutVms(start: Lab, ghost t: Lab, names: seq<string>) returns (r: Result)
    requires Grown(start, t, []) && !Occupied(t, names)
    ensures r.DuplicateVmName? <==> Repeats(names)
    ensures r.Ok? ==> Grown(r.lab, t, names)
  {
    var lab := start;
    for i := 0 to |names|
      invariant Grown(lab, t, names[..i])
      invariant !Repeats(names[..i])
    {
      if HasVm(lab, Split(names[i])) {
        var j :| 0 <= j < i && Split(names[i]) == Split(names[..i][j]);
        assert Split(names[j]) == Split(names[i]);
        return DuplicateVmName(names[i]);
      }
      NoRepeatYet(names, i);
      GrownByOne(lab, t, names, i);
      lab := PutVm(lab, Split(names[i]));
    }
    assert names[..|names|] == names;
    return Ok(lab);
  }

  // --- flatten and rebuild ---------------------------------------------------------------

  /** No VM lies below an empty-named sub-lab of the root. */
  ghost predicate Anchored(t: Lab)
  {
    "" in t.subs ==> forall p :: !HasVm(t.subs[""], p)
  }

  lemma {:induction false} AnchoredPath(t: Lab, p: Path)
    requires Anchored(t) && HasVm(t, p)
    ensures Strip(p) == p
  {}

  lemma {:induction false} UnanchoredPath(t: Lab) returns (p: Path)
    requires !Anchored(t)
    ensures HasVm(t, p) && Strip(p) != p
  {
    var below :| HasVm(t.subs[""], below);
    p := [""] + below;
    assert p[1..] == below;
  }

  /** The VMs of an anchored lab have distinct flat names, each of which splits back. */
  lemma {:induction false} FlatNamesAreDistinct(t: Lab, p: Path, q: Path)
    requires SlashFree(t) && Anchored(t) && HasVm(t, p) && HasVm(t, q) && p != q
    ensures Flat("", p) != Flat("", q) && Split(Flat("", p)) == p
  {
    VmsAreSlashFree(t, p);
    VmsAreSlashFree(t, q);
    AnchoredPath(t, p);
    AnchoredPath(t, q);
    FlatNamesCollide(p, q);
    SplitFlatStrips(p);
  }

  /** Two VMs whose flat names are the same. */
  ghost predicate Collides(t: Lab)
  {
    exists p, q :: HasVm(t, p) && HasVm(t, q) && p != q && Strip(p) == Strip(q)
  }

  ghost predicate Lands(t: Lab, q: Path)
  {
    exists p :: HasVm(t, p) && Strip(p) == q
  }

  /** The VMs of `t`, each where its flat name puts it. */
  ghost predicate RebuiltFrom(rebuilt: Lab, t: Lab)
  {
    forall q :: HasVm(rebuilt, q) <==> Lands(t, q)
  }

  /**
   * Flatten and rebuild, for every lab without a slash in a name: restoring the gathered
   * names into an empty lab is refused exactly when two VMs differ in leading empty names
   * alone, and gives the very same VMs in the very same places exactly when no VM lies
   * below an empty-named sub-lab of the root.
   */
  method FlattenAndRebuild(t: Lab) returns (names: seq<string>, r: Result)
    requires SlashFree(t)
    ensures r.DuplicateVmName? <==> Collides(t)
    ensures r.Ok? ==> Distinct(names) && RebuiltFrom(r.lab, t)
    ensures (r.Ok? && forall q :: HasVm(r.lab, q) <==> HasVm(t, q)) <==> Anchored(t)
  {
    ghost var ps;
    names, ps := GatherInto(t, "", []);
    assert names == FlatAll("", ps);
    NamesOf(t, ps);
    NothingOccupied(names);
    r := RestoreVms(EMPTY, names);
    RepeatsExactly(t, ps, names);
    if r.Ok? {
      RebuiltExactly(t, ps, names, r.lab);
      SameExactlyWhenAnchored(t, r.lab);
    } else {
      CollisionNeedsEmptyName(t);
    }
  }

  lemma {:induction false} NothingOccupied(names: seq<string>)
    ensures !Occupied(EMPTY, names)
  {
    forall i | 0 <= i < |names| ensures !HasVm(EMPTY, Split(names[i])) {
      EmptyHasNoVm(Split(names[i]));
    }
  }

  lemma {:induction false} FlatAllAt(prefix: string, ps: seq<Path>)
    requires Proper(ps)
    ensures |FlatAll(prefix, ps)| == |ps|
    ensures forall i :: 0 <= i < |ps| ==> FlatAll(prefix, ps)[i] == Flat(prefix, ps[i])
  {
    if ps != [] {
      FlatAllAt(prefix, ps[..|ps| - 1]);
    }
  }

  ghost predicate NamesFor(ps: seq<Path>, names: seq<string>)
  {
    Proper(ps) && |names| == |ps| && forall i :: 0 <= i < |ps| ==> Split(names[i]) == Strip(ps[i])
  }

  lemma {:induction false} NamesOf(t: Lab, ps: seq<Path>)
    requires SlashFree(t) && Gathered(t, {}, {}, ps) && Proper(ps)
    ensures NamesFor(ps, FlatAll("", ps))
  {
    FlatAllAt("", ps);
    forall i | 0 <= i < |ps|
      ensures Split(FlatAll("", ps)[i]) == Strip(ps[i])
    {
      assert ps[i] in ps;
      VmsAreSlashFree(t, ps[i]);
      SplitFlatStrips(ps[i]);
    }
  }

  lemma {:induction false} RepeatCollides(t: Lab, ps: seq<Path>, names: seq<string>, i: nat, j: nat)
    requires Gathered(t, {}, {}, ps) && NamesFor(ps, names)
    requires i < j < |names| && Split(names[i]) == Split(names[j])
    ensures Collides(t)
  {
    var p, q := ps[i], ps[j];
    assert p in ps && q in ps;
    assert HasVm(t, p) && HasVm(t, q) && p != q && Strip(p) == Strip(q);
  }

  lemma {:induction false} CollisionRepeats(t: Lab, ps: seq<Path>, names: seq<string>, p: Path, q: Path)
    requires Gathered(t, {}, {}, ps) && NamesFor(ps, names)
    requires HasVm(t, p) && HasVm(t, q) && p != q && Strip(p) == Strip(q)
    ensures Repeats(names)
  {
    assert p in ps && q in ps;
    var i :| 0 <= i < |ps| && ps[i] == p;
    var j :| 0 <= j < |ps| && ps[j] == q;
    assert Split(names[i]) == Split(names[j]);
  }

  lemma {:induction false} RepeatsExactly(t: Lab, ps: seq<Path>, names: seq<string>)
    requires Gathered(t, {}, {}, ps) && NamesFor(ps, names)
    ensures Repeats(names) <==> Collides(t)
    ensures !Repeats(names) ==> Distinct(names)
  {
    if i, j :| 0 <= i < j < |names| && Split(names[i]) == Split(names[j]) {
      RepeatCollides(t, ps, names, i, j);
    }
    if p, q :| HasVm(t, p) && HasVm(t, q) && p != q && Strip(p) == Strip(q) {
      CollisionRepeats(t, ps, names, p, q);
    }
  }

  lemma {:induction false} ListedExactly(t: Lab, ps: seq<Path>, names: seq<string>, q: Path)
    requires Gathered(t, {}, {}, ps) && NamesFor(ps, names)
    ensures Listed(names, q) <==> Lands(t, q)
  {
    if i :| 0 <= i < |names| && q == Split(names[i]) {
      assert ps[i] in ps && Strip(ps[i]) == q;
    }
    if p :| HasVm(t, p) && Strip(p) == q {
      assert p in ps;
      var i :| 0 <= i < |ps| && ps[i] == p;
      assert q == Split(names[i]);
    }
  }

  lemma {:induction false} RebuiltExactly(t: Lab, ps: seq<Path>, names: seq<string>, lab: Lab)
    requires Gathered(t, {}, {}, ps) && NamesFor(ps, names) && Grown(lab, EMPTY, names)
    ensures RebuiltFrom(lab, t)
  {
    forall q ensures HasVm(lab, q) <==> Lands(t, q) {
      EmptyHasNoVm(q);
      ListedExactly(t, ps, names, q);
    }
  }

  lemma {:induction false} LandsAnchored(t: Lab, q: Path)
    requires Anchored(t)
    ensures Lands(t, q) <==> HasVm(t, q)
  {
    if HasVm(t, q) {
      AnchoredPath(t, q);
      assert Strip(q) == q;
    }
    if p :| HasVm(t, p) && Strip(p) == q {
      AnchoredPath(t, p);
    }
  }

  lemma {:induction false} SameExactlyWhenAnchored(t: Lab, lab: Lab)
    requires RebuiltFrom(lab, t)
    ensures (forall q :: HasVm(lab, q) <==> HasVm(t, q)) <==> Anchored(t)
  {
    if Anchored(t) {
      forall q ensures HasVm(lab, q) <==> HasVm(t, q) { LandsAnchored(t, q); }
    } else {
      var p := UnanchoredPath(t);
      forall o | HasVm(t, o) ensures Strip(o) != p {}
      assert !HasVm(lab, p);
    }
  }

  lemma {:induction false} CollisionNeedsEmptyName(t: Lab)
    requires Collides(t)
    ensures !Anchored(t)
  {
    var p, q :| HasVm(t, p) && HasVm(t, q) && p != q && Strip(p) == Strip(q);
    var o := if Strip(p) != p then p else q;
    assert HasVm(t.subs[""], o[1..]);
  }
}
