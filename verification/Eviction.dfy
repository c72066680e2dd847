/**
 * LRU eviction of the fixture cache (`evict_to` of provium-host/src/fixture.rs).
 * The directory listing is a parameter, and so is which removals fail; what is
 * left in the directory is returned.
 */
module Eviction {
  datatype Entry = Entry(path: string, size: nat, atime: int)

  datatype Report = Report(evictedCount: nat, evictedBytes: nat, keptBytes: nat)

  function Total(es: seq<Entry>): nat
  {
    if es == [] then 0 else es[0].size + Total(es[1..])
  }

  /** How often `e` occurs. */
  ghost function Count(es: seq<Entry>, e: Entry): nat
  {
    if es == [] then 0 else (if es[0] == e then 1 else 0) + Count(es[1..], e)
  }

  lemma {:induction false} Concat(a: seq<Entry>, b: seq<Entry>, e: Entry)
    ensures Total(a + b) == Total(a) + Total(b)
    ensures Count(a + b, e) == Count(a, e) + Count(b, e)
  {
    if a == [] {
      assert a + b == b;
    } else {
      assert (a + b)[1..] == a[1..] + b;
      Concat(a[1..], b, e);
    }
  }

  lemma {:induction false} CountIsMembership(es: seq<Entry>, e: Entry)
    ensures e in es <==> Count(es, e) > 0
  {
    if es != [] {
      CountIsMembership(es[1..], e);
      assert es == [es[0]] + es[1..];
    }
  }

  /** `a` and `b` together are the entries of `whole`, each as often. */
  ghost predicate Parts(a: seq<Entry>, b: seq<Entry>, whole: seq<Entry>)
  {
    forall e :: Count(a, e) + Count(b, e) == Count(whole, e)
  }

  // --- oldest first ---------------------------------------------------------------------

  /** Before every younger entry; entries arriving earlier stay in front of their equals. */
  function Insert(e: Entry, sorted: seq<Entry>): seq<Entry>
  {
    if sorted == [] || e.atime <= sorted[0].atime then [e] + sorted
    else [sorted[0]] + Insert(e, sorted[1..])
  }

  /** Stable: the first entry is put back in front of its equals. */
  function SortByAge(es: seq<Entry>): seq<Entry>
  {
    if es == [] then [] else Insert(es[0], SortByAge(es[1..]))
  }

  ghost predicate OldestFirst(es: seq<Entry>)
  {
    forall i, j :: 0 <= i < j < |es| ==> es[i].atime <= es[j].atime
  }

  lemma {:induction false} InsertSorts(e: Entry, sorted: seq<Entry>, least: int)
    requires OldestFirst(sorted) && least <= e.atime && forall i :: 0 <= i < |sorted| ==> least <= sorted[i].atime
    ensures OldestFirst(Insert(e, sorted))
    ensures forall i :: 0 <= i < |Insert(e, sorted)| ==> least <= Insert(e, sorted)[i].atime
  {
    if sorted != [] && e.atime > sorted[0].atime {
      InsertSorts(e, sorted[1..], sorted[0].atime);
    }
  }

  lemma {:induction false} InsertKeeps(x: Entry, sorted: seq<Entry>, e: Entry)
    ensures Total(Insert(x, sorted)) == x.size + Total(sorted)
    ensures Count(Insert(x, sorted), e) == (if x == e then 1 else 0) + Count(sorted, e)
  {
    if sorted == [] || x.atime <= sorted[0].atime {
      assert ([x] + sorted)[1..] == sorted;
    } else {
      InsertKeeps(x, sorted[1..], e);
      assert ([sorted[0]] + Insert(x, sorted[1..]))[1..] == Insert(x, sorted[1..]);
    }
  }

  lemma {:induction false} SortKeeps(es: seq<Entry>, e: Entry)
    ensures Total(SortByAge(es)) == Total(es)
    ensures Count(SortByAge(es), e) == Count(es, e)
  {
    if es != [] {
      SortKeeps(es[1..], e);
      InsertKeeps(es[0], SortByAge(es[1..]), e);
    }
  }

  lemma {:induction false} SortSorts(es: seq<Entry>)
    ensures OldestFirst(SortByAge(es))
  {
    if es != [] {
      SortSorts(es[1..]);
      var sorted := SortByAge(es[1..]);
      var least := if sorted != [] && sorted[0].atime < es[0].atime then sorted[0].atime else es[0].atime;
      InsertSorts(es[0], sorted, least);
    }
  }

  // --- eviction ----------------------------------------------------------------------------

  /** Among what could be removed, nothing kept is older than something evicted. */
  ghost predicate LeastRecent(removed: seq<Entry>, left: seq<Entry>, fails: set<string>)
  {
    forall r, l :: r in removed && l in left && l.path !in fails ==> r.atime <= l.atime
  }

  method EvictTo(entries: seq<Entry>, fails: set<string>, max: nat)
    returns (report: Report, removed: seq<Entry>, left: seq<Entry>)
    ensures Parts(removed, left, entries)
    ensures report == Report(|removed|, Total(removed), Total(left))
    ensures report.evictedBytes + report.keptBytes == Total(entries)
    ensures forall r :: r in removed ==> r.path !in fails
    ensures Total(entries) <= max ==> removed == []
    ensures LeastRecent(removed, left, fails)
    ensures removed != [] ==> report.keptBytes + removed[|removed| - 1].size > max
    ensures report.keptBytes > max ==> forall l :: l in left ==> l.path in fails
    ensures (forall e :: e in entries ==> e.path !in fails) ==> report.keptBytes <= max
  {
    var total := Total(entries);
    if total <= max {
      return Report(0, 0, total), [], entries;
    }
    var sorted := SortByAge(entries);
    SortSorts(entries);
    SortKeeps(entries, Entry("", 0, 0));
    var stuck, i;
    report, removed, stuck, i := EvictOldest(sorted, fails, max);
    left := stuck + sorted[i..];
    Finished(entries, removed, stuck, i, fails);
    if report.keptBytes > max && left != [] {
      assert left == stuck && left[0] in left;
    }
  }

  /** The first `i` entries are settled: removed, or stuck because they could not be. */
  ghost predicate Progress(sorted: seq<Entry>, i: nat, removed: seq<Entry>, stuck: seq<Entry>, fails: set<string>)
    requires i <= |sorted|
  {
    && Parts(removed, stuck, sorted[..i])
    && (forall r :: r in removed ==> r.path !in fails && i > 0 && r.atime <= sorted[i - 1].atime)
    && (forall l :: l in stuck ==> l.path in fails)
  }

  lemma {:induction false} PartsGrow(a: seq<Entry>, b: seq<Entry>, whole: seq<Entry>, x: Entry)
    requires Parts(a, b, whole)
    ensures Parts(a + [x], b, whole + [x]) && Parts(a, b + [x], whole + [x])
  {
    forall e
      ensures Count(a + [x], e) + Count(b, e) == Count(whole + [x], e) == Count(a, e) + Count(b + [x], e)
    {
      Concat(a, [x], e);
      Concat(b, [x], e);
      Concat(whole, [x], e);
    }
  }

  lemma {:induction false} ProgressStep(sorted: seq<Entry>, i: nat, removed: seq<Entry>, stuck: seq<Entry>, fails: set<string>)
    requires i < |sorted| && OldestFirst(sorted) && Progress(sorted, i, removed, stuck, fails)
    ensures var e := sorted[i];
            if e.path in fails then Progress(sorted, i + 1, removed, stuck + [e], fails)
            else Progress(sorted, i + 1, removed + [e], stuck, fails)
  {
    PartsGrow(removed, stuck, sorted[..i], sorted[i]);
    assert sorted[..i + 1] == sorted[..i] + [sorted[i]];
  }

  lemma {:induction false} Finished(entries: seq<Entry>, removed: seq<Entry>, stuck: seq<Entry>, i: nat, fails: set<string>)
    requires i <= |SortByAge(entries)| && Progress(SortByAge(entries), i, removed, stuck, fails)
    ensures var left := stuck + SortByAge(entries)[i..];
            && Parts(removed, left, entries) && LeastRecent(removed, left, fails)
            && Total(left) == Total(stuck) + Total(SortByAge(entries)[i..])
            && (forall r :: r in removed ==> r.path !in fails) && (forall l :: l in stuck ==> l.path in fails)
            && (forall l :: l in left ==> l in entries)
  {
    SortSorts(entries);
    var sorted := SortByAge(entries);
    var left := stuck + sorted[i..];
    forall e
      ensures Count(removed, e) + Count(left, e) == Count(entries, e)
      ensures e in left ==> e in entries
    {
      Concat(stuck, sorted[i..], e);
      Concat(sorted[..i], sorted[i..], e);
      assert sorted[..i] + sorted[i..] == sorted;
      SortKeeps(entries, e);
      CountIsMembership(left, e);
      CountIsMembership(entries, e);
    }
    Concat(stuck, sorted[i..], Entry("", 0, 0));
  }

  /** The removal loop over the entries, oldest first; `stuck` are those it could not remove. */
  method EvictOldest(sorted: seq<Entry>, fails: set<string>, max: nat)
    returns (report: Report, removed: seq<Entry>, stuck: seq<Entry>, i: nat)
    requires OldestFirst(sorted)
    ensures i <= |sorted| && Progress(sorted, i, removed, stuck, fails)
    ensures report == Report(|removed|, Total(removed), Total(stuck) + Total(sorted[i..]))
    ensures report.evictedBytes + report.keptBytes == Total(sorted)
    ensures removed != [] ==> report.keptBytes + removed[|removed| - 1].size > max
    ensures i == |sorted| || report.keptBytes <= max
  {
    report := Report(0, 0, Total(sorted));
    stuck, removed, i := [], [], 0;
    SettledAtStart(sorted, fails, max);
    while i < |sorted| && report.keptBytes > max
      invariant Settled(sorted, i, removed, stuck, fails, report, max)
    {
      SettleStep(sorted, i, removed, stuck, fails, report, max);
      var entry := sorted[i];
      removed, stuck, report := TryEvict(entry, fails, removed, stuck, report);
      i := i + 1;
    }
  }

  /** One removal: counted when it works, passed over when it fails. */
  method TryEvict(entry: Entry, fails: set<string>, removed: seq<Entry>, stuck: seq<Entry>, report: Report)
    returns (removed': seq<Entry>, stuck': seq<Entry>, report': Report)
    requires report.keptBytes >= entry.size
    ensures removed' == if entry.path in fails then removed else removed + [entry]
    ensures stuck' == if entry.path in fails then stuck + [entry] else stuck
    ensures report' == if entry.path in fails then report else Evicted(report, entry)
  {
    if entry.path in fails {
      return removed, stuck + [entry], report;
    }
    return removed + [entry], stuck,
           Report(report.evictedCount + 1, report.evictedBytes + entry.size, report.keptBytes - entry.size);
  }

  function Evicted(report: Report, e: Entry): Report
    requires report.keptBytes >= e.size
  {
    Report(report.evictedCount + 1, report.evictedBytes + e.size, report.keptBytes - e.size)
  }

  ghost predicate Settled(sorted: seq<Entry>, i: nat, removed: seq<Entry>, stuck: seq<Entry>, fails: set<string>, report: Report, max: nat)
  {
    i <= |sorted| && Progress(sorted, i, removed, stuck, fails) && Tallied(sorted, i, removed, stuck, report, max)
  }

  lemma {:induction false} SettledAtStart(sorted: seq<Entry>, fails: set<string>, max: nat)
    ensures Settled(sorted, 0, [], [], fails, Report(0, 0, Total(sorted)), max)
  {
    assert sorted[..0] == [] && sorted[0..] == sorted;
  }

  /** One more entry, whether or not it can be removed. */
  lemma {:induction false} SettleStep(sorted: seq<Entry>, i: nat, removed: seq<Entry>, stuck: seq<Entry>, fails: set<string>,
                                      report: Report, max: nat)
    requires OldestFirst(sorted) && i < |sorted| && Settled(sorted, i, removed, stuck, fails, report, max) && report.keptBytes > max
    ensures report.keptBytes >= sorted[i].size
    ensures var e := sorted[i];
            var kept := e.path in fails;
            Settled(sorted, i + 1, if kept then removed else removed + [e], if kept then stuck + [e] else stuck, fails,
                    if kept then report else Evicted(report, e), max)
  {
    ProgressStep(sorted, i, removed, stuck, fails);
    TallyStep(sorted, i, removed, stuck, report, max);
  }

  /** The counters agree with what has been settled so far. */
  ghost predicate Tallied(sorted: seq<Entry>, i: nat, removed: seq<Entry>, stuck: seq<Entry>, report: Report, max: nat)
  {
    && i <= |sorted| && report == Report(|removed|, Total(removed), Total(stuck) + Total(sorted[i..]))
    && report.evictedBytes + report.keptBytes == Total(sorted)
    && (removed != [] ==> report.keptBytes + removed[|removed| - 1].size > max)
  }

  lemma {:induction false} TallyStep(sorted: seq<Entry>, i: nat, removed: seq<Entry>, stuck: seq<Entry>, report: Report, max: nat)
    requires i < |sorted| && Tallied(sorted, i, removed, stuck, report, max) && report.keptBytes > max
    ensures var e := sorted[i];
            && report.keptBytes >= e.size
            && Tallied(sorted, i + 1, removed, stuck + [e], report, max)
            && Tallied(sorted, i + 1, removed + [e], stuck, Evicted(report, e), max)
  {
    var e := sorted[i];
    assert sorted[i..] == [e] + sorted[i + 1..];
    Concat([e], sorted[i + 1..], e);
    Concat(stuck, [e], e);
    Concat(removed, [e], e);
  }
}
