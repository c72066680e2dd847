/**
 * The fixture source scanners (provium-host/src/fixture.rs): finding the string
 * literal arguments of marker calls, in source order, and the parenthesis that
 * closes a call.
 */
module FixtureScan {
  import opened Options

  datatype Hit = Hit(pos: nat, name: string)

  predicate Ident(c: char)
  {
    'a' <= c <= 'z' || 'A' <= c <= 'Z' || '0' <= c <= '9' || c == '_'
  }

  /** Unicode White_Space, which `trim_start` trims. */
  predicate Space(c: char)
  {
    || '\U{9}' <= c <= '\U{D}' || c == ' ' || c == '\U{85}' || c == '\U{A0}' || c == '\U{1680}'
    || '\U{2000}' <= c <= '\U{200A}' || c == '\U{2028}' || c == '\U{2029}' || c == '\U{202F}'
    || c == '\U{205F}' || c == '\U{3000}'
  }

  function TrimStart(s: string): string
  {
    if s != [] && Space(s[0]) then TrimStart(s[1..]) else s
  }

  /** Everything up to the first `q`. */
  function Until(s: string, q: char): Option<string>
  {
    if s == [] then None
    else if s[0] == q then Some([])
    else match Until(s[1..], q)
      case None => None
      case Some(t) => Some([s[0]] + t)
  }

  /** The literal that opens an argument list, if `after` is one: `( "…"` or `( '…'`. */
  function CallLiteral(after: string): Option<string>
  {
    var t := TrimStart(after);
    if t == [] || t[0] != '(' then None
    else
      var u := TrimStart(t[1..]);
      if u != [] && (u[0] == '"' || u[0] == '\'') then Until(u[1..], u[0]) else None
  }

  predicate MarkerAt(s: string, marker: string, p: nat)
  {
    p + |marker| <= |s| && s[p..p + |marker|] == marker
  }

  /** The literal of a marker call at `p`, if there is one there at an identifier boundary. */
  function HitAt(s: string, marker: string, p: nat): Option<string>
  {
    if MarkerAt(s, marker, p) && (p == 0 || !Ident(s[p - 1])) then CallLiteral(s[p + |marker|..]) else None
  }

  // --- what a hit is -------------------------------------------------------------------

  predicate AllSpace(w: string)
  {
    forall i :: 0 <= i < |w| ==> Space(w[i])
  }

  /** White space, a parenthesis, white space, a quoted name, and anything after it. */
  predicate Opens(after: string, w: string, v: string, q: char, name: string, rest: string)
  {
    && AllSpace(w) && AllSpace(v) && (q == '"' || q == '\'') && q !in name
    && after == w + "(" + v + [q] + name + [q] + rest
  }

  /** The text from `p` on is a call of `marker`, at an identifier boundary, with the literal `name`. */
  ghost predicate CallAt(s: string, marker: string, p: nat, name: string)
  {
    && p + |marker| <= |s| && s[p..p + |marker|] == marker && (p == 0 || !Ident(s[p - 1]))
    && OpensSomehow(s[p + |marker|..], name)
  }

  ghost predicate OpensSomehow(after: string, name: string)
  {
    exists w, v, q, rest :: Opens(after, w, v, q, name, rest)
  }

  lemma {:induction false} LiteralIsOpening(after: string, name: string)
    ensures CallLiteral(after) == Some(name) <==> OpensSomehow(after, name)
  {
    if CallLiteral(after) == Some(name) {
      var w, v, q, rest := LiteralOpens(after);
      assert Opens(after, w, v, q, name, rest);
    }
    if OpensSomehow(after, name) {
      var w, v, q, rest :| Opens(after, w, v, q, name, rest);
      OpensLiteral(after, w, v, q, name, rest);
    }
  }

  lemma {:induction false} Trimmed(s: string) returns (w: string)
    ensures AllSpace(w) && s == w + TrimStart(s)
  {
    if s != [] && Space(s[0]) {
      var more := Trimmed(s[1..]);
      w := [s[0]] + more;
      assert s == [s[0]] + s[1..];
      assert [s[0]] + (more + TrimStart(s)) == w + TrimStart(s);
    } else {
      w := [];
      assert s == [] + TrimStart(s);
    }
  }

  lemma {:induction false} TrimTo(w: string, c: char, rest: string)
    requires AllSpace(w) && !Space(c)
    ensures TrimStart(w + ([c] + rest)) == [c] + rest
  {
    var s := w + ([c] + rest);
    if w == [] {
      assert s == [c] + rest;
    } else {
      assert s[1..] == w[1..] + ([c] + rest) && s[0] == w[0];
      TrimTo(w[1..], c, rest);
    }
  }

  lemma {:induction false} UntilSplits(s: string, q: char) returns (rest: string)
    requires Until(s, q).Some?
    ensures q !in Until(s, q).value && s == Until(s, q).value + [q] + rest
  {
    if s[0] == q {
      rest := s[1..];
      assert s == [] + [q] + rest;
    } else {
      rest := UntilSplits(s[1..], q);
      var t := Until(s[1..], q).value;
      assert s == [s[0]] + s[1..] == ([s[0]] + t) + [q] + rest;
    }
  }

  lemma {:induction false} UntilFinds(name: string, q: char, rest: string)
    requires q !in name
    ensures Until(name + [q] + rest, q) == Some(name)
  {
    var s := name + [q] + rest;
    if name == [] {
      assert s[0] == q;
    } else {
      assert s[0] == name[0] && name[0] in name && s[1..] == name[1..] + [q] + rest;
      assert q !in name[1..];
      UntilFinds(name[1..], q, rest);
      assert [name[0]] + name[1..] == name;
    }
  }

  lemma {:induction false} LiteralOpens(after: string) returns (w: string, v: string, q: char, rest: string)
    requires CallLiteral(after).Some?
    ensures Opens(after, w, v, q, CallLiteral(after).value, rest)
  {
    w := Trimmed(after);
    var t := TrimStart(after);
    v := Trimmed(t[1..]);
    var u := TrimStart(t[1..]);
    q := u[0];
    rest := UntilSplits(u[1..], q);
    var name := CallLiteral(after).value;
    assert t == "(" + t[1..] && u == [q] + u[1..];
    Reassembled(w, v, q, name, rest);
  }

  lemma {:induction false} Reassembled(w: string, v: string, q: char, name: string, rest: string)
    ensures w + ("(" + (v + ([q] + (name + [q] + rest)))) == w + "(" + v + [q] + name + [q] + rest
  {
  }

  lemma {:induction false} OpensLiteral(after: string, w: string, v: string, q: char, name: string, rest: string)
    requires Opens(after, w, v, q, name, rest)
    ensures CallLiteral(after) == Some(name)
  {
    var body := name + [q] + rest;
    Reassembled(w, v, q, name, rest);
    assert after == w + (['('] + (v + ([q] + body)));
    TrimTo(w, '(', v + ([q] + body));
    var t := TrimStart(after);
    assert t[1..] == v + ([q] + body);
    TrimTo(v, q, body);
    assert ([q] + body)[1..] == body;
    UntilFinds(name, q, rest);
  }

  /** A hit is exactly a call: the scanner finds every one of them and nothing else. */
  lemma {:induction false} HitIsCall(s: string, marker: string, p: nat, name: string)
    ensures HitAt(s, marker, p) == Some(name) <==> CallAt(s, marker, p, name)
  {
    if MarkerAt(s, marker, p) { LiteralIsOpening(s[p + |marker|..], name); }
  }

  /** What there is to find at each position. */
  type Finder = nat -> Option<string>

  function Hits(s: string, marker: string): Finder
  {
    (p: nat) => HitAt(s, marker, p)
  }

  /** Every hit from position `p` to `n`, in order, by looking at every position. */
  function Collect(hit: Finder, n: nat, p: nat): seq<Hit>
    decreases n - p
  {
    if p > n then []
    else if hit(p).Some? then [Hit(p, hit(p).value)] + Collect(hit, n, p + 1)
    else Collect(hit, n, p + 1)
  }

  predicate IsMarker(m: string)
  {
    m != [] && forall c :: c in m ==> Ident(c)
  }

  lemma {:induction false} SkipHitless(hit: Finder, n: nat, a: nat, b: nat)
    requires a <= b && forall p: nat :: a <= p < b ==> hit(p) == None
    ensures Collect(hit, n, a) == Collect(hit, n, b)
    decreases b - a
  {
    if a < b && a <= n {
      SkipHitless(hit, n, a + 1, b);
    }
  }

  /** A marker starting inside another one follows an identifier character, so it is never a hit. */
  lemma {:induction false} NoHitInsideMarker(s: string, marker: string, at: nat, p: nat)
    requires IsMarker(marker) && MarkerAt(s, marker, at) && at < p < at + |marker|
    ensures HitAt(s, marker, p) == None
  {
    assert s[p - 1] == s[at..at + |marker|][p - 1 - at];
    assert s[p - 1] in marker;
  }

  /** `find`: the first place at or after `from` where the marker stands. */
  method Find(s: string, marker: string, from: nat) returns (found: Option<nat>)
    requires from <= |s|
    ensures found.Some? ==> from <= found.value && MarkerAt(s, marker, found.value)
    ensures forall p: nat :: from <= p && (found.Some? ==> p < found.value) ==> !MarkerAt(s, marker, p)
  {
    var p := from;
    while p + |marker| <= |s|
      invariant from <= p
      invariant forall q: nat :: from <= q < p ==> !MarkerAt(s, marker, q)
    {
      if s[p..p + |marker|] == marker {
        return Some(p);
      }
      p := p + 1;
    }
    return None;
  }

  lemma {:induction false} OneHitBetween(hit: Finder, n: nat, idx: nat, at: nat, end: nat)
    requires idx <= at < end && at <= n
    requires forall p: nat :: idx <= p < end && p != at ==> hit(p) == None
    ensures Collect(hit, n, idx) == (if hit(at).Some? then [Hit(at, hit(at).value)] else []) + Collect(hit, n, end)
  {
    SkipHitless(hit, n, idx, at);
    SkipHitless(hit, n, at + 1, end);
  }

  lemma {:induction false} NoMarkerNoHit(s: string, marker: string, idx: nat, at: nat, p: nat)
    requires IsMarker(marker) && idx <= at && MarkerAt(s, marker, at) && idx <= p < at + |marker| && p != at
    requires forall q: nat :: idx <= q < at ==> !MarkerAt(s, marker, q)
    ensures HitAt(s, marker, p) == None
  {
    if p > at { NoHitInsideMarker(s, marker, at, p); }
  }

  /** Between one marker and the end of the next nothing is a hit but that next marker. */
  lemma {:induction false} JumpLosesNothing(s: string, marker: string, idx: nat, at: nat)
    requires IsMarker(marker) && idx <= at && MarkerAt(s, marker, at)
    requires forall p: nat :: idx <= p < at ==> !MarkerAt(s, marker, p)
    ensures var hit := Hits(s, marker);
            Collect(hit, |s|, idx) ==
            (if hit(at).Some? then [Hit(at, hit(at).value)] else []) + Collect(hit, |s|, at + |marker|)
  {
    var hit := Hits(s, marker);
    forall p: nat | idx <= p < at + |marker| && p != at ensures hit(p) == None {
      NoMarkerNoHit(s, marker, idx, at, p);
    }
    OneHitBetween(hit, |s|, idx, at, at + |marker|);
  }

  /** The hits so far with the one at `at` added, if there is one. */
  function WithHit(hits: seq<Hit>, hit: Option<string>, at: nat): seq<Hit>
  {
    if hit.Some? then hits + [Hit(at, hit.value)] else hits
  }

  lemma {:induction false} Regroup(hits: seq<Hit>, hit: Option<string>, at: nat, later: seq<Hit>)
    ensures hits + ((if hit.Some? then [Hit(at, hit.value)] else []) + later) == WithHit(hits, hit, at) + later
  {
  }

  lemma {:induction false} ScanStep(s: string, marker: string, idx: nat, at: nat, hits: seq<Hit>)
    requires IsMarker(marker) && idx <= at && MarkerAt(s, marker, at)
    requires forall p: nat :: idx <= p < at ==> !MarkerAt(s, marker, p)
    ensures hits + Collect(Hits(s, marker), |s|, idx) ==
            WithHit(hits, HitAt(s, marker, at), at) + Collect(Hits(s, marker), |s|, at + |marker|)
  {
    JumpLosesNothing(s, marker, idx, at);
    Regroup(hits, HitAt(s, marker, at), at, Collect(Hits(s, marker), |s|, at + |marker|));
  }

  lemma {:induction false} NoneLeft(s: string, marker: string, idx: nat, hits: seq<Hit>)
    requires idx <= |s| && forall p: nat :: idx <= p ==> !MarkerAt(s, marker, p)
    ensures hits + Collect(Hits(s, marker), |s|, idx) == hits
  {
    SkipHitless(Hits(s, marker), |s|, idx, |s| + 1);
  }

  /** The literal of the call whose marker stands at `at`, if it is one. */
  method ReadCall(s: string, marker: string, at: nat) returns (hit: Option<string>)
    requires MarkerAt(s, marker, at)
    ensures hit == HitAt(s, marker, at)
  {
    if at > 0 && Ident(s[at - 1]) {
      return None;
    }
    hit := CallLiteral(s[at + |marker|..]);
  }

  /** The scan loop: jump from marker to marker, past the whole marker each time. */
  method ScanQuotedArg(s: string, marker: string, out: seq<Hit>) returns (hits: seq<Hit>)
    requires IsMarker(marker)
    ensures hits == out + Collect(Hits(s, marker), |s|, 0)
  {
    hits := out;
    var idx, found := 0, true;
    while found
      invariant idx <= |s|
      invariant hits + (if found then Collect(Hits(s, marker), |s|, idx) else []) == out + Collect(Hits(s, marker), |s|, 0)
      decreases found, |s| - idx
    {
      found, idx, hits := ScanOn(s, marker, idx, hits);
    }
  }

  /** One turn: the next marker, its hit if it is one, and on past the whole marker. */
  method ScanOn(s: string, marker: string, idx: nat, hits: seq<Hit>) returns (found: bool, next: nat, more: seq<Hit>)
    requires IsMarker(marker) && idx <= |s|
    ensures next <= |s| && (found ==> idx < next)
    ensures more + (if found then Collect(Hits(s, marker), |s|, next) else []) == hits + Collect(Hits(s, marker), |s|, idx)
  {
    var at := FindNext(s, marker, idx, hits);
    if at.None? {
      return false, idx, hits;
    }
    var hit := ReadCall(s, marker, at.value);
    more := if hit.Some? then hits + [Hit(at.value, hit.value)] else hits;
    found, next := true, at.value + |marker|;
  }

  /** The next marker, and what finding it says of the hits still to come. */
  method FindNext(s: string, marker: string, idx: nat, ghost hits: seq<Hit>) returns (found: Option<nat>)
    requires IsMarker(marker) && idx <= |s|
    ensures found.None? ==> hits + Collect(Hits(s, marker), |s|, idx) == hits
    ensures found.Some? ==> idx <= found.value && MarkerAt(s, marker, found.value)
    ensures found.Some? ==>
      hits + Collect(Hits(s, marker), |s|, idx) ==
      WithHit(hits, HitAt(s, marker, found.value), found.value) + Collect(Hits(s, marker), |s|, found.value + |marker|)
  {
    found := Find(s, marker, idx);
    if found.None? {
      NoneLeft(s, marker, idx, hits);
    } else {
      ScanStep(s, marker, idx, found.value, hits);
    }
  }

  // --- two markers, one source order ----------------------------------------------------

  const VM_FIXTURE := "vm_fixture"
  const LAB_FIXTURE := "lab_fixture"

  function Insert(h: Hit, sorted: seq<Hit>): seq<Hit>
  {
    if sorted == [] || h.pos <= sorted[0].pos then [h] + sorted else [sorted[0]] + Insert(h, sorted[1..])
  }

  function SortByPos(hits: seq<Hit>): seq<Hit>
  {
    if hits == [] then [] else Insert(hits[0], SortByPos(hits[1..]))
  }

  function Names(hits: seq<Hit>): seq<string>
  {
    if hits == [] then [] else [hits[0].name] + Names(hits[1..])
  }

  /** What either of two finders finds. */
  function Either(h1: Finder, h2: Finder): Finder
  {
    (p: nat) => if h1(p).Some? then h1(p) else h2(p)
  }

  /** Exactly the hits at or after `p`, once each, in ascending order. */
  lemma {:induction false} HitsAreExact(hit: Finder, n: nat, p: nat)
    ensures forall h :: h in Collect(hit, n, p) <==> p <= h.pos <= n && hit(h.pos) == Some(h.name)
    ensures forall i, j :: 0 <= i < j < |Collect(hit, n, p)| ==> Collect(hit, n, p)[i].pos < Collect(hit, n, p)[j].pos
    decreases n - p
  {
    if p <= n {
      HitsAreExact(hit, n, p + 1);
      var rest := Collect(hit, n, p + 1);
      forall i | 0 <= i < |rest|
        ensures rest[i].pos > p
      {
        assert rest[i] in rest;
      }
    }
  }

  /** Sorting floats the earliest hit to the front. */
  lemma {:induction false} EarliestFirst(a: seq<Hit>, h: Hit, b: seq<Hit>)
    requires forall x :: x in a ==> h.pos < x.pos
    requires SortByPos(b) == [] || h.pos <= SortByPos(b)[0].pos
    ensures SortByPos(a + [h] + b) == [h] + SortByPos(a + b)
  {
    if a == [] {
      assert a + [h] + b == [h] + b && a + b == b && ([h] + b)[1..] == b;
    } else {
      assert (a + [h] + b)[1..] == a[1..] + [h] + b && (a + b)[1..] == a[1..] + b;
      assert a[0] in a;
      EarliestFirst(a[1..], h, b);
      var later := SortByPos(a[1..] + b);
      assert ([h] + later)[1..] == later;
    }
  }

  lemma {:induction false} AscendingIsSorted(hits: seq<Hit>)
    requires forall i, j :: 0 <= i < j < |hits| ==> hits[i].pos < hits[j].pos
    ensures SortByPos(hits) == hits
  {
    if hits != [] {
      AscendingIsSorted(hits[1..]);
      assert [hits[0]] + hits[1..] == hits;
    }
  }

  lemma {:induction false} LaterHits(hit: Finder, n: nat, p: nat)
    ensures SortByPos(Collect(hit, n, p + 1)) == Collect(hit, n, p + 1)
    ensures forall h :: h in Collect(hit, n, p + 1) ==> p < h.pos
  {
    HitsAreExact(hit, n, p + 1);
    AscendingIsSorted(Collect(hit, n, p + 1));
  }

  /** Collecting for each finder and sorting by position is one pass with both. */
  lemma {:induction false} SortedIsSourceOrder(h1: Finder, h2: Finder, n: nat, p: nat)
    requires forall q: nat :: !(h1(q).Some? && h2(q).Some?)
    ensures SortByPos(Collect(h1, n, p) + Collect(h2, n, p)) == Collect(Either(h1, h2), n, p)
    decreases n - p
  {
    if p <= n {
      SortedIsSourceOrder(h1, h2, n, p + 1);
      var a, b, rest := Collect(h1, n, p + 1), Collect(h2, n, p + 1), Collect(Either(h1, h2), n, p + 1);
      if h1(p).Some? {
        LaterHits(Either(h1, h2), n, p);
        assert rest != [] ==> rest[0] in rest;
        SortFront(Hit(p, h1(p).value), a, b);
      } else if h2(p).Some? {
        LaterHits(h1, n, p);
        LaterHits(h2, n, p);
        assert b != [] ==> b[0] in b;
        SortMiddle(Hit(p, h2(p).value), a, b);
      }
    }
  }

  lemma {:induction false} SortFront(h: Hit, a: seq<Hit>, b: seq<Hit>)
    requires SortByPos(a + b) == [] || h.pos <= SortByPos(a + b)[0].pos
    ensures SortByPos(([h] + a) + b) == [h] + SortByPos(a + b)
  {
    EarliestFirst([], h, a + b);
    assert ([h] + a) + b == [] + [h] + (a + b) && [] + (a + b) == a + b;
  }

  lemma {:induction false} SortMiddle(h: Hit, a: seq<Hit>, b: seq<Hit>)
    requires (forall x :: x in a ==> h.pos < x.pos) && SortByPos(b) == b && (b == [] || h.pos <= b[0].pos)
    ensures SortByPos(a + ([h] + b)) == [h] + SortByPos(a + b)
  {
    EarliestFirst(a, h, b);
    assert a + ([h] + b) == a + [h] + b;
  }

  lemma {:induction false} NotBothMarkers(s: string, m1: string, m2: string, p: nat)
    requires m1 != [] && m2 != [] && m1[0] != m2[0]
    ensures !(HitAt(s, m1, p).Some? && HitAt(s, m2, p).Some?)
  {
    assert MarkerAt(s, m1, p) ==> s[p] == s[p..p + |m1|][0];
    assert MarkerAt(s, m2, p) ==> s[p] == s[p..p + |m2|][0];
  }

  method ScanFixtureDeps(s: string) returns (names: seq<string>)
    ensures names == Names(Collect(Either(Hits(s, VM_FIXTURE), Hits(s, LAB_FIXTURE)), |s|, 0))
    ensures exists calls: seq<Hit> :: ListsCalls(s, calls) && names == Names(calls)
  {
    var h1, h2 := Hits(s, VM_FIXTURE), Hits(s, LAB_FIXTURE);
    var hits := ScanQuotedArg(s, VM_FIXTURE, []);
    hits := ScanQuotedArg(s, LAB_FIXTURE, hits);
    forall q: nat
      ensures !(h1(q).Some? && h2(q).Some?)
    {
      NotBothMarkers(s, VM_FIXTURE, LAB_FIXTURE, q);
    }
    SortedIsSourceOrder(h1, h2, |s|, 0);
    assert [] + Collect(h1, |s|, 0) == Collect(h1, |s|, 0);
    names := Names(SortByPos(hits));
    CollectedAreCalls(s);
  }

  /** Exactly the calls of either marker in `s`, in the order they stand there. */
  ghost predicate ListsCalls(s: string, calls: seq<Hit>)
  {
    && (forall h :: h in calls <==> CallAt(s, "vm_fixture", h.pos, h.name) || CallAt(s, "lab_fixture", h.pos, h.name))
    && forall i, j :: 0 <= i < j < |calls| ==> calls[i].pos < calls[j].pos
  }

  lemma {:induction false} CollectedAreCalls(s: string)
    ensures ListsCalls(s, Collect(Either(Hits(s, VM_FIXTURE), Hits(s, LAB_FIXTURE)), |s|, 0))
  {
    var either := Either(Hits(s, VM_FIXTURE), Hits(s, LAB_FIXTURE));
    HitsAreExact(either, |s|, 0);
    forall h: Hit
      ensures (h.pos <= |s| && either(h.pos) == Some(h.name)) <==>
              CallAt(s, "vm_fixture", h.pos, h.name) || CallAt(s, "lab_fixture", h.pos, h.name) {
      HitIsCall(s, VM_FIXTURE, h.pos, h.name);
      HitIsCall(s, LAB_FIXTURE, h.pos, h.name);
      NotBothMarkers(s, VM_FIXTURE, LAB_FIXTURE, h.pos);
    }
  }

  // --- closing parenthesis ------------------------------------------------------------------

  /** Reading a call's arguments one character at a time: code at some depth, inside a
      string literal, or after a backslash in one. */
  datatype Lexer = Code(depth: int) | Literal(quote: char, depth: int) | Escape(quote: char, depth: int)

  function Next(l: Lexer, c: char): Lexer
  {
    match l
    case Escape(q, d) => Literal(q, d)
    case Literal(q, d) => if c == '\\' then Escape(q, d) else if c == q then Code(d) else l
    case Code(d) =>
      if c == '"' || c == '\'' then Literal(c, d)
      else if c == '(' then Code(d + 1)
      else if c == ')' then Code(d - 1)
      else l
  }

  /** Where the lexer is before character `i`, having started one parenthesis deep at `start`. */
  function LexerAt(s: string, start: nat, i: nat): Lexer
    requires i <= |s|
  {
    if i <= start then Code(1) else Next(LexerAt(s, start, i - 1), s[i - 1])
  }

  predicate Closes(s: string, start: nat, i: nat)
  {
    start <= i < |s| && s[i] == ')' && LexerAt(s, start, i) == Code(1)
  }

  method FindMatchingCloseParen(s: string, start: nat) returns (close: Option<nat>)
    ensures close.Some? ==> Closes(s, start, close.value)
    ensures forall i: nat :: Closes(s, start, i) ==> close.Some? && close.value <= i
  {
    var depth := 1;
    var i := start;
    while i < |s|
      invariant start <= i && (i < |s| ==> LexerAt(s, start, i) == Code(depth))
      invariant forall j: nat :: j < i ==> !Closes(s, start, j)
    {
      var c := s[i];
      if c == '"' || c == '\'' {
        i := SkipLiteral(s, start, i, depth);
        continue;
      }
      if c == '(' {
        depth := depth + 1;
      } else if c == ')' {
        depth := depth - 1;
        if depth == 0 {
          return Some(i);
        }
      }
      i := i + 1;
    }
    return None;
  }

  /** The inner loop: from an opening quote to just past its closing quote, or off the end. */
  method SkipLiteral(s: string, start: nat, open: nat, ghost depth: int) returns (i: nat)
    requires start <= open < |s| && (s[open] == '"' || s[open] == '\'') && LexerAt(s, start, open) == Code(depth)
    ensures i > open && (i < |s| ==> LexerAt(s, start, i) == Code(depth))
    ensures forall j: nat :: open <= j < i ==> !Closes(s, start, j)
  {
    var q := s[open];
    i := open + 1;
    while i < |s|
      invariant open < i && (i <= |s| ==> LexerAt(s, start, i) == Literal(q, depth))
      invariant forall j: nat :: open <= j < i ==> !Closes(s, start, j)
    {
      if s[i] == '\\' {
        assert i + 1 < |s| ==> LexerAt(s, start, i + 1) == Escape(q, depth);
        i := i + 2;
        continue;
      }
      if s[i] == q {
        i := i + 1;
        return;
      }
      i := i + 1;
    }
  }

  // --- what it finds ------------------------------------------------------------------------

  /** A character of a string literal, as it is or behind a backslash. */
  datatype Letter = Bare(c: char) | Escaped(c: char)

  /** A piece of an argument list: a character of code, a literal, or a list in parentheses. */
  datatype Piece = Char(c: char) | Quoted(quote: char, letters: seq<Letter>) | Nested(pieces: seq<Piece>)

  function LetterText(l: Letter): string
  {
    match l
    case Bare(c) => [c]
    case Escaped(c) => ['\\', c]
  }

  function LettersText(ls: seq<Letter>): string
  {
    if ls == [] then [] else LetterText(ls[0]) + LettersText(ls[1..])
  }

  function PieceText(p: Piece): string
    decreases p, 0
  {
    match p
    case Char(c) => [c]
    case Quoted(q, ls) => [q] + LettersText(ls) + [q]
    case Nested(ps) => "(" + PiecesText(ps) + ")"
  }

  function PiecesText(ps: seq<Piece>): string
    decreases ps, 1
  {
    if ps == [] then [] else PieceText(ps[0]) + PiecesText(ps[1..])
  }

  /** Code has no quotes or parentheses of its own; a literal holds its quote and backslashes only escaped. */
  predicate ProperPiece(p: Piece)
    decreases p, 0
  {
    match p
    case Char(c) => c != '"' && c != '\'' && c != '(' && c != ')'
    case Quoted(q, ls) =>
      (q == '"' || q == '\'') && forall i :: 0 <= i < |ls| ==> ls[i].Bare? ==> ls[i].c != q && ls[i].c != '\\'
    case Nested(ps) => Proper(ps)
  }

  predicate Proper(ps: seq<Piece>)
    decreases ps, 1
  {
    ps == [] || (ProperPiece(ps[0]) && Proper(ps[1..]))
  }

  function Lex(l: Lexer, s: string): Lexer
  {
    if s == [] then l else Next(Lex(l, s[..|s| - 1]), s[|s| - 1])
  }

  /** Reading `s` from `l` never meets a closing parenthesis of code at depth `d` or less. */
  predicate StaysIn(l: Lexer, s: string, d: int)
  {
    forall i :: 0 <= i < |s| && s[i] == ')' && Lex(l, s[..i]).Code? ==> Lex(l, s[..i]).depth > d
  }

  lemma {:induction false} LexJoins(l: Lexer, a: string, b: string)
    ensures Lex(l, a + b) == Lex(Lex(l, a), b)
  {
    if b == [] {
      assert a + b == a;
    } else {
      assert (a + b)[..|a + b| - 1] == a + b[..|b| - 1];
      LexJoins(l, a, b[..|b| - 1]);
    }
  }

  lemma {:induction false} LexOne(l: Lexer, c: char)
    ensures Lex(l, [c]) == Next(l, c)
  {
    assert [c][..0] == [];
    assert Lex(l, []) == l;
  }

  lemma {:induction false} StayJoins(l: Lexer, a: string, b: string, d: int)
    requires StaysIn(l, a, d) && StaysIn(Lex(l, a), b, d)
    ensures StaysIn(l, a + b, d)
  {
    var s := a + b;
    forall i | 0 <= i < |s| && s[i] == ')' && Lex(l, s[..i]).Code? ensures Lex(l, s[..i]).depth > d {
      if i < |a| {
        assert s[..i] == a[..i];
      } else {
        assert s[..i] == a + b[..i - |a|];
        LexJoins(l, a, b[..i - |a|]);
      }
    }
  }

  /** Reading on from `l` takes the lexer to `m` without leaving depth `d`. */
  predicate Leads(l: Lexer, s: string, m: Lexer, d: int)
  {
    Lex(l, s) == m && StaysIn(l, s, d)
  }

  lemma {:induction false} LeadsOn(l: Lexer, a: string, m: Lexer, b: string, n: Lexer, d: int)
    requires Leads(l, a, m, d) && Leads(m, b, n, d)
    ensures Leads(l, a + b, n, d)
  {
    LexJoins(l, a, b);
    StayJoins(l, a, b, d);
  }

  lemma {:induction false} OneLeads(l: Lexer, c: char, d: int)
    requires c == ')' && l.Code? ==> l.depth > d
    ensures Leads(l, [c], Next(l, c), d)
  {
    LexOne(l, c);
    assert [c][..0] == [];
    assert Lex(l, []) == l;
  }

  lemma {:induction false} LetterLeads(q: char, l: Letter, depth: int, d: int)
    requires l.Bare? ==> l.c != q && l.c != '\\'
    ensures Leads(Literal(q, depth), LetterText(l), Literal(q, depth), d)
  {
    match l
    case Bare(c) => OneLeads(Literal(q, depth), c, d);
    case Escaped(c) =>
      OneLeads(Literal(q, depth), '\\', d);
      OneLeads(Escape(q, depth), c, d);
      assert ['\\', c] == ['\\'] + [c];
      LeadsOn(Literal(q, depth), ['\\'], Escape(q, depth), [c], Literal(q, depth), d);
  }

  lemma {:induction false} LettersLead(q: char, ls: seq<Letter>, depth: int, d: int)
    requires forall i :: 0 <= i < |ls| ==> ls[i].Bare? ==> ls[i].c != q && ls[i].c != '\\'
    ensures Leads(Literal(q, depth), LettersText(ls), Literal(q, depth), d)
  {
    if ls != [] {
      LetterLeads(q, ls[0], depth, d);
      LettersLead(q, ls[1..], depth, d);
      LeadsOn(Literal(q, depth), LetterText(ls[0]), Literal(q, depth), LettersText(ls[1..]), Literal(q, depth), d);
    }
  }

  lemma {:induction false} QuotedLeads(q: char, ls: seq<Letter>, depth: int, d: int)
    requires ProperPiece(Quoted(q, ls))
    ensures Leads(Code(depth), [q] + LettersText(ls) + [q], Code(depth), d)
  {
    OneLeads(Code(depth), q, d);
    LettersLead(q, ls, depth, d);
    LeadsOn(Code(depth), [q], Literal(q, depth), LettersText(ls), Literal(q, depth), d);
    OneLeads(Literal(q, depth), q, d);
    LeadsOn(Code(depth), [q] + LettersText(ls), Literal(q, depth), [q], Code(depth), d);
  }

  lemma {:induction false} PieceLeads(p: Piece, depth: int)
    requires ProperPiece(p)
    ensures Leads(Code(depth), PieceText(p), Code(depth), depth)
    decreases p, 0
  {
    match p
    case Char(c) => OneLeads(Code(depth), c, depth);
    case Quoted(q, ls) => QuotedLeads(q, ls, depth, depth);
    case Nested(ps) =>
      OneLeads(Code(depth), '(', depth);
      PiecesLead(ps, depth + 1);
      Deeper(ps, depth);
      LeadsOn(Code(depth), "(", Code(depth + 1), PiecesText(ps), Code(depth + 1), depth);
      OneLeads(Code(depth + 1), ')', depth);
      LeadsOn(Code(depth), "(" + PiecesText(ps), Code(depth + 1), ")", Code(depth), depth);
  }

  lemma {:induction false} Deeper(ps: seq<Piece>, depth: int)
    requires Leads(Code(depth + 1), PiecesText(ps), Code(depth + 1), depth + 1)
    ensures Leads(Code(depth + 1), PiecesText(ps), Code(depth + 1), depth)
  {}

  lemma {:induction false} PiecesLead(ps: seq<Piece>, depth: int)
    requires Proper(ps)
    ensures Leads(Code(depth), PiecesText(ps), Code(depth), depth)
    decreases ps, 1
  {
    if ps != [] {
      PieceLeads(ps[0], depth);
      PiecesLead(ps[1..], depth);
      LeadsOn(Code(depth), PieceText(ps[0]), Code(depth), PiecesText(ps[1..]), Code(depth), depth);
    }
  }

  lemma {:induction false} LexerIsLex(s: string, start: nat, i: nat)
    requires start <= i <= |s|
    ensures LexerAt(s, start, i) == Lex(Code(1), s[start..i])
  {
    if i > start {
      LexerIsLex(s, start, i - 1);
      assert s[start..i][..i - 1 - start] == s[start..i - 1];
    }
  }

  /**
   * The parenthesis found for a call is its own: behind any proper list of arguments, however
   * they nest and whatever their literals hold, the first closing place is the one after it.
   */
  lemma {:induction false} CloseIsItsOwn(before: string, ps: seq<Piece>, after: string)
    requires Proper(ps)
    ensures var s, start := before + PiecesText(ps) + ")" + after, |before|;
            && Closes(s, start, start + |PiecesText(ps)|)
            && forall i: nat :: Closes(s, start, i) ==> start + |PiecesText(ps)| <= i
  {
    var args := PiecesText(ps);
    var s, start, end := before + args + ")" + after, |before|, |before| + |PiecesText(ps)|;
    PiecesLead(ps, 1);
    assert s[start..end] == args;
    LexerIsLex(s, start, end);
    forall i: nat | start <= i < end ensures !Closes(s, start, i) {
      LexerIsLex(s, start, i);
      assert s[start..i] == args[..i - start] && s[i] == args[i - start];
    }
  }
}
