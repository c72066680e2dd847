/**
 * The order of strings by code point, and the iteration order it gives an ordered set
 * (`BTreeSet<String>` in the Rust sources).
 */
module StringOrder {
  predicate Le(a: string, b: string)
  {
    a == [] || (b != [] && (a[0] < b[0] || (a[0] == b[0] && Le(a[1..], b[1..]))))
  }

  lemma {:induction false} LeTotal(a: string, b: string)
    ensures Le(a, b) || Le(b, a)
  {
    if a != [] && b != [] && a[0] == b[0] { LeTotal(a[1..], b[1..]); }
  }

  lemma {:induction false} LeAntisymmetric(a: string, b: string)
    requires Le(a, b) && Le(b, a)
    ensures a == b
  {
    if a != [] {
      LeAntisymmetric(a[1..], b[1..]);
      assert a == [a[0]] + a[1..] && b == [b[0]] + b[1..];
    }
  }

  lemma {:induction false} LeTransitive(a: string, b: string, c: string)
    requires Le(a, b) && Le(b, c)
    ensures Le(a, c)
  {
    if a != [] && a[0] == b[0] == c[0] { LeTransitive(a[1..], b[1..], c[1..]); }
  }

  /** At `i` the two strings first differ, and `a` has the lower character there. */
  predicate LowerAt(a: string, b: string, i: nat)
  {
    i < |a| && i < |b| && a[..i] == b[..i] && a[i] < b[i]
  }

  lemma {:induction false} LowerHead(a: string, b: string, i: nat)
    requires LowerAt(a, b, i)
    ensures if i == 0 then a[0] < b[0] else a[0] == b[0]
  {
    if i > 0 { assert a[0] == a[..i][0] && b[0] == b[..i][0]; }
  }

  lemma {:induction false} LowerAhead(a: string, b: string, i: nat)
    requires a != [] && b != [] && a[0] == b[0]
    ensures LowerAt(a[1..], b[1..], i) <==> LowerAt(a, b, i + 1)
  {
    if i < |a| - 1 && i < |b| - 1 {
      assert a[..i + 1] == [a[0]] + a[1..][..i] && b[..i + 1] == [b[0]] + b[1..][..i];
      assert a[..i + 1][1..] == a[1..][..i] && b[..i + 1][1..] == b[1..][..i];
    }
  }

  /** A prefix comes first; otherwise the first difference decides. */
  lemma {:induction false} LeIsLexicographic(a: string, b: string)
    ensures Le(a, b) <==> a <= b || exists i: nat :: LowerAt(a, b, i)
  {
    if a == [] || b == [] {
    } else if a[0] != b[0] {
      if a[0] < b[0] { assert LowerAt(a, b, 0); }
      if i: nat :| LowerAt(a, b, i) { LowerHead(a, b, i); }
    } else {
      LeIsLexicographic(a[1..], b[1..]);
      assert a == [a[0]] + a[1..] && b == [b[0]] + b[1..];
      assert a <= b <==> a[1..] <= b[1..];
      if i: nat :| LowerAt(a[1..], b[1..], i) { LowerAhead(a, b, i); }
      if i: nat :| LowerAt(a, b, i) {
        LowerHead(a, b, i);
        LowerAhead(a, b, i - 1);
      }
    }
  }

  ghost predicate Least(s: set<string>, m: string)
  {
    m in s && forall x :: x in s ==> Le(m, x)
  }

  lemma {:induction false} LeastExists(s: set<string>)
    requires s != {}
    ensures exists m :: Least(s, m)
  {
    var x :| x in s;
    var rest := s - {x};
    LeTotal(x, x);
    if rest == {} {
      assert s == {x};
      assert Least(s, x);
    } else {
      LeastExists(rest);
      var m :| Least(rest, m);
      LeTotal(x, m);
      if Le(m, x) {
        assert Least(s, m);
      } else {
        forall y | y in s ensures Le(x, y) {
          if y != x { LeTransitive(x, m, y); }
        }
        assert Least(s, x);
      }
    }
  }

  lemma {:induction false} LeastIsUnique(s: set<string>, m: string, n: string)
    requires Least(s, m) && Least(s, n)
    ensures m == n
  {
    LeAntisymmetric(m, n);
  }

  predicate Distinct(s: seq<string>)
  {
    forall i, j :: 0 <= i < j < |s| ==> s[i] != s[j]
  }

  predicate Ascending(s: seq<string>)
  {
    forall i, j :: 0 <= i < j < |s| ==> Le(s[i], s[j])
  }

  /** The elements of `s` in ascending order, each once. */
  ghost function Sorted(s: set<string>): (order: seq<string>)
    ensures forall x :: x in order <==> x in s
    ensures Distinct(order) && Ascending(order)
  {
    if s == {} then [] else
      LeastExists(s);
      var m :| Least(s, m);
      var rest := Sorted(s - {m});
      assert forall i :: 0 <= i < |rest| ==> rest[i] in rest;
      [m] + rest
  }

  method InOrder(s: set<string>) returns (order: seq<string>)
    ensures order == Sorted(s)
  {
    order := [];
    var todo := s;
    while todo != {}
      invariant order + Sorted(todo) == Sorted(s)
      decreases todo
    {
      var m := FindLeast(todo);
      SortedStep(order, todo, m);
      order := order + [m];
      todo := todo - {m};
    }
  }

  lemma {:induction false} SortedStep(order: seq<string>, s: set<string>, m: string)
    requires Least(s, m)
    ensures order + Sorted(s) == (order + [m]) + Sorted(s - {m})
  {
    forall n | Least(s, n) ensures n == m { LeastIsUnique(s, m, n); }
    assert Sorted(s) == [m] + Sorted(s - {m});
  }

  method FindLeast(s: set<string>) returns (m: string)
    requires s != {}
    ensures Least(s, m)
  {
    m :| m in s;
    var todo := s - {m};
    LeTotal(m, m);
    while todo != {}
      invariant m in s && todo <= s
      invariant forall x :: x in s && x !in todo ==> Le(m, x)
      decreases todo
    {
      var x :| x in todo;
      LeTotal(x, m);
      if !Le(m, x) {
        LeTotal(x, x);
        forall y | y in s && y !in todo ensures Le(x, y) { LeTransitive(x, m, y); }
        m := x;
      }
      todo := todo - {x};
    }
  }

  /** The two names in order: `canonical_pair`. */
  function CanonicalPair(a: string, b: string): (string, string)
  {
    if Le(a, b) then (a, b) else (b, a)
  }

  /** Two pairs of names have one canonical form exactly when they are the same two names. */
  lemma {:induction false} CanonicalPairForgetsOrder(a: string, b: string, c: string, d: string)
    ensures CanonicalPair(a, b) == CanonicalPair(c, d) <==> (a == c && b == d) || (a == d && b == c)
  {
    LeTotal(a, b);
    LeTotal(c, d);
    if Le(a, b) && Le(b, a) { LeAntisymmetric(a, b); }
    if Le(c, d) && Le(d, c) { LeAntisymmetric(c, d); }
  }
}
