/** Decimal rendering of numbers, as `format!` gives it, and reading it back. */
module Decimal {
  import opened Options

  function Digits(n: nat): (s: string)
    ensures s != []
  {
    (if n < 10 then [] else Digits(n / 10)) + ["0123456789"[n % 10]]
  }

  /** A number in decimal. */
  function ReadDecimal(s: string): Option<nat>
  {
    if s == [] then None
    else
      var c := s[|s| - 1];
      if !('0' <= c <= '9') then None
      else if |s| == 1 then Some(c as int - '0' as int)
      else match ReadDecimal(s[..|s| - 1])
        case None => None
        case Some(n) => Some(n * 10 + (c as int - '0' as int))
  }

  lemma {:induction false} DigitReads(d: nat)
    requires d < 10
    ensures var c := "0123456789"[d]; '0' <= c <= '9' && c as int - '0' as int == d
  {
    assert d == 0 || d == 1 || d == 2 || d == 3 || d == 4 || d == 5 || d == 6 || d == 7 || d == 8 || d == 9;
  }

  lemma {:induction false} DigitsRead(n: nat)
    ensures ReadDecimal(Digits(n)) == Some(n)
  {
    var s := Digits(n);
    DigitReads(n % 10);
    if n >= 10 {
      DigitsRead(n / 10);
      assert s[..|s| - 1] == Digits(n / 10);
      assert n / 10 * 10 + n % 10 == n;
    }
  }

  lemma {:induction false} DigitsInjective(m: nat, n: nat)
    requires Digits(m) == Digits(n)
    ensures m == n
  {
    DigitsRead(m);
    DigitsRead(n);
  }

  /** A number followed by its unit. */
  function ReadUnit(s: string, unit: string): Option<nat>
  {
    if |unit| <= |s| && s[|s| - |unit|..] == unit then ReadDecimal(s[..|s| - |unit|]) else None
  }

  lemma {:induction false} UnitReads(n: nat, unit: string)
    ensures ReadUnit(Digits(n) + unit, unit) == Some(n)
  {
    var s := Digits(n) + unit;
    assert s[|s| - |unit|..] == unit && s[..|s| - |unit|] == Digits(n);
    DigitsRead(n);
  }
}
