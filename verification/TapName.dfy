/**
 * TAP interface names (`tap_name_for_vm_on_bridge` and `fnv1a_64` of
 * provium-host/src/bridge_realize.rs) and the text of a drop rule between two of them.
 */
module TapName {
  import opened Bytes
  import opened Options

  predicate Word(c: char)
  {
    'a' <= c <= 'z' || 'A' <= c <= 'Z' || '0' <= c <= '9' || c == '_'
  }

  function Cleaned(name: string): (s: string)
    ensures forall c :: c in s ==> Word(c)
  {
    if name == [] then [] else (if Word(name[0]) then [name[0]] else []) + Cleaned(name[1..])
  }

  /** Each letter is kept or dropped for what it is, and their order stays. */
  lemma {:induction false} CleanedAppends(name: string, c: char)
    ensures Cleaned(name + [c]) == Cleaned(name) + if Word(c) then [c] else []
  {
    var all := name + [c];
    if name == [] {
      assert all == [c] && all[1..] == [] && Cleaned([]) == [];
    } else {
      var first := if Word(name[0]) then [name[0]] else [];
      assert all[0] == name[0] && all[1..] == name[1..] + [c];
      CleanedAppends(name[1..], c);
      assert Cleaned(all) == first + Cleaned(all[1..]) && Cleaned(name) == first + Cleaned(name[1..]);
    }
  }

  /** UTF-8. */
  function Encoded(c: char): bytes
  {
    var n := c as int;
    if n < 0x80 then [n]
    else if n < 0x800 then [0xC0 + n / 64, 0x80 + n % 64]
    else if n < 0x1_0000 then [0xE0 + n / 4096, 0x80 + n / 64 % 64, 0x80 + n % 64]
    else [(0xF0 + n / 262144) % 256, 0x80 + n / 4096 % 64, 0x80 + n / 64 % 64, 0x80 + n % 64]
  }

  function Utf8(s: string): bytes
  {
    if s == [] then [] else Encoded(s[0]) + Utf8(s[1..])
  }

  /** The code point a UTF-8 sequence stands for, by its leading byte. */
  function CodePoint(s: seq<int>): int
  {
    if |s| == 1 && s[0] < 0x80 then s[0]
    else if |s| == 2 && 0xC0 <= s[0] < 0xE0 then (s[0] - 0xC0) * 64 + (s[1] - 0x80)
    else if |s| == 3 && 0xE0 <= s[0] < 0xF0 then ((s[0] - 0xE0) * 64 + (s[1] - 0x80)) * 64 + (s[2] - 0x80)
    else if |s| == 4 && 0xF0 <= s[0] < 0xF8 then
      (((s[0] - 0xF0) * 64 + (s[1] - 0x80)) * 64 + (s[2] - 0x80)) * 64 + (s[3] - 0x80)
    else -1
  }

  lemma {:induction false} EncodedReads(c: char)
    ensures CodePoint(Encoded(c)) == c as int
  {
    SixBits(c as int);
  }

  lemma {:induction false} SixBits(n: nat)
    ensures n / 64 / 64 == n / 4096 && n / 4096 / 64 == n / 262144
  {}

  const OFFSET: bv64 := 0xcbf29ce484222325
  const PRIME: bv64 := 0x00000100000001B3

  function Mixed(h: bv64, b: byte): bv64
  {
    (h ^ (b as bv64)) * PRIME
  }

  function Fold(h: bv64, s: bytes): bv64
  {
    if s == [] then h else Mixed(Fold(h, s[..|s| - 1]), s[|s| - 1])
  }

  /** FNV-1a over `a`, a colon and `b`. */
  method Fnv1a64(a: bytes, b: bytes) returns (h: bv64)
    ensures h == Fold(OFFSET, a + [58] + b)
  {
    var s: bytes := a + [58] + b;
    h := OFFSET;
    for i := 0 to |s|
      invariant h == Fold(OFFSET, s[..i])
    {
      assert s[..i + 1][..i] == s[..i];
      h := Mixed(h, s[i]);
    }
    assert s[..|s|] == s;
  }

  /** Bytes are folded in from first to last. */
  lemma {:induction false} FoldJoins(h: bv64, a: bytes, b: bytes)
    ensures Fold(h, a + b) == Fold(Fold(h, a), b)
  {
    if b == [] {
      assert a + b == a;
    } else {
      assert (a + b)[..|a + b| - 1] == a + b[..|b| - 1];
      FoldJoins(h, a, b[..|b| - 1]);
    }
  }

  /** A published FNV-1a value: of the one byte "a". */
  lemma {:induction false} KnownHash()
    ensures Fold(OFFSET, [97]) == 0xaf63dc4c8601ec8c
  {
    var s: bytes := [97];
    assert s[..|s| - 1] == [];
  }

  function HexDigit(n: nat): char
    requires n < 16
  {
    "0123456789abcdef"[n]
  }

  function Hex(n: nat, k: nat): (s: string)
    ensures |s| == k && forall c :: c in s ==> Word(c)
  {
    if k == 0 then [] else Hex(n / 16, k - 1) + [HexDigit(n % 16)]
  }

  function HexValue(c: char): int
  {
    if '0' <= c <= '9' then c as int - '0' as int else if 'a' <= c <= 'f' then c as int - 'a' as int + 10 else -1
  }

  function ReadHex(s: string): int
  {
    if s == [] then 0 else ReadHex(s[..|s| - 1]) * 16 + HexValue(s[|s| - 1])
  }

  function Pow16(k: nat): nat
  {
    if k == 0 then 1 else 16 * Pow16(k - 1)
  }

  lemma {:induction false} HexDigitReads(n: nat)
    requires n < 16
    ensures HexValue(HexDigit(n)) == n
  {
    assert n == 0 || n == 1 || n == 2 || n == 3 || n == 4 || n == 5 || n == 6 || n == 7 || n == 8
        || n == 9 || n == 10 || n == 11 || n == 12 || n == 13 || n == 14 || n == 15;
  }

  lemma {:induction false} HexReads(n: nat, k: nat)
    requires n < Pow16(k)
    ensures ReadHex(Hex(n, k)) == n
  {
    if k != 0 {
      var s := Hex(n, k);
      assert s[..|s| - 1] == Hex(n / 16, k - 1);
      HexReads(n / 16, k - 1);
      HexDigitReads(n % 16);
    }
  }

  /** At most 15 characters, the longest interface name Linux takes, and none of them a quote. */
  function Tap(vm: string, bridge: string): (name: string)
    ensures |name| <= 15 && '"' !in name && "tap-" <= name
  {
    var cleaned := Cleaned(vm);
    var take := if |cleaned| < 4 then |cleaned| else 4;
    var h := Fold(OFFSET, Utf8(vm) + [58] + Utf8(bridge));
    var head, tail := cleaned[..take], Hex(h as int % 0x1000_0000, 7);
    assert !Word('"') && '"' !in "tap-" && '"' !in head && '"' !in tail;
    "tap-" + head + tail
  }

  /** The last seven characters are the low 28 bits of the hash; before them stand up to four of the VM's name. */
  lemma {:induction false} TapHoldsHash(vm: string, bridge: string)
    ensures var name, shown := Tap(vm, bridge), |Tap(vm, bridge)| - 11;
            && shown == (if |Cleaned(vm)| < 4 then |Cleaned(vm)| else 4)
            && name[..4] == "tap-" && name[4..4 + shown] == Cleaned(vm)[..shown]
            && ReadHex(name[4 + shown..]) == Fold(OFFSET, Utf8(vm) + [58] + Utf8(bridge)) as int % 0x1000_0000
  {
    var name, n := Tap(vm, bridge), Fold(OFFSET, Utf8(vm) + [58] + Utf8(bridge)) as int % 0x1000_0000;
    var shown := if |Cleaned(vm)| < 4 then |Cleaned(vm)| else 4;
    assert name[4 + shown..] == Hex(n, 7);
    assert Pow16(7) == 16 * (16 * (16 * Pow16(4))) && Pow16(4) == 16 * (16 * Pow16(2)) && Pow16(2) == 256;
    HexReads(n, 7);
  }

  // --- rules ---------------------------------------------------------------------------

  function RuleText(i: string, o: string): string
  {
    "iifname \"" + i + "\" oifname \"" + o + "\" drop"
  }

  /** What a rule does to a frame: drop it, if it came in on `input` and goes out on `output`. */
  datatype Rule = DropRule(input: string, output: string)

  /** Up to the first quote, and from it on. */
  function BeforeQuote(s: string): (string, string)
  {
    if s == [] || s[0] == '"' then ([], s)
    else
      var (a, rest) := BeforeQuote(s[1..]);
      ([s[0]] + a, rest)
  }

  /** Reads the one kind of rule there is: input interface, output interface, verdict. */
  function ReadRule(t: string): Option<Rule>
  {
    if !("iifname \"" <= t) then None
    else
      var (input, more) := BeforeQuote(t[9..]);
      if !("\" oifname \"" <= more) then None
      else
        var (output, end) := BeforeQuote(more[11..]);
        if end == "\" drop" then Some(DropRule(input, output)) else None
  }

  lemma {:induction false} QuoteEnds(a: string, s: string)
    requires '"' !in a
    ensures BeforeQuote(a + ("\"" + s)) == (a, "\"" + s)
  {
    var w := a + ("\"" + s);
    if a == [] {
      assert w == "\"" + s;
    } else {
      assert w[0] == a[0] && a[0] in a && w[1..] == a[1..] + ("\"" + s);
      QuoteEnds(a[1..], s);
      assert [a[0]] + a[1..] == a;
    }
  }

  /** A rule's text says to drop what comes in on the first interface and goes out on the second. */
  lemma {:induction false} RuleReads(i: string, o: string)
    requires '"' !in i && '"' !in o
    ensures ReadRule(RuleText(i, o)) == Some(DropRule(i, o))
  {
    var end := "\" drop";
    var more := "\" oifname \"" + (o + end);
    var t := "iifname \"" + (i + more);
    assert RuleText(i, o) == t;
    assert t[9..] == i + more && more == "\"" + (" oifname \"" + (o + end)) && end == "\"" + " drop";
    QuoteEnds(i, " oifname \"" + (o + end));
    assert more[11..] == o + end;
    QuoteEnds(o, " drop");
  }
}
