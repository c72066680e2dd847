/** Bytes and the big-endian integers both wire protocols are made of. */
module Bytes {
  type byte = b: int | 0 <= b < 256
  type bytes = seq<byte>

  const U16_LIMIT: nat := 0x1_0000
  const U32_LIMIT: nat := 0x1_0000_0000
  const U64_LIMIT: nat := 0x1_0000_0000_0000_0000

  /** The number of values `k` bytes can hold. */
  function Pow256(k: nat): (p: nat)
    ensures p > 0
  {
    if k == 0 then 1 else 256 * Pow256(k - 1)
  }

  /** The `k` low-order bytes of `n`, most significant first. */
  function ToBE(n: nat, k: nat): (s: bytes)
    ensures |s| == k
  {
    if k == 0 then [] else ToBE(n / 256, k - 1) + [n % 256]
  }

  function FromBE(s: bytes): nat
  {
    if s == [] then 0 else FromBE(s[..|s| - 1]) * 256 + s[|s| - 1]
  }

  lemma {:induction false} BERoundTrip(n: nat, k: nat)
    requires n < Pow256(k)
    ensures FromBE(ToBE(n, k)) == n
  {
    if k != 0 {
      var s := ToBE(n, k);
      assert s[..|s| - 1] == ToBE(n / 256, k - 1);
      BERoundTrip(n / 256, k - 1);
    }
  }

  lemma {:induction false} FromBEBound(s: bytes)
    ensures FromBE(s) < Pow256(|s|)
  {
    if s != [] {
      FromBEBound(s[..|s| - 1]);
    }
  }

  /** The first byte is the most significant one. */
  lemma {:induction false} MostSignificantFirst(b: byte, s: bytes)
    ensures FromBE([b] + s) == b * Pow256(|s|) + FromBE(s)
  {
    var w := [b] + s;
    if s == [] {
      assert w[..0] == [];
    } else {
      var front := s[..|s| - 1];
      assert w[..|w| - 1] == [b] + front && w[|w| - 1] == s[|s| - 1];
      MostSignificantFirst(b, front);
      assert (b * Pow256(|front|)) * 256 == b * Pow256(|s|);
    }
  }

  lemma {:induction false} Widths()
    ensures Pow256(2) == U16_LIMIT && Pow256(4) == U32_LIMIT && Pow256(8) == U64_LIMIT
  {
    assert Pow256(2) == 256 * Pow256(1);
    assert Pow256(4) == 256 * (256 * Pow256(2));
    assert Pow256(6) == 256 * (256 * Pow256(4));
    assert Pow256(8) == 256 * (256 * Pow256(6));
  }

  /** The parts of a message of a known head and body, whatever follows it. */
  lemma {:induction false} Pieces(head: bytes, body: bytes, rest: bytes)
    ensures (head + body) + rest == head + (body + rest)
    ensures var s, n := (head + body) + rest, |head|;
            |s| == n + |body| + |rest| && s[n..n + |body|] == body && s[n + |body|..] == rest
  {
  }
}
