/** The FNV-1a hash that guards each meta page. */
module Fnv {
  import opened Bytes

  const OFFSET: nat := 0xcbf2_9ce4_8422_2325
  const PRIME: nat := 0x0000_0100_0000_01b3

  /** The inverse of `PRIME` modulo 2^64, and the quotient that shows it is one. */
  const INVERSE: nat := 0xce96_5057_aff6_957b
  const QUOTIENT: nat := 887285111055

  /** Exclusive or of the low `n` bits. */
  function XorBits(a: nat, b: nat, n: nat): (r: nat)
    ensures r < Pow2(n)
  {
    if n == 0 then 0 else (if a % 2 == b % 2 then 0 else 1) + 2 * XorBits(a / 2, b / 2, n - 1)
  }

  /** Exclusive or of two bytes. */
  function Xor(a: Byte, b: Byte): (r: Byte) {
    XorBits(a, b, 8)
  }

  lemma Halves(x: nat, bit: nat, r: nat)
    requires bit < 2 && x == bit + 2 * r
    ensures x / 2 == r && x % 2 == bit
  {
  }

  lemma {:induction false} XorBitsCancel(a: nat, b: nat, n: nat)
    requires a < Pow2(n) && b < Pow2(n)
    ensures XorBits(XorBits(a, b, n), b, n) == a
    ensures XorBits(a, XorBits(a, b, n), n) == b
  {
    if n > 0 {
      XorBitsCancel(a / 2, b / 2, n - 1);
      var x, r := XorBits(a, b, n), XorBits(a / 2, b / 2, n - 1);
      var bit := if a % 2 == b % 2 then 0 else 1;
      Halves(x, bit, r);
    }
  }

  /** `h` with the byte folded into its low eight bits. */
  function Mix(h: nat, b: Byte): (m: nat)
    ensures m / 256 == h / 256 && m % 256 == Xor(h % 256, b)
  {
    h / 256 * 256 + Xor(h % 256, b)
  }

  /** One round: mix the byte in, then multiply with wrap-around. */
  function Round(h: nat, b: Byte): (r: nat)
    ensures r < U64_LIMIT
  {
    (Mix(h, b) * PRIME) % U64_LIMIT
  }

  function Hash(data: ByteString): (h: nat)
    ensures h < U64_LIMIT
  {
    if data == [] then OFFSET else Round(Hash(data[..|data| - 1]), data[|data| - 1])
  }

  method Fnv1a64(data: ByteString) returns (h: nat)
    ensures h == Hash(data)
  {
    h := OFFSET;
    for i := 0 to |data|
      invariant h == Hash(data[..i])
    {
      assert data[..i + 1][..i] == data[..i];
      h := Round(h, data[i]);
    }
    assert data[..|data|] == data;
  }

  lemma XorCancels(a: Byte, b: Byte)
    ensures Xor(Xor(a, b), b) == a
    ensures Xor(a, Xor(a, b)) == b
  {
    assert Pow2(4) == 16 && Pow2(8) == 256;
    XorBitsCancel(a, b, 8);
  }

  lemma {:induction false} MultiplyInjective(x: nat, y: nat)
    requires x < U64_LIMIT && y < U64_LIMIT
    requires (x * PRIME) % U64_LIMIT == (y * PRIME) % U64_LIMIT
    ensures x == y
  {
    var d := x - y;
    var q := x * PRIME / U64_LIMIT - y * PRIME / U64_LIMIT;
    assert d * PRIME == U64_LIMIT * q;
    assert PRIME * INVERSE == 1 + QUOTIENT * U64_LIMIT;
    assert d == U64_LIMIT * (q * INVERSE - QUOTIENT * d);
  }

  lemma MixInjective(h: nat, g: nat, b: Byte, c: Byte)
    ensures Mix(h, b) == Mix(g, c) ==> (h == g <==> b == c)
  {
    hide Xor, Mix;
    if Mix(h, b) == Mix(g, c) {
      XorCancels(h % 256, b);
      XorCancels(g % 256, c);
    }
  }

  /** A round loses nothing: equal results from one byte mean equal inputs, and so for the byte. */
  lemma RoundInjective(h: nat, g: nat, b: Byte, c: Byte)
    requires h < U64_LIMIT && g < U64_LIMIT
    ensures Round(h, b) == Round(g, c) ==> (h == g <==> b == c)
  {
    hide Mix, Xor;
    if Round(h, b) == Round(g, c) {
      MixBound(h, b);
      MixBound(g, c);
      MultiplyInjective(Mix(h, b), Mix(g, c));
      MixInjective(h, g, b, c);
    }
  }

  lemma MixBound(h: nat, b: Byte)
    requires h < U64_LIMIT
    ensures Mix(h, b) < U64_LIMIT
  {
    hide Xor;
  }

  /** Changing exactly one byte always changes the hash. */
  lemma {:induction false} OneByteChangesHash(data: ByteString, i: nat, b: Byte)
    requires i < |data| && data[i] != b
    ensures Hash(data[i := b]) != Hash(data)
  {
    var n := |data| - 1;
    var other := data[i := b];
    if i < n {
      OneByteChangesHash(data[..n], i, b);
      assert other[..n] == data[..n][i := b];
    } else {
      assert other[..n] == data[..n];
    }
    RoundInjective(Hash(data[..n]), Hash(other[..n]), data[n], other[n]);
  }

  lemma XorOfLetter()
    ensures Xor(37, 97) == 68
  {
    assert XorBits(0, 1, 2) == 1;
    assert XorBits(2, 6, 4) == 4;
    assert XorBits(9, 24, 6) == 17;
  }

  /** The published test vectors for the empty input and for the letter a. */
  lemma KnownVectors()
    ensures Hash([]) == 0xcbf2_9ce4_8422_2325 && Hash([97]) == 0xaf63_dc4c_8601_ec8c
  {
    hide Xor;
    XorOfLetter();
    assert Mix(OFFSET, 97) == OFFSET / 256 * 256 + 68;
    assert Hash([]) == OFFSET;
    assert [97][..0] == [];
  }
}
