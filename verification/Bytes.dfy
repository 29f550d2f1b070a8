/** Byte strings, fixed-width integer encodings and buffer splicing. */
module Bytes {

  type Byte = b: int | 0 <= b < 256

  type ByteString = seq<Byte>

  /** Two's-power bounds of the source's integer types. */
  const U16_LIMIT: nat := 0x1_0000
  const U32_LIMIT: nat := 0x1_0000_0000
  const U64_LIMIT: nat := 0x1_0000_0000_0000_0000

  /** The longest a Rust `Vec<u8>` can be; asking for more panics. */
  const ISIZE_MAX: nat := 0x7fff_ffff_ffff_ffff

  function Pow256(w: nat): nat {
    if w == 0 then 1 else 256 * Pow256(w - 1)
  }

  function Pow2(n: nat): (p: nat)
    ensures p > 0
  {
    if n == 0 then 1 else 2 * Pow2(n - 1)
  }

  /** The low `w` bytes of `n`, least significant first. */
  function LE(n: nat, w: nat): (b: ByteString)
    ensures |b| == w
  {
    if w == 0 then [] else [n % 256] + LE(n / 256, w - 1)
  }

  function FromLE(b: ByteString): nat {
    if b == [] then 0 else b[0] + 256 * FromLE(b[1..])
  }

  /** The low `w` bytes of `n`, most significant first. */
  function BE(n: nat, w: nat): (b: ByteString)
    ensures |b| == w
  {
    if w == 0 then [] else BE(n / 256, w - 1) + [n % 256]
  }

  function FromBE(b: ByteString): nat {
    if b == [] then 0 else 256 * FromBE(b[..|b| - 1]) + b[|b| - 1]
  }

  lemma {:induction false} DivBound(n: nat, w: nat)
    requires w > 0 && n < Pow256(w)
    ensures n / 256 < Pow256(w - 1)
  {
  }

  /** Decoding undoes encoding for every number that fits the width. */
  lemma {:induction false} LERoundTrip(n: nat, w: nat)
    requires n < Pow256(w)
    ensures FromLE(LE(n, w)) == n
  {
    if w > 0 {
      DivBound(n, w);
      LERoundTrip(n / 256, w - 1);
      assert LE(n, w)[1..] == LE(n / 256, w - 1);
    }
  }

  lemma {:induction false} BERoundTrip(n: nat, w: nat)
    requires n < Pow256(w)
    ensures FromBE(BE(n, w)) == n
  {
    if w > 0 {
      DivBound(n, w);
      BERoundTrip(n / 256, w - 1);
      assert BE(n, w)[..w - 1] == BE(n / 256, w - 1);
    }
  }

  lemma Widths()
    ensures Pow256(2) == U16_LIMIT
    ensures Pow256(4) == U32_LIMIT
    ensures Pow256(8) == U64_LIMIT
  {
    assert Pow256(1) == 256;
    assert Pow256(2) == 0x1_0000;
    assert Pow256(3) == 0x100_0000;
    assert Pow256(4) == 0x1_0000_0000;
    assert Pow256(5) == 0x100_0000_0000;
    assert Pow256(6) == 0x1_0000_0000_0000;
    assert Pow256(7) == 0x100_0000_0000_0000;
  }

  function Zeros(n: nat): (z: ByteString)
    ensures |z| == n
  {
    seq(n, _ => 0)
  }

  /** Overwrites `|x|` bytes of `s` from offset `off`. */
  function Splice(s: ByteString, off: nat, x: ByteString): (r: ByteString)
    requires off + |x| <= |s|
    ensures |r| == |s|
  {
    s[..off] + x + s[off + |x|..]
  }

  /** Two adjacent overwrites are one overwrite of the joined bytes. */
  lemma SpliceJoin(s: ByteString, off: nat, x: ByteString, y: ByteString)
    requires off + |x| + |y| <= |s|
    ensures Splice(Splice(s, off, x), off + |x|, y) == Splice(s, off, x + y)
  {
    var m := Splice(s, off, x);
    assert m[..off + |x|] == s[..off] + x;
    assert m[off + |x| + |y|..] == s[off + |x| + |y|..];
  }

  /** `copy_from_slice` into part of a fixed-size buffer. */
  method CopyInto(buf: array<Byte>, off: nat, x: ByteString)
    requires off + |x| <= buf.Length
    modifies buf
    ensures buf[..] == Splice(old(buf[..]), off, x)
  {
    forall i | 0 <= i < |x| {
      buf[off + i] := x[i];
    }
    assert forall i :: off <= i < off + |x| ==> buf[i] == x[i - off];
  }

  lemma AppendSlice(front: ByteString, tail: ByteString, lo: nat, hi: nat)
    requires lo <= hi <= |tail|
    ensures (front + tail)[|front| + lo..|front| + hi] == tail[lo..hi]
  {
  }

  /** Little-endian puts the lowest byte first, big-endian last, and the rest likewise. */
  lemma LowByte(n: nat, w: nat)
    requires w > 0
    ensures LE(n, w)[0] == n % 256 && LE(n, w)[1..] == LE(n / 256, w - 1)
    ensures BE(n, w)[w - 1] == n % 256 && BE(n, w)[..w - 1] == BE(n / 256, w - 1)
  {
  }
}
