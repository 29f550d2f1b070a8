/** Shifts and masks on fixed-width numbers, one bit at a time. */
module BitMask {
  import opened Bytes

  /** Bitwise and. */
  function And(a: nat, b: nat): nat
    decreases a
  {
    if a == 0 then 0 else (if a % 2 == 1 && b % 2 == 1 then 1 else 0) + 2 * And(a / 2, b / 2)
  }

  /** A left shift inside `width` bits; what is pushed out is lost. */
  function Shl(v: nat, s: nat, width: nat): nat {
    if s == 0 then v
    else
      var w := 2 * Shl(v, s - 1, width);
      if w >= Pow2(width) then w - Pow2(width) else w
  }

  /** A right shift: the bits of `v` above the low `s`. */
  function Shr(v: nat, s: nat): nat {
    if s == 0 then v else Shr(v / 2, s - 1)
  }

  function AllOnes(width: nat): nat {
    Pow2(width) - 1
  }

  /** `v` with its low `s` bits cleared. */
  function ClearLow(v: nat, s: nat): nat {
    if s == 0 then v else 2 * ClearLow(v / 2, s - 1)
  }

  lemma {:induction false} Pow2Monotone(m: nat, n: nat)
    requires m <= n
    ensures Pow2(m) <= Pow2(n)
  {
    if m < n {
      Pow2Monotone(m, n - 1);
    }
  }

  /** Shifting all ones leaves exactly the top bits set. */
  lemma {:induction false} ShlOnes(s: nat, width: nat)
    requires s <= width
    ensures Pow2(s) <= Pow2(width) && Shl(AllOnes(width), s, width) == Pow2(width) - Pow2(s)
  {
    Pow2Monotone(s, width);
    if s > 0 {
      ShlOnes(s - 1, width);
    }
  }

  lemma AndZero(m: nat)
    ensures And(0, m) == 0
  {
  }

  lemma AndStep(v: nat, m: nat, half: nat, bit: nat)
    requires v > 0 && bit < 2 && m == 2 * half + bit
    ensures And(v, m) == 2 * And(v / 2, half) + (if bit == 1 then v % 2 else 0)
  {
  }

  lemma {:induction false} AndTop(v: nat, s: nat, width: nat)
    requires s <= width && v < Pow2(width)
    ensures Pow2(s) <= Pow2(width) && And(v, Pow2(width) - Pow2(s)) == ClearLow(v, s)
    decreases width
  {
    hide And;
    Pow2Monotone(s, width);
    if v == 0 {
      ClearZero(s);
      AndZero(Pow2(width) - Pow2(s));
    } else if s > 0 {
      AndTop(v / 2, s - 1, width - 1);
      AndStep(v, Pow2(width) - Pow2(s), Pow2(width - 1) - Pow2(s - 1), 0);
    } else {
      AndTop(v / 2, 0, width - 1);
      AndStep(v, Pow2(width) - 1, Pow2(width - 1) - 1, 1);
      assert ClearLow(v / 2, 0) == v / 2;
    }
  }

  lemma {:induction false} ClearZero(s: nat)
    ensures ClearLow(0, s) == 0 && Shr(0, s) == 0
  {
    if s > 0 {
      ClearZero(s - 1);
    }
  }

  /** `v & (MAX << s)` clears the low `s` bits. */
  lemma MaskIsClear(v: nat, s: nat, width: nat)
    requires s <= width && v < Pow2(width)
    ensures And(v, Shl(AllOnes(width), s, width)) == ClearLow(v, s)
  {
    ShlOnes(s, width);
    AndTop(v, s, width);
  }

  /** Numbers agree with their low bits cleared exactly when they agree above them. */
  lemma {:induction false} ClearSame(u: nat, v: nat, s: nat)
    ensures ClearLow(u, s) == ClearLow(v, s) <==> Shr(u, s) == Shr(v, s)
  {
    if s > 0 {
      ClearSame(u / 2, v / 2, s - 1);
    }
  }

  lemma {:induction false} ClearIdempotent(v: nat, s: nat)
    ensures ClearLow(ClearLow(v, s), s) == ClearLow(v, s) <= v
  {
    if s > 0 {
      ClearIdempotent(v / 2, s - 1);
    }
  }

  lemma {:induction false} ShrBound(v: nat, s: nat, width: nat)
    requires s <= width && v < Pow2(width)
    ensures Shr(v, s) < Pow2(width - s)
  {
    if s > 0 {
      ShrBound(v / 2, s - 1, width - 1);
    }
  }

  // ---- numbers made of bytes

  /** `hi` followed by the low `k` bits of `lo`. */
  function Join(hi: nat, lo: nat, k: nat): nat {
    if k == 0 then hi else 2 * Join(hi, lo / 2, k - 1) + lo % 2
  }

  lemma JoinByte(hi: nat, lo: nat)
    requires lo < 256
    ensures Join(hi, lo, 8) == 256 * hi + lo
  {
    var a, b, c := lo / 2, lo / 4, lo / 8;
    var d, e, f, g := lo / 16, lo / 32, lo / 64, lo / 128;
    assert Join(hi, g, 1) == 2 * hi + g;
    assert f / 2 == g && Join(hi, f, 2) == 4 * hi + f;
    assert e / 2 == f && Join(hi, e, 3) == 8 * hi + e;
    assert d / 2 == e && Join(hi, d, 4) == 16 * hi + d;
    assert c / 2 == d && Join(hi, c, 5) == 32 * hi + c;
    assert b / 2 == c && Join(hi, b, 6) == 64 * hi + b;
    assert a / 2 == b && Join(hi, a, 7) == 128 * hi + a;
  }

  lemma {:induction false} JoinInjective(h: nat, g: nat, l: nat, m: nat, k: nat)
    requires l < Pow2(k) && m < Pow2(k)
    ensures Join(h, l, k) == Join(g, m, k) <==> h == g && l == m
  {
    if k > 0 {
      JoinInjective(h, g, l / 2, m / 2, k - 1);
    }
  }

  lemma {:induction false} ClearAbove(hi: nat, lo: nat, k: nat, s: nat)
    requires k <= s
    ensures ClearLow(Join(hi, lo, k), s) == Join(ClearLow(hi, s - k), 0, k)
    ensures Shr(Join(hi, lo, k), s) == Shr(hi, s - k)
  {
    if k > 0 {
      ClearAbove(hi, lo / 2, k - 1, s - 1);
      assert Join(hi, lo, k) / 2 == Join(hi, lo / 2, k - 1);
    }
  }

  lemma {:induction false} ClearBelow(hi: nat, lo: nat, k: nat, s: nat)
    requires s <= k
    ensures ClearLow(Join(hi, lo, k), s) == Join(hi, ClearLow(lo, s), k)
    ensures Shr(Join(hi, lo, k), s) == Join(hi, Shr(lo, s), k - s)
  {
    if s > 0 {
      ClearBelow(hi, lo / 2, k - 1, s - 1);
      assert Join(hi, lo, k) / 2 == Join(hi, lo / 2, k - 1);
    }
  }

  lemma {:induction false} FromBEBound(b: ByteString)
    ensures FromBE(b) < Pow2(8 * |b|)
  {
    if b != [] {
      FromBEBound(b[..|b| - 1]);
      EightMore(8 * (|b| - 1));
    }
  }

  lemma EightMore(n: nat)
    ensures Pow2(n + 8) == 256 * Pow2(n)
  {
    assert Pow2(n + 2) == 4 * Pow2(n);
    assert Pow2(n + 4) == 4 * Pow2(n + 2);
    assert Pow2(n + 6) == 4 * Pow2(n + 4);
  }

  lemma {:induction false} BEOfFromBE(b: ByteString)
    ensures BE(FromBE(b), |b|) == b
  {
    if b != [] {
      BEOfFromBE(b[..|b| - 1]);
      assert b == b[..|b| - 1] + [b[|b| - 1]];
    }
  }

  lemma FromBESame(a: ByteString, b: ByteString)
    requires |a| == |b|
    ensures FromBE(a) == FromBE(b) <==> a == b
  {
    BEOfFromBE(a);
    BEOfFromBE(b);
  }
}
