/**
 The network-prefix tests and masks written out separately in `types.rs`, `clients.rs`,
 `server.rs`, `ratelimit.rs`, `edns.rs` and `dns64.rs`, and what makes them one relation.
 */
module PrefixMask {
  import opened Bytes
  import opened BitMask

  datatype Option<+T> = None | Some(value: T)

  type V4Octets = o: ByteString | |o| == 4 witness [0, 0, 0, 0]
  type V6Octets = o: ByteString | |o| == 16 witness Zeros(16)

  datatype Ip = V4(v4: V4Octets) | V6(v6: V6Octets) {
    function Octets(): ByteString {
      match this case V4(o) => o case V6(o) => o
    }
    function Width(): nat {
      if V4? then 32 else 128
    }
  }

  predicate SameFamily(a: Ip, b: Ip) {
    a.V4? == b.V4?
  }

  /** The reference: the first `bits` bits of the address, as a number. */
  function TopBits(o: ByteString, bits: nat): nat
    requires bits <= 8 * |o|
  {
    Shr(FromBE(o), 8 * |o| - bits)
  }

  predicate SameTop(a: Ip, b: Ip, bits: nat)
    requires bits <= a.Width() && SameFamily(a, b)
  {
    TopBits(a.Octets(), bits) == TopBits(b.Octets(), bits)
  }

  // ---- byte by byte

  /** The mask for the `rem` leading bits of a byte. */
  function ByteMask(rem: nat): nat
    requires rem <= 8
  {
    Shl(AllOnes(8), 8 - rem, 8)
  }

  /** `mask_eq`. */
  predicate MaskEq(a: ByteString, b: ByteString, bits: nat)
    requires |a| == |b| && bits <= 8 * |a|
  {
    var full, rem := bits / 8, bits % 8;
    a[..full] == b[..full] && (rem == 0 || And(a[full], ByteMask(rem)) == And(b[full], ByteMask(rem)))
  }

  /** `Prefix::contains`. */
  predicate PrefixContains(addr: Ip, bits: nat, ip: Ip)
    requires bits <= addr.Width()
  {
    SameFamily(addr, ip) && MaskEq(addr.Octets(), ip.Octets(), bits)
  }

  function ClearedByte(x: Byte, rem: nat): (y: Byte)
    requires rem <= 8
  {
    ByteKept(x, rem);
    And(x, ByteMask(rem))
  }

  lemma ByteKept(x: Byte, rem: nat)
    requires rem <= 8
    ensures And(x, ByteMask(rem)) == ClearLow(x, 8 - rem) <= x
  {
    assert Pow2(4) == 16 && Pow2(8) == 256;
    MaskIsClear(x, 8 - rem, 8);
    ClearIdempotent(x, 8 - rem);
  }

  /** What `mask_bytes` leaves of byte `i`. */
  function MaskedByte(b: ByteString, bits: nat, i: nat): Byte
    requires i < |b|
  {
    if i < bits / 8 then b[i] else if i == bits / 8 then ClearedByte(b[i], bits % 8) else 0
  }

  function MaskBytes(b: ByteString, bits: nat): (r: ByteString)
    ensures |r| == |b|
    ensures forall i :: 0 <= i < |b| ==> r[i] == MaskedByte(b, bits, i)
  {
    seq(|b|, i requires 0 <= i < |b| => MaskedByte(b, bits, i))
  }

  lemma ClearedNone(x: Byte)
    ensures ClearedByte(x, 0) == 0
  {
    ByteKept(x, 0);
    ClearAll(x, 8);
    assert Pow2(4) == 16 && Pow2(8) == 256;
  }

  lemma {:induction false} ClearAll(v: nat, s: nat)
    requires v < Pow2(s)
    ensures ClearLow(v, s) == 0
  {
    if s > 0 {
      ClearAll(v / 2, s - 1);
    }
  }

  /** `mask_bytes`: zeroes every bit past the first `bits`. */
  method MaskInPlace(b: ByteString, bits: nat) returns (out: ByteString)
    ensures out == MaskBytes(b, bits)
  {
    hide ClearedByte;
    out := b;
    var full, rem := bits / 8, bits % 8;
    var from := full;
    if rem > 0 && full < |out| {
      out := out[full := ClearedByte(out[full], rem)];
      from := full + 1;
    } else if full < |out| {
      ClearedNone(b[full]);
    }
    var i := from;
    while i < |out|
      invariant |out| == |b| && from <= i
      invariant forall j :: 0 <= j < |b| && (j < full || (full < from && j == full)) ==> out[j] == MaskedByte(b, bits, j)
      invariant forall j :: from <= j < i && j < |b| ==> out[j] == 0
      invariant forall j :: i <= j < |b| ==> out[j] == b[j]
    {
      out := out[i := 0];
      i := i + 1;
    }
  }

  /** `subnet_key`, with the configured lengths cut to the address width. */
  function SubnetKey(ip: Ip, v4: nat, v6: nat): Ip {
    match ip
    case V4(o) => V4(MaskBytes(o, if v4 < 32 then v4 else 32))
    case V6(o) => V6(MaskBytes(o, if v6 < 128 then v6 else 128))
  }

  // ---- as one number

  function Number(ip: Ip): nat {
    FromBE(ip.Octets())
  }

  /** The mask `MAX << (width - bits)`, all zeros when the shift is the whole width. */
  function WordMask(bits: nat, width: nat): nat {
    if bits == 0 then 0 else if bits >= width then AllOnes(width) else Shl(AllOnes(width), width - bits, width)
  }

  /** `in_subnet`. */
  predicate InSubnet(addr: Ip, net: Ip, bits: nat) {
    SameFamily(addr, net) && bits <= addr.Width()
    && And(Number(addr), WordMask(bits, addr.Width())) == And(Number(net), WordMask(bits, addr.Width()))
  }

  /** `mask_bits`: a v4 address arrives widened to 128 bits.  A shift by the whole 128 wraps to no
      shift in a release build, and panics in a debug build. */
  function MaskBits(v: nat, bits: nat, width: nat): nat {
    if bits >= width then v else And(v, Shl(AllOnes(128), (width - bits) % 128, 128))
  }

  /** `in_net`. */
  predicate InNet(ip: Ip, net: Ip, bits: nat) {
    SameFamily(ip, net) && MaskBits(Number(ip), bits, ip.Width()) == MaskBits(Number(net), bits, ip.Width())
  }

  function FromNumber(v: nat, like: Ip): Ip {
    if like.V4? then V4(BE(v, 4)) else V6(BE(v, 16))
  }

  /** `mask` in `edns.rs`, and `mask_v6` in `dns64.rs`. */
  function Mask(ip: Ip, prefix: nat): Ip {
    FromNumber(And(Number(ip), WordMask(prefix, ip.Width())), ip)
  }

  // ---- they are one relation

  /** Splitting an address after its last byte. */
  lemma LastByte(o: ByteString)
    requires o != []
    ensures FromBE(o) == Join(FromBE(o[..|o| - 1]), o[|o| - 1], 8)
  {
    JoinByte(FromBE(o[..|o| - 1]), o[|o| - 1]);
  }

  lemma TopBitsShorter(o: ByteString, bits: nat)
    requires o != [] && bits <= 8 * (|o| - 1)
    ensures TopBits(o, bits) == TopBits(o[..|o| - 1], bits)
  {
    LastByte(o);
    ClearAbove(FromBE(o[..|o| - 1]), o[|o| - 1], 8, 8 * |o| - bits);
  }

  lemma TopBitsLast(o: ByteString, bits: nat)
    requires o != [] && 8 * (|o| - 1) <= bits <= 8 * |o|
    ensures var s := 8 * |o| - bits;
            TopBits(o, bits) == Join(FromBE(o[..|o| - 1]), Shr(o[|o| - 1], s), 8 - s)
            && Shr(o[|o| - 1], s) < Pow2(8 - s)
  {
    LastByte(o);
    ClearBelow(FromBE(o[..|o| - 1]), o[|o| - 1], 8, 8 * |o| - bits);
    assert Pow2(4) == 16 && Pow2(8) == 256;
    ShrBound(o[|o| - 1], 8 * |o| - bits, 8);
  }

  /** Comparing masked bytes is comparing top bits. */
  lemma {:induction false} MaskEqIsTopBits(a: ByteString, b: ByteString, bits: nat)
    requires |a| == |b| && bits <= 8 * |a|
    ensures MaskEq(a, b, bits) <==> TopBits(a, bits) == TopBits(b, bits)
  {
    hide And, Shr, ByteMask, TopBits, Join, FromBE;
    if a != [] {
      var m := |a| - 1;
      var c, d := a[..m], b[..m];
      if bits <= 8 * m {
        TopBitsShorter(a, bits);
        TopBitsShorter(b, bits);
        MaskEqIsTopBits(c, d, bits);
        MaskEqShorter(a, b, bits);
      } else {
        TopBitsLast(a, bits);
        TopBitsLast(b, bits);
        var s := 8 * |a| - bits;
        JoinInjective(FromBE(c), FromBE(d), Shr(a[m], s), Shr(b[m], s), 8 - s);
        FromBESame(c, d);
        MaskEqLast(a, b, bits);
      }
    }
  }

  lemma MaskEqShorter(a: ByteString, b: ByteString, bits: nat)
    requires |a| == |b| && a != [] && bits <= 8 * (|a| - 1)
    ensures MaskEq(a, b, bits) <==> MaskEq(a[..|a| - 1], b[..|b| - 1], bits)
  {
    hide And, ByteMask;
    var full := bits / 8;
    assert a[..|a| - 1][..full] == a[..full] && b[..|a| - 1][..full] == b[..full];
  }

  lemma MaskEqLast(a: ByteString, b: ByteString, bits: nat)
    requires |a| == |b| && a != [] && 8 * (|a| - 1) < bits <= 8 * |a|
    ensures var m, s := |a| - 1, 8 * |a| - bits;
            MaskEq(a, b, bits) <==> a[..m] == b[..m] && Shr(a[m], s) == Shr(b[m], s)
  {
    hide And, ByteMask;
    var m, s := |a| - 1, 8 * |a| - bits;
    if s > 0 {
      ByteKept(a[m], 8 - s);
      ByteKept(b[m], 8 - s);
      ClearSame(a[m], b[m], s);
    } else {
      assert a == a[..m] + [a[m]] && b == b[..m] + [b[m]];
      assert a[..|a|] == a && b[..|b|] == b;
    }
  }

  /** Masking byte by byte is clearing the low bits of the number. */
  lemma {:induction false} MaskBytesIsClear(o: ByteString, bits: nat)
    requires bits <= 8 * |o|
    ensures FromBE(MaskBytes(o, bits)) == ClearLow(FromBE(o), 8 * |o| - bits)
  {
    hide And, ClearLow, ByteMask, Join, ClearedByte;
    if o != [] {
      var m, s := |o| - 1, 8 * |o| - bits;
      var hi, lo, r := o[..m], o[m], MaskBytes(o, bits);
      LastByte(o);
      LastByte(r);
      if bits <= 8 * m {
        MaskBytesIsClear(hi, bits);
        assert r[..m] == MaskBytes(hi, bits);
        ClearedNone(lo);
        ClearAbove(FromBE(hi), lo, 8, s);
      } else {
        assert r[..m] == hi;
        ClearedLast(o, bits);
        ClearBelow(FromBE(hi), lo, 8, s);
      }
    } else {
      ClearZero(0);
    }
  }

  lemma ClearedLast(o: ByteString, bits: nat)
    requires o != [] && 8 * (|o| - 1) < bits <= 8 * |o|
    ensures MaskBytes(o, bits)[|o| - 1] == ClearLow(o[|o| - 1], 8 * |o| - bits)
  {
    hide And, ByteMask;
    ByteKept(o[|o| - 1], bits % 8);
  }

  lemma NumberBound(ip: Ip)
    ensures Number(ip) < Pow2(ip.Width()) && |ip.Octets()| * 8 == ip.Width()
  {
    FromBEBound(ip.Octets());
  }

  lemma WordMaskClears(v: nat, bits: nat, width: nat)
    requires bits <= width && v < Pow2(width)
    ensures And(v, WordMask(bits, width)) == ClearLow(v, width - bits)
  {
    hide ClearLow;
    MaskIsClear(v, width - bits, width);
    if bits == 0 {
      ShlOnes(width, width);
    }
  }

  lemma WiderMaskClears(v: nat, s: nat)
    requires s < 128 && v < Pow2(128)
    ensures And(v, Shl(AllOnes(128), s, 128)) == ClearLow(v, s)
  {
    MaskIsClear(v, s, 128);
  }

  /** `in_subnet` is equality of the top bits. */
  lemma InSubnetIsTop(a: Ip, b: Ip, bits: nat)
    requires SameFamily(a, b) && bits <= a.Width()
    ensures InSubnet(a, b, bits) <==> SameTop(a, b, bits)
  {
    hide And, ClearLow, Shr, WordMask, FromBE, Pow2;
    NumberBound(a);
    NumberBound(b);
    WordMaskClears(Number(a), bits, a.Width());
    WordMaskClears(Number(b), bits, a.Width());
    ClearSame(Number(a), Number(b), a.Width() - bits);
  }

  /** `in_net` is equality of the top bits at every valid length except IPv6 /0, where it is
      equality of the whole addresses. */
  lemma InNetIsTop(a: Ip, b: Ip, bits: nat)
    requires SameFamily(a, b) && bits <= a.Width()
    ensures bits > 0 || a.V4? ==> (InNet(a, b, bits) <==> SameTop(a, b, bits))
    ensures bits == 0 && a.V6? ==> SameTop(a, b, bits) && (InNet(a, b, bits) <==> a == b)
  {
    hide And, ClearLow, Shr, Shl, FromBE, Pow2;
    NumberBound(a);
    NumberBound(b);
    FromBESame(a.Octets(), b.Octets());
    ClearSame(Number(a), Number(b), a.Width() - bits);
    Widen(Number(a), a.Width());
    Widen(Number(b), a.Width());
    if 0 < bits < a.Width() || a.V4? {
      if bits < a.Width() {
        WiderMaskClears(Number(a), a.Width() - bits);
        WiderMaskClears(Number(b), a.Width() - bits);
      } else {
        ShrNothing(Number(a));
        ShrNothing(Number(b));
      }
    } else if bits == 0 {
      WiderMaskClears(Number(a), 0);
      WiderMaskClears(Number(b), 0);
      ShrNothing(Number(a));
      ShrNothing(Number(b));
      AllShifted(Number(a));
      AllShifted(Number(b));
    } else {
      ShrNothing(Number(a));
      ShrNothing(Number(b));
    }
  }

  lemma Widen(v: nat, width: nat)
    requires width <= 128 && v < Pow2(width)
    ensures v < Pow2(128)
  {
    Pow2Monotone(width, 128);
  }

  lemma ShrNothing(v: nat)
    ensures Shr(v, 0) == v && ClearLow(v, 0) == v
  {
  }

  lemma AllShifted(v: nat)
    requires v < Pow2(128)
    ensures Shr(v, 128) == 0
  {
    ShrBound(v, 128, 128);
  }

  /** The integer mask of an address, as bytes, is its byte-wise mask. */
  lemma MaskIsMaskBytes(a: Ip, bits: nat)
    requires bits <= a.Width()
    ensures Mask(a, bits).Octets() == MaskBytes(a.Octets(), bits) && SameFamily(Mask(a, bits), a)
  {
    hide And, ClearLow, WordMask, FromBE, BE, Pow2, MaskBytes;
    NumberBound(a);
    WordMaskClears(Number(a), bits, a.Width());
    MaskBytesIsClear(a.Octets(), bits);
    BEOfFromBE(MaskBytes(a.Octets(), bits));
  }

  lemma MaskedSame(a: ByteString, b: ByteString, bits: nat)
    requires |a| == |b| && bits <= 8 * |a|
    ensures MaskBytes(a, bits) == MaskBytes(b, bits) <==> TopBits(a, bits) == TopBits(b, bits)
  {
    hide ClearLow, Shr, FromBE, MaskBytes;
    MaskBytesIsClear(a, bits);
    MaskBytesIsClear(b, bits);
    FromBESame(MaskBytes(a, bits), MaskBytes(b, bits));
    ClearSame(FromBE(a), FromBE(b), 8 * |a| - bits);
  }

  /** At every valid length the containment tests and the equality of masks are all the same
      relation; `in_net` joins them except at IPv6 /0. */
  lemma OneRelation(a: Ip, b: Ip, bits: nat)
    requires SameFamily(a, b) && bits <= a.Width()
    ensures PrefixContains(a, bits, b) <==> SameTop(a, b, bits)
    ensures InSubnet(b, a, bits) <==> SameTop(a, b, bits)
    ensures bits > 0 || a.V4? ==> (InNet(b, a, bits) <==> SameTop(a, b, bits))
    ensures SubnetKey(a, bits, bits) == SubnetKey(b, bits, bits) <==> SameTop(a, b, bits)
    ensures Mask(a, bits) == Mask(b, bits) <==> SameTop(a, b, bits)
  {
    hide MaskEq, InSubnet, InNet, Mask, MaskBytes, TopBits;
    NumberBound(a);
    NumberBound(b);
    MaskEqIsTopBits(a.Octets(), b.Octets(), bits);
    InSubnetIsTop(b, a, bits);
    InNetIsTop(b, a, bits);
    MaskedSame(a.Octets(), b.Octets(), bits);
    MaskIsMaskBytes(a, bits);
    MaskIsMaskBytes(b, bits);
  }

  // ---- DNS64

  const MAX_PREFIX_BITS: nat := 96
  const WELL_KNOWN: V6Octets := [0x00, 0x64, 0xff, 0x9b, 0, 0, 0, 0, 0, 0, 0, 0, 0, 0, 0, 0]

  /** Masked prefixes with their lengths, in configuration order. */
  type Prefixes = seq<(V6Octets, nat)>

  function MaskV6(o: V6Octets, bits: nat): V6Octets {
    Mask(V6(o), bits).v6
  }

  /** The usable prefixes among the configured ones, masked. */
  function Usable(configured: seq<(Ip, nat)>): Prefixes {
    if configured == [] then []
    else
      var n := |configured| - 1;
      var (addr, bits) := configured[n];
      Usable(configured[..n]) + if addr.V6? && bits <= MAX_PREFIX_BITS then [(MaskV6(addr.v6, bits), bits)] else []
  }

  function PrefixesOf(enabled: bool, configured: seq<(Ip, nat)>): Prefixes {
    if !enabled then []
    else if Usable(configured) == [] then [(WELL_KNOWN, MAX_PREFIX_BITS)]
    else Usable(configured)
  }

  method NewPrefixes(enabled: bool, configured: seq<(Ip, nat)>) returns (out: Prefixes)
    ensures out == PrefixesOf(enabled, configured)
  {
    hide MaskV6;
    out := [];
    if !enabled {
      return;
    }
    for i := 0 to |configured|
      invariant out == Usable(configured[..i])
    {
      assert configured[..i + 1][..i] == configured[..i];
      var (addr, bits) := configured[i];
      if addr.V6? && bits <= MAX_PREFIX_BITS {
        out := out + [(MaskV6(addr.v6, bits), bits)];
      }
    }
    assert configured[..|configured|] == configured;
    if out == [] {
      out := [(WELL_KNOWN, MAX_PREFIX_BITS)];
    }
  }

  predicate FromConfigured(configured: seq<(Ip, nat)>, i: nat, o: V6Octets, bits: nat)
    requires i < |configured|
  {
    configured[i].0.V6? && configured[i].1 == bits <= 96 && o == MaskV6(configured[i].0.v6, bits)
  }

  /** The usable prefixes are the configured IPv6 ones of at most 96 bits, masked; the first of them
      is the first that counts. */
  lemma {:induction false} UsableIff(configured: seq<(Ip, nat)>, o: V6Octets, bits: nat)
    ensures (o, bits) in Usable(configured) <==> exists i :: 0 <= i < |configured| && FromConfigured(configured, i, o, bits)
  {
    hide MaskV6;
    if configured != [] {
      var n := |configured| - 1;
      UsableIff(configured[..n], o, bits);
      forall i | 0 <= i < n ensures FromConfigured(configured, i, o, bits) <==> FromConfigured(configured[..n], i, o, bits) {
        assert configured[i] == configured[..n][i];
      }
      assert (o, bits) in Usable(configured) <==> (o, bits) in Usable(configured[..n]) || FromConfigured(configured, n, o, bits);
    }
  }

  lemma {:induction false} FirstUsable(configured: seq<(Ip, nat)>, n: nat)
    requires n < |configured| && configured[n].0.V6? && configured[n].1 <= 96
    requires forall i :: 0 <= i < n ==> !(configured[i].0.V6? && configured[i].1 <= 96)
    ensures Usable(configured) != [] && Usable(configured)[0] == (MaskV6(configured[n].0.v6, configured[n].1), configured[n].1)
    decreases |configured|
  {
    hide MaskV6;
    var m := |configured| - 1;
    if n < m {
      assert forall i :: 0 <= i <= n ==> configured[..m][i] == configured[i];
      FirstUsable(configured[..m], n);
    } else {
      NoneUsable(configured[..m]);
    }
  }

  lemma {:induction false} NoneUsable(configured: seq<(Ip, nat)>)
    requires forall i :: 0 <= i < |configured| ==> !(configured[i].0.V6? && configured[i].1 <= 96)
    ensures Usable(configured) == []
  {
    hide MaskV6;
    if configured != [] {
      NoneUsable(configured[..|configured| - 1]);
    }
  }

  predicate Contains(ps: Prefixes, ip: Ip) {
    ip.V6? && exists i :: 0 <= i < |ps| && MaskV6(ip.v6, ps[i].1) == ps[i].0
  }

  /** `Prefixes::map`: the IPv4 address goes in the last four octets of the first prefix. */
  function MapInto(ps: Prefixes, addr: V4Octets): Option<V6Octets> {
    if ps == [] then None else Some(ps[0].0[..12] + addr)
  }

  /** A prefix with nothing set past its length, which is at most 96 bits. */
  predicate Clean(p: (V6Octets, nat)) {
    p.1 <= MAX_PREFIX_BITS && MaskBytes(p.0, p.1) == p.0
  }

  lemma MaskTwice(o: ByteString, bits: nat)
    requires bits <= 8 * |o|
    ensures MaskBytes(MaskBytes(o, bits), bits) == MaskBytes(o, bits)
  {
    hide ClearLow, FromBE, MaskBytes;
    var m := MaskBytes(o, bits);
    MaskBytesIsClear(o, bits);
    MaskBytesIsClear(m, bits);
    ClearIdempotent(FromBE(o), 8 * |o| - bits);
    FromBESame(MaskBytes(m, bits), m);
  }

  lemma {:induction false} UsableClean(configured: seq<(Ip, nat)>)
    ensures forall i :: 0 <= i < |Usable(configured)| ==> Clean(Usable(configured)[i])
  {
    hide MaskBytes, Mask;
    if configured != [] {
      var n := |configured| - 1;
      UsableClean(configured[..n]);
      var (addr, bits) := configured[n];
      if addr.V6? && bits <= MAX_PREFIX_BITS {
        MaskIsMaskBytes(addr, bits);
        MaskTwice(addr.v6, bits);
      }
    }
  }

  /** Replacing the last four octets of a clean prefix does not take it out of the prefix. */
  lemma MapStaysInside(p: (V6Octets, nat), addr: V4Octets)
    requires Clean(p)
    ensures MaskBytes(p.0[..12] + addr, p.1) == p.0
  {
    hide ClearedByte;
    var mapped := p.0[..12] + addr;
    var m, n := MaskBytes(mapped, p.1), MaskBytes(p.0, p.1);
    forall i | 0 <= i < 16 ensures m[i] == n[i] {
      if i >= 12 {
        ClearedNone(mapped[i]);
        ClearedNone(p.0[i]);
      }
    }
  }

  /** An address mapped by DNS64 always lies inside a configured prefix, and carries the IPv4
      address it was made from; there is one to map into exactly when the feature is on. */
  lemma MappedIsContained(enabled: bool, configured: seq<(Ip, nat)>, addr: V4Octets)
    ensures var ps := PrefixesOf(enabled, configured); var mapped := MapInto(ps, addr);
            && (mapped.Some? <==> enabled)
            && (mapped.Some? ==> Contains(ps, V6(mapped.value)) && mapped.value[12..] == addr)
  {
    hide MaskBytes, Mask, Usable;
    var ps := PrefixesOf(enabled, configured);
    if enabled {
      UsableClean(configured);
      assert Clean(ps[0]);
      var mapped := ps[0].0[..12] + addr;
      MapStaysInside(ps[0], addr);
      MaskIsMaskBytes(V6(mapped), ps[0].1);
      assert MaskV6(mapped, ps[0].1) == ps[0].0;
    }
  }
}
