/** The layout of a whole bbolt file, said declaratively: which page holds what. */
module BoltImage {
  import opened Bytes
  import opened BoltPage
  import opened BoltLeaf
  import opened OrderedMap

  /** Top-level buckets by name, each with its keys, all in ascending order. */
  type Buckets = Entries<Entries<ByteString>>

  const FREELIST: nat := 2
  const ROOT: nat := 3

  ghost predicate WellFormed(b: Buckets) {
    Ascending(b) && forall i :: 0 <= i < |b| ==> Ascending(b[i].1)
  }

  predicate IsPowerOfTwo(n: nat) {
    n == 1 || (n > 1 && n % 2 == 0 && IsPowerOfTwo(n / 2))
  }

  predicate PageSizeOk(ps: nat) {
    ps >= 512 && IsPowerOfTwo(ps)
  }

  /** Whether a bucket is small enough to live inside the root page. */
  predicate Inlined(d: Pairs, ps: nat) {
    BUCKET_HEADER + |Body(d, 0)| <= ps / 4
  }

  /** The pages a bucket occupies on its own. */
  function OwnPages(d: Pairs, ps: nat): nat
    requires ps > 0
  {
    if Inlined(d, ps) then 0 else PagesFor(|Body(d, 0)|, ps)
  }

  function PagesBefore(b: Buckets, ps: nat, n: nat): nat
    requires ps > 0 && n <= |b|
  {
    if n == 0 then 0 else PagesBefore(b, ps, n - 1) + OwnPages(b[n - 1].1, ps)
  }

  function StubLen(d: Pairs, ps: nat): nat {
    if Inlined(d, ps) then BUCKET_HEADER + |Body(d, 0)| else BUCKET_HEADER
  }

  /** The root as the sizing pass sees it: right lengths, zero-filled values. */
  function Sizing(b: Buckets, ps: nat): (s: Pairs)
    ensures |s| == |b|
    ensures forall i :: 0 <= i < |b| ==> s[i] == (b[i].0, Zeros(StubLen(b[i].1, ps)))
  {
    seq(|b|, i requires 0 <= i < |b| => (b[i].0, Zeros(StubLen(b[i].1, ps))))
  }

  function RootPages(b: Buckets, ps: nat): (n: nat)
    requires ps > 0
    ensures n >= 1
  {
    PagesFor(|Body(Sizing(b, ps), BUCKET_LEAF_FLAG)|, ps)
  }

  /** The page bucket `i` starts on if it is spilled. */
  function StartOf(b: Buckets, ps: nat, i: nat): nat
    requires ps > 0 && i <= |b|
  {
    ROOT + RootPages(b, ps) + PagesBefore(b, ps, i)
  }

  function TotalPages(b: Buckets, ps: nat): nat
    requires ps > 0
  {
    StartOf(b, ps, |b|)
  }

  /** What the root stores for bucket `i`. */
  function RootValue(b: Buckets, ps: nat, i: nat): (v: ByteString)
    requires ps > 0 && i < |b|
    ensures |v| == StubLen(b[i].1, ps)
  {
    if Inlined(b[i].1, ps) then BucketHeader(0, 0).Encode() + Body(b[i].1, 0)
    else BucketHeader(StartOf(b, ps, i), 0).Encode()
  }

  function RootEntries(b: Buckets, ps: nat): (s: Pairs)
    requires ps > 0
    ensures |s| == |b|
    ensures forall i :: 0 <= i < |b| ==> s[i] == (b[i].0, RootValue(b, ps, i))
  {
    seq(|b|, i requires 0 <= i < |b| => (b[i].0, RootValue(b, ps, i)))
  }

  function RootPage(b: Buckets, ps: nat): ByteString
    requires ps > 0
  {
    LeafPage(ROOT, RootEntries(b, ps), ps, BUCKET_LEAF_FLAG)
  }

  /** The spilled buckets among the first `n`, with their page numbers. */
  function SpillList(b: Buckets, ps: nat, n: nat): seq<(nat, ByteString)>
    requires ps > 0 && n <= |b|
  {
    if n == 0 then []
    else if Inlined(b[n - 1].1, ps) then SpillList(b, ps, n - 1)
    else SpillList(b, ps, n - 1)
         + [(StartOf(b, ps, n - 1), LeafPage(StartOf(b, ps, n - 1), b[n - 1].1, ps, 0))]
  }

  function Join(l: seq<(nat, ByteString)>): ByteString {
    if l == [] then [] else Join(l[..|l| - 1]) + l[|l| - 1].1
  }

  function MetaOf(b: Buckets, ps: nat, txid: nat): Meta
    requires ps > 0
  {
    Meta(MAGIC, VERSION, ps % U32_LIMIT, 0, ROOT, 0, FREELIST, TotalPages(b, ps), txid, 0)
  }

  function Padded(x: ByteString, ps: nat): (p: ByteString)
    requires |x| <= ps
    ensures |p| == ps
  {
    x + Zeros(ps - |x|)
  }

  function MetaPage(b: Buckets, ps: nat, id: nat): (p: ByteString)
    requires ps >= META_END
    ensures |p| == ps
  {
    Padded(MetaOf(b, ps, id + 2).Encode(id), ps)
  }

  function FreePage(ps: nat): (p: ByteString)
    requires ps >= PAGE_HEADER
    ensures |p| == ps
  {
    Padded(PageHeader(FREELIST, FLAG_FREELIST, 0, 0).Encode(), ps)
  }

  /** Pages 0 to 2 and the root. */
  function Front(b: Buckets, ps: nat): ByteString
    requires ps >= META_END
  {
    MetaPage(b, ps, 0) + MetaPage(b, ps, 1) + FreePage(ps) + RootPage(b, ps)
  }

  /** The whole file. */
  function Image(b: Buckets, ps: nat): ByteString
    requires ps >= META_END
  {
    Front(b, ps) + Join(SpillList(b, ps, |b|))
  }

  /** Whether every count, length and offset fits its field. */
  predicate Encodable(b: Buckets, ps: nat)
    requires ps > 0
  {
    && (forall i :: 0 <= i < |b| ==> BucketEncodable(b[i].1, ps))
    && PageFits(Sizing(b, ps), ps)
  }

  predicate BucketEncodable(d: Pairs, ps: nat)
    requires ps > 0
  {
    Fits(d) && (Inlined(d, ps) || PageFits(d, ps))
  }

  // ---- sizing

  /** The real root takes exactly the pages its zero-filled sizing pass predicted. */
  lemma SizingIsExact(b: Buckets, ps: nat)
    requires ps > 0
    ensures |RootPage(b, ps)| == Span(RootPages(b, ps), ps)
    ensures Fits(RootEntries(b, ps)) == Fits(Sizing(b, ps))
    ensures PageFits(RootEntries(b, ps), ps) == PageFits(Sizing(b, ps), ps)
  {
    hide PageHeader.Encode, Table, Payload, ElemOf, PagesFor, Inlined, Zeros, StubLen, RootValue;
    SameLengthsSameSize(Sizing(b, ps), RootEntries(b, ps));
    SameLengthsSameFit(Sizing(b, ps), RootEntries(b, ps));
  }

  lemma FrontLength(b: Buckets, ps: nat)
    requires ps >= META_END
    ensures |Front(b, ps)| == Span(StartOf(b, ps, 0), ps)
  {
    hide RootPages, RootPage, MetaPage, FreePage, Span;
    SizingIsExact(b, ps);
    SpanAdd(ROOT, RootPages(b, ps), ps);
    SpanThree(ps);
  }

  lemma SpanThree(ps: nat)
    ensures Span(ROOT, ps) == 3 * ps
  {
    assert Span(1, ps) == ps;
    assert Span(2, ps) == 2 * ps;
  }

  /** Bucket `n - 1` adds a page image of exactly its own pages, or nothing. */
  lemma SpillAdds(b: Buckets, ps: nat, n: nat)
    requires ps > 0 && 0 < n <= |b|
    ensures |Join(SpillList(b, ps, n))| == |Join(SpillList(b, ps, n - 1))| + Span(OwnPages(b[n - 1].1, ps), ps)
  {
    hide Body, LeafPage, Inlined, StartOf, PagesFor;
    var l := SpillList(b, ps, n);
    if !Inlined(b[n - 1].1, ps) {
      assert l[..|l| - 1] == SpillList(b, ps, n - 1);
    }
  }

  lemma {:induction false} SpillLength(b: Buckets, ps: nat, n: nat)
    requires ps > 0 && n <= |b|
    ensures |Join(SpillList(b, ps, n))| == Span(PagesBefore(b, ps, n), ps)
  {
    hide Join, OwnPages, Span, SpillList;
    if n > 0 {
      SpillLength(b, ps, n - 1);
      SpillAdds(b, ps, n);
      SpanAdd(PagesBefore(b, ps, n - 1), OwnPages(b[n - 1].1, ps), ps);
    } else {
      NothingSpilled(b, ps);
    }
  }

  lemma NothingSpilled(b: Buckets, ps: nat)
    requires ps > 0
    ensures |Join(SpillList(b, ps, 0))| == Span(0, ps)
  {
  }

  lemma ImageLength(b: Buckets, ps: nat)
    requires ps >= META_END
    ensures |Image(b, ps)| == Span(TotalPages(b, ps), ps)
  {
    hide Front, RootPages, SpillList, Join, Span;
    FrontLength(b, ps);
    SpillLength(b, ps, |b|);
    SpanAdd(StartOf(b, ps, 0), PagesBefore(b, ps, |b|), ps);
  }

  // ---- extents

  /** First page and page count of everything in the file, in file order. */
  function Extents(b: Buckets, ps: nat): seq<(nat, nat)>
    requires ps > 0
  {
    [(0, 1), (1, 1), (FREELIST, 1), (ROOT, RootPages(b, ps))] + SpillExtents(b, ps, |b|)
  }

  function SpillExtents(b: Buckets, ps: nat, n: nat): seq<(nat, nat)>
    requires ps > 0 && n <= |b|
  {
    if n == 0 then []
    else if Inlined(b[n - 1].1, ps) then SpillExtents(b, ps, n - 1)
    else SpillExtents(b, ps, n - 1) + [(StartOf(b, ps, n - 1), OwnPages(b[n - 1].1, ps))]
  }

  /** Each extent starts where the previous one ends, from `lo` to `hi`. */
  predicate Tiles(e: seq<(nat, nat)>, lo: nat, hi: nat) {
    if e == [] then lo == hi
    else
      var last := e[|e| - 1];
      last.1 >= 1 && last.0 + last.1 == hi && lo <= last.0 && Tiles(e[..|e| - 1], lo, last.0)
  }

  predicate InExtent(p: nat, e: (nat, nat)) {
    e.0 <= p < e.0 + e.1
  }

  /** Bucket `n - 1` adds the extent that starts where it starts, or nothing. */
  lemma ExtentStep(b: Buckets, ps: nat, n: nat)
    requires ps > 0 && 0 < n <= |b|
    ensures var own, start := OwnPages(b[n - 1].1, ps), StartOf(b, ps, n - 1);
            && StartOf(b, ps, n) == start + own
            && SpillExtents(b, ps, n) == SpillExtents(b, ps, n - 1) + (if own == 0 then [] else [(start, own)])
  {
    hide RootPages, PagesFor, Inlined, Body;
  }

  lemma NoExtents(b: Buckets, ps: nat)
    requires ps > 0
    ensures SpillExtents(b, ps, 0) == []
  {
  }

  lemma TilesNone(lo: nat)
    ensures Tiles([], lo, lo)
  {
  }

  lemma TilesSnoc(e: seq<(nat, nat)>, lo: nat, mid: nat, own: nat)
    requires Tiles(e, lo, mid) && own > 0
    ensures Tiles(e + [(mid, own)], lo, mid + own)
  {
    TilesBound(e, lo, mid);
    var more := e + [(mid, own)];
    assert more[..|more| - 1] == e;
  }

  lemma {:induction false} SpillTiles(b: Buckets, ps: nat, n: nat)
    requires ps > 0 && n <= |b|
    ensures Tiles(SpillExtents(b, ps, n), StartOf(b, ps, 0), StartOf(b, ps, n))
  {
    hide *;
    if n == 0 {
      NoExtents(b, ps);
      TilesNone(StartOf(b, ps, 0));
    } else {
      SpillTiles(b, ps, n - 1);
      ExtentStep(b, ps, n);
      if OwnPages(b[n - 1].1, ps) > 0 {
        TilesSnoc(SpillExtents(b, ps, n - 1), StartOf(b, ps, 0), StartOf(b, ps, n - 1), OwnPages(b[n - 1].1, ps));
      } else {
        assert SpillExtents(b, ps, n) == SpillExtents(b, ps, n - 1);
      }
    }
  }

  lemma {:induction false} TilesBound(e: seq<(nat, nat)>, lo: nat, hi: nat)
    requires Tiles(e, lo, hi)
    ensures lo <= hi
  {
  }

  lemma {:induction false} TilesJoin(d: seq<(nat, nat)>, e: seq<(nat, nat)>, lo: nat, mid: nat, hi: nat)
    requires Tiles(d, lo, mid) && Tiles(e, mid, hi)
    ensures Tiles(d + e, lo, hi)
    decreases |e|
  {
    if e == [] {
      assert d + e == d;
    } else {
      var m := |e| - 1;
      TilesJoin(d, e[..m], lo, mid, e[m].0);
      TilesBound(d, lo, mid);
      assert (d + e)[..|d + e| - 1] == d + e[..m];
    }
  }

  /** A page number in range lies in exactly one extent of a tiling. */
  lemma {:induction false} TilesPartition(e: seq<(nat, nat)>, lo: nat, hi: nat, p: nat)
    requires Tiles(e, lo, hi)
    ensures lo <= p < hi ==> exists i :: 0 <= i < |e| && InExtent(p, e[i])
    ensures forall i :: 0 <= i < |e| && InExtent(p, e[i]) ==> lo <= p < hi
    ensures forall i, j :: 0 <= i < |e| && 0 <= j < |e| && InExtent(p, e[i]) && InExtent(p, e[j]) ==> i == j
  {
    if e != [] {
      var m := |e| - 1;
      TilesPartition(e[..m], lo, e[m].0, p);
      assert forall i :: 0 <= i < m ==> e[..m][i] == e[i];
      if e[m].0 <= p < hi {
        assert InExtent(p, e[m]);
      } else if lo <= p < e[m].0 {
        var i :| 0 <= i < m && InExtent(p, e[..m][i]);
        assert InExtent(p, e[i]);
      }
    }
  }

  /** The metas, the free list, the root and the spilled buckets tile the file: every page
      below the total belongs to exactly one of them, and no extent reaches past it. */
  lemma ExtentsPartition(b: Buckets, ps: nat, p: nat)
    requires ps > 0
    ensures p < TotalPages(b, ps) <==> exists i :: 0 <= i < |Extents(b, ps)| && InExtent(p, Extents(b, ps)[i])
    ensures forall i, j | 0 <= i < |Extents(b, ps)| && 0 <= j < |Extents(b, ps)| ::
              InExtent(p, Extents(b, ps)[i]) && InExtent(p, Extents(b, ps)[j]) ==> i == j
  {
    FrontTiles(RootPages(b, ps));
    var front := [(0, 1), (1, 1), (FREELIST, 1), (ROOT, RootPages(b, ps))];
    SpillTiles(b, ps, |b|);
    TilesJoin(front, SpillExtents(b, ps, |b|), 0, StartOf(b, ps, 0), TotalPages(b, ps));
    TilesPartition(Extents(b, ps), 0, TotalPages(b, ps), p);
  }

  lemma FrontTiles(rp: nat)
    requires rp >= 1
    ensures Tiles([(0, 1), (1, 1), (FREELIST, 1), (ROOT, rp)], 0, ROOT + rp)
  {
    var one: seq<(nat, nat)> := [(0, 1)];
    var two: seq<(nat, nat)> := [(0, 1), (1, 1)];
    var three: seq<(nat, nat)> := [(0, 1), (1, 1), (FREELIST, 1)];
    var four: seq<(nat, nat)> := [(0, 1), (1, 1), (FREELIST, 1), (ROOT, rp)];
    assert one[..0] == [] && Tiles(one, 0, 1);
    assert two[..1] == one && Tiles(two, 0, 2);
    assert three[..2] == two && Tiles(three, 0, 3);
    assert four[..3] == three;
  }

  // ---- what is stored where

  lemma {:induction false} JoinPrefix(l: seq<(nat, ByteString)>, n: nat)
    requires n <= |l|
    ensures Join(l[..n]) <= Join(l)
    decreases |l|
  {
    if n == |l| {
      assert l[..n] == l;
    } else {
      JoinPrefix(l[..|l| - 1], n);
      assert l[..|l| - 1][..n] == l[..n];
    }
  }

  /** One more bucket adds one more page image, or none. */
  lemma SpillStep(b: Buckets, ps: nat, n: nat)
    requires ps > 0 && 0 < n <= |b|
    ensures var l, k := SpillList(b, ps, n), SpillList(b, ps, n - 1);
            |k| <= |l| <= |k| + 1 && l[..|k|] == k && (|l| > |k| ==> l[|k|].0 == StartOf(b, ps, n - 1))
    ensures Join(SpillList(b, ps, n - 1)) <= Join(SpillList(b, ps, n))
  {
    hide LeafPage, Inlined, StartOf;
    var l, k := SpillList(b, ps, n), SpillList(b, ps, n - 1);
    if l == k {
      assert l[..|k|] == k;
    } else {
      assert l[..|l| - 1] == k;
    }
  }

  lemma {:induction false} SpillPrefix(b: Buckets, ps: nat, i: nat, n: nat)
    requires ps > 0 && i <= n <= |b|
    ensures Join(SpillList(b, ps, i)) <= Join(SpillList(b, ps, n))
    decreases n
  {
    hide *;
    if i < n {
      SpillPrefix(b, ps, i, n - 1);
      SpillStep(b, ps, n);
    }
  }

  /** A spilled bucket's page image comes right after those of the buckets before it. */
  lemma SpilledInTail(b: Buckets, ps: nat, i: nat)
    requires ps >= META_END && i < |b| && !Inlined(b[i].1, ps)
    ensures Join(SpillList(b, ps, i)) + LeafPage(StartOf(b, ps, i), b[i].1, ps, 0) <= Join(SpillList(b, ps, |b|))
  {
    hide LeafPage, Inlined, StartOf;
    var l := SpillList(b, ps, i + 1);
    assert l[..|l| - 1] == SpillList(b, ps, i);
    SpillPrefix(b, ps, i + 1, |b|);
  }

  lemma StartSpan(b: Buckets, ps: nat, i: nat)
    requires ps >= META_END && i <= |b|
    ensures Span(StartOf(b, ps, i), ps) == |Front(b, ps)| + Span(PagesBefore(b, ps, i), ps)
  {
    hide Front, RootPages, Span;
    FrontLength(b, ps);
    SpanAdd(StartOf(b, ps, 0), PagesBefore(b, ps, i), ps);
  }

  /** A spilled bucket's page image sits at its page number, whole. */
  lemma SpilledAt(b: Buckets, ps: nat, i: nat)
    requires ps >= META_END && i < |b| && !Inlined(b[i].1, ps)
    ensures var at := Span(StartOf(b, ps, i), ps); var page := LeafPage(StartOf(b, ps, i), b[i].1, ps, 0);
            at + |page| <= |Image(b, ps)| && Image(b, ps)[at..at + |page|] == page
  {
    hide Front, LeafPage, Inlined, StartOf, PagesBefore, SpillList, Join, Span;
    SpilledInTail(b, ps, i);
    SpillLength(b, ps, i);
    StartSpan(b, ps, i);
    var at, page := Span(PagesBefore(b, ps, i), ps), LeafPage(StartOf(b, ps, i), b[i].1, ps, 0);
    AppendSlice(Front(b, ps), Join(SpillList(b, ps, |b|)), at, at + |page|);
  }

  /** The fixed pages and the root sit at their page numbers. */
  lemma FrontAt(b: Buckets, ps: nat)
    requires ps >= META_END
    ensures |Image(b, ps)| >= 3 * ps + Span(RootPages(b, ps), ps)
    ensures Image(b, ps)[..ps] == MetaPage(b, ps, 0)
    ensures Image(b, ps)[ps..2 * ps] == MetaPage(b, ps, 1)
    ensures Image(b, ps)[2 * ps..3 * ps] == FreePage(ps)
    ensures Image(b, ps)[3 * ps..3 * ps + Span(RootPages(b, ps), ps)] == RootPage(b, ps)
  {
    SizingIsExact(b, ps);
    Slices(MetaPage(b, ps, 0), MetaPage(b, ps, 1), FreePage(ps), RootPage(b, ps),
           Join(SpillList(b, ps, |b|)), ps);
  }

  lemma Slices(a: ByteString, c: ByteString, f: ByteString, r: ByteString, t: ByteString, ps: nat)
    requires |a| == |c| == |f| == ps
    ensures var w := a + c + f + r + t;
            && w[..ps] == a && w[ps..2 * ps] == c && w[2 * ps..3 * ps] == f
            && w[3 * ps..3 * ps + |r|] == r
  {
    var w := a + c + f + r + t;
    assert w[3 * ps..3 * ps + |r|] == r;
  }
}
