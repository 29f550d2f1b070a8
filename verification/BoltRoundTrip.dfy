/** Reading undoes building: the two halves of the bbolt codec fit together. */
module BoltRoundTrip {
  import opened Bytes
  import opened BoltPage
  import opened BoltLeaf
  import opened BoltImage
  import opened BoltWrite
  import opened BoltRead
  import opened OrderedMap

  // ---- one leaf page

  lemma LeafFlag()
    ensures HasBit(FLAG_LEAF, FLAG_LEAF) && HasBit(BUCKET_LEAF_FLAG, BUCKET_LEAF_FLAG)
  {
  }

  /** Any page with a leaf header that holds `d` is walked as exactly `d`. */
  lemma WalkHeldPage(db: Db, page: ByteString, h: PageHeader, d: Pairs, flags: nat, depth: nat)
    requires Fits(d) && flags < U32_LIMIT && Holds(page, d, flags)
    requires h.Fits() && h.flags == FLAG_LEAF && h.count == |d| && page[..PAGE_HEADER] == h.Encode()
    ensures WalkPage(db, page, depth) == Success(AllEntries(d, flags))
  {
    hide Fits, EntriesOf, PageHeader.Encode, PageHeader.Parse, AllEntries, Rest;
    PageHeaderRoundTrip(h, page);
    HeldEntries(page, d, flags, |d|);
    LeafFlag();
    assert |AllEntries(d, flags)| == |d| by { AllEntriesLength(d, flags); }
    assert AllEntries(d, flags)[..|d|] == AllEntries(d, flags);
  }

  lemma AllEntriesLength(d: Pairs, flags: nat)
    ensures |AllEntries(d, flags)| == |d|
  {
  }

  lemma OneMorePage(n: nat, ps: nat)
    requires n >= 1
    ensures Span(n, ps) >= ps
  {
  }

  /** A leaf page found whole at its page number is read back as its pairs. */
  lemma WalkLeafPage(db: Db, id: nat, at: nat, d: Pairs, flags: nat, depth: nat)
    requires db.pageSize >= PAGE_HEADER && id < U64_LIMIT && at == Span(id, db.pageSize)
    requires |db.data| <= ISIZE_MAX && flags < U32_LIMIT && PageFits(d, db.pageSize)
    requires at + |LeafPage(id, d, db.pageSize, flags)| <= |db.data|
    requires db.data[at..at + |LeafPage(id, d, db.pageSize, flags)|] == LeafPage(id, d, db.pageSize, flags)
    ensures Walk(db, id, depth) == Success(AllEntries(d, flags))
  {
    hide LeafPage, Fits, Holds, PageHeader.Encode, PageHeader.Parse, WalkPage, Span, Body, AllEntries;
    var ps, page := db.pageSize, LeafPage(id, d, db.pageSize, flags);
    var pages := PagesFor(|Body(d, flags)|, ps);
    var h := PageHeader(id, FLAG_LEAF, |d|, pages - 1);
    LeafPageHolds(id, d, ps, flags);
    OneMorePage(pages, ps);
    assert PageBytes(db, id) == Success(db.data[at..at + ps]);
    SubSlice(db.data, at, at + |page|, page, 0, ps);
    assert page[..ps][..PAGE_HEADER] == page[..PAGE_HEADER];
    assert h.Fits() by { FitsCount(d); }
    PageHeaderRoundTrip(h, page[..ps]);
    assert PageWithOverflow(db, id) == Success(page);
    FitsCount(d);
    WalkHeldPage(db, page, h, d, flags, depth);
  }

  lemma FitsCount(d: Pairs)
    requires Fits(d)
    ensures |d| < U16_LIMIT
  {
  }

  // ---- one bucket

  /** Collecting the entries of an ascending bucket rebuilds it. */
  lemma {:induction false} CollectRebuilds(d: Pairs, flags: nat, n: nat)
    requires Ascending(d) && n <= |d|
    ensures Collect(AllEntries(d, flags), n) == d[..n]
  {
    hide Insert, Less;
    if n > 0 {
      CollectRebuilds(d, flags, n - 1);
      InsertAtEnd(d[..n - 1], d[n - 1].0, d[n - 1].1);
      assert d[..n] == d[..n - 1] + [d[n - 1]];
    }
  }

  lemma ReadInline(db: Db, d: Pairs, depth: nat)
    requires Fits(d) && Ascending(d)
    ensures ReadBucket(db, BucketHeader(0, 0).Encode() + Body(d, 0), depth) == Success(d)
  {
    hide Body, Fits, Holds, WalkPage, Walk, AllEntries, Collect, PageHeader.Encode, BucketHeader.Encode,
      BucketHeader.Parse;
    var stub := BucketHeader(0, 0).Encode();
    var value := stub + Body(d, 0);
    assert value[..BUCKET_HEADER] == stub && value[BUCKET_HEADER..] == Body(d, 0);
    BucketHeaderRoundTrip(BucketHeader(0, 0), value);
    BodyHolds(d, 0);
    FitsCount(d);
    WalkHeldPage(db, Body(d, 0), PageHeader(0, FLAG_LEAF, |d|, 0), d, 0, depth);
    AllEntriesLength(d, 0);
    CollectRebuilds(d, 0, |d|);
    assert d[..|d|] == d;
  }

  lemma ReadSpilled(db: Db, id: nat, d: Pairs, depth: nat)
    requires 0 < id < U64_LIMIT && Ascending(d)
    requires Walk(db, id, depth) == Success(AllEntries(d, 0))
    ensures ReadBucket(db, BucketHeader(id, 0).Encode(), depth) == Success(d)
  {
    hide Walk, WalkPage, AllEntries, Collect, BucketHeader.Encode, BucketHeader.Parse;
    BucketHeaderRoundTrip(BucketHeader(id, 0), BucketHeader(id, 0).Encode());
    AllEntriesLength(d, 0);
    CollectRebuilds(d, 0, |d|);
    assert d[..|d|] == d;
  }

  // ---- the whole file

  ghost predicate Built(b: Buckets, ps: nat) {
    WellFormed(b) && PageSizeOk(ps) && Encodable(b, ps) && Span(TotalPages(b, ps), ps) <= ISIZE_MAX
  }

  lemma BuiltIsSuccess(b: Buckets, ps: nat)
    requires WellFormed(b) && BuildResult(b, ps).Success?
    ensures Built(b, ps) && BuildResult(b, ps).value == Image(b, ps)
  {
    hide WellFormed, Encodable, TotalPages, Image, Span, IsPowerOfTwo;
    SpanIsProduct(TotalPages(b, ps), ps);
  }

  lemma {:induction false} SpanGrows(n: nat, ps: nat)
    requires ps >= 1
    ensures n <= Span(n, ps)
  {
    if n > 0 {
      SpanGrows(n - 1, ps);
    }
  }

  lemma {:induction false} StartBelowTotal(b: Buckets, ps: nat, i: nat, n: nat)
    requires ps > 0 && i <= n <= |b|
    ensures StartOf(b, ps, i) <= StartOf(b, ps, n)
    decreases n
  {
    hide RootPages, OwnPages;
    if i < n {
      StartBelowTotal(b, ps, i, n - 1);
    }
  }

  lemma Numbers(b: Buckets, ps: nat)
    requires Built(b, ps)
    ensures TotalPages(b, ps) <= ISIZE_MAX
    ensures |Image(b, ps)| <= ISIZE_MAX && |Image(b, ps)| >= 4 * ps
  {
    hide Encodable, StartOf, Image, Span, RootPages, WellFormed, IsPowerOfTwo;
    SpanGrows(TotalPages(b, ps), ps);
    ImageLength(b, ps);
    AtLeastFour(b, ps);
  }

  lemma AtLeastFour(b: Buckets, ps: nat)
    requires ps >= META_END
    ensures |Image(b, ps)| >= 4 * ps
  {
    hide Image, RootPages, Span;
    FrontAt(b, ps);
    OneMorePage(RootPages(b, ps), ps);
  }

  lemma MetaFits(b: Buckets, ps: nat, txid: nat)
    requires ps > 0 && TotalPages(b, ps) <= ISIZE_MAX && txid < U64_LIMIT
    ensures MetaOf(b, ps, txid).Fits()
  {
    hide TotalPages;
  }

  /** What a meta page of the image parses to, from any cut of the file that includes it. */
  lemma MetaParses(b: Buckets, ps: nat, id: nat, page: ByteString)
    requires ps >= META_END && TotalPages(b, ps) <= ISIZE_MAX && id <= 1
    requires |page| >= META_END && page[..META_END] == MetaOf(b, ps, id + 2).Encode(id)
    ensures var m := MetaOf(b, ps, id + 2);
            exists sum :: Meta.Parse(page) == Success(m.(checksum := sum)) && m.(checksum := sum).ChecksumOk(page)
  {
    hide MetaOf, Meta.Encode, Meta.Parse, Meta.ChecksumOk, Meta.Fits, TotalPages;
    MetaFits(b, ps, id + 2);
    MetaMagic(b, ps, id + 2);
    assert page == MetaOf(b, ps, id + 2).Encode(id) + page[META_END..];
    MetaRoundTrip(MetaOf(b, ps, id + 2), id, page[META_END..]);
  }

  lemma MetaMagic(b: Buckets, ps: nat, txid: nat)
    requires ps > 0
    ensures MetaOf(b, ps, txid).magic == MAGIC && MetaOf(b, ps, txid).version == VERSION
    ensures MetaOf(b, ps, txid).pageSize == ps % U32_LIMIT && MetaOf(b, ps, txid).txid == txid
    ensures MetaOf(b, ps, txid).root == ROOT
  {
  }

  /** The first meta page, cut as the reader first cuts it. */
  lemma FirstMeta(b: Buckets, ps: nat, cut: nat)
    requires Built(b, ps) && META_END <= cut <= |Image(b, ps)|
    ensures Image(b, ps)[..cut][..META_END] == MetaOf(b, ps, 2).Encode(0)
  {
    hide Image, Meta.Encode, MetaOf, RootPage, RootPages, Span, Encodable, WellFormed, IsPowerOfTwo;
    FrontAt(b, ps);
    var page := MetaPage(b, ps, 0);
    assert Image(b, ps)[..cut][..META_END] == Image(b, ps)[..ps][..META_END] == page[..META_END];
  }

  lemma MetaPageStarts(b: Buckets, ps: nat, id: nat)
    requires ps >= META_END
    ensures MetaPage(b, ps, id)[..META_END] == MetaOf(b, ps, id + 2).Encode(id)
  {
    hide Meta.Encode, MetaOf;
  }

  lemma SmallSpans(ps: nat)
    ensures Span(0, ps) == 0 && Span(1, ps) == ps
  {
  }

  lemma MetasValid(b: Buckets, ps: nat, db: Db, id: nat)
    requires Built(b, ps) && db.data == Image(b, ps) && db.pageSize == ps && id <= 1
    ensures ValidMeta(db, id).Success?
    ensures ValidMeta(db, id).value.txid == id + 2 && ValidMeta(db, id).value.root == ROOT
  {
    hide Image, Meta.Encode, Meta.Parse, Meta.ChecksumOk, MetaOf, MetaPage, RootPage, RootPages, Span,
      Encodable, WellFormed, IsPowerOfTwo, TotalPages;
    Numbers(b, ps);
    FrontAt(b, ps);
    SmallSpans(ps);
    assert PageBytes(db, id) == Success(MetaPage(b, ps, id));
    MetaPageStarts(b, ps, id);
    MetaParses(b, ps, id, MetaPage(b, ps, id));
    MetaMagic(b, ps, id + 2);
  }

  lemma {:induction false} PowerOfTwoDivides(n: nat, k: nat)
    requires IsPowerOfTwo(n) && n >= Pow2(k)
    ensures n % Pow2(k) == 0
  {
    if k > 0 {
      PowerOfTwoDivides(n / 2, k - 1);
      DoubleDivides(n / 2, Pow2(k - 1));
    }
  }

  lemma DoubleDivides(m: nat, p: nat)
    requires p > 0 && m % p == 0
    ensures 2 * m % (2 * p) == 0
  {
    var c := m / p;
    assert 2 * m == c * (2 * p);
    ExactQuotient(c, 2 * p);
  }

  lemma Pow2Of32()
    ensures Pow2(32) == U32_LIMIT
  {
    assert Pow2(8) == 0x100;
    assert Pow2(16) == 0x1_0000;
    assert Pow2(24) == 0x100_0000;
  }

  /** A page size the reader would refuse is refused from the truncated 32-bit field too. */
  lemma StoredSize(ps: nat)
    requires PageSizeOk(ps)
    ensures PageSizeReadable(ps % U32_LIMIT) <==> ps <= MAX_PAGE_SIZE
    ensures ps <= MAX_PAGE_SIZE ==> ps % U32_LIMIT == ps
  {
    hide IsPowerOfTwo;
    if ps >= U32_LIMIT {
      Pow2Of32();
      PowerOfTwoDivides(ps, 32);
    }
  }

  /** Opening a built image succeeds exactly when its page size is one the reader accepts. */
  lemma OpensIffReadable(b: Buckets, ps: nat)
    requires Built(b, ps)
    ensures FromBytes(Image(b, ps)).Success? <==> ps <= MAX_PAGE_SIZE
    ensures ps <= MAX_PAGE_SIZE ==> FromBytes(Image(b, ps)) == Success(Db(Image(b, ps), ps, ROOT))
  {
    hide Image, Meta.Encode, Meta.Parse, MetaOf, Encodable, WellFormed, IsPowerOfTwo, TotalPages, ValidMeta,
      PageSizeReadable, Span;
    var data := Image(b, ps);
    Numbers(b, ps);
    var cut := if |data| < 4096 then |data| else 4096;
    FirstMeta(b, ps, cut);
    MetaParses(b, ps, 0, data[..cut]);
    MetaMagic(b, ps, 2);
    StoredSize(ps);
    if ps <= MAX_PAGE_SIZE {
      MetasValid(b, ps, Db(data, ps, 0), 0);
      MetasValid(b, ps, Db(data, ps, 0), 1);
    }
  }

  lemma RootAt(b: Buckets, ps: nat)
    requires ps >= META_END
    ensures var at := Span(ROOT, ps); var page := RootPage(b, ps);
            at + |page| <= |Image(b, ps)| && Image(b, ps)[at..at + |page|] == page
  {
    assert ps > 0;
    hide *;
    FrontAt(b, ps);
    SizingIsExact(b, ps);
    SpanThree(ps);
  }

  lemma RootWalks(b: Buckets, ps: nat, depth: nat)
    requires Built(b, ps)
    ensures Walk(Db(Image(b, ps), ps, ROOT), ROOT, depth)
            == Success(AllEntries(RootEntries(b, ps), BUCKET_LEAF_FLAG))
  {
    hide Image, Walk, AllEntries, RootEntries, LeafPage, RootPages, Sizing, Span, WellFormed, IsPowerOfTwo,
      TotalPages, PageFits, BucketEncodable;
    Numbers(b, ps);
    RootAt(b, ps);
    assert RootPage(b, ps) == LeafPage(ROOT, RootEntries(b, ps), ps, BUCKET_LEAF_FLAG);
    assert PageFits(Sizing(b, ps), ps);
    SizingIsExact(b, ps);
    WalkLeafPage(Db(Image(b, ps), ps, ROOT), ROOT, Span(ROOT, ps), RootEntries(b, ps), BUCKET_LEAF_FLAG, depth);
  }

  /** The value the root stores for a bucket leads back to exactly its keys. */
  lemma BucketReadsBack(b: Buckets, ps: nat, i: nat, depth: nat)
    requires Built(b, ps) && i < |b|
    ensures ReadBucket(Db(Image(b, ps), ps, ROOT), RootValue(b, ps, i), depth) == Success(b[i].1)
  {
    hide Image, Walk, AllEntries, LeafPage, RootPages, Sizing, Span, IsPowerOfTwo, Inlined,
      PagesBefore, PageFits, Fits, ReadBucket, Body, BucketHeader.Encode, Ascending;
    var d, db := b[i].1, Db(Image(b, ps), ps, ROOT);
    assert BucketEncodable(d, ps);
    if Inlined(d, ps) {
      ReadInline(db, d, depth);
    } else {
      Numbers(b, ps);
      StartBelowTotal(b, ps, i, |b|);
      SpilledAt(b, ps, i);
      var id := StartOf(b, ps, i);
      WalkLeafPage(db, id, Span(id, ps), d, 0, depth);
      ReadSpilled(db, id, d, depth);
    }
  }

  lemma RootEntryAt(b: Buckets, ps: nat, i: nat)
    requires ps > 0 && i < |b|
    ensures |AllEntries(RootEntries(b, ps), BUCKET_LEAF_FLAG)| == |b|
    ensures AllEntries(RootEntries(b, ps), BUCKET_LEAF_FLAG)[i]
            == LeafEntry(b[i].0, BUCKET_LEAF_FLAG, RootValue(b, ps, i))
  {
    hide RootValue;
  }

  /** One more flagged root entry adds its bucket to those read so far. */
  lemma BucketsStep(db: Db, es: seq<LeafEntry>, n: nat, depth: nat, before: Buckets, keys: Entries<ByteString>)
    requires 0 < n <= |es| && HasBit(es[n - 1].flags, BUCKET_LEAF_FLAG)
    requires BucketsOf(db, es, n - 1, depth) == Success(before)
    requires ReadBucket(db, es[n - 1].val, depth) == Success(keys)
    ensures BucketsOf(db, es, n, depth) == Success(Insert(before, es[n - 1].key, keys))
  {
    hide ReadBucket, Insert, HasBit;
  }

  lemma NoBuckets(db: Db, es: seq<LeafEntry>, depth: nat)
    ensures BucketsOf(db, es, 0, depth) == Success([])
  {
  }

  lemma BeforeInOrder(b: Buckets, ps: nat, n: nat)
    requires Built(b, ps) && 0 < n <= |b|
    ensures var before := b[..n - 1]; forall i :: 0 <= i < |before| ==> Less(before[i].0, b[n - 1].0)
  {
    hide Encodable, TotalPages, Span, IsPowerOfTwo, Less;
  }

  lemma {:induction false} BucketsReadBack(b: Buckets, ps: nat, n: nat, depth: nat)
    requires ps > 0 && ps >= META_END && Built(b, ps) && n <= |b|
    ensures var es := AllEntries(RootEntries(b, ps), BUCKET_LEAF_FLAG);
            |es| == |b| && BucketsOf(Db(Image(b, ps), ps, ROOT), es, n, depth) == Success(b[..n])
  {
    hide *;
    var db, es := Db(Image(b, ps), ps, ROOT), AllEntries(RootEntries(b, ps), BUCKET_LEAF_FLAG);
    AllEntriesLength(RootEntries(b, ps), BUCKET_LEAF_FLAG);
    if n == 0 {
      NoBuckets(db, es, depth);
    } else {
      RootEntryAt(b, ps, n - 1);
      BucketsReadBack(b, ps, n - 1, depth);
      BucketReadsBack(b, ps, n - 1, depth);
      LeafFlag();
      BucketsStep(db, es, n, depth, b[..n - 1], b[n - 1].1);
      BeforeInOrder(b, ps, n);
      InsertAtEnd(b[..n - 1], b[n - 1].0, b[n - 1].1);
      assert b[..n] == b[..n - 1] + [b[n - 1]];
    }
  }

  /** For every bucket map and page size that build: the image opens exactly when the page size
      is at most 2^20, and then the buckets read back are exactly the ones written. */
  lemma RoundTrip(b: Buckets, ps: nat, depth: nat)
    requires WellFormed(b)
    ensures BuildResult(b, ps).Success? ==>
              var db := FromBytes(BuildResult(b, ps).value);
              && (db.Success? <==> ps <= MAX_PAGE_SIZE)
              && (db.Success? ==> ReadBuckets(db.value, depth) == Success(b))
  {
    hide Image, FromBytes, BucketsOf, AllEntries, RootEntries, Walk, Built, BuildResult;
    if BuildResult(b, ps).Failure? {
      return;
    }
    BuiltIsSuccess(b, ps);
    OpensIffReadable(b, ps);
    assert ps >= META_END by { BuiltPageSize(b, ps); }
    RootWalks(b, ps, depth);
    var root := RootEntries(b, ps);
    AllEntriesLength(root, BUCKET_LEAF_FLAG);
    assert |root| == |b|;
    BucketsReadBack(b, ps, |b|, depth);
    assert b[..|b|] == b;
  }

  lemma BuiltPageSize(b: Buckets, ps: nat)
    requires Built(b, ps)
    ensures ps >= 512
  {
  }
}
