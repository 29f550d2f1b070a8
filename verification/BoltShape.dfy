/** What a built file looks like to any reader of the format, in closed form. */
module BoltShape {
  import opened Bytes
  import opened BoltPage
  import opened BoltLeaf
  import opened BoltImage
  import opened BoltWrite
  import opened BoltRead
  import opened BoltRoundTrip
  import opened BoltOpen
  import opened BoltTree
  import opened OrderedMap

  /** The bytes that keys, values and their elements take. */
  function Cost(d: Pairs): nat {
    if d == [] then 0
    else
      var n := |d| - 1;
      Cost(d[..n]) + 16 + |d[n].0| + |d[n].1|
  }

  lemma {:induction false} CostOfBody(d: Pairs)
    ensures |Body(d, 0)| == 16 + Cost(d)
  {
    hide PageHeader.Encode, Table;
    if d != [] {
      CostOfBody(d[..|d| - 1]);
    }
  }

  /** A page that holds encoded pairs stores them entry by entry. */
  lemma HeldIsStored(page: ByteString, d: Pairs, flags: nat)
    requires Fits(d) && flags < U32_LIMIT && Holds(page, d, flags)
    ensures LeafStored(page, AllEntries(d, flags))
  {
    hide Holds, Payload, LeafElem.Encode;
    var es := AllEntries(d, flags);
    forall i | 0 <= i < |es| ensures EntryStored(page, i, es[i]) {
      HeldElem(page, d, flags, i);
      HeldData(page, d, flags, i);
      assert ElemOf(d, i, 0).Fits();
      assert EntryStoredAt(page, i, ElemOf(d, i, flags).pos, es[i]);
    }
  }

  /** A leaf page image in its place is a stored leaf, of as few pages as hold it. */
  lemma PlacedIsStored(db: Db, id: nat, d: Pairs, flags: nat)
    requires db.pageSize >= PAGE_HEADER && id < U64_LIMIT && flags < U32_LIMIT && PageFits(d, db.pageSize)
    requires var at, page := Span(id, db.pageSize), LeafPage(id, d, db.pageSize, flags);
             at + |page| <= |db.data| && db.data[at..at + |page|] == page
    ensures Stored(db, Leaf(id, PagesFor(|Body(d, flags)|, db.pageSize) - 1, AllEntries(d, flags)))
  {
    hide LeafPage, Fits, Holds, LeafStored, PageHeader.Encode, Span, Body;
    var ps, page := db.pageSize, LeafPage(id, d, db.pageSize, flags);
    var pages := PagesFor(|Body(d, flags)|, ps);
    LeafPageHolds(id, d, ps, flags);
    OneMorePage(pages, ps);
    HeldIsStored(page, d, flags);
    AllEntriesLength(d, flags);
    FitsCount(d);
    assert PageOf(db, id, pages - 1) == page;
  }

  lemma Fewest(len: nat, ps: nat)
    requires ps > 0 && len > 0
    ensures var n := PagesFor(len, ps); Span(n - 1, ps) < len <= Span(n, ps)
  {
    if len > ps {
      Fewest(len - ps, ps);
    }
  }

  // ---- buckets, inline and spilled

  lemma InlineIffCheap(d: Pairs, ps: nat)
    ensures Inlined(d, ps) <==> 32 + Cost(d) <= ps / 4
  {
    hide Body;
    CostOfBody(d);
  }

  /** How bucket `d` is found behind its root value: inside it exactly when that takes no more than
      a quarter of a page, else on the fewest pages that hold it, which the value names. */
  ghost predicate Placed(db: Db, value: ByteString, d: Pairs, ps: nat) {
    && BucketHeader.Parse(value).Success?
    && var root := BucketHeader.Parse(value).value.root;
       && (root == 0 <==> 32 + Cost(d) <= ps / 4)
       && |value| == (if root == 0 then 32 + Cost(d) else 16)
       && (root != 0 ==> exists overflow :: OnFewest(db, root, overflow, d, ps))
  }

  ghost predicate OnFewest(db: Db, root: nat, overflow: nat, d: Pairs, ps: nat) {
    Stored(db, Leaf(root, overflow, AllEntries(d, 0))) && Span(overflow, ps) < 16 + Cost(d) <= Span(1 + overflow, ps)
  }

  lemma ValuePlaced(b: Buckets, ps: nat, i: nat)
    requires Built(b, ps) && i < |b|
    ensures Placed(Db(Image(b, ps), ps, ROOT), RootValue(b, ps, i), b[i].1, ps)
  {
    hide Image, Sizing, Span, IsPowerOfTwo, Inlined, PagesBefore, PageFits, Fits, Body, BucketHeader.Encode,
      BucketHeader.Parse, Ascending, Stored, RootPages, LeafPage, PagesFor, Cost, AllEntries;
    var d, v := b[i].1, RootValue(b, ps, i);
    assert BucketEncodable(d, ps);
    InlineIffCheap(d, ps);
    CostOfBody(d);
    if Inlined(d, ps) {
      assert v[..BUCKET_HEADER] == BucketHeader(0, 0).Encode();
      BucketHeaderRoundTrip(BucketHeader(0, 0), v);
    } else {
      Numbers(b, ps);
      StartBelowTotal(b, ps, i, |b|);
      SpilledAt(b, ps, i);
      var id, overflow := StartOf(b, ps, i), PagesFor(|Body(d, 0)|, ps) - 1;
      BucketHeaderRoundTrip(BucketHeader(id, 0), v);
      PlacedIsStored(Db(Image(b, ps), ps, ROOT), id, d, 0);
      Fewest(|Body(d, 0)|, ps);
      assert OnFewest(Db(Image(b, ps), ps, ROOT), id, overflow, d, ps);
    }
  }

  /** In every built file that opens, the root lists the buckets in order, and each is inline exactly
      when header, elements, keys and values fit a quarter of a page. */
  lemma QuarterPageRule(b: Buckets, ps: nat, i: nat, depth: nat)
    requires WellFormed(b) && BuildResult(b, ps).Success? && i < |b|
    ensures var db := FromBytes(BuildResult(b, ps).value);
            db.Success? ==>
              && Walk(db.value, db.value.root, depth).Success?
              && var es := Walk(db.value, db.value.root, depth).value;
                 |es| == |b| && es[i].key == b[i].0 && es[i].flags == 1 && Placed(db.value, es[i].val, b[i].1, ps)
  {
    hide Image, FromBytes, AllEntries, RootEntries, Walk, Built, BuildResult, Placed, RootValue;
    BuiltIsSuccess(b, ps);
    OpensIffReadable(b, ps);
    if FromBytes(BuildResult(b, ps).value).Success? {
      RootWalks(b, ps, depth);
      assert ps > 0 by { BuiltPageSize(b, ps); }
      RootEntryAt(b, ps, i);
      ValuePlaced(b, ps, i);
    }
  }

  // ---- the fixed pages

  /** Both metas of a built file are valid and true of it: its page size, its root and free list, its
      length in pages; the second is one transaction newer. */
  lemma MetasDescribe(b: Buckets, ps: nat, i: nat)
    requires WellFormed(b) && BuildResult(b, ps).Success? && ps < U32_LIMIT && i < 2
    ensures var file := BuildResult(b, ps).value;
            exists m :: HasMeta(file, ps, i, m)
                        && m == Meta(0xED0C_DAED, 2, ps, 0, 3, 0, 2, TotalPages(b, ps), 2 + i, m.checksum)
                        && |file| == m.pgid * ps
  {
    hide Image, Meta.Encode, Meta.Parse, Meta.ChecksumOk, MetaPage, RootPage, RootPages, Span, Encodable, WellFormed,
      IsPowerOfTwo, TotalPages, BuildResult, FreePage;
    BuiltIsSuccess(b, ps);
    Numbers(b, ps);
    FrontAt(b, ps);
    ImageLength(b, ps);
    SpanIsProduct(TotalPages(b, ps), ps);
    MetaPageStarts(b, ps, i);
    MetaParses(b, ps, i, MetaPage(b, ps, i));
  }

  /** Page 2 of a built file is an empty free list. */
  lemma FreeListEmpty(b: Buckets, ps: nat)
    requires WellFormed(b) && BuildResult(b, ps).Success?
    ensures var file := BuildResult(b, ps).value;
            |file| >= 3 * ps && PageHeader.Parse(file[2 * ps..3 * ps]) == Success(PageHeader(2, 0x10, 0, 0))
  {
    hide Image, PageHeader.Encode, PageHeader.Parse, MetaPage, RootPage, RootPages, Span, Encodable, WellFormed,
      IsPowerOfTwo, TotalPages, BuildResult;
    BuiltIsSuccess(b, ps);
    FrontAt(b, ps);
    var h := PageHeader(2, 0x10, 0, 0);
    assert FreePage(ps)[..PAGE_HEADER] == h.Encode();
    PageHeaderRoundTrip(h, FreePage(ps));
  }
}
