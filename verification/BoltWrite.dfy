/** `build` in `write.rs`: plan, size, allocate, patch and place every page. */
module BoltWrite {
  import opened Bytes
  import opened BoltPage
  import opened BoltLeaf
  import opened BoltImage
  import opened OrderedMap

  datatype Planned = Inline(body: ByteString) | Spilled(page: ByteString, pages: nat)

  /** The image a build yields, or why there is none. */
  function BuildResult(b: Buckets, ps: nat): Result<ByteString> {
    if !PageSizeOk(ps) || !Encodable(b, ps) then Failure(Unsupported)
    else if TotalPages(b, ps) * ps > ISIZE_MAX then Failure(Panic)
    else Success(Image(b, ps))
  }

  function PlanOf(d: Pairs, ps: nat): Planned
    requires ps > 0
  {
    if Inlined(d, ps) then Inline(Body(d, 0))
    else Spilled(LeafPage(0, d, ps, 0), PagesFor(|Body(d, 0)|, ps))
  }

  method PlanBucket(d: Pairs, ps: nat) returns (r: Result<Planned>)
    requires ps > 0
    ensures r == if BucketEncodable(d, ps) then Success(PlanOf(d, ps)) else Failure(Unsupported)
  {
    hide Body, LeafPage, Fits;
    var enc := EncodeLeafBody(d, 0);
    if enc.Failure? {
      return Failure(enc.error);
    }
    var body := enc.value;
    if BUCKET_HEADER + |body| <= ps / 4 {
      return Success(Inline(body));
    }
    var page := BuildLeafPage(0, d, ps, 0);
    if page.Failure? {
      return Failure(page.error);
    }
    var pages := |page.value| / ps;
    SpanIsProduct(PagesFor(|body|, ps), ps);
    ExactQuotient(PagesFor(|body|, ps), ps);
    r := Success(Spilled(page.value, pages));
  }

  lemma ExactQuotient(n: nat, m: nat)
    requires m > 0
    ensures n * m / m == n
  {
    var k := n * m / m - n;
    assert k * m == -(n * m % m);
    SmallMultiple(k, m);
  }

  /** Pass one: inline or spilled, without page numbers. */
  method PlanAll(b: Buckets, ps: nat) returns (r: Result<seq<(ByteString, Planned)>>)
    requires ps > 0
    ensures r.Success? <==> forall i :: 0 <= i < |b| ==> BucketEncodable(b[i].1, ps)
    ensures r.Failure? ==> r.error == Unsupported
    ensures r.Success? ==> |r.value| == |b|
    ensures r.Success? ==> forall i :: 0 <= i < |b| ==> r.value[i] == (b[i].0, PlanOf(b[i].1, ps))
  {
    hide PlanOf, BucketEncodable;
    var planned := [];
    for n := 0 to |b|
      invariant |planned| == n
      invariant forall i :: 0 <= i < n ==> BucketEncodable(b[i].1, ps)
      invariant forall i :: 0 <= i < n ==> planned[i] == (b[i].0, PlanOf(b[i].1, ps))
    {
      var p := PlanBucket(b[n].1, ps);
      if p.Failure? {
        return Failure(p.error);
      }
      planned := planned + [(b[n].0, p.value)];
    }
    r := Success(planned);
  }

  /** Pass two: the root with values of the right length and no content. */
  method SizeRoot(b: Buckets, planned: seq<(ByteString, Planned)>, ps: nat) returns (s: Pairs)
    requires ps > 0 && Ascending(b) && |planned| == |b|
    requires forall i :: 0 <= i < |b| ==> planned[i] == (b[i].0, PlanOf(b[i].1, ps))
    ensures s == Sizing(b, ps)
  {
    hide Body, LeafPage, PagesFor, Insert, Less, Zeros;
    s := [];
    for n := 0 to |b|
      invariant s == Sizing(b, ps)[..n]
    {
      var p := planned[n].1;
      var len := if p.Inline? then BUCKET_HEADER + |p.body| else BUCKET_HEADER;
      assert len == StubLen(b[n].1, ps);
      InsertAtEnd(s, planned[n].0, Zeros(len));
      s := Insert(s, planned[n].0, Zeros(len));
    }
  }

  /** Stamps a spilled page with its number once that is known; the element count is read back
      from the page itself. */
  method Renumber(id: nat, ghost d: Pairs, page: ByteString, pages: nat, ps: nat) returns (r: ByteString)
    requires ps > 0 && Fits(d) && pages == PagesFor(|Body(d, 0)|, ps) <= U32_LIMIT
    requires page == LeafPage(0, d, ps, 0)
    ensures r == LeafPage(id, d, ps, 0)
  {
    hide Payload, Table, PageHeader.Encode, Fits, NumAt, PagesFor, Span;
    CountInPage(d, page, pages, ps);
    var count := NumAt(page, 10, 2);
    ghost var tail := Rest(d, 0) + Zeros(Span(pages, ps) - |Body(d, 0)|);
    var header := PageHeader(id, FLAG_LEAF, count, pages - 1).Encode();
    r := Splice(page, 0, header);
    SpliceMiddle([], PageHeader(0, FLAG_LEAF, |d|, pages - 1).Encode(), tail, header);
    assert page == [] + PageHeader(0, FLAG_LEAF, |d|, pages - 1).Encode() + tail;
    assert LeafPage(id, d, ps, 0) == [] + header + tail;
  }

  lemma CountInPage(d: Pairs, page: ByteString, pages: nat, ps: nat)
    requires ps > 0 && Fits(d) && pages == PagesFor(|Body(d, 0)|, ps) <= U32_LIMIT
    requires page == LeafPage(0, d, ps, 0)
    ensures |page| >= PAGE_HEADER && NumAt(page, 10, 2) == |d|
  {
    hide PageHeader.Encode, Rest, PagesFor;
    LeafPageHolds(0, d, ps, 0);
    PageHeaderRoundTrip(PageHeader(0, FLAG_LEAF, |d|, pages - 1), page);
  }

  /** Pass three: assign page numbers to spilled buckets and build the real root's entries. */
  method Allocate(b: Buckets, planned: seq<(ByteString, Planned)>, ps: nat, rootPages: nat)
    returns (nextPage: nat, entries: Pairs, spilled: seq<(nat, ByteString)>)
    requires ps > 0 && rootPages == RootPages(b, ps) && Ascending(b) && |planned| == |b|
    requires forall i :: 0 <= i < |b| ==> planned[i] == (b[i].0, PlanOf(b[i].1, ps))
    requires forall i :: 0 <= i < |b| ==> BucketEncodable(b[i].1, ps)
    ensures nextPage == TotalPages(b, ps)
    ensures entries == RootEntries(b, ps)
    ensures spilled == SpillList(b, ps, |b|)
  {
    hide Body, LeafPage, PagesFor, Insert, Less, RootPages, Fits, BucketHeader.Encode, RootValue, PlanOf,
      BucketEncodable, Inlined;
    nextPage := ROOT + rootPages;
    entries, spilled := [], [];
    for n := 0 to |b|
      invariant nextPage == StartOf(b, ps, n)
      invariant entries == RootEntries(b, ps)[..n]
      invariant spilled == SpillList(b, ps, n)
    {
      var v;
      v, nextPage, spilled := Place(b, n, planned[n].1, ps, nextPage, spilled);
      InsertAtEnd(entries, planned[n].0, v);
      entries := Insert(entries, planned[n].0, v);
    }
  }

  /** One round of the allocator. */
  method Place(b: Buckets, n: nat, p: Planned, ps: nat, nextPage: nat, spilled: seq<(nat, ByteString)>)
    returns (v: ByteString, next: nat, more: seq<(nat, ByteString)>)
    requires ps > 0 && n < |b| && p == PlanOf(b[n].1, ps) && BucketEncodable(b[n].1, ps)
    requires nextPage == StartOf(b, ps, n) && spilled == SpillList(b, ps, n)
    ensures v == RootValue(b, ps, n) && next == StartOf(b, ps, n + 1) && more == SpillList(b, ps, n + 1)
  {
    hide Body, LeafPage, PagesFor, RootPages, Fits, BucketHeader.Encode;
    match p
    case Inline(body) =>
      v := BucketHeader(0, 0).Encode() + body;
      next, more := nextPage, spilled;
    case Spilled(page, pages) =>
      var id := nextPage;
      var stamped := Renumber(id, b[n].1, page, pages, ps);
      v := BucketHeader(id, 0).Encode();
      next, more := nextPage + pages, spilled + [(id, stamped)];
  }

  lemma AppendInto(a: ByteString, n: nat, x: ByteString)
    requires |x| <= n
    ensures Splice(a + Zeros(n), |a|, x) == a + x + Zeros(n - |x|)
  {
    assert Zeros(n) == Zeros(|x|) + Zeros(n - |x|);
    SpliceMiddle(a, Zeros(|x|), Zeros(n - |x|), x);
    assert a + Zeros(n) == a + Zeros(|x|) + Zeros(n - |x|);
  }

  /** Page numbers of the spilled buckets match where their pages fall when laid end to end. */
  lemma {:induction false} SpillOffsets(b: Buckets, ps: nat, n: nat, j: nat)
    requires ps > 0 && ps >= META_END && n <= |b| && j < |SpillList(b, ps, n)|
    ensures Span(SpillList(b, ps, n)[j].0, ps) == |Front(b, ps)| + |Join(SpillList(b, ps, n)[..j])|
    decreases n
  {
    hide *;
    NoSpills(b, ps);
    var l, k := SpillList(b, ps, n), SpillList(b, ps, n - 1);
    SpillStep(b, ps, n);
    SamePrefix(l, k, j);
    if j < |k| {
      SpillOffsets(b, ps, n - 1, j);
    } else {
      NextOffset(b, ps, n - 1);
    }
  }

  lemma SamePrefix(l: seq<(nat, ByteString)>, k: seq<(nat, ByteString)>, j: nat)
    requires |k| <= |l| && l[..|k|] == k && j < |l|
    ensures if j < |k| then l[j] == k[j] && l[..j] == k[..j] else j == |k| ==> l[..j] == k
  {
  }

  lemma NoSpills(b: Buckets, ps: nat)
    requires ps > 0
    ensures SpillList(b, ps, 0) == []
  {
  }

  /** The next page to be handed out is the one after all that is laid out so far. */
  lemma NextOffset(b: Buckets, ps: nat, n: nat)
    requires ps >= META_END && n <= |b|
    ensures Span(StartOf(b, ps, n), ps) == |Front(b, ps)| + |Join(SpillList(b, ps, n))|
  {
    assert ps > 0;
    hide *;
    SpillLength(b, ps, n);
    StartSpan(b, ps, n);
  }

  lemma JoinStep(l: seq<(nat, ByteString)>, j: nat)
    requires j < |l|
    ensures Join(l[..j + 1]) == Join(l[..j]) + l[j].1
    ensures |Join(l[..j])| + |l[j].1| <= |Join(l)|
  {
    assert l[..j + 1][..j] == l[..j];
    JoinPrefix(l, j + 1);
  }

  /** Copies one page image to its page number. */
  method PutPage(out: array<Byte>, id: nat, page: ByteString, ps: nat, ghost a: ByteString, ghost n: nat)
    requires out[..] == a + Zeros(n) && Span(id, ps) == |a| && |page| <= n
    modifies out
    ensures out[..] == a + page + Zeros(n - |page|)
  {
    SpanIsProduct(id, ps);
    AppendInto(a, n, page);
    assert out.Length == |a| + n;
    CopyInto(out, id * ps, page);
  }

  /** Copies each spilled bucket to its place. */
  method PlaceSpilled(out: array<Byte>, spilled: seq<(nat, ByteString)>, ps: nat, ghost front: ByteString)
    requires forall j :: 0 <= j < |spilled| ==> Span(spilled[j].0, ps) == |front| + |Join(spilled[..j])|
    requires out[..] == front + Zeros(|Join(spilled)|)
    modifies out
    ensures out[..] == front + Join(spilled)
  {
    hide Span, Zeros, Join;
    ghost var whole := |Join(spilled)|;
    JoinEnds(spilled, front);
    for j := 0 to |spilled|
      invariant |Join(spilled[..j])| <= whole
      invariant out[..] == (front + Join(spilled[..j])) + Zeros(whole - |Join(spilled[..j])|)
    {
      JoinStep(spilled, j);
      PutPage(out, spilled[j].0, spilled[j].1, ps, front + Join(spilled[..j]), whole - |Join(spilled[..j])|);
      assert front + Join(spilled[..j + 1]) == front + Join(spilled[..j]) + spilled[j].1;
    }
  }

  lemma JoinEnds(l: seq<(nat, ByteString)>, front: ByteString)
    ensures front + Join(l[..0]) == front && |Join(l[..0])| == 0
    ensures front + Join(l[..|l|]) + Zeros(0) == front + Join(l)
  {
    assert l[..|l|] == l;
  }

  method FreshMeta(m: Meta, id: nat, ps: nat) returns (page: ByteString)
    requires ps >= META_END
    ensures page == Padded(m.Encode(id), ps)
  {
    hide Meta.Encode;
    var a := new Byte[ps](_ => 0);
    assert a[..] == Zeros(ps);
    m.Write(a, id);
    SpliceMiddle([], Zeros(META_END), Zeros(ps - META_END), m.Encode(id));
    assert Zeros(ps) == [] + Zeros(META_END) + Zeros(ps - META_END);
    page := a[..];
  }

  /** The writer from end to end, its failures in the order they are met. */
  method Build(b: Buckets, ps: nat) returns (r: Result<ByteString>)
    requires WellFormed(b)
    ensures r == BuildResult(b, ps)
  {
    hide PlanOf, BucketEncodable, PageFits, RootEntries, Sizing, SpillList, LeafPage, Body, PagesFor, Image,
      IsPowerOfTwo, StartOf;
    if ps < 512 || !IsPowerOfTwo(ps) {
      return Failure(Unsupported);
    }
    var plan := PlanAll(b, ps);
    if plan.Failure? {
      return Failure(plan.error);
    }
    var sizing := SizeRoot(b, plan.value, ps);
    var sized := BuildLeafPage(ROOT, sizing, ps, BUCKET_LEAF_FLAG);
    if sized.Failure? {
      return Failure(sized.error);
    }
    var rootPages := |sized.value| / ps;
    SpanIsProduct(RootPages(b, ps), ps);
    ExactQuotient(RootPages(b, ps), ps);
    var nextPage, entries, spilled := Allocate(b, plan.value, ps, rootPages);
    SizingIsExact(b, ps);
    var root := BuildLeafPage(ROOT, entries, ps, BUCKET_LEAF_FLAG);
    assert root == Success(RootPage(b, ps));
    if nextPage * ps > ISIZE_MAX {
      return Failure(Panic);
    }
    var out := Assemble(b, ps, nextPage, root.value, spilled);
    r := Success(out);
  }

  lemma SpillOffsetsAll(b: Buckets, ps: nat)
    requires ps >= META_END
    ensures var l := SpillList(b, ps, |b|);
            forall j :: 0 <= j < |l| ==> Span(l[j].0, ps) == |Front(b, ps)| + |Join(l[..j])|
  {
    hide SpillList, Span, Join, Front;
    var l := SpillList(b, ps, |b|);
    forall j | 0 <= j < |l| ensures Span(l[j].0, ps) == |Front(b, ps)| + |Join(l[..j])| {
      SpillOffsets(b, ps, |b|, j);
    }
  }

  /** The zeroed file with the free list and root placed, before any bucket or meta page. */
  ghost function Bare(b: Buckets, ps: nat): ByteString
    requires ps >= META_END
  {
    Zeros(2 * ps) + FreePage(ps) + RootPage(b, ps)
  }

  /** Writes free list, root, buckets and both metas into a zeroed buffer of the final size. */
  method Assemble(b: Buckets, ps: nat, total: nat, root: ByteString, spilled: seq<(nat, ByteString)>)
    returns (image: ByteString)
    requires ps >= META_END && total == TotalPages(b, ps)
    requires root == RootPage(b, ps) && spilled == SpillList(b, ps, |b|)
    ensures image == Image(b, ps)
  {
    hide RootPage, SpillList, Join, StartOf, MetaPage, Span, Zeros, PageHeader.Encode, Meta.Encode;
    var size := total * ps;
    SpanIsProduct(total, ps);
    ImageLength(b, ps);
    var out := new Byte[size](_ => 0);
    PlaceFront(b, ps, out, root, |Join(spilled)|);
    SpillOffsetsAll(b, ps);
    PlaceSpilled(out, spilled, ps, Bare(b, ps));
    PlaceMetas(b, ps, total, out, Join(spilled));
    image := out[..];
  }

  method PlaceFront(b: Buckets, ps: nat, out: array<Byte>, root: ByteString, ghost rest: nat)
    requires ps >= META_END && root == RootPage(b, ps)
    requires out.Length == |Bare(b, ps)| + rest
    requires forall i :: 0 <= i < out.Length ==> out[i] == 0
    modifies out
    ensures out[..] == Bare(b, ps) + Zeros(rest)
  {
    hide RootPage, PageHeader.Encode, RootPages, Splice;
    var header := PageHeader(FREELIST, FLAG_FREELIST, 0, 0);
    ghost var after := ps - PAGE_HEADER;
    assert out[..] == Zeros(2 * ps) + Zeros(ps + |root| + rest);
    header.Write(out, FREELIST * ps);
    AppendInto(Zeros(2 * ps), ps + |root| + rest, header.Encode());
    FreeThenRoot(Zeros(2 * ps), header.Encode(), after, |root| + rest);
    CopyInto(out, ROOT * ps, root);
    AppendInto(Zeros(2 * ps) + FreePage(ps), |root| + rest, root);
  }

  lemma FreeThenRoot(a: ByteString, h: ByteString, m: nat, n: nat)
    ensures a + h + Zeros(m + n) == a + (h + Zeros(m)) + Zeros(n)
  {
    assert Zeros(m + n) == Zeros(m) + Zeros(n);
  }

  method PlaceMetas(b: Buckets, ps: nat, total: nat, out: array<Byte>, ghost tail: ByteString)
    requires ps >= META_END && total == TotalPages(b, ps)
    requires out[..] == Bare(b, ps) + tail
    modifies out
    ensures out[..] == Front(b, ps) + tail
  {
    hide RootPage, FreePage, StartOf, Meta.Encode, Padded;
    var meta := Meta(MAGIC, VERSION, ps % U32_LIMIT, 0, ROOT, 0, FREELIST, total, 2, 0);
    var first := FreshMeta(meta, 0, ps);
    var second := FreshMeta(meta.(txid := 3), 1, ps);
    ghost var rest := FreePage(ps) + RootPage(b, ps) + tail;
    assert Zeros(2 * ps) == Zeros(ps) + Zeros(ps);
    assert Bare(b, ps) + tail == [] + Zeros(ps) + (Zeros(ps) + rest);
    Overwrite(out, 0, first, [], Zeros(ps), Zeros(ps) + rest);
    assert [] + first + (Zeros(ps) + rest) == first + Zeros(ps) + rest;
    Overwrite(out, ps, second, first, Zeros(ps), rest);
    assert first + second + rest == Front(b, ps) + tail;
  }

  /** `copy_from_slice` over a region of known neighbours. */
  method Overwrite(out: array<Byte>, off: nat, x: ByteString, ghost a: ByteString, ghost was: ByteString, ghost c: ByteString)
    requires out[..] == a + was + c && |was| == |x| && off == |a|
    modifies out
    ensures out[..] == a + x + c
  {
    SpliceMiddle(a, was, c, x);
    assert out.Length == |a| + |x| + |c|;
    CopyInto(out, off, x);
  }
}
