/** Leaf pages: the encoder of `write.rs` and the leaf half of `walk_page` in `read.rs`. */
module BoltLeaf {
  import opened Bytes
  import opened BoltPage

  /** Keys with their values, in page order. */
  type Pairs = seq<(ByteString, ByteString)>

  /** What the reader collects for one leaf element. */
  datatype LeafEntry = LeafEntry(key: ByteString, flags: nat, val: ByteString)

  /** The keys and values, end to end. */
  function Payload(d: Pairs): ByteString {
    if d == [] then []
    else Payload(d[..|d| - 1]) + d[|d| - 1].0 + d[|d| - 1].1
  }

  /** The element describing pair `i`; its position is measured from the element itself. */
  function ElemOf(d: Pairs, i: nat, flags: nat): LeafElem
    requires i < |d|
  {
    LeafElem(flags, LEAF_ELEM * (|d| - i) + |Payload(d[..i])|, |d[i].0|, |d[i].1|)
  }

  /** The first `n` elements of the table. */
  function Table(d: Pairs, flags: nat, n: nat): (t: ByteString)
    requires n <= |d|
    ensures |t| == LEAF_ELEM * n
  {
    if n == 0 then [] else Table(d, flags, n - 1) + ElemOf(d, n - 1, flags).Encode()
  }

  /** Whether every number the encoding needs fits its field. */
  predicate Fits(d: Pairs) {
    |d| < U16_LIMIT && forall i :: 0 <= i < |d| ==> ElemOf(d, i, 0).Fits()
  }

  /** Everything after the header. */
  function Rest(d: Pairs, flags: nat): ByteString {
    Table(d, flags, |d|) + Payload(d)
  }

  /** A leaf as it lies on disk, before any padding. */
  function Body(d: Pairs, flags: nat): (b: ByteString)
    ensures |b| == PAGE_HEADER + LEAF_ELEM * |d| + |Payload(d)|
  {
    PageHeader(0, FLAG_LEAF, |d|, 0).Encode() + Rest(d, flags)
  }

  /** The bytes in `n` pages. */
  function Span(n: nat, pageSize: nat): nat {
    if n == 0 then 0 else Span(n - 1, pageSize) + pageSize
  }

  lemma {:induction false} SpanIsProduct(n: nat, pageSize: nat)
    ensures Span(n, pageSize) == n * pageSize
  {
    if n > 0 {
      SpanIsProduct(n - 1, pageSize);
    }
  }

  lemma {:induction false} SpanAdd(m: nat, n: nat, pageSize: nat)
    ensures Span(m + n, pageSize) == Span(m, pageSize) + Span(n, pageSize)
  {
    if n > 0 {
      SpanAdd(m, n - 1, pageSize);
    }
  }

  /** How many pages a body of `len` bytes takes, counted page by page. */
  function PagesFor(len: nat, pageSize: nat): (n: nat)
    requires pageSize > 0
    ensures n >= 1
  {
    if len <= pageSize then 1 else 1 + PagesFor(len - pageSize, pageSize)
  }

  /** The count is the quotient rounded up, at least one, and the pages hold the body. */
  lemma {:induction false} PagesForIsDivCeil(len: nat, pageSize: nat)
    requires pageSize > 0
    ensures len <= Span(PagesFor(len, pageSize), pageSize)
    ensures PagesFor(len, pageSize) == if len == 0 then 1 else (len + pageSize - 1) / pageSize
  {
    if len > pageSize {
      PagesForIsDivCeil(len - pageSize, pageSize);
      DivStep(len - 1, pageSize);
    } else if len > 0 {
      DivStep(len - 1, pageSize);
    }
  }

  lemma DivStep(n: nat, m: nat)
    requires m > 0
    ensures (n + m) / m == n / m + 1
  {
    var k := (n + m) / m - n / m - 1;
    assert k * m == n % m - (n + m) % m;
    SmallMultiple(k, m);
  }

  lemma SmallMultiple(k: int, m: int)
    requires -m < k * m < m
    ensures k == 0
  {
  }

  /** A leaf on pages of its own: the body with its real header, padded with zeros. */
  function LeafPage(id: nat, d: Pairs, pageSize: nat, flags: nat): (p: ByteString)
    requires pageSize > 0
    ensures |p| == Span(PagesFor(|Body(d, flags)|, pageSize), pageSize)
  {
    var pages := PagesFor(|Body(d, flags)|, pageSize);
    PagesForIsDivCeil(|Body(d, flags)|, pageSize);
    PageHeader(id, FLAG_LEAF, |d|, pages - 1).Encode() + Rest(d, flags)
    + Zeros(Span(pages, pageSize) - |Body(d, flags)|)
  }

  predicate PageFits(d: Pairs, pageSize: nat)
    requires pageSize > 0
  {
    Fits(d) && PagesFor(PAGE_HEADER + LEAF_ELEM * |d| + |Payload(d)|, pageSize) <= U32_LIMIT
  }

  lemma PayloadStep(d: Pairs, i: nat)
    requires i < |d|
    ensures Payload(d[..i + 1]) == Payload(d[..i]) + d[i].0 + d[i].1
  {
    assert d[..i + 1][..i] == d[..i];
  }

  lemma {:induction false} PayloadPrefix(d: Pairs, i: nat)
    requires i <= |d|
    ensures Payload(d[..i]) <= Payload(d)
    decreases |d|
  {
    if i == |d| {
      assert d[..i] == d;
    } else {
      var e := d[..|d| - 1];
      PayloadPrefix(e, i);
      assert e[..i] == d[..i];
    }
  }

  /** The payload holds each key and, right after it, its value. */
  lemma PayloadAt(d: Pairs, i: nat)
    requires i < |d|
    ensures var at := |Payload(d[..i])|; var ks := |d[i].0|; var vs := |d[i].1|;
            && at + ks + vs <= |Payload(d)|
            && Payload(d)[at..at + ks] == d[i].0
            && Payload(d)[at + ks..at + ks + vs] == d[i].1
  {
    PayloadPrefix(d, i + 1);
    PayloadStep(d, i);
    var at, ks, vs := |Payload(d[..i])|, |d[i].0|, |d[i].1|;
    var p, whole := Payload(d[..i + 1]), Payload(d);
    assert whole[..|p|] == p;
    assert whole[at..at + ks] == p[at..at + ks];
    assert whole[at + ks..at + ks + vs] == p[at + ks..at + ks + vs];
  }

  lemma {:induction false} TableAt(d: Pairs, flags: nat, n: nat, i: nat)
    requires i < n <= |d|
    ensures Table(d, flags, n)[LEAF_ELEM * i..LEAF_ELEM * i + LEAF_ELEM] == ElemOf(d, i, flags).Encode()
  {
    var at := LEAF_ELEM * i;
    var t := Table(d, flags, n);
    if i < n - 1 {
      TableAt(d, flags, n - 1, i);
      var u := Table(d, flags, n - 1);
      assert t[at..at + LEAF_ELEM] == u[at..at + LEAF_ELEM];
    }
  }

  // ---- the encoder

  /** The buffer after `i` rounds: elements so far, room for the others, data so far. */
  ghost function Partial(d: Pairs, flags: nat, i: nat): ByteString
    requires i <= |d|
  {
    PageHeader(0, FLAG_LEAF, |d|, 0).Encode() + Table(d, flags, i)
    + Zeros(LEAF_ELEM * (|d| - i)) + Payload(d[..i])
  }

  lemma TableStep(d: Pairs, flags: nat, i: nat)
    requires i < |d|
    ensures Table(d, flags, i + 1) == Table(d, flags, i) + ElemOf(d, i, flags).Encode()
  {
  }

  lemma PartialStep(d: Pairs, flags: nat, i: nat)
    requires i < |d|
    ensures |Partial(d, flags, i)| == PAGE_HEADER + LEAF_ELEM * |d| + |Payload(d[..i])|
    ensures Splice(Partial(d, flags, i), PAGE_HEADER + LEAF_ELEM * i, ElemOf(d, i, flags).Encode())
            + d[i].0 + d[i].1 == Partial(d, flags, i + 1)
  {
    hide PageHeader.Encode, LeafElem.Encode, Payload, Table;
    PayloadStep(d, i);
    TableStep(d, flags, i);
    var h := PageHeader(0, FLAG_LEAF, |d|, 0).Encode();
    var y := Zeros(LEAF_ELEM * (|d| - i - 1));
    assert Zeros(LEAF_ELEM * (|d| - i)) == Zeros(LEAF_ELEM) + y;
  }

  lemma SpliceMiddle(a: ByteString, b: ByteString, c: ByteString, x: ByteString)
    requires |x| == |b|
    ensures Splice(a + b + c, |a|, x) == a + x + c
  {
    assert (a + b + c)[..|a|] == a;
    assert (a + b + c)[|a| + |x|..] == c;
  }

  lemma PartialEnds(d: Pairs, flags: nat)
    ensures Partial(d, flags, 0) == PageHeader(0, FLAG_LEAF, |d|, 0).Encode() + Zeros(LEAF_ELEM * |d|)
    ensures Partial(d, flags, |d|) == Body(d, flags)
  {
    assert d[..|d|] == d;
  }

  /** Encodes a leaf body, failing exactly when a count, offset or length overflows its field. */
  method EncodeLeafBody(d: Pairs, flags: nat) returns (r: Result<ByteString>)
    requires flags < U32_LIMIT
    ensures r == if Fits(d) then Success(Body(d, flags)) else Failure(Unsupported)
  {
    hide Partial, Body, Payload, Table, PageHeader.Encode, LeafElem.Encode;
    if |d| >= U16_LIMIT {
      return Failure(Unsupported);
    }
    var body := PageHeader(0, FLAG_LEAF, |d|, 0).Encode() + Zeros(LEAF_ELEM * |d|);
    PartialEnds(d, flags);
    for i := 0 to |d|
      invariant body == Partial(d, flags, i)
      invariant forall j :: 0 <= j < i ==> ElemOf(d, j, 0).Fits()
    {
      var elemOff := PAGE_HEADER + LEAF_ELEM * i;
      var pos := |body| - elemOff;
      PartialStep(d, flags, i);
      assert pos == ElemOf(d, i, 0).pos;
      if pos >= U32_LIMIT || |d[i].0| >= U32_LIMIT || |d[i].1| >= U32_LIMIT {
        assert !ElemOf(d, i, 0).Fits();
        return Failure(Unsupported);
      }
      body := Splice(body, elemOff, LeafElem(flags, pos, |d[i].0|, |d[i].1|).Encode());
      body := body + d[i].0 + d[i].1;
    }
    r := Success(body);
  }

  /** Builds a leaf on whole pages. */
  method BuildLeafPage(id: nat, d: Pairs, pageSize: nat, flags: nat) returns (r: Result<ByteString>)
    requires flags < U32_LIMIT && pageSize > 0
    ensures r == if PageFits(d, pageSize) then Success(LeafPage(id, d, pageSize, flags))
                 else Failure(Unsupported)
  {
    hide Payload, Table, PageHeader.Encode, Fits, PagesFor, Span;
    var enc := EncodeLeafBody(d, flags);
    if enc.Failure? {
      return enc;
    }
    var body := enc.value;
    var pages := (|body| + pageSize - 1) / pageSize;
    pages := if pages < 1 then 1 else pages;
    PagesForIsDivCeil(|body|, pageSize);
    if pages > U32_LIMIT {
      return Failure(Unsupported);
    }
    SpanIsProduct(pages, pageSize);
    ghost var old0 := PageHeader(0, FLAG_LEAF, |d|, 0).Encode();
    var pad := Zeros(pages * pageSize - |body|);
    body := body + pad;
    var header := PageHeader(id, FLAG_LEAF, |d|, pages - 1).Encode();
    SpliceMiddle([], old0, Rest(d, flags) + pad, header);
    assert body == [] + old0 + (Rest(d, flags) + pad);
    body := Splice(body, 0, header);
    assert body == header + Rest(d, flags) + pad;
    r := Success(body);
  }

  // ---- the reader

  /** One leaf element of a page; slicing past the page's end panics. */
  function EntryAt(page: ByteString, i: nat): Result<LeafEntry> {
    var eo := PAGE_HEADER + i * LEAF_ELEM;
    if eo > |page| then Failure(Panic)
    else
      var e :- LeafElem.Parse(page[eo..]);
      var keyAt := eo + e.pos;
      var valAt := keyAt + e.ksize;
      if valAt + e.vsize > |page| then Failure(Corrupt)
      else Success(LeafEntry(page[keyAt..valAt], e.flags, page[valAt..valAt + e.vsize]))
  }

  /** The first `n` leaf elements of a page, or the first failure among them. */
  function EntriesOf(page: ByteString, n: nat): Result<seq<LeafEntry>> {
    if n == 0 then Success([])
    else
      var es :- EntriesOf(page, n - 1);
      var e :- EntryAt(page, n - 1);
      Success(es + [e])
  }

  lemma {:induction false} FailureSticks(page: ByteString, i: nat, n: nat)
    requires i <= n && EntriesOf(page, i).Failure?
    ensures EntriesOf(page, n) == EntriesOf(page, i)
    decreases n
  {
    hide EntryAt;
    if i < n {
      FailureSticks(page, i, n - 1);
    }
  }

  method WalkLeaf(page: ByteString, count: nat) returns (r: Result<seq<LeafEntry>>)
    ensures r == EntriesOf(page, count)
  {
    var out := [];
    for i := 0 to count
      invariant EntriesOf(page, i) == Success(out)
    {
      var e := EntryAt(page, i);
      if e.Failure? {
        assert EntriesOf(page, i + 1) == Failure(e.error);
        FailureSticks(page, i + 1, count);
        return Failure(e.error);
      }
      out := out + [e.value];
    }
    r := Success(out);
  }

  // ---- reading back what was written

  /** What a page must contain to be read as `d`: the table and data in place after a header. */
  ghost predicate Holds(page: ByteString, d: Pairs, flags: nat) {
    && PAGE_HEADER + |Rest(d, flags)| <= |page|
    && page[PAGE_HEADER..PAGE_HEADER + |Rest(d, flags)|] == Rest(d, flags)
  }

  function EntryOf(d: Pairs, i: nat, flags: nat): LeafEntry
    requires i < |d|
  {
    LeafEntry(d[i].0, flags, d[i].1)
  }

  function AllEntries(d: Pairs, flags: nat): seq<LeafEntry> {
    seq(|d|, i requires 0 <= i < |d| => EntryOf(d, i, flags))
  }

  lemma HeldElem(page: ByteString, d: Pairs, flags: nat, i: nat)
    requires Holds(page, d, flags) && i < |d|
    ensures var eo := PAGE_HEADER + i * LEAF_ELEM;
            eo + LEAF_ELEM <= |page| && page[eo..eo + LEAF_ELEM] == ElemOf(d, i, flags).Encode()
  {
    hide Payload, Table, LeafElem.Encode;
    TableAt(d, flags, |d|, i);
    var rest, t := Rest(d, flags), Table(d, flags, |d|);
    var at := LEAF_ELEM * i;
    assert rest[at..at + LEAF_ELEM] == t[at..at + LEAF_ELEM];
    SubSlice(page, PAGE_HEADER, PAGE_HEADER + |rest|, rest, at, LEAF_ELEM);
  }

  lemma HeldData(page: ByteString, d: Pairs, flags: nat, i: nat)
    requires Holds(page, d, flags) && i < |d|
    ensures var keyAt := PAGE_HEADER + LEAF_ELEM * |d| + |Payload(d[..i])|;
            var valAt := keyAt + |d[i].0|;
            && valAt + |d[i].1| <= |page|
            && page[keyAt..valAt] == d[i].0
            && page[valAt..valAt + |d[i].1|] == d[i].1
  {
    hide Payload, Table;
    PayloadAt(d, i);
    var rest, t, p := Rest(d, flags), Table(d, flags, |d|), Payload(d);
    var at, ks, vs := |Payload(d[..i])|, |d[i].0|, |d[i].1|;
    AppendSlice(t, p, at, at + ks);
    AppendSlice(t, p, at + ks, at + ks + vs);
    SubSlice(page, PAGE_HEADER, PAGE_HEADER + |rest|, rest, |t| + at, ks);
    SubSlice(page, PAGE_HEADER, PAGE_HEADER + |rest|, rest, |t| + at + ks, vs);
  }

  lemma HeldEntry(page: ByteString, d: Pairs, flags: nat, i: nat)
    requires Fits(d) && flags < U32_LIMIT && Holds(page, d, flags) && i < |d|
    ensures EntryAt(page, i) == Success(EntryOf(d, i, flags))
  {
    hide Holds, Payload, Table, LeafElem.Encode, LeafElem.Parse;
    HeldElem(page, d, flags, i);
    HeldData(page, d, flags, i);
    var eo := PAGE_HEADER + i * LEAF_ELEM;
    var e := ElemOf(d, i, flags);
    assert ElemOf(d, i, 0).Fits();
    assert page[eo..][..LEAF_ELEM] == page[eo..eo + LEAF_ELEM];
    LeafElemRoundTrip(e, page[eo..]);
  }

  /** A page that holds `d` is read back as exactly `d`, in order, whatever follows the data. */
  lemma {:induction false} HeldEntries(page: ByteString, d: Pairs, flags: nat, n: nat)
    requires Fits(d) && flags < U32_LIMIT && Holds(page, d, flags) && n <= |d|
    ensures EntriesOf(page, n) == Success(AllEntries(d, flags)[..n])
  {
    hide EntryAt, Fits, Holds, Rest;
    if n > 0 {
      HeldEntries(page, d, flags, n - 1);
      HeldEntry(page, d, flags, n - 1);
      var all := AllEntries(d, flags);
      assert all[..n] == all[..n - 1] + [all[n - 1]];
    }
  }

  lemma BodyHolds(d: Pairs, flags: nat)
    ensures Holds(Body(d, flags), d, flags)
    ensures Body(d, flags)[..PAGE_HEADER] == PageHeader(0, FLAG_LEAF, |d|, 0).Encode()
  {
  }

  lemma LeafPageHolds(id: nat, d: Pairs, pageSize: nat, flags: nat)
    requires pageSize > 0
    ensures Holds(LeafPage(id, d, pageSize, flags), d, flags)
    ensures LeafPage(id, d, pageSize, flags)[..PAGE_HEADER]
            == PageHeader(id, FLAG_LEAF, |d|, PagesFor(|Body(d, flags)|, pageSize) - 1).Encode()
  {
  }

  /** The size of a leaf page depends on the lengths of keys and values only. */
  lemma {:induction false} SameLengthsSameSize(d: Pairs, e: Pairs)
    requires |d| == |e|
    requires forall i :: 0 <= i < |d| ==> |d[i].0| == |e[i].0| && |d[i].1| == |e[i].1|
    ensures |Payload(d)| == |Payload(e)|
  {
    if d != [] {
      SameLengthsSameSize(d[..|d| - 1], e[..|e| - 1]);
    }
  }

  lemma SameLengthsSameFit(d: Pairs, e: Pairs)
    requires |d| == |e|
    requires forall i :: 0 <= i < |d| ==> |d[i].0| == |e[i].0| && |d[i].1| == |e[i].1|
    ensures Fits(d) == Fits(e)
  {
    forall i | 0 <= i < |d| ensures ElemOf(d, i, 0) == ElemOf(e, i, 0) {
      SameLengthsSameSize(d[..i], e[..i]);
    }
  }
}
