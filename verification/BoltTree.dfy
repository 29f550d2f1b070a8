/** Databases of any depth, as bbolt itself writes them: what a walk finds in a stored tree. */
module BoltTree {
  import opened Bytes
  import opened BoltPage
  import opened BoltLeaf
  import opened BoltImage
  import opened BoltRead
  import opened BoltRoundTrip
  import opened OrderedMap

  /** A page and all below it.  Page numbers and overflow counts are whatever the file has. */
  datatype Tree =
    | Leaf(id: nat, overflow: nat, entries: seq<LeafEntry>)
    | Branch(id: nat, overflow: nat, kids: seq<Tree>)

  // ---- what a file must hold to store a tree

  /** Element `i` of a leaf page describes `e`, wherever on the page its key and value lie. */
  ghost predicate EntryStored(page: ByteString, i: nat, e: LeafEntry) {
    exists pos: nat :: EntryStoredAt(page, i, pos, e)
  }

  predicate EntryStoredAt(page: ByteString, i: nat, pos: nat, e: LeafEntry) {
    var at := 16 + 16 * i;
    var key := at + pos;
    var val := key + |e.key|;
    && LeafElem(e.flags, pos, |e.key|, |e.val|).Fits()
    && at + 16 <= |page| && val + |e.val| <= |page|
    && page[at..at + 16] == LeafElem(e.flags, pos, |e.key|, |e.val|).Encode()
    && page[key..val] == e.key && page[val..val + |e.val|] == e.val
  }

  ghost predicate LeafStored(page: ByteString, entries: seq<LeafEntry>) {
    forall i :: 0 <= i < |entries| ==> EntryStored(page, i, entries[i])
  }

  /** Element `i` of a branch page points to page `pgid`. */
  ghost predicate KidStored(page: ByteString, i: nat, pgid: nat) {
    exists pos: nat, ksize: nat :: KidStoredAs(page, 16 + 16 * i, BranchElem(pos, ksize, pgid))
  }

  predicate KidStoredAs(page: ByteString, at: nat, e: BranchElem) {
    e.Fits() && at + 16 <= |page| && page[at..at + 16] == e.Encode()
  }

  /** A page with `overflow` more behind it, as far as the file goes. */
  function PageOf(db: Db, id: nat, overflow: nat): ByteString
    requires Span(id, db.pageSize) <= |db.data|
  {
    var start := Span(id, db.pageSize);
    var end := start + Span(1 + overflow, db.pageSize);
    db.data[start..if end < |db.data| then end else |db.data|]
  }

  predicate HasHeader(page: ByteString, h: PageHeader) {
    h.Fits() && |page| >= PAGE_HEADER && page[..PAGE_HEADER] == h.Encode()
  }

  ghost predicate Stored(db: Db, t: Tree) {
    && Span(t.id, db.pageSize) + db.pageSize <= |db.data|
    && var page := PageOf(db, t.id, t.overflow);
       match t
       case Leaf(id, overflow, entries) =>
         HasHeader(page, PageHeader(id, FLAG_LEAF, |entries|, overflow)) && LeafStored(page, entries)
       case Branch(id, overflow, kids) =>
         && HasHeader(page, PageHeader(id, FLAG_BRANCH, |kids|, overflow))
         && (forall i :: 0 <= i < |kids| ==> KidStored(page, i, kids[i].id))
         && (forall i :: 0 <= i < |kids| ==> Stored(db, kids[i]))
  }

  /** How many branch pages lie on the longest way down. */
  function Height(t: Tree): nat {
    match t
    case Leaf(_, _, _) => 0
    case Branch(_, _, kids) => 1 + Highest(kids)
  }

  function Highest(kids: seq<Tree>): (h: nat)
    ensures forall i :: 0 <= i < |kids| ==> Height(kids[i]) <= h
  {
    if kids == [] then 0
    else
      var n := |kids| - 1;
      var before, last := Highest(kids[..n]), Height(kids[n]);
      assert forall i :: 0 <= i < n ==> kids[i] == kids[..n][i];
      if last > before then last else before
  }

  /** The leaves' entries from left to right. */
  function Entries(t: Tree): seq<LeafEntry> {
    match t
    case Leaf(_, _, entries) => entries
    case Branch(_, _, kids) => EntriesBelow(kids)
  }

  function EntriesBelow(kids: seq<Tree>): seq<LeafEntry> {
    if kids == [] then [] else EntriesBelow(kids[..|kids| - 1]) + Entries(kids[|kids| - 1])
  }

  // ---- one page

  lemma EntryRead(page: ByteString, i: nat, e: LeafEntry)
    requires EntryStored(page, i, e)
    ensures EntryAt(page, i) == Success(e)
  {
    hide LeafElem.Encode, LeafElem.Parse;
    var at := 16 + 16 * i;
    var pos: nat :| EntryStoredAt(page, i, pos, e);
    var elem := LeafElem(e.flags, pos, |e.key|, |e.val|);
    assert page[at..][..16] == page[at..at + 16];
    LeafElemRoundTrip(elem, page[at..]);
  }

  lemma {:induction false} LeafRead(page: ByteString, entries: seq<LeafEntry>, n: nat)
    requires LeafStored(page, entries) && n <= |entries|
    ensures EntriesOf(page, n) == Success(entries[..n])
  {
    hide EntryAt, EntryStored;
    if n > 0 {
      LeafRead(page, entries, n - 1);
      EntryRead(page, n - 1, entries[n - 1]);
      assert entries[..n] == entries[..n - 1] + [entries[n - 1]];
    }
  }

  /** A leaf page is walked as its entries, whatever its header's number and overflow. */
  lemma LeafWalks(db: Db, page: ByteString, h: PageHeader, entries: seq<LeafEntry>, depth: nat)
    requires HasHeader(page, h) && h.flags == FLAG_LEAF && h.count == |entries| && LeafStored(page, entries)
    ensures WalkPage(db, page, depth) == Success(entries)
  {
    hide EntriesOf, LeafStored, PageHeader.Encode, PageHeader.Parse;
    PageHeaderRoundTrip(h, page);
    LeafRead(page, entries, |entries|);
    LeafFlag();
    assert entries[..|entries|] == entries;
  }

  lemma KidRead(page: ByteString, i: nat, pgid: nat)
    requires KidStored(page, i, pgid)
    ensures 16 + 16 * i <= |page|
    ensures BranchElem.Parse(page[16 + 16 * i..]).Success? && BranchElem.Parse(page[16 + 16 * i..]).value.pgid == pgid
  {
    hide BranchElem.Encode, BranchElem.Parse;
    var at := 16 + 16 * i;
    var pos: nat, ksize: nat :| KidStoredAs(page, at, BranchElem(pos, ksize, pgid));
    assert page[at..][..16] == page[at..at + 16];
    BranchElemRoundTrip(BranchElem(pos, ksize, pgid), page[at..]);
  }

  lemma SpanNext(n: nat, ps: nat)
    ensures Span(1 + n, ps) >= ps
  {
  }

  lemma SliceHead(data: ByteString, start: nat, end: nat, n: nat)
    requires start + n <= end <= |data|
    ensures data[start..end][..n] == data[start..start + n]
  {
  }

  /** A page is found with all that it overflows onto. */
  lemma PageFound(db: Db, t: Tree, h: PageHeader)
    requires Span(t.id, db.pageSize) + db.pageSize <= |db.data| <= ISIZE_MAX && db.pageSize >= PAGE_HEADER
    requires HasHeader(PageOf(db, t.id, t.overflow), h) && h.overflow == t.overflow
    ensures PageWithOverflow(db, t.id) == Success(PageOf(db, t.id, t.overflow))
  {
    hide PageHeader.Encode, PageHeader.Parse, Span;
    var start, page := Span(t.id, db.pageSize), PageOf(db, t.id, t.overflow);
    var first := db.data[start..start + db.pageSize];
    SpanNext(t.overflow, db.pageSize);
    assert PageBytes(db, t.id) == Success(first);
    assert |page| >= db.pageSize;
    SliceHead(db.data, start, start + db.pageSize, PAGE_HEADER);
    SliceHead(db.data, start, start + |page|, PAGE_HEADER);
    PageHeaderRoundTrip(h, first);
  }

  // ---- the whole tree

  lemma BranchFlag()
    ensures !HasBit(FLAG_BRANCH, FLAG_LEAF) && HasBit(FLAG_BRANCH, FLAG_BRANCH)
  {
  }

  lemma BranchWalks(db: Db, page: ByteString, h: PageHeader, depth: nat)
    requires HasHeader(page, h) && h.flags == FLAG_BRANCH && depth > 0
    ensures WalkPage(db, page, depth) == WalkBranch(db, page, h.count, depth - 1)
  {
    hide PageHeader.Encode, PageHeader.Parse, HasBit, WalkBranch;
    PageHeaderRoundTrip(h, page);
    BranchFlag();
  }

  /** One more child of a branch page adds what lies below it at the end. */
  lemma BranchStep(db: Db, page: ByteString, n: nat, depth: nat, pgid: nat, before: seq<LeafEntry>, below: seq<LeafEntry>)
    requires KidStored(page, n, pgid)
    requires WalkBranch(db, page, n, depth) == Success(before) && Walk(db, pgid, depth) == Success(below)
    ensures WalkBranch(db, page, n + 1, depth) == Success(before + below)
  {
    hide Walk, KidStored, BranchElem.Parse;
    KidRead(page, n, pgid);
  }

  lemma NoKids(db: Db, page: ByteString, depth: nat)
    ensures WalkBranch(db, page, 0, depth) == Success([])
  {
  }

  lemma {:induction false} KidsWalk(db: Db, t: Tree, n: nat, depth: nat)
    requires t.Branch? && n <= |t.kids| && Highest(t.kids) <= depth
    requires db.pageSize >= PAGE_HEADER && |db.data| <= ISIZE_MAX && Stored(db, t)
    ensures WalkBranch(db, PageOf(db, t.id, t.overflow), n, depth) == Success(EntriesBelow(t.kids[..n]))
    decreases t, 0, n
  {
    hide Walk, WalkBranch, KidStored, PageOf, HasHeader, Entries, Span;
    var page := PageOf(db, t.id, t.overflow);
    if n == 0 {
      NoKids(db, page, depth);
    } else {
      var kid := t.kids[n - 1];
      KidsWalk(db, t, n - 1, depth);
      TreeWalks(db, kid, depth);
      BranchStep(db, page, n - 1, depth, kid.id, EntriesBelow(t.kids[..n - 1]), Entries(kid));
      assert t.kids[..n][..n - 1] == t.kids[..n - 1];
    }
  }

  /** Every stored tree no higher than the depth allowed is walked as the entries of its leaves from
      left to right, each page with all it overflows onto. */
  lemma {:induction false} TreeWalks(db: Db, t: Tree, depth: nat)
    requires Height(t) <= depth
    requires db.pageSize >= PAGE_HEADER && |db.data| <= ISIZE_MAX && Stored(db, t)
    ensures Walk(db, t.id, depth) == Success(Entries(t))
    decreases t, 1, 0
  {
    hide WalkPage, WalkBranch, KidStored, LeafStored, HasHeader, PageOf, PageWithOverflow, Highest, Span;
    var page := PageOf(db, t.id, t.overflow);
    match t
    case Leaf(id, overflow, entries) =>
      var h := PageHeader(id, FLAG_LEAF, |entries|, overflow);
      PageFound(db, t, h);
      LeafWalks(db, page, h, entries, depth);
    case Branch(id, overflow, kids) =>
      var h := PageHeader(id, FLAG_BRANCH, |kids|, overflow);
      PageFound(db, t, h);
      BranchWalks(db, page, h, depth);
      KidsWalk(db, t, |kids|, depth - 1);
      assert kids[..|kids|] == kids;
  }

  // ---- buckets

  function PairsOf(es: seq<LeafEntry>): (d: Pairs)
    ensures |d| == |es|
    ensures forall i :: 0 <= i < |es| ==> d[i] == (es[i].key, es[i].val)
  {
    seq(|es|, i requires 0 <= i < |es| => (es[i].key, es[i].val))
  }

  /** A root value stores bucket `d`: it names a page on which a tree with these keys is stored, or
      carries a leaf page with them right behind its header. */
  ghost predicate BucketStored(db: Db, value: ByteString, d: Pairs, depth: nat) {
    (exists t, sequence :: NamesTree(db, value, t, sequence, depth) && d == PairsOf(Entries(t)))
    || (exists h, es, sequence :: HoldsLeaf(value, h, es, sequence) && d == PairsOf(es))
  }

  ghost predicate NamesTree(db: Db, value: ByteString, t: Tree, sequence: nat, depth: nat) {
    && 0 < t.id && BucketHeader(t.id, sequence).Fits() && Height(t) <= depth && Stored(db, t)
    && |value| >= 16 && value[..16] == BucketHeader(t.id, sequence).Encode()
  }

  ghost predicate HoldsLeaf(value: ByteString, h: PageHeader, es: seq<LeafEntry>, sequence: nat) {
    && BucketHeader(0, sequence).Fits()
    && |value| >= 16 && value[..16] == BucketHeader(0, sequence).Encode()
    && HasHeader(value[16..], h) && h.flags == FLAG_LEAF && h.count == |es| && LeafStored(value[16..], es)
  }

  lemma {:induction false} CollectPairs(es: seq<LeafEntry>, n: nat)
    requires Ascending(PairsOf(es)) && n <= |es|
    ensures Collect(es, n) == PairsOf(es)[..n]
  {
    hide Insert, Less;
    if n > 0 {
      var d := PairsOf(es);
      CollectPairs(es, n - 1);
      InsertAtEnd(d[..n - 1], d[n - 1].0, d[n - 1].1);
      assert d[..n] == d[..n - 1] + [d[n - 1]];
    }
  }

  /** A bucket is read as exactly its keys, at any depth and inline. */
  lemma BucketReads(db: Db, value: ByteString, d: Pairs, depth: nat)
    requires db.pageSize >= PAGE_HEADER && |db.data| <= ISIZE_MAX
    requires Ascending(d) && BucketStored(db, value, d, depth)
    ensures ReadBucket(db, value, depth) == Success(d)
  {
    hide Walk, WalkPage, Collect, BucketHeader.Encode, BucketHeader.Parse, Stored, HasHeader, LeafStored, Ascending,
      Entries, Height;
    if t, sequence :| NamesTree(db, value, t, sequence, depth) && d == PairsOf(Entries(t)) {
      BucketHeaderRoundTrip(BucketHeader(t.id, sequence), value);
      TreeWalks(db, t, depth);
      CollectPairs(Entries(t), |d|);
    } else {
      var h, es, sequence :| HoldsLeaf(value, h, es, sequence) && d == PairsOf(es);
      BucketHeaderRoundTrip(BucketHeader(0, sequence), value);
      LeafWalks(db, value[16..], h, es, depth);
      CollectPairs(es, |d|);
    }
    assert d[..|d|] == d;
  }

  /** The entries flagged as buckets. */
  function Flagged(es: seq<LeafEntry>): seq<LeafEntry> {
    if es == [] then []
    else
      var n := |es| - 1;
      Flagged(es[..n]) + if es[n].flags % 2 == 1 then [es[n]] else []
  }

  /** Entry by entry, the flagged entries name and store the buckets of `b`. */
  ghost predicate BucketsStored(db: Db, es: seq<LeafEntry>, b: Buckets, depth: nat) {
    && |Flagged(es)| == |b|
    && forall i :: 0 <= i < |b| ==>
         Flagged(es)[i].key == b[i].0 && BucketStored(db, Flagged(es)[i].val, b[i].1, depth)
  }

  lemma {:induction false} BucketsRead(db: Db, es: seq<LeafEntry>, n: nat, b: Buckets, depth: nat)
    requires db.pageSize >= PAGE_HEADER && |db.data| <= ISIZE_MAX && n <= |es|
    requires WellFormed(b) && BucketsStored(db, es[..n], b, depth)
    ensures BucketsOf(db, es, n, depth) == Success(b)
  {
    hide ReadBucket, BucketStored, Insert, Less;
    if n > 0 {
      assert es[..n][..n - 1] == es[..n - 1];
      if es[n - 1].flags % 2 == 1 {
        var m := |b| - 1;
        assert Flagged(es[..n]) == Flagged(es[..n - 1]) + [es[n - 1]];
        BucketsRead(db, es, n - 1, b[..m], depth);
        BucketReads(db, es[n - 1].val, b[m].1, depth);
        InsertAtEnd(b[..m], b[m].0, b[m].1);
        assert b == b[..m] + [b[m]];
      } else {
        BucketsRead(db, es, n - 1, b, depth);
      }
    }
  }

  /** Whatever shape its trees have, a database is read as exactly its buckets: those the flagged
      entries of the root tree store, in order; bare keys are passed over. */
  lemma DatabaseReads(db: Db, t: Tree, b: Buckets, depth: nat)
    requires db.pageSize >= PAGE_HEADER && |db.data| <= ISIZE_MAX
    requires t.id == db.root && Height(t) <= depth && Stored(db, t)
    requires WellFormed(b) && BucketsStored(db, Entries(t), b, depth)
    ensures ReadBuckets(db, depth) == Success(b)
  {
    hide Walk, BucketsOf, Stored, Entries, BucketsStored, WellFormed;
    TreeWalks(db, t, depth);
    var es := Entries(t);
    assert es[..|es|] == es;
    BucketsRead(db, es, |es|, b, depth);
  }
}
