/** `read.rs`: opening a database image and reading its buckets. */
module BoltRead {
  import opened Bytes
  import opened BoltPage
  import opened BoltLeaf
  import opened BoltImage
  import opened OrderedMap

  datatype Db = Db(data: ByteString, pageSize: nat, root: nat)

  const MAX_PAGE_SIZE: nat := 0x10_0000

  /** One page, header included; offsets past 64 bits are refused. */
  function PageBytes(db: Db, id: nat): Result<ByteString> {
    var start := Span(id, db.pageSize);
    var end := start + db.pageSize;
    if start >= U64_LIMIT || end >= U64_LIMIT then Failure(Corrupt)
    else if end > |db.data| then Failure(Corrupt)
    else Success(db.data[start..end])
  }

  /** A page and everything it overflows onto, cut at the end of the file. */
  function PageWithOverflow(db: Db, id: nat): Result<ByteString> {
    var first :- PageBytes(db, id);
    var h :- PageHeader.Parse(first);
    var start := Span(id, db.pageSize);
    var end := start + Span(1 + h.overflow, db.pageSize);
    Success(db.data[start..if end < |db.data| then end else |db.data|])
  }

  /** A meta page that parses and whose checksum holds, if page `i` is one. */
  function ValidMeta(db: Db, i: nat): Result<Meta> {
    var page :- PageBytes(db, i);
    var m :- Meta.Parse(page);
    if m.ChecksumOk(page) then Success(m) else Failure(Corrupt)
  }

  /** The newer of the valid metas among pages 0 and 1. */
  function BestMeta(db: Db): Result<Meta> {
    var a, b := ValidMeta(db, 0), ValidMeta(db, 1);
    if a.Success? && b.Success? then (if b.value.txid > a.value.txid then b else a)
    else if a.Success? then a
    else if b.Success? then b
    else Failure(Corrupt)
  }

  predicate PageSizeReadable(ps: nat) {
    512 <= ps <= MAX_PAGE_SIZE && IsPowerOfTwo(ps)
  }

  function FromBytes(data: ByteString): Result<Db> {
    if |data| < 64 then Failure(NotBolt)
    else
      var m0 :- Meta.Parse(data[..if |data| < 4096 then |data| else 4096]);
      if !PageSizeReadable(m0.pageSize) then Failure(Corrupt)
      else
        var m :- BestMeta(Db(data, m0.pageSize, 0));
        Success(Db(data, m0.pageSize, m.root))
  }

  /** Opens an image, trying both meta pages and keeping the one with the higher transaction. */
  method Open(data: ByteString) returns (r: Result<Db>)
    ensures r == FromBytes(data)
  {
    hide Span, Meta.Parse, Meta.ChecksumOk, IsPowerOfTwo, PageBytes;
    if |data| < 64 {
      return Failure(NotBolt);
    }
    var m0 := Meta.Parse(data[..if |data| < 4096 then |data| else 4096]);
    if m0.Failure? {
      return Failure(m0.error);
    }
    var ps := m0.value.pageSize;
    if ps < 512 || ps > MAX_PAGE_SIZE || !IsPowerOfTwo(ps) {
      return Failure(Corrupt);
    }
    var db := Db(data, ps, 0);
    var best: Result<Meta> := Failure(Corrupt);
    for i := 0 to 2
      invariant i == 0 ==> best == Failure(Corrupt)
      invariant i == 1 ==> best == if ValidMeta(db, 0).Success? then ValidMeta(db, 0) else Failure(Corrupt)
      invariant i == 2 ==> best == BestMeta(db)
    {
      var page := PageBytes(db, i);
      if page.Success? {
        var m := Meta.Parse(page.value);
        if m.Success? && m.value.ChecksumOk(page.value) {
          if best.Failure? || m.value.txid > best.value.txid {
            best := m;
          }
        }
      }
    }
    if best.Failure? {
      return Failure(Corrupt);
    }
    r := Success(Db(data, ps, best.value.root));
  }

  /** The entries under page `id`.  `depth` bounds the branch pages followed in a row; a file
      whose branches form a cycle exhausts the stack instead of ending. */
  function Walk(db: Db, id: nat, depth: nat): Result<seq<LeafEntry>>
    decreases depth, 1, 0
  {
    var page :- PageWithOverflow(db, id);
    WalkPage(db, page, depth)
  }

  function WalkPage(db: Db, page: ByteString, depth: nat): Result<seq<LeafEntry>>
    decreases depth, 0, 0
  {
    var h :- PageHeader.Parse(page);
    if HasBit(h.flags, FLAG_LEAF) then EntriesOf(page, h.count)
    else if HasBit(h.flags, FLAG_BRANCH) then
      if depth == 0 then Failure(Panic) else WalkBranch(db, page, h.count, depth - 1)
    else Failure(Corrupt)
  }

  /** The entries below the first `n` elements of a branch page. */
  function WalkBranch(db: Db, page: ByteString, n: nat, depth: nat): Result<seq<LeafEntry>>
    decreases depth, 2, n
  {
    if n == 0 then Success([])
    else
      var before :- WalkBranch(db, page, n - 1, depth);
      var eo := PAGE_HEADER + (n - 1) * BRANCH_ELEM;
      if eo > |page| then Failure(Panic)
      else
        var e :- BranchElem.Parse(page[eo..]);
        var below :- Walk(db, e.pgid, depth);
        Success(before + below)
  }

  lemma {:induction false} BranchFailureSticks(db: Db, page: ByteString, i: nat, n: nat, depth: nat)
    requires i <= n && WalkBranch(db, page, i, depth).Failure?
    ensures WalkBranch(db, page, n, depth) == WalkBranch(db, page, i, depth)
    decreases n
  {
    hide Walk, BranchElem.Parse;
    if i < n {
      BranchFailureSticks(db, page, i, n - 1, depth);
    }
  }

  method WalkTree(db: Db, id: nat, depth: nat) returns (r: Result<seq<LeafEntry>>)
    ensures r == Walk(db, id, depth)
    decreases depth, 1
  {
    var page := PageWithOverflow(db, id);
    if page.Failure? {
      return Failure(page.error);
    }
    r := WalkOne(db, page.value, depth);
  }

  /** Walks one page, following branch pages. */
  method WalkOne(db: Db, page: ByteString, depth: nat) returns (r: Result<seq<LeafEntry>>)
    ensures r == WalkPage(db, page, depth)
    decreases depth, 0
  {
    hide Walk, EntriesOf, BranchElem.Parse;
    var parsed := PageHeader.Parse(page);
    if parsed.Failure? {
      return Failure(parsed.error);
    }
    var h := parsed.value;
    if HasBit(h.flags, FLAG_LEAF) {
      r := WalkLeaf(page, h.count);
      return;
    }
    if !HasBit(h.flags, FLAG_BRANCH) {
      return Failure(Corrupt);
    }
    if depth == 0 {
      return Failure(Panic);
    }
    var out := [];
    for i := 0 to h.count
      invariant WalkBranch(db, page, i, depth - 1) == Success(out)
    {
      var eo := PAGE_HEADER + i * BRANCH_ELEM;
      if eo > |page| {
        assert WalkBranch(db, page, i + 1, depth - 1).Failure?;
        BranchFailureSticks(db, page, i + 1, h.count, depth - 1);
        return Failure(Panic);
      }
      var e := BranchElem.Parse(page[eo..]);
      if e.Failure? {
        assert WalkBranch(db, page, i + 1, depth - 1).Failure?;
        BranchFailureSticks(db, page, i + 1, h.count, depth - 1);
        return Failure(e.error);
      }
      var below := WalkTree(db, e.value.pgid, depth - 1);
      if below.Failure? {
        assert WalkBranch(db, page, i + 1, depth - 1).Failure?;
        BranchFailureSticks(db, page, i + 1, h.count, depth - 1);
        return below;
      }
      out := out + below.value;
    }
    r := Success(out);
  }

  /** `collect` into a map: later entries replace earlier ones under the same key. */
  function Collect(es: seq<LeafEntry>, n: nat): Entries<ByteString>
    requires n <= |es|
  {
    if n == 0 then [] else Insert(Collect(es, n - 1), es[n - 1].key, es[n - 1].val)
  }

  /** A bucket's keys, from the value the root stores for it. */
  function ReadBucket(db: Db, value: ByteString, depth: nat): Result<Entries<ByteString>> {
    var hdr :- BucketHeader.Parse(value);
    var es :- if hdr.IsInline() then WalkPage(db, value[BUCKET_HEADER..], depth)
              else Walk(db, hdr.root, depth);
    Success(Collect(es, |es|))
  }

  /** The buckets among the first `n` root entries; a bare key is skipped. */
  function BucketsOf(db: Db, es: seq<LeafEntry>, n: nat, depth: nat): Result<Buckets>
    requires n <= |es|
  {
    if n == 0 then Success([])
    else
      var before :- BucketsOf(db, es, n - 1, depth);
      var e := es[n - 1];
      if !HasBit(e.flags, BUCKET_LEAF_FLAG) then Success(before)
      else
        var keys :- ReadBucket(db, e.val, depth);
        Success(Insert(before, e.key, keys))
  }

  function ReadBuckets(db: Db, depth: nat): Result<Buckets> {
    var es :- Walk(db, db.root, depth);
    BucketsOf(db, es, |es|, depth)
  }

  lemma {:induction false} BucketFailureSticks(db: Db, es: seq<LeafEntry>, i: nat, n: nat, depth: nat)
    requires i <= n <= |es| && BucketsOf(db, es, i, depth).Failure?
    ensures BucketsOf(db, es, n, depth) == BucketsOf(db, es, i, depth)
    decreases n
  {
    hide ReadBucket, Insert;
    if i < n {
      BucketFailureSticks(db, es, i, n - 1, depth);
    }
  }

  method CollectAll(es: seq<LeafEntry>) returns (m: Entries<ByteString>)
    ensures m == Collect(es, |es|)
  {
    m := [];
    for i := 0 to |es|
      invariant m == Collect(es, i)
    {
      m := Insert(m, es[i].key, es[i].val);
    }
  }

  method ReadOne(db: Db, value: ByteString, depth: nat) returns (r: Result<Entries<ByteString>>)
    ensures r == ReadBucket(db, value, depth)
  {
    hide Walk, WalkPage;
    var hdr := BucketHeader.Parse(value);
    if hdr.Failure? {
      return Failure(hdr.error);
    }
    var es;
    if hdr.value.IsInline() {
      es := WalkOne(db, value[BUCKET_HEADER..], depth);
    } else {
      es := WalkTree(db, hdr.value.root, depth);
    }
    if es.Failure? {
      return Failure(es.error);
    }
    var m := CollectAll(es.value);
    r := Success(m);
  }

  /** The whole database as a map of maps: buckets among the root entries, bare keys skipped. */
  method ReadAll(db: Db, depth: nat) returns (r: Result<Buckets>)
    ensures r == ReadBuckets(db, depth)
  {
    hide Walk, ReadBucket, Insert;
    var entries := WalkTree(db, db.root, depth);
    if entries.Failure? {
      return Failure(entries.error);
    }
    var es := entries.value;
    var out: Buckets := [];
    for i := 0 to |es|
      invariant BucketsOf(db, es, i, depth) == Success(out)
    {
      if HasBit(es[i].flags, BUCKET_LEAF_FLAG) {
        var keys := ReadOne(db, es[i].val, depth);
        if keys.Failure? {
          assert BucketsOf(db, es, i + 1, depth).Failure?;
          BucketFailureSticks(db, es, i + 1, |es|, depth);
          return Failure(keys.error);
        }
        out := Insert(out, es[i].key, keys.value);
      }
    }
    r := Success(out);
  }
}
