/** Page, meta, leaf-element and bucket-header layouts of a bbolt file. */
module BoltPage {
  import opened Bytes
  import opened Fnv

  const PAGE_HEADER: nat := 16
  const LEAF_ELEM: nat := 16
  const BRANCH_ELEM: nat := 16
  const BUCKET_HEADER: nat := 16
  const META_CHECKSUMMED: nat := 56
  const META_END: nat := 80

  const FLAG_BRANCH: nat := 0x01
  const FLAG_LEAF: nat := 0x02
  const FLAG_META: nat := 0x04
  const FLAG_FREELIST: nat := 0x10
  const BUCKET_LEAF_FLAG: nat := 0x01

  const MAGIC: nat := 0xED0C_DAED
  const VERSION: nat := 2

  /** `Panic` is a Rust panic: an out-of-range slice, an impossible allocation, a spent stack. */
  datatype Error = NotBolt | Corrupt | Unsupported | Panic

  datatype Result<T> = Success(value: T) | Failure(error: Error) {
    predicate IsFailure() { Failure? }
    function PropagateFailure<U>(): Result<U>
      requires Failure?
    {
      Failure(error)
    }
    function Extract(): T
      requires Success?
    {
      value
    }
  }

  /** The little-endian number in `w` bytes of `b` from offset `o`. */
  function NumAt(b: ByteString, o: nat, w: nat): nat
    requires o + w <= |b|
  {
    FromLE(b[o..o + w])
  }

  lemma NumAtOf(b: ByteString, o: nat, w: nat, n: nat)
    requires o + w <= |b| && b[o..o + w] == LE(n, w) && n < Pow256(w)
    ensures NumAt(b, o, w) == n
  {
    LERoundTrip(n, w);
  }

  predicate HasBit(flags: nat, bit: nat)
    requires bit > 0
  {
    flags / bit % 2 == 1
  }

  datatype PageHeader = PageHeader(id: nat, flags: nat, count: nat, overflow: nat) {
    predicate Fits() {
      id < U64_LIMIT && flags < U16_LIMIT && count < U16_LIMIT && overflow < U32_LIMIT
    }

    function Encode(): (b: ByteString)
      ensures |b| == PAGE_HEADER
    {
      LE(id, 8) + LE(flags, 2) + LE(count, 2) + LE(overflow, 4)
    }

    static function Parse(b: ByteString): Result<PageHeader> {
      if |b| < PAGE_HEADER then Failure(Corrupt)
      else Success(PageHeader(NumAt(b, 0, 8), NumAt(b, 8, 2), NumAt(b, 10, 2), NumAt(b, 12, 4)))
    }

    /** Writes the header into a fixed-size buffer at `off`. */
    method Write(b: array<Byte>, off: nat)
      requires off + PAGE_HEADER <= b.Length
      modifies b
      ensures b[..] == Splice(old(b[..]), off, Encode())
    {
      ghost var s := b[..];
      CopyInto(b, off, LE(id, 8));
      CopyInto(b, off + 8, LE(flags, 2));
      SpliceJoin(s, off, LE(id, 8), LE(flags, 2));
      CopyInto(b, off + 10, LE(count, 2));
      SpliceJoin(s, off, LE(id, 8) + LE(flags, 2), LE(count, 2));
      CopyInto(b, off + 12, LE(overflow, 4));
      SpliceJoin(s, off, LE(id, 8) + LE(flags, 2) + LE(count, 2), LE(overflow, 4));
    }
  }

  /** A header is read back from any buffer that starts with its encoding. */
  lemma PageHeaderRoundTrip(h: PageHeader, b: ByteString)
    requires h.Fits() && PAGE_HEADER <= |b| && b[..PAGE_HEADER] == h.Encode()
    ensures PageHeader.Parse(b) == Success(h)
  {
    Widths();
    var e := h.Encode();
    assert b[0..8] == e[0..8] == LE(h.id, 8);
    assert b[8..10] == e[8..10] == LE(h.flags, 2);
    assert b[10..12] == e[10..12] == LE(h.count, 2);
    assert b[12..16] == e[12..16] == LE(h.overflow, 4);
    NumAtOf(b, 0, 8, h.id);
    NumAtOf(b, 8, 2, h.flags);
    NumAtOf(b, 10, 2, h.count);
    NumAtOf(b, 12, 4, h.overflow);
  }

  datatype LeafElem = LeafElem(flags: nat, pos: nat, ksize: nat, vsize: nat) {
    predicate Fits() {
      flags < U32_LIMIT && pos < U32_LIMIT && ksize < U32_LIMIT && vsize < U32_LIMIT
    }

    function Encode(): (b: ByteString)
      ensures |b| == LEAF_ELEM
    {
      LE(flags, 4) + LE(pos, 4) + LE(ksize, 4) + LE(vsize, 4)
    }

    static function Parse(b: ByteString): Result<LeafElem> {
      if |b| < LEAF_ELEM then Failure(Corrupt)
      else Success(LeafElem(NumAt(b, 0, 4), NumAt(b, 4, 4), NumAt(b, 8, 4), NumAt(b, 12, 4)))
    }
  }

  lemma LeafElemRoundTrip(e: LeafElem, b: ByteString)
    requires e.Fits() && LEAF_ELEM <= |b| && b[..LEAF_ELEM] == e.Encode()
    ensures LeafElem.Parse(b) == Success(e)
  {
    Widths();
    var c := e.Encode();
    assert b[0..4] == c[0..4] == LE(e.flags, 4);
    assert b[4..8] == c[4..8] == LE(e.pos, 4);
    assert b[8..12] == c[8..12] == LE(e.ksize, 4);
    assert b[12..16] == c[12..16] == LE(e.vsize, 4);
    NumAtOf(b, 0, 4, e.flags);
    NumAtOf(b, 4, 4, e.pos);
    NumAtOf(b, 8, 4, e.ksize);
    NumAtOf(b, 12, 4, e.vsize);
  }

  /** One entry of a branch page, which only the reader meets. */
  datatype BranchElem = BranchElem(pos: nat, ksize: nat, pgid: nat) {
    predicate Fits() {
      pos < U32_LIMIT && ksize < U32_LIMIT && pgid < U64_LIMIT
    }

    /** How bbolt lays the entry out. */
    function Encode(): (b: ByteString)
      ensures |b| == BRANCH_ELEM
    {
      LE(pos, 4) + LE(ksize, 4) + LE(pgid, 8)
    }

    static function Parse(b: ByteString): Result<BranchElem> {
      if |b| < BRANCH_ELEM then Failure(Corrupt)
      else Success(BranchElem(NumAt(b, 0, 4), NumAt(b, 4, 4), NumAt(b, 8, 8)))
    }
  }

  lemma BranchElemRoundTrip(e: BranchElem, b: ByteString)
    requires e.Fits() && BRANCH_ELEM <= |b| && b[..BRANCH_ELEM] == e.Encode()
    ensures BranchElem.Parse(b) == Success(e)
  {
    Widths();
    var c := e.Encode();
    assert b[0..4] == c[0..4] == LE(e.pos, 4);
    assert b[4..8] == c[4..8] == LE(e.ksize, 4);
    assert b[8..16] == c[8..16] == LE(e.pgid, 8);
    NumAtOf(b, 0, 4, e.pos);
    NumAtOf(b, 4, 4, e.ksize);
    NumAtOf(b, 8, 8, e.pgid);
  }

  datatype BucketHeader = BucketHeader(root: nat, sequence: nat) {
    predicate Fits() {
      root < U64_LIMIT && sequence < U64_LIMIT
    }

    function Encode(): (b: ByteString)
      ensures |b| == BUCKET_HEADER
    {
      LE(root, 8) + LE(sequence, 8)
    }

    static function Parse(b: ByteString): Result<BucketHeader> {
      if |b| < BUCKET_HEADER then Failure(Corrupt)
      else Success(BucketHeader(NumAt(b, 0, 8), NumAt(b, 8, 8)))
    }

    predicate IsInline() {
      root == 0
    }
  }

  lemma BucketHeaderRoundTrip(h: BucketHeader, b: ByteString)
    requires h.Fits() && BUCKET_HEADER <= |b| && b[..BUCKET_HEADER] == h.Encode()
    ensures BucketHeader.Parse(b) == Success(h)
  {
    Widths();
    var e := h.Encode();
    assert b[0..8] == e[0..8] == LE(h.root, 8);
    assert b[8..16] == e[8..16] == LE(h.sequence, 8);
    NumAtOf(b, 0, 8, h.root);
    NumAtOf(b, 8, 8, h.sequence);
  }

  datatype Meta = Meta(magic: nat, version: nat, pageSize: nat, flags: nat, root: nat,
                       rootSequence: nat, freelist: nat, pgid: nat, txid: nat, checksum: nat) {
    predicate Fits() {
      && magic < U32_LIMIT && version < U32_LIMIT && pageSize < U32_LIMIT && flags < U32_LIMIT
      && root < U64_LIMIT && rootSequence < U64_LIMIT && freelist < U64_LIMIT
      && pgid < U64_LIMIT && txid < U64_LIMIT
    }

    /** The four 32-bit fields. */
    function Words(): (b: ByteString)
      ensures |b| == 16
    {
      LE(magic, 4) + LE(version, 4) + LE(pageSize, 4) + LE(flags, 4)
    }

    /** The five 64-bit fields. */
    function Longs(): (b: ByteString)
      ensures |b| == 40
    {
      LE(root, 8) + LE(rootSequence, 8) + LE(freelist, 8) + LE(pgid, 8) + LE(txid, 8)
    }

    /** The bytes the checksum covers. */
    function Body(): (b: ByteString)
      ensures |b| == META_CHECKSUMMED
    {
      Words() + Longs()
    }

    /** Everything `write` puts at the start of meta page `id`. */
    function Encode(id: nat): (b: ByteString)
      ensures |b| == META_END
    {
      PageHeader(id, FLAG_META, 0, 0).Encode() + Body() + LE(Hash(Body()), 8)
    }

    static function Parse(page: ByteString): Result<Meta> {
      if |page| < META_END then Failure(Corrupt)
      else
        var m := Fields(page);
        if m.magic != MAGIC then Failure(NotBolt)
        else if m.version != VERSION then Failure(Unsupported)
        else Success(m)
    }

    /** The fields that follow the page header. */
    static function Fields(page: ByteString): Meta
      requires META_END <= |page|
    {
      Meta(NumAt(page, 16, 4), NumAt(page, 20, 4), NumAt(page, 24, 4), NumAt(page, 28, 4),
           NumAt(page, 32, 8), NumAt(page, 40, 8), NumAt(page, 48, 8), NumAt(page, 56, 8),
           NumAt(page, 64, 8), NumAt(page, 72, 8))
    }

    predicate ChecksumOk(page: ByteString) {
      PAGE_HEADER + META_CHECKSUMMED <= |page|
      && Hash(page[PAGE_HEADER..PAGE_HEADER + META_CHECKSUMMED]) == checksum
    }

    /** Writes the meta page, its header and its checksum into a page-sized buffer. */
    method Write(page: array<Byte>, id: nat)
      requires META_END <= page.Length
      modifies page
      ensures page[..] == Splice(old(page[..]), 0, Encode(id))
    {
      ghost var s := page[..];
      var h := PageHeader(id, FLAG_META, 0, 0);
      h.Write(page, 0);
      WriteWords(page);
      SpliceJoin(s, 0, h.Encode(), Words());
      WriteLongs(page);
      SpliceJoin(s, 0, h.Encode() + Words(), Longs());
      assert h.Encode() + Words() + Longs() == h.Encode() + Body();
      assert page[PAGE_HEADER..PAGE_HEADER + META_CHECKSUMMED] == Body();
      var sum := Fnv1a64(page[PAGE_HEADER..PAGE_HEADER + META_CHECKSUMMED]);
      CopyInto(page, PAGE_HEADER + META_CHECKSUMMED, LE(sum, 8));
      SpliceJoin(s, 0, h.Encode() + Body(), LE(sum, 8));
    }

    method WriteWords(page: array<Byte>)
      requires META_END <= page.Length
      modifies page
      ensures page[..] == Splice(old(page[..]), 16, Words())
    {
      ghost var s := page[..];
      CopyInto(page, 16, LE(magic, 4));
      CopyInto(page, 20, LE(version, 4));
      SpliceJoin(s, 16, LE(magic, 4), LE(version, 4));
      CopyInto(page, 24, LE(pageSize, 4));
      SpliceJoin(s, 16, LE(magic, 4) + LE(version, 4), LE(pageSize, 4));
      CopyInto(page, 28, LE(flags, 4));
      SpliceJoin(s, 16, LE(magic, 4) + LE(version, 4) + LE(pageSize, 4), LE(flags, 4));
    }

    method WriteLongs(page: array<Byte>)
      requires META_END <= page.Length
      modifies page
      ensures page[..] == Splice(old(page[..]), 32, Longs())
    {
      ghost var s := page[..];
      CopyInto(page, 32, LE(root, 8));
      CopyInto(page, 40, LE(rootSequence, 8));
      SpliceJoin(s, 32, LE(root, 8), LE(rootSequence, 8));
      CopyInto(page, 48, LE(freelist, 8));
      SpliceJoin(s, 32, LE(root, 8) + LE(rootSequence, 8), LE(freelist, 8));
      CopyInto(page, 56, LE(pgid, 8));
      SpliceJoin(s, 32, LE(root, 8) + LE(rootSequence, 8) + LE(freelist, 8), LE(pgid, 8));
      CopyInto(page, 64, LE(txid, 8));
      SpliceJoin(s, 32, LE(root, 8) + LE(rootSequence, 8) + LE(freelist, 8) + LE(pgid, 8), LE(txid, 8));
    }
  }

  lemma MetaSlices(m: Meta, id: nat, tail: ByteString)
    ensures var page := m.Encode(id) + tail;
            && page[16..32] == m.Words() && page[32..72] == m.Longs()
            && page[16..72] == m.Body() && page[72..80] == LE(Hash(m.Body()), 8)
  {
    hide PageHeader.Encode, Meta.Words, Meta.Longs, LE, Hash;
    var head := PageHeader(id, FLAG_META, 0, 0).Encode();
    assert m.Encode(id) + tail == head + m.Words() + m.Longs() + LE(Hash(m.Body()), 8) + tail;
  }

  lemma SubSlice(page: ByteString, lo: nat, hi: nat, part: ByteString, o: nat, w: nat)
    requires lo <= hi <= |page| && page[lo..hi] == part && o + w <= |part|
    ensures page[lo + o..lo + o + w] == part[o..o + w]
  {
    var a, c := page[lo + o..lo + o + w], part[o..o + w];
    forall i | 0 <= i < w ensures a[i] == c[i] {
      assert c[i] == page[lo..hi][o + i] == page[lo + o + i];
    }
  }

  lemma WordFields(m: Meta, page: ByteString)
    requires m.Fits() && META_END <= |page| && page[16..32] == m.Words()
    ensures (NumAt(page, 16, 4), NumAt(page, 20, 4), NumAt(page, 24, 4), NumAt(page, 28, 4))
            == (m.magic, m.version, m.pageSize, m.flags)
  {
    Widths();
    var w := m.Words();
    SubSlice(page, 16, 32, w, 0, 4);
    SubSlice(page, 16, 32, w, 4, 4);
    SubSlice(page, 16, 32, w, 8, 4);
    SubSlice(page, 16, 32, w, 12, 4);
    NumAtOf(page, 16, 4, m.magic);
    NumAtOf(page, 20, 4, m.version);
    NumAtOf(page, 24, 4, m.pageSize);
    NumAtOf(page, 28, 4, m.flags);
  }

  lemma LongFields(m: Meta, page: ByteString)
    requires m.Fits() && META_END <= |page| && page[32..72] == m.Longs()
    ensures (NumAt(page, 32, 8), NumAt(page, 40, 8), NumAt(page, 48, 8), NumAt(page, 56, 8), NumAt(page, 64, 8))
            == (m.root, m.rootSequence, m.freelist, m.pgid, m.txid)
  {
    Widths();
    var l := m.Longs();
    SubSlice(page, 32, 72, l, 0, 8);
    SubSlice(page, 32, 72, l, 8, 8);
    SubSlice(page, 32, 72, l, 16, 8);
    SubSlice(page, 32, 72, l, 24, 8);
    SubSlice(page, 32, 72, l, 32, 8);
    NumAtOf(page, 32, 8, m.root);
    NumAtOf(page, 40, 8, m.rootSequence);
    NumAtOf(page, 48, 8, m.freelist);
    NumAtOf(page, 56, 8, m.pgid);
    NumAtOf(page, 64, 8, m.txid);
  }

  /** A written meta page parses to what was written and its checksum verifies. */
  lemma MetaRoundTrip(m: Meta, id: nat, tail: ByteString)
    requires m.Fits() && m.magic == MAGIC && m.version == VERSION
    ensures var page := m.Encode(id) + tail; var back := m.(checksum := Hash(m.Body()));
            Meta.Parse(page) == Success(back) && back.ChecksumOk(page)
  {
    hide Meta.Encode, Meta.Body, Meta.Words, Meta.Longs, Hash, NumAt, LE;
    var page := m.Encode(id) + tail;
    MetaSlices(m, id, tail);
    WordFields(m, page);
    LongFields(m, page);
    Widths();
    NumAtOf(page, 72, 8, Hash(m.Body()));
  }

  /** A meta page with any one of its 64 bytes changed no longer verifies. */
  lemma MetaTamperDetected(m: Meta, id: nat, tail: ByteString, i: nat, b: Byte)
    requires PAGE_HEADER <= i < META_END
    ensures var page := m.Encode(id) + tail;
            page[i] != b ==> !Meta.Fields(page[i := b]).ChecksumOk(page[i := b])
  {
    hide PageHeader.Encode, Meta.Body, Hash, NumAt, LE;
    var page := m.Encode(id) + tail;
    if page[i] != b {
      var head := PageHeader(id, FLAG_META, 0, 0).Encode();
      assert page == head + m.Body() + LE(Hash(m.Body()), 8) + tail;
      if i < 72 {
        BodyTamper(head, m.Body(), tail, i, b);
      } else {
        SumTamper(head, m.Body(), tail, i, b);
      }
    }
  }

  lemma BodyTamper(head: ByteString, body: ByteString, tail: ByteString, i: nat, b: Byte)
    requires |head| == 16 && |body| == 56 && 16 <= i < 72
    ensures var page := head + body + LE(Hash(body), 8) + tail;
            page[i] != b ==> Hash(page[i := b][16..72]) != NumAt(page[i := b], 72, 8)
  {
    hide Hash, NumAt, LE;
    var page := head + body + LE(Hash(body), 8) + tail;
    if page[i] != b {
      var bad := page[i := b];
      assert bad[16..72] == body[i - 16 := b];
      OneByteChangesHash(body, i - 16, b);
      assert bad[72..80] == LE(Hash(body), 8);
      Widths();
      NumAtOf(bad, 72, 8, Hash(body));
    }
  }

  lemma SumTamper(head: ByteString, body: ByteString, tail: ByteString, i: nat, b: Byte)
    requires |head| == 16 && |body| == 56 && 72 <= i < 80
    ensures var page := head + body + LE(Hash(body), 8) + tail;
            page[i] != b ==> Hash(page[i := b][16..72]) != NumAt(page[i := b], 72, 8)
  {
    hide Hash, LE;
    var sum := LE(Hash(body), 8);
    var page := head + body + sum + tail;
    if page[i] != b {
      var bad := page[i := b];
      assert bad[16..72] == body;
      Widths();
      assert page[72..80] == sum;
      NumAtOf(page, 72, 8, Hash(body));
      assert page[72..80][i - 72] != bad[72..80][i - 72];
      if FromLE(page[72..80]) == FromLE(bad[72..80]) {
        FromLEInjective(page[72..80], bad[72..80]);
      }
    }
  }

  lemma {:induction false} FromLEInjective(a: ByteString, b: ByteString)
    requires |a| == |b| && FromLE(a) == FromLE(b)
    ensures a == b
  {
    if a != [] {
      FromLEInjective(a[1..], b[1..]);
      assert a == [a[0]] + a[1..] && b == [b[0]] + b[1..];
    }
  }

  // ---- where each field lies

  /** A page header is id, flags, count and overflow; a leaf element flags, position, key size and
      value size; a branch element position, key size and page; a bucket header root and sequence. */
  lemma Layouts(h: PageHeader, l: LeafElem, e: BranchElem, b: BucketHeader)
    ensures h.Encode()[..8] == LE(h.id, 8) && h.Encode()[8..10] == LE(h.flags, 2)
            && h.Encode()[10..12] == LE(h.count, 2) && h.Encode()[12..] == LE(h.overflow, 4)
    ensures l.Encode()[..4] == LE(l.flags, 4) && l.Encode()[4..8] == LE(l.pos, 4)
            && l.Encode()[8..12] == LE(l.ksize, 4) && l.Encode()[12..] == LE(l.vsize, 4)
    ensures e.Encode()[..4] == LE(e.pos, 4) && e.Encode()[4..8] == LE(e.ksize, 4) && e.Encode()[8..] == LE(e.pgid, 8)
    ensures b.Encode()[..8] == LE(b.root, 8) && b.Encode()[8..] == LE(b.sequence, 8)
  {
    hide LE;
  }

  /** A meta page is its page header, its fields in order from byte 16, and at byte 72 the hash of the
      bytes from 16 up to there. */
  lemma MetaLayout(m: Meta, id: nat)
    ensures var p := m.Encode(id);
            && p[..16] == PageHeader(id, 0x04, 0, 0).Encode()
            && p[16..20] == LE(m.magic, 4) && p[20..24] == LE(m.version, 4)
            && p[24..28] == LE(m.pageSize, 4) && p[28..32] == LE(m.flags, 4)
            && p[32..40] == LE(m.root, 8) && p[40..48] == LE(m.rootSequence, 8)
            && p[48..56] == LE(m.freelist, 8) && p[56..64] == LE(m.pgid, 8) && p[64..72] == LE(m.txid, 8)
            && p[72..80] == LE(Hash(p[16..72]), 8)
  {
    hide LE, Hash, PageHeader.Encode;
    var p, w, l := m.Encode(id), m.Words(), m.Longs();
    assert p[16..32] == w && p[32..72] == l && p[16..72] == m.Body();
    SubSlice(p, 16, 32, w, 0, 4);
    SubSlice(p, 16, 32, w, 4, 4);
    SubSlice(p, 16, 32, w, 8, 4);
    SubSlice(p, 16, 32, w, 12, 4);
    SubSlice(p, 32, 72, l, 0, 8);
    SubSlice(p, 32, 72, l, 8, 8);
    SubSlice(p, 32, 72, l, 16, 8);
    SubSlice(p, 32, 72, l, 24, 8);
    SubSlice(p, 32, 72, l, 32, 8);
  }
}
