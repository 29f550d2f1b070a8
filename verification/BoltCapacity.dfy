/** How much always fits: databases of modest size build, and so round-trip outright. */
module BoltCapacity {
  import opened Bytes
  import opened BoltPage
  import opened BoltLeaf
  import opened BoltImage
  import opened BoltWrite
  import opened BoltRead
  import opened BoltRoundTrip

  const MAX_VOLUME: nat := 0x8000_0000

  /** A page size at which that much still fits the largest allocation. */
  const MAX_BUILDABLE: nat := 0x2000_0000

  /** The bytes that the first `n` buckets take: name, header and encoded body. */
  function Volume(b: Buckets, n: nat): nat
    requires n <= |b|
  {
    if n == 0 then 0 else Volume(b, n - 1) + |b[n - 1].0| + BUCKET_HEADER + |Body(b[n - 1].1, 0)|
  }

  /** Few enough buckets and keys to count in 16 bits, and at most 2 GiB in all. */
  predicate Modest(b: Buckets) {
    |b| < U16_LIMIT && Volume(b, |b|) <= MAX_VOLUME && forall i :: 0 <= i < |b| ==> |b[i].1| < U16_LIMIT
  }

  lemma {:induction false} VolumeCovers(b: Buckets, n: nat, i: nat)
    requires i < n <= |b|
    ensures |Body(b[i].1, 0)| <= Volume(b, n)
  {
    hide Body;
    if i < n - 1 {
      VolumeCovers(b, n - 1, i);
    }
  }

  lemma {:induction false} PagesAtMost(len: nat, ps: nat)
    requires len > 0 && ps > 0
    ensures PagesFor(len, ps) <= len
  {
    if len > ps {
      PagesAtMost(len - ps, ps);
    }
  }

  lemma SmallPageFits(d: Pairs, ps: nat)
    requires ps > 0 && |d| < U16_LIMIT && |Payload(d)| <= MAX_VOLUME
    ensures PageFits(d, ps)
  {
    hide Payload;
    forall i | 0 <= i < |d| ensures ElemOf(d, i, 0).Fits() {
      PayloadAt(d, i);
    }
    PagesAtMost(PAGE_HEADER + LEAF_ELEM * |d| + |Payload(d)|, ps);
  }

  /** The root's share of a bucket is no larger than the bucket. */
  lemma {:induction false} SizingVolume(b: Buckets, ps: nat, n: nat)
    requires n <= |b|
    ensures |Payload(Sizing(b, ps)[..n])| <= Volume(b, n)
  {
    hide Body, Payload, Inlined;
    var s := Sizing(b, ps);
    if n > 0 {
      SizingVolume(b, ps, n - 1);
      PayloadStep(s, n - 1);
    } else {
      NoPayload(s);
    }
  }

  lemma NoPayload(d: Pairs)
    ensures Payload(d[..0]) == []
  {
  }

  lemma {:induction false} PagesVolume(b: Buckets, ps: nat, n: nat)
    requires ps > 0 && n <= |b|
    ensures PagesBefore(b, ps, n) <= Volume(b, n)
  {
    hide OwnPages, Body;
    if n > 0 {
      PagesVolume(b, ps, n - 1);
      OwnPagesAtMost(b[n - 1].1, ps);
    }
  }

  lemma OwnPagesAtMost(d: Pairs, ps: nat)
    requires ps > 0
    ensures OwnPages(d, ps) <= |Body(d, 0)|
  {
    hide PagesFor, Inlined;
    PagesAtMost(|Body(d, 0)|, ps);
  }

  lemma ModestEncodable(b: Buckets, ps: nat)
    requires ps > 0 && Modest(b)
    ensures Encodable(b, ps)
  {
    hide Fits, Payload, Inlined, Sizing;
    forall i | 0 <= i < |b| ensures BucketEncodable(b[i].1, ps) {
      VolumeCovers(b, |b|, i);
      SmallPageFits(b[i].1, ps);
    }
    SizingVolume(b, ps, |b|);
    var s := Sizing(b, ps);
    assert |s| == |b| && s[..|b|] == s;
    SmallPageFits(s, ps);
  }

  lemma ModestTotal(b: Buckets, ps: nat)
    requires 0 < ps <= MAX_BUILDABLE && Modest(b)
    ensures TotalPages(b, ps) * ps <= ISIZE_MAX
  {
    hide Payload, Inlined, Sizing, PagesBefore;
    var s := Sizing(b, ps);
    SizingVolume(b, ps, |b|);
    assert |s| == |b| && s[..|b|] == s;
    PagesAtMost(|Body(s, BUCKET_LEAF_FLAG)|, ps);
    PagesVolume(b, ps, |b|);
    assert TotalPages(b, ps) <= 4 * MAX_VOLUME;
    Scale(TotalPages(b, ps), 4 * MAX_VOLUME, ps, MAX_BUILDABLE);
  }

  lemma Scale(a: nat, c: nat, m: nat, n: nat)
    requires a <= c && m <= n
    ensures a * m <= c * n
  {
    assert a * m <= c * m <= c * n;
  }

  /** Every modest map builds at every page size the reader accepts, and is read back exactly. */
  lemma ModestRoundTrip(b: Buckets, ps: nat, depth: nat)
    requires WellFormed(b) && Modest(b) && PageSizeReadable(ps)
    ensures BuildResult(b, ps).Success?
    ensures var db := FromBytes(BuildResult(b, ps).value);
            db.Success? && ReadBuckets(db.value, depth) == Success(b)
  {
    hide Modest, Encodable, TotalPages, Image, FromBytes, ReadBuckets, IsPowerOfTwo, WellFormed;
    ModestEncodable(b, ps);
    ModestTotal(b, ps);
    RoundTrip(b, ps, depth);
  }

  /** Beyond the page size the reader accepts the same maps still build, and none of them opens. */
  lemma TooLargeToOpen(b: Buckets, ps: nat)
    requires WellFormed(b) && Modest(b) && IsPowerOfTwo(ps) && MAX_PAGE_SIZE < ps <= MAX_BUILDABLE
    ensures BuildResult(b, ps).Success? && FromBytes(BuildResult(b, ps).value).Failure?
  {
    hide Modest, Encodable, TotalPages, Image, FromBytes, ReadBuckets, IsPowerOfTwo, WellFormed;
    ModestEncodable(b, ps);
    ModestTotal(b, ps);
    RoundTrip(b, ps, 0);
  }
}
