/** Which files open, and at which root: the choice between the two meta pages. */
module BoltOpen {
  import opened Bytes
  import opened BoltPage
  import opened BoltLeaf
  import opened BoltImage
  import opened BoltRead

  /** Page `i` of the file lies inside it, parses as meta `m`, and its checksum holds. */
  predicate HasMeta(data: ByteString, ps: nat, i: nat, m: Meta)
    requires i < 2
  {
    |data| >= (i + 1) * ps
    && var page := data[i * ps..(i + 1) * ps];
       Meta.Parse(page) == Success(m) && m.ChecksumOk(page)
  }

  /** What the reader takes the page size from: the start of the file, whatever that size is. */
  function Head(data: ByteString): ByteString {
    if |data| <= 4096 then data else data[..4096]
  }

  ghost predicate SizeNamed(data: ByteString, ps: nat) {
    && Meta.Parse(Head(data)).Success? && ps == Meta.Parse(Head(data)).value.pageSize
    && 512 <= ps <= 1_048_576 && exists k :: ps == Pow2(k)
  }

  /** The halving test accepts the powers of two and nothing else. */
  lemma PowersOfTwo(n: nat)
    ensures IsPowerOfTwo(n) <==> exists k :: n == Pow2(k)
  {
    if IsPowerOfTwo(n) {
      var k := Exponent(n);
    }
    if exists k :: n == Pow2(k) {
      var k :| n == Pow2(k);
      PowerPasses(k);
    }
  }

  lemma {:induction false} Exponent(n: nat) returns (k: nat)
    requires IsPowerOfTwo(n)
    ensures n == Pow2(k)
  {
    k := 0;
    if n > 1 {
      var half := Exponent(n / 2);
      k := half + 1;
    }
  }

  lemma {:induction false} PowerPasses(k: nat)
    ensures IsPowerOfTwo(Pow2(k))
  {
    if k > 0 {
      PowerPasses(k - 1);
    }
  }

  lemma PagesZeroAndOne(ps: nat)
    ensures Span(0, ps) == 0 && Span(1, ps) == ps
  {
  }

  lemma ValidMetaIs(db: Db, i: nat, m: Meta)
    requires i < 2 && |db.data| <= ISIZE_MAX
    ensures ValidMeta(db, i) == Success(m) <==> HasMeta(db.data, db.pageSize, i, m)
  {
    hide Meta.Parse, Meta.ChecksumOk, Span;
    PagesZeroAndOne(db.pageSize);
  }

  lemma ValidMetaExists(db: Db, i: nat)
    requires i < 2 && |db.data| <= ISIZE_MAX
    ensures ValidMeta(db, i).Success? <==> exists m :: HasMeta(db.data, db.pageSize, i, m)
  {
    hide ValidMeta, HasMeta;
    if ValidMeta(db, i).Success? {
      ValidMetaIs(db, i, ValidMeta(db, i).value);
    }
    forall m | HasMeta(db.data, db.pageSize, i, m) ensures ValidMeta(db, i).Success? {
      ValidMetaIs(db, i, m);
    }
  }

  /** Meta `m` on page `i` is the newest valid one, the first of two that are equally new. */
  ghost predicate Newest(data: ByteString, ps: nat, i: nat, m: Meta) {
    && i < 2 && HasMeta(data, ps, i, m)
    && forall j, o :: 0 <= j < 2 && HasMeta(data, ps, j, o) ==> o.txid <= m.txid && (o.txid == m.txid ==> i <= j)
  }

  lemma BestIsNewest(db: Db) returns (i: nat)
    requires |db.data| <= ISIZE_MAX && BestMeta(db).Success?
    ensures Newest(db.data, db.pageSize, i, BestMeta(db).value)
  {
    hide ValidMeta, HasMeta;
    i := if BestMeta(db) == ValidMeta(db, 0) then 0 else 1;
    ValidMetaIs(db, i, BestMeta(db).value);
    forall j, o | 0 <= j < 2 && HasMeta(db.data, db.pageSize, j, o)
      ensures o.txid <= BestMeta(db).value.txid && (o.txid == BestMeta(db).value.txid ==> i <= j)
    {
      ValidMetaIs(db, j, o);
    }
  }

  lemma BestExists(db: Db)
    requires |db.data| <= ISIZE_MAX
    ensures BestMeta(db).Success? <==> exists i, m :: 0 <= i < 2 && HasMeta(db.data, db.pageSize, i, m)
  {
    hide ValidMeta, HasMeta;
    ValidMetaExists(db, 0);
    ValidMetaExists(db, 1);
  }

  /** A file that opens is read with the page size its head names, from the root of its newest
      valid meta. */
  lemma OpensAtNewest(data: ByteString) returns (i: nat, m: Meta)
    requires |data| <= ISIZE_MAX && FromBytes(data).Success?
    ensures var db := FromBytes(data).value;
            db.data == data && SizeNamed(data, db.pageSize) && Newest(data, db.pageSize, i, m) && db.root == m.root
  {
    hide Meta.Parse, Meta.ChecksumOk, IsPowerOfTwo, BestMeta, Newest;
    assert data[..if |data| < 4096 then |data| else 4096] == Head(data);
    var db := FromBytes(data).value;
    PowersOfTwo(db.pageSize);
    i := BestIsNewest(Db(data, db.pageSize, 0));
    m := BestMeta(Db(data, db.pageSize, 0)).value;
  }

  /** A file opens exactly when it has 64 bytes, its head names a readable page size, and one of its
      first two pages is a valid meta. */
  lemma OpensIff(data: ByteString)
    requires |data| <= ISIZE_MAX
    ensures FromBytes(data).Success? <==>
              |data| >= 64 && exists ps :: SizeNamed(data, ps) && exists i, m :: 0 <= i < 2 && HasMeta(data, ps, i, m)
    ensures |data| < 64 ==> FromBytes(data) == Failure(NotBolt)
  {
    hide Meta.Parse, Meta.ChecksumOk, IsPowerOfTwo, BestMeta, HasMeta;
    assert data[..if |data| < 4096 then |data| else 4096] == Head(data);
    if Meta.Parse(Head(data)).Success? {
      var ps := Meta.Parse(Head(data)).value.pageSize;
      PowersOfTwo(ps);
      BestExists(Db(data, ps, 0));
      if PageSizeReadable(ps) {
        assert SizeNamed(data, ps);
      }
      if SizeNamed(data, ps) {
        var k :| ps == Pow2(k);
        PowerPasses(k);
      }
    }
  }
}
