/** The login sessions of `auth.rs`, persisted through the bbolt codec. */
module Sessions {
  import opened Bytes
  import opened BoltPage
  import opened BoltLeaf
  import opened BoltImage
  import opened BoltWrite
  import opened BoltRead
  import opened BoltRoundTrip
  import opened BoltCapacity
  import opened OrderedMap

  /** A user's name as bytes, and the expiry in nanoseconds from the Unix epoch. */
  datatype Session = Session(user: ByteString, expires: int)

  datatype Option<T> = None | Some(value: T)

  const SECOND: nat := 1_000_000_000
  const PAGE_SIZE: nat := 4096
  const MAX_NAME: nat := 65535

  /** The bucket's name, `sessions-2`. */
  const BUCKET: ByteString := [115, 101, 115, 115, 105, 111, 110, 115, 45, 50]

  // ---- records

  /** Whole seconds from the epoch, saturating at both ends of 32 bits. */
  function ExpirySeconds(expires: int): (s: nat)
    ensures s < U32_LIMIT
  {
    if expires < 0 then 0
    else if expires / SECOND < U32_LIMIT then expires / SECOND
    else U32_LIMIT - 1
  }

  function Encode(s: Session): ByteString {
    BE(ExpirySeconds(s.expires), 4) + BE(if |s.user| < MAX_NAME then |s.user| else MAX_NAME, 2) + s.user
  }

  /** `lossy` is `String::from_utf8_lossy`, the identity on valid UTF-8. */
  function Decode(data: ByteString, lossy: ByteString -> ByteString): Option<Session> {
    if |data| < 6 then None
    else
      var expire, len := FromBE(data[..4]), FromBE(data[4..6]);
      if 6 + len > |data| then None
      else Some(Session(lossy(data[6..6 + len]), expire * SECOND))
  }

  /** What survives storage: the name, and the expiry cut to whole seconds. */
  function Stored(s: Session): Session {
    Session(s.user, ExpirySeconds(s.expires) * SECOND)
  }

  lemma RecordRoundTrip(s: Session, lossy: ByteString -> ByteString)
    requires |s.user| <= MAX_NAME && lossy(s.user) == s.user
    ensures Decode(Encode(s), lossy) == Some(Stored(s))
  {
    hide BE, FromBE;
    Widths();
    var secs, data := ExpirySeconds(s.expires), Encode(s);
    assert data[..4] == BE(secs, 4);
    assert data[4..6] == BE(|s.user|, 2);
    BERoundTrip(secs, 4);
    BERoundTrip(|s.user|, 2);
    assert data[6..6 + |s.user|] == s.user;
  }

  /** An expiry is stored in whole seconds: rounded down inside 32 bits, and at the nearer end outside. */
  lemma StoredIsCut(s: Session)
    ensures var t := Stored(s).expires;
            && t % SECOND == 0
            && (0 <= s.expires < U32_LIMIT * SECOND ==> t <= s.expires < t + SECOND)
            && (s.expires < 0 ==> t == 0)
            && (s.expires >= U32_LIMIT * SECOND ==> t == (U32_LIMIT - 1) * SECOND)
    ensures Stored(s).user == s.user
  {
    var e := s.expires;
    assert e >= 0 ==> e == e / SECOND * SECOND + e % SECOND;
  }

  /** A record is four bytes of seconds and two of length, high bytes first, and then the name. */
  lemma RecordBytes(s: Session)
    requires |s.user| <= MAX_NAME
    ensures var data, secs := Encode(s), Stored(s).expires / SECOND;
            && |data| == 6 + |s.user| && data[6..] == s.user
            && data[0] == secs / 0x100_0000 && data[1] == secs / 0x1_0000 % 0x100
            && data[2] == secs / 0x100 % 0x100 && data[3] == secs % 0x100
            && data[4] == |s.user| / 0x100 && data[5] == |s.user| % 0x100
  {
    var secs := ExpirySeconds(s.expires);
    FourBytes(secs);
    TwoBytes(|s.user|);
    assert Encode(s)[..4] == BE(secs, 4) && Encode(s)[4..6] == BE(|s.user|, 2);
  }

  lemma FourBytes(n: nat)
    requires n < U32_LIMIT
    ensures BE(n, 4) == [n / 0x100_0000, n / 0x1_0000 % 0x100, n / 0x100 % 0x100, n % 0x100]
  {
    assert n / 256 / 256 == n / 0x1_0000 && n / 256 / 256 / 256 == n / 0x100_0000;
    assert BE(n / 0x100_0000, 1) == [n / 0x100_0000];
    assert BE(n / 0x1_0000, 2) == BE(n / 0x100_0000, 1) + [n / 0x1_0000 % 256];
    assert BE(n / 256, 3) == BE(n / 0x1_0000, 2) + [n / 256 % 256];
  }

  lemma TwoBytes(n: nat)
    requires n < U16_LIMIT
    ensures BE(n, 2) == [n / 0x100, n % 0x100]
  {
    assert BE(n / 256, 1) == [n / 256];
  }

  // ---- tokens

  function HexDigit(n: nat): Byte
    requires n < 16
  {
    if n < 10 then 48 + n else 87 + n
  }

  function DigitValue(c: Byte): Option<nat> {
    if 48 <= c <= 57 then Some(c - 48)
    else if 97 <= c <= 102 then Some(c - 87)
    else if 65 <= c <= 70 then Some(c - 55)
    else None
  }

  /** `u8::from_str_radix(.., 16)` on two characters, which lets the first be a plus sign. */
  function PairValue(a: Byte, b: Byte): (r: Option<Byte>) {
    var hi, lo := DigitValue(a), DigitValue(b);
    if lo.None? then None
    else if a == 43 then Some(lo.value)
    else if hi.None? then None
    else Some(16 * hi.value + lo.value)
  }

  /** The raw bytes a hex token stands for. */
  function TokenBytes(t: ByteString): Option<ByteString> {
    if |t| == 0 then Some([])
    else if |t| == 1 then None
    else
      var first, rest := PairValue(t[0], t[1]), TokenBytes(t[2..]);
      if first.None? || rest.None? then None else Some([first.value] + rest.value)
  }

  function Hex(b: ByteString): ByteString {
    if b == [] then [] else [HexDigit(b[0] / 16), HexDigit(b[0] % 16)] + Hex(b[1..])
  }

  predicate LowerHexDigit(c: Byte) {
    48 <= c <= 57 || 97 <= c <= 102
  }

  /** The form `new_token` produces: pairs of lower-case hex digits. */
  predicate Canonical(t: ByteString) {
    |t| % 2 == 0 && forall i :: 0 <= i < |t| ==> LowerHexDigit(t[i])
  }

  /** A token is what reading its bytes back prints, exactly when it is lower-case hex. */
  lemma {:induction false} TokenRoundTrip(t: ByteString)
    ensures Canonical(t) <==> TokenBytes(t).Some? && Hex(TokenBytes(t).value) == t
  {
    hide PairValue, LowerHexDigit, HexDigit;
    if |t| >= 2 {
      TokenRoundTrip(t[2..]);
      PairRoundTrip(t[0], t[1]);
      CanonicalStep(t);
      var first, rest := PairValue(t[0], t[1]), TokenBytes(t[2..]);
      if first.Some? && rest.Some? {
        HexStep(first.value, rest.value, t);
      }
    } else if |t| == 1 {
      assert !Canonical(t);
    }
  }

  predicate HexDigitOf(c: Byte) {
    48 <= c <= 57 || 97 <= c <= 102 || 65 <= c <= 70
  }

  /** A token parses exactly when it is pairs of hex digits in either case, the first of a pair perhaps
      a plus sign. */
  lemma {:induction false} TokenParsesIff(t: ByteString)
    ensures TokenBytes(t).Some? <==>
              |t| % 2 == 0 && forall i :: 0 <= i < |t| ==> HexDigitOf(t[i]) || (i % 2 == 0 && t[i] == 43)
  {
    hide PairValue, HexDigitOf;
    if |t| >= 2 {
      var rest := t[2..];
      TokenParsesIff(rest);
      PairParsesIff(t[0], t[1]);
      assert forall i :: 2 <= i < |t| ==> t[i] == rest[i - 2];
      assert forall i :: 0 <= i < |rest| ==> rest[i] == t[i + 2];
    }
  }

  lemma PairParsesIff(a: Byte, b: Byte)
    ensures PairValue(a, b).Some? <==> (HexDigitOf(a) || a == 43) && HexDigitOf(b)
  {
  }

  lemma CanonicalStep(t: ByteString)
    requires |t| >= 2
    ensures Canonical(t) <==> LowerHexDigit(t[0]) && LowerHexDigit(t[1]) && Canonical(t[2..])
  {
    hide LowerHexDigit;
    assert forall i :: 2 <= i < |t| ==> t[i] == t[2..][i - 2];
    assert t == [t[0], t[1]] + t[2..];
  }

  lemma HexStep(v: Byte, rest: ByteString, t: ByteString)
    requires |t| >= 2
    ensures Hex([v] + rest) == t <==> HexDigit(v / 16) == t[0] && HexDigit(v % 16) == t[1] && Hex(rest) == t[2..]
  {
    hide HexDigit;
    var h := Hex([v] + rest);
    assert ([v] + rest)[1..] == rest;
    assert h == [HexDigit(v / 16), HexDigit(v % 16)] + Hex(rest);
    assert h[2..] == Hex(rest);
    assert t == [t[0], t[1]] + t[2..];
  }

  lemma PairRoundTrip(a: Byte, b: Byte)
    ensures LowerHexDigit(a) && LowerHexDigit(b)
            <==> PairValue(a, b).Some? && HexDigit(PairValue(a, b).value / 16) == a
                 && HexDigit(PairValue(a, b).value % 16) == b
  {
  }

  lemma {:induction false} HexInjective(a: ByteString, b: ByteString)
    requires Hex(a) == Hex(b)
    ensures a == b
  {
    if a != [] && b != [] {
      assert Hex(a)[0] == Hex(b)[0] && Hex(a)[1] == Hex(b)[1];
      assert Hex(a)[2..] == Hex(a[1..]) && Hex(b)[2..] == Hex(b[1..]);
      HexInjective(a[1..], b[1..]);
      assert a == [a[0]] + a[1..] && b == [b[0]] + b[1..];
    }
  }

  // ---- saving

  /** A bucket holds a record for each session whose token parses, and no others. */
  ghost predicate Saves(bucket: Entries<ByteString>, store: map<ByteString, Session>) {
    && Ascending(bucket)
    && (forall t :: t in store && TokenBytes(t).Some? ==> TokenBytes(t).value in AsMap(bucket))
    && (forall k :: k in AsMap(bucket) ==> SavedFrom(k, AsMap(bucket)[k], store))
  }

  ghost predicate SavedFrom(k: ByteString, v: ByteString, store: map<ByteString, Session>) {
    exists t :: t in store && TokenBytes(t) == Some(k) && v == Encode(store[t])
  }

  /** Builds the bucket; the hash map is visited in whatever order it yields. */
  method SaveBucket(store: map<ByteString, Session>) returns (bucket: Entries<ByteString>)
    ensures Saves(bucket, store)
  {
    hide TokenBytes, Encode, Less, Insert;
    bucket := [];
    var todo := store.Keys;
    while todo != {}
      invariant todo <= store.Keys && Ascending(bucket)
      invariant forall t :: t in store && t !in todo && TokenBytes(t).Some? ==> TokenBytes(t).value in AsMap(bucket)
      invariant forall k :: k in AsMap(bucket) ==> SavedFrom(k, AsMap(bucket)[k], store)
      decreases |todo|
    {
      var t :| t in todo;
      todo := todo - {t};
      var key := TokenBytes(t);
      if key.Some? {
        var v := Encode(store[t]);
        assert SavedFrom(key.value, v, store);
        InsertAscending(bucket, key.value, v);
        InsertAsMap(bucket, key.value, v);
        bucket := Insert(bucket, key.value, v);
      }
    }
  }

  /** A store backed by a file. */
  class Store {
    var byToken: map<ByteString, Session>
    var file: Option<ByteString>

    /** Writes the store out; a build that fails leaves the file as it was. */
    method Persist() returns (ghost bucket: Entries<ByteString>)
      modifies this`file
      ensures Saves(bucket, byToken)
      ensures file == match BuildResult([(BUCKET, bucket)], PAGE_SIZE)
                      case Success(image) => Some(image)
                      case Failure(_) => old(file)
    {
      var b := SaveBucket(byToken);
      var buckets: Buckets := [(BUCKET, b)];
      assert WellFormed(buckets);
      var image := Build(buckets, PAGE_SIZE);
      if image.Success? {
        file := Some(image.value);
      }
      bucket := b;
    }
  }

  // ---- loading

  /** The sessions among the first `n` records that decode and have not expired. */
  function Unexpired(m: Entries<ByteString>, n: nat, now: int, lossy: ByteString -> ByteString): map<ByteString, Session>
    requires n <= |m|
  {
    if n == 0 then map[]
    else
      var before, s := Unexpired(m, n - 1, now, lossy), Decode(m[n - 1].1, lossy);
      if s.None? || s.value.expires <= now then before
      else before[Hex(m[n - 1].0) := s.value]
  }

  function Load(file: ByteString, now: int, lossy: ByteString -> ByteString, depth: nat): Option<map<ByteString, Session>> {
    var db := FromBytes(file);
    if db.Failure? then None
    else
      var buckets := ReadBuckets(db.value, depth);
      if buckets.Failure? || BUCKET !in AsMap(buckets.value) then None
      else
        var m := AsMap(buckets.value)[BUCKET];
        Some(Unexpired(m, |m|, now, lossy))
  }

  method LoadStore(file: ByteString, now: int, lossy: ByteString -> ByteString, depth: nat)
    returns (r: Option<map<ByteString, Session>>)
    ensures r == Load(file, now, lossy, depth)
  {
    hide FromBytes, ReadBuckets, Unexpired;
    var db := Open(file);
    if db.Failure? {
      return None;
    }
    var buckets := ReadAll(db.value, depth);
    if buckets.Failure? || BUCKET !in AsMap(buckets.value) {
      return None;
    }
    var out := KeepUnexpired(AsMap(buckets.value)[BUCKET], now, lossy);
    r := Some(out);
  }

  method KeepUnexpired(m: Entries<ByteString>, now: int, lossy: ByteString -> ByteString)
    returns (out: map<ByteString, Session>)
    ensures out == Unexpired(m, |m|, now, lossy)
  {
    hide Decode, Hex;
    out := map[];
    for i := 0 to |m|
      invariant out == Unexpired(m, i, now, lossy)
    {
      var s := Decode(m[i].1, lossy);
      if s.Some? && s.value.expires > now {
        out := out[Hex(m[i].0) := s.value];
      }
    }
  }

  /** A file yields a store exactly when it opens, reads, and has the session bucket. */
  lemma LoadsIff(file: ByteString, now: int, lossy: ByteString -> ByteString, depth: nat)
    ensures Load(file, now, lossy, depth).Some? <==>
              && FromBytes(file).Success?
              && ReadBuckets(FromBytes(file).value, depth).Success?
              && BUCKET in AsMap(ReadBuckets(FromBytes(file).value, depth).value)
  {
    hide FromBytes, ReadBuckets, Unexpired;
  }

  /** What is loaded comes from the records of the session bucket, wherever it stands among others. */
  lemma LoadsBucket(file: ByteString, now: int, lossy: ByteString -> ByteString, depth: nat, b: Buckets, i: nat)
    requires FromBytes(file).Success? && ReadBuckets(FromBytes(file).value, depth) == Success(b)
    requires Ascending(b) && i < |b| && b[i].0 == BUCKET
    ensures Load(file, now, lossy, depth) == Some(Unexpired(b[i].1, |b[i].1|, now, lossy))
  {
    hide FromBytes, ReadBuckets, Unexpired;
    AsMapAt(b, i);
  }

  /** A record is rejected exactly when it is shorter than its own length field says. */
  lemma DecodesIff(data: ByteString, lossy: ByteString -> ByteString)
    ensures Decode(data, lossy).Some? <==> |data| >= 6 && |data| >= 6 + 256 * (data[4] as int) + data[5]
  {
    if |data| >= 6 {
      var len := data[4..6];
      assert len[..1] == [data[4]] && FromBE([data[4]]) == data[4];
    }
  }

  /** Each record is loaded under its own token, or not at all. */
  lemma {:induction false} UnexpiredAt(m: Entries<ByteString>, n: nat, i: nat, now: int, lossy: ByteString -> ByteString)
    requires Ascending(m) && i < n <= |m|
    ensures var s := Decode(m[i].1, lossy); var out := Unexpired(m, n, now, lossy);
            if s.Some? && s.value.expires > now then Hex(m[i].0) in out && out[Hex(m[i].0)] == s.value
            else Hex(m[i].0) !in out
  {
    hide Decode, Less, Hex;
    var last := n - 1;
    if i < last {
      UnexpiredAt(m, last, i, now, lossy);
      assert Less(m[i].0, m[last].0);
      if Hex(m[i].0) == Hex(m[last].0) {
        HexInjective(m[i].0, m[last].0);
        Irreflexive(m[i].0);
      }
    } else if Hex(m[i].0) in Unexpired(m, last, now, lossy) {
      var j := UnexpiredFrom(m, last, Hex(m[i].0), now, lossy);
      HexInjective(m[i].0, m[j].0);
      assert Less(m[j].0, m[i].0);
      Irreflexive(m[i].0);
    }
  }

  lemma {:induction false} UnexpiredFrom(m: Entries<ByteString>, n: nat, t: ByteString, now: int, lossy: ByteString -> ByteString)
    returns (i: nat)
    requires n <= |m| && t in Unexpired(m, n, now, lossy)
    ensures i < n && Hex(m[i].0) == t
  {
    hide Decode, Hex;
    if Hex(m[n - 1].0) == t {
      i := n - 1;
    } else {
      i := UnexpiredFrom(m, n - 1, t, now, lossy);
    }
  }

  /** The sessions a restart keeps. */
  function Surviving(store: map<ByteString, Session>, now: int): map<ByteString, Session> {
    map t | t in store && Stored(store[t]).expires > now :: Stored(store[t])
  }

  ghost predicate Storable(store: map<ByteString, Session>, lossy: ByteString -> ByteString) {
    forall t :: t in store ==> Canonical(t) && |store[t].user| <= MAX_NAME && lossy(store[t].user) == store[t].user
  }

  /** Loading a saved bucket yields exactly the sessions not yet expired, under their own tokens. */
  lemma BucketLoads(store: map<ByteString, Session>, bucket: Entries<ByteString>, now: int, lossy: ByteString -> ByteString)
    requires Storable(store, lossy) && Saves(bucket, store)
    ensures Unexpired(bucket, |bucket|, now, lossy) == Surviving(store, now)
  {
    hide Decode, Encode, Less, Hex, TokenBytes, Canonical, Stored;
    var out := Unexpired(bucket, |bucket|, now, lossy);
    forall t | t in store
      ensures if Stored(store[t]).expires > now then t in out && out[t] == Stored(store[t]) else t !in out
    {
      TokenRoundTrip(t);
      var key := TokenBytes(t).value;
      var i := AsMapWitness(bucket, key);
      RecordOf(store, bucket, i, t, lossy);
      UnexpiredAt(bucket, |bucket|, i, now, lossy);
    }
    forall t | t in out ensures t in store {
      var i := UnexpiredFrom(bucket, |bucket|, t, now, lossy);
      AsMapAt(bucket, i);
      var k := bucket[i].0;
      assert SavedFrom(k, AsMap(bucket)[k], store);
      var u :| u in store && TokenBytes(u) == Some(k);
      TokenRoundTrip(u);
    }
  }

  lemma RecordOf(store: map<ByteString, Session>, bucket: Entries<ByteString>, i: nat, t: ByteString, lossy: ByteString -> ByteString)
    requires Storable(store, lossy) && Saves(bucket, store) && t in store
    requires i < |bucket| && TokenBytes(t) == Some(bucket[i].0)
    ensures Decode(bucket[i].1, lossy) == Some(Stored(store[t])) && Hex(bucket[i].0) == t
  {
    hide Decode, Encode, Less, Hex, TokenBytes, Canonical;
    var k := bucket[i].0;
    AsMapAt(bucket, i);
    assert SavedFrom(k, AsMap(bucket)[k], store);
    var u :| u in store && TokenBytes(u) == Some(k) && bucket[i].1 == Encode(store[u]);
    TokenRoundTrip(t);
    TokenRoundTrip(u);
    RecordRoundTrip(store[u], lossy);
  }

  /** Persisting a store and loading the file gives back exactly the sessions whose expiry, cut
      to whole seconds, is still ahead. */
  lemma SessionsRoundTrip(store: map<ByteString, Session>, bucket: Entries<ByteString>, now: int,
                          lossy: ByteString -> ByteString, depth: nat)
    requires Storable(store, lossy) && Saves(bucket, store)
    ensures var built := BuildResult([(BUCKET, bucket)], PAGE_SIZE);
            built.Success? ==> Load(built.value, now, lossy, depth) == Some(Surviving(store, now))
  {
    hide BuildResult, FromBytes, ReadBuckets, Unexpired, Surviving, Storable;
    var b: Buckets := [(BUCKET, bucket)];
    assert WellFormed(b);
    RoundTrip(b, PAGE_SIZE, depth);
    AsMapAt(b, 0);
    BucketLoads(store, bucket, now, lossy);
  }

  /** No build can fail for a bucket of under 65536 records and 1 GiB, so such a store always survives. */
  lemma ModestStoreSurvives(store: map<ByteString, Session>, bucket: Entries<ByteString>, now: int,
                            lossy: ByteString -> ByteString, depth: nat)
    requires Storable(store, lossy) && Saves(bucket, store)
    requires |bucket| < U16_LIMIT && |Body(bucket, 0)| <= 0x4000_0000
    ensures BuildResult([(BUCKET, bucket)], PAGE_SIZE).Success?
    ensures Load(BuildResult([(BUCKET, bucket)], PAGE_SIZE).value, now, lossy, depth) == Some(Surviving(store, now))
  {
    hide BuildResult, FromBytes, ReadBuckets, Load, Surviving, Storable, Body;
    var b: Buckets := [(BUCKET, bucket)];
    assert WellFormed(b);
    assert Volume(b, 0) == 0;
    assert Volume(b, 1) == |BUCKET| + BUCKET_HEADER + |Body(bucket, 0)|;
    PageSizeReads();
    ModestRoundTrip(b, PAGE_SIZE, depth);
    SessionsRoundTrip(store, bucket, now, lossy, depth);
  }

  lemma PageSizeReads()
    ensures PageSizeReadable(PAGE_SIZE)
  {
    assert IsPowerOfTwo(4);
    assert IsPowerOfTwo(64);
    assert IsPowerOfTwo(512);
  }
}
