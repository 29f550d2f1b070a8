/**
 A `BTreeMap` keyed by byte strings: its entries in ascending key order.
 The sequence form is canonical, and it is the order iteration yields.
 */
module OrderedMap {
  import opened Bytes

  /** A key with the value stored under it. */
  type Entries<V> = seq<(ByteString, V)>

  /** Lexicographic order of byte strings. */
  predicate Less(a: ByteString, b: ByteString) {
    if b == [] then false
    else if a == [] then true
    else if a[0] != b[0] then a[0] < b[0]
    else Less(a[1..], b[1..])
  }

  ghost predicate Ascending<V>(m: Entries<V>) {
    forall i, j :: 0 <= i < j < |m| ==> Less(m[i].0, m[j].0)
  }

  /** `BTreeMap::insert`: replaces the value of a key already present. */
  function Insert<V>(m: Entries<V>, k: ByteString, v: V): Entries<V> {
    if m == [] then [(k, v)]
    else if k == m[0].0 then [(k, v)] + m[1..]
    else if Less(k, m[0].0) then [(k, v)] + m
    else [m[0]] + Insert(m[1..], k, v)
  }

  /** What a lookup sees. */
  function AsMap<V>(m: Entries<V>): map<ByteString, V> {
    if m == [] then map[] else AsMap(m[1..])[m[0].0 := m[0].1]
  }

  lemma {:induction false} Irreflexive(a: ByteString)
    ensures !Less(a, a)
  {
    if a != [] {
      Irreflexive(a[1..]);
    }
  }

  lemma {:induction false} Transitive(a: ByteString, b: ByteString, c: ByteString)
    requires Less(a, b) && Less(b, c)
    ensures Less(a, c)
  {
    if a != [] && a[0] == b[0] == c[0] {
      Transitive(a[1..], b[1..], c[1..]);
    }
  }

  lemma {:induction false} Total(a: ByteString, b: ByteString)
    ensures Less(a, b) || a == b || Less(b, a)
  {
    if a != [] && b != [] && a[0] == b[0] {
      Total(a[1..], b[1..]);
      assert a == [a[0]] + a[1..] && b == [b[0]] + b[1..];
    }
  }

  /** One string is less than another exactly when they agree up to a place where the first ends, or
      has the smaller byte. */
  lemma {:induction false} LessIff(a: ByteString, b: ByteString)
    ensures Less(a, b) <==> exists n: nat :: SmallerAt(a, b, n)
  {
    if a != [] && b != [] && a[0] == b[0] {
      LessIff(a[1..], b[1..]);
      if n: nat :| SmallerAt(a, b, n) {
        SmallerShift(a, b, n - 1);
      }
      if n: nat :| SmallerAt(a[1..], b[1..], n) {
        SmallerShift(a, b, n);
      }
    } else if b != [] && (a == [] || a[0] < b[0]) {
      assert SmallerAt(a, b, 0);
    }
  }

  lemma SmallerShift(a: ByteString, b: ByteString, n: nat)
    requires a != [] && b != [] && a[0] == b[0]
    ensures SmallerAt(a[1..], b[1..], n) <==> SmallerAt(a, b, n + 1)
  {
    if n + 1 <= |a| && n + 1 < |b| {
      assert a[..n + 1] == [a[0]] + a[1..][..n] && b[..n + 1] == [b[0]] + b[1..][..n];
      assert a[..n + 1][1..] == a[1..][..n] && b[..n + 1][1..] == b[1..][..n];
    }
  }

  predicate SmallerAt(a: ByteString, b: ByteString, n: nat) {
    n <= |a| && n < |b| && a[..n] == b[..n] && (n == |a| || a[n] < b[n])
  }

  lemma {:induction false} InsertMembers<V>(m: Entries<V>, k: ByteString, v: V, e: (ByteString, V))
    requires e in Insert(m, k, v)
    ensures e == (k, v) || e in m
  {
    if m != [] && k != m[0].0 && !Less(k, m[0].0) && e != m[0] {
      InsertMembers(m[1..], k, v, e);
    }
  }

  /** Inserting keeps the entries in ascending order. */
  lemma {:induction false} InsertAscending<V>(m: Entries<V>, k: ByteString, v: V)
    requires Ascending(m)
    ensures Ascending(Insert(m, k, v))
  {
    if m != [] && k != m[0].0 {
      if Less(k, m[0].0) {
        forall j | 0 < j < |m| ensures Less(k, m[j].0) {
          Transitive(k, m[0].0, m[j].0);
        }
      } else {
        Total(k, m[0].0);
        var rest := Insert(m[1..], k, v);
        InsertAscending(m[1..], k, v);
        forall j | 0 <= j < |rest| ensures Less(m[0].0, rest[j].0) {
          InsertMembers(m[1..], k, v, rest[j]);
        }
      }
    }
  }

  /** A key past every stored one is appended. */
  lemma {:induction false} InsertAtEnd<V>(m: Entries<V>, k: ByteString, v: V)
    requires forall i :: 0 <= i < |m| ==> Less(m[i].0, k)
    ensures Insert(m, k, v) == m + [(k, v)]
  {
    if m != [] {
      assert Less(m[0].0, k);
      if k == m[0].0 {
        Irreflexive(k);
      } else if Less(k, m[0].0) {
        Transitive(k, m[0].0, k);
        Irreflexive(k);
      } else {
        InsertAtEnd(m[1..], k, v);
      }
    }
  }

  /** Lookups after an insertion see the new value and nothing else changed. */
  lemma {:induction false} InsertAsMap<V>(m: Entries<V>, k: ByteString, v: V)
    ensures AsMap(Insert(m, k, v)) == AsMap(m)[k := v]
  {
    if m == [] {
      assert Insert(m, k, v)[1..] == [];
    } else if k == m[0].0 {
      assert Insert(m, k, v)[1..] == m[1..];
    } else if Less(k, m[0].0) {
      assert Insert(m, k, v)[1..] == m;
    } else {
      InsertAsMap(m[1..], k, v);
      assert Insert(m, k, v)[1..] == Insert(m[1..], k, v);
    }
  }

  /** In an ascending map, lookup finds each entry under its own key. */
  lemma {:induction false} AsMapAt<V>(m: Entries<V>, i: nat)
    requires Ascending(m) && i < |m|
    ensures m[i].0 in AsMap(m) && AsMap(m)[m[i].0] == m[i].1
  {
    if i > 0 {
      AsMapAt(m[1..], i - 1);
      assert Less(m[0].0, m[i].0);
      Irreflexive(m[i].0);
    }
  }

  /** Every key a lookup finds belongs to some entry. */
  lemma {:induction false} AsMapWitness<V>(m: Entries<V>, k: ByteString) returns (i: nat)
    requires k in AsMap(m)
    ensures i < |m| && m[i].0 == k && AsMap(m)[k] == m[i].1
  {
    if m[0].0 == k {
      i := 0;
    } else {
      var j := AsMapWitness(m[1..], k);
      i := j + 1;
    }
  }
}
