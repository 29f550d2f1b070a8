/**
 A shard with dead slots behaves as a plain list of entries in order of last store:
 no sequence numbers, no queue, no byte counter.
 */
module CacheRefinement {
  import opened CacheState

  /** A key with its entry, as the plain list holds them. */
  type Listing = seq<(Key, Entry)>

  // ---- the plain list

  function Total(v: Listing): nat {
    if v == [] then 0 else v[0].1.weight + Total(v[1..])
  }

  function Without(v: Listing, k: Key): Listing {
    if v == [] then []
    else (if v[0].0 == k then [] else [v[0]]) + Without(v[1..], k)
  }

  /** The list with the entry under `k` replaced where it stands. */
  function Replaced(v: Listing, k: Key, e: Entry): Listing {
    if v == [] then []
    else [if v[0].0 == k then (k, e) else v[0]] + Replaced(v[1..], k, e)
  }

  /** Oldest entries go until the rest fits. */
  function Trim(v: Listing, budget: nat): Listing {
    if v == [] || Total(v) <= budget then v else Trim(v[1..], budget)
  }

  /** Storing: the key moves to the back, then the oldest go until the rest fits. */
  function Store(v: Listing, k: Key, e: Entry, budget: nat): Listing {
    Trim(Without(v, k) + [(k, e)], budget)
  }

  // ---- from a shard to its list

  function ViewOf(entries: map<Key, Entry>, order: seq<Slot>): Listing {
    if order == [] then []
    else (if Live(entries, order[0]) then [(order[0].key, entries[order[0].key])] else [])
         + ViewOf(entries, order[1..])
  }

  function View(s: State): Listing {
    ViewOf(s.entries, s.order)
  }

  ghost predicate Ordered(order: seq<Slot>, limit: nat) {
    && (forall i, j :: 0 <= i < j < |order| ==> order[i].stamp < order[j].stamp)
    && (forall i :: 0 <= i < |order| ==> order[i].stamp < limit)
  }

  /** Whether every live entry owns a slot; sequence numbers make it the only one. */
  ghost predicate Owned(entries: map<Key, Entry>, order: seq<Slot>) {
    forall k :: k in entries ==> Slot(entries[k].stamp, k) in order
  }

  ghost predicate Inv(s: State) {
    && Ordered(s.order, s.nextSeq)
    && Owned(s.entries, s.order)
    && s.bytes == Total(View(s))
  }

  /** Each live entry owns exactly one slot. */
  lemma OneSlotEach(s: State, k: Key)
    requires Inv(s) && k in s.entries
    ensures exists i :: 0 <= i < |s.order| && Live(s.entries, s.order[i]) && s.order[i].key == k
    ensures forall i, j | 0 <= i < |s.order| && 0 <= j < |s.order| ::
              (Live(s.entries, s.order[i]) && Live(s.entries, s.order[j])
               && s.order[i].key == s.order[j].key == k) ==> i == j
  {
    var slot := Slot(s.entries[k].stamp, k);
    var i :| 0 <= i < |s.order| && s.order[i] == slot;
    assert Live(s.entries, s.order[i]);
    forall j, l | 0 <= j < l < |s.order| ensures s.order[j].stamp != s.order[l].stamp {
      assert s.order[j].stamp < s.order[l].stamp;
    }
  }

  // ---- the list holds the map, entry for entry

  lemma {:induction false} ViewMember(entries: map<Key, Entry>, order: seq<Slot>, k: Key, e: Entry)
    ensures (k, e) in ViewOf(entries, order) <==> k in entries && entries[k] == e && Slot(e.stamp, k) in order
  {
    if order != [] {
      ViewMember(entries, order[1..], k, e);
      assert order == [order[0]] + order[1..];
    }
  }

  ghost predicate DistinctKeys(v: Listing) {
    forall i, j :: 0 <= i < j < |v| ==> v[i].0 != v[j].0
  }

  lemma {:induction false} ViewDistinct(entries: map<Key, Entry>, order: seq<Slot>, limit: nat)
    requires Ordered(order, limit)
    ensures DistinctKeys(ViewOf(entries, order))
  {
    if order != [] {
      var v, rest := ViewOf(entries, order), ViewOf(entries, order[1..]);
      ViewDistinct(entries, order[1..], limit);
      if Live(entries, order[0]) {
        forall j | 0 <= j < |rest| ensures rest[j].0 != order[0].key {
          ViewMember(entries, order[1..], rest[j].0, rest[j].1);
        }
      }
    }
  }

  /** The list and the map agree: the same keys, each once, with the same entries. */
  lemma ViewIsMap(s: State)
    requires Inv(s)
    ensures DistinctKeys(View(s))
    ensures forall k, e :: (k, e) in View(s) <==> k in s.entries && s.entries[k] == e
    ensures |View(s)| == |s.entries|
  {
    ViewDistinct(s.entries, s.order, s.nextSeq);
    forall k, e ensures (k, e) in View(s) <==> k in s.entries && s.entries[k] == e {
      ViewMember(s.entries, s.order, k, e);
    }
    var keys := KeysOf(View(s));
    forall k ensures k in keys <==> k in s.entries.Keys {
      KeysOfMember(View(s), k);
      if k in s.entries {
        assert (k, s.entries[k]) in View(s);
      }
    }
    assert keys == s.entries.Keys;
    KeysOfSize(View(s));
  }

  function KeysOf(v: Listing): set<Key> {
    if v == [] then {} else {v[0].0} + KeysOf(v[1..])
  }

  lemma {:induction false} KeysOfMember(v: Listing, k: Key)
    ensures k in KeysOf(v) <==> exists i :: 0 <= i < |v| && v[i].0 == k
  {
    if v != [] {
      KeysOfMember(v[1..], k);
      if k in KeysOf(v[1..]) {
        var i :| 0 <= i < |v[1..]| && v[1..][i].0 == k;
        assert v[i + 1].0 == k;
      }
      if exists i :: 0 <= i < |v| && v[i].0 == k {
        var i :| 0 <= i < |v| && v[i].0 == k;
        if i > 0 {
          assert v[1..][i - 1].0 == k;
        }
      }
    }
  }

  lemma {:induction false} KeysOfSize(v: Listing)
    requires DistinctKeys(v)
    ensures |KeysOf(v)| == |v|
  {
    if v != [] {
      KeysOfSize(v[1..]);
      KeysOfMember(v[1..], v[0].0);
    }
  }

  // ---- how the view changes with the map

  predicate SameSlot(m: map<Key, Entry>, n: map<Key, Entry>, slot: Slot) {
    Live(m, slot) == Live(n, slot) && (Live(m, slot) ==> m[slot.key] == n[slot.key])
  }

  /** Slots that mean the same in both maps give the same view. */
  lemma {:induction false} ViewFrame(m: map<Key, Entry>, n: map<Key, Entry>, order: seq<Slot>)
    requires forall slot :: slot in order ==> SameSlot(m, n, slot)
    ensures ViewOf(m, order) == ViewOf(n, order)
  {
    if order != [] {
      assert SameSlot(m, n, order[0]);
      ViewFrame(m, n, order[1..]);
    }
  }

  /** Removing a key from the map, or giving it a newer entry, removes it from the view. */
  lemma {:induction false} ViewWithout(m: map<Key, Entry>, n: map<Key, Entry>, k: Key, order: seq<Slot>)
    requires forall j :: j != k ==> (j in m <==> j in n) && (j in m ==> m[j] == n[j])
    requires forall i :: 0 <= i < |order| && order[i].key == k ==> !Live(n, order[i])
    ensures ViewOf(n, order) == Without(ViewOf(m, order), k)
  {
    if order != [] {
      var rest := order[1..];
      assert forall i :: 0 <= i < |rest| ==> rest[i] == order[i + 1];
      ViewWithout(m, n, k, rest);
      assert order[0].key == k ==> !Live(n, order[0]);
      if Live(m, order[0]) {
        var head := (order[0].key, m[order[0].key]);
        assert ViewOf(m, order)[0] == head && ViewOf(m, order)[1..] == ViewOf(m, rest);
      } else {
        assert ViewOf(m, order) == ViewOf(m, rest);
      }
    }
  }

  /** Updating an entry without restamping it replaces it where it stands. */
  lemma {:induction false} ViewReplaced(m: map<Key, Entry>, k: Key, e: Entry, order: seq<Slot>)
    requires k in m && e.stamp == m[k].stamp
    ensures ViewOf(m[k := e], order) == Replaced(ViewOf(m, order), k, e)
  {
    if order != [] {
      ViewReplaced(m, k, e, order[1..]);
      if Live(m, order[0]) {
        var head := (order[0].key, m[order[0].key]);
        assert ViewOf(m, order)[0] == head && ViewOf(m, order)[1..] == ViewOf(m, order[1..]);
      } else {
        assert ViewOf(m, order) == ViewOf(m, order[1..]);
      }
    }
  }

  lemma ViewStep(m: map<Key, Entry>, order: seq<Slot>)
    ensures ViewOf(m, order)
            == if order == [] then []
               else (if Live(m, order[0]) then [(order[0].key, m[order[0].key])] else []) + ViewOf(m, order[1..])
  {
  }

  lemma {:induction false} ViewAppend(m: map<Key, Entry>, a: seq<Slot>, b: seq<Slot>)
    ensures ViewOf(m, a + b) == ViewOf(m, a) + ViewOf(m, b)
  {
    hide ViewOf;
    ViewStep(m, a);
    if a == [] {
      assert a + b == b;
    } else {
      ViewAppend(m, a[1..], b);
      assert (a + b)[1..] == a[1..] + b;
      ViewStep(m, a + b);
    }
  }

  lemma {:induction false} ReplacedTotal(v: Listing, k: Key, e: Entry)
    requires forall i :: 0 <= i < |v| && v[i].0 == k ==> v[i].1.weight == e.weight
    ensures Total(Replaced(v, k, e)) == Total(v)
  {
    if v != [] {
      ReplacedTotal(v[1..], k, e);
      assert Replaced(v, k, e)[1..] == Replaced(v[1..], k, e);
    }
  }

  lemma {:induction false} TotalAppend(a: Listing, b: Listing)
    ensures Total(a + b) == Total(a) + Total(b)
  {
    if a == [] {
      assert a + b == b;
    } else {
      TotalAppend(a[1..], b);
      assert (a + b)[1..] == a[1..] + b;
    }
  }

  lemma {:induction false} WithoutAbsent(v: Listing, k: Key)
    requires forall i :: 0 <= i < |v| ==> v[i].0 != k
    ensures Without(v, k) == v
  {
    if v != [] {
      WithoutAbsent(v[1..], k);
    }
  }

  /** Taking a key out takes exactly its weight out. */
  lemma {:induction false} WithoutTotal(v: Listing, k: Key, e: Entry)
    requires DistinctKeys(v) && (k, e) in v
    ensures Total(Without(v, k)) + e.weight == Total(v)
  {
    if v[0].0 == k {
      assert forall i :: 0 <= i < |v[1..]| ==> v[1..][i].0 != k;
      var i :| 0 <= i < |v| && v[i] == (k, e);
      WithoutAbsent(v[1..], k);
      assert Without(v, k) == v[1..];
      assert i == 0;
    } else {
      assert v == [v[0]] + v[1..];
      WithoutTotal(v[1..], k, e);
      assert Without(v, k)[1..] == Without(v[1..], k);
    }
  }

  // ---- the operations

  lemma EvictOneView(s: State)
    requires Ordered(s.order, s.nextSeq) && s.order != []
    ensures View(s) == (if Live(s.entries, s.order[0]) then [(s.order[0].key, s.entries[s.order[0].key])] else [])
                       + View(EvictOne(s))
  {
    var slot, t := s.order[0], EvictOne(s);
    forall other | other in t.order ensures SameSlot(s.entries, t.entries, other) {
      assert other in s.order[1..];
    }
    ViewFrame(s.entries, t.entries, t.order);
  }

  lemma EvictOneRefines(s: State)
    requires Inv(s) && s.order != []
    ensures Inv(EvictOne(s))
    ensures View(EvictOne(s)) == if Live(s.entries, s.order[0]) then View(s)[1..] else View(s)
    ensures Live(s.entries, s.order[0]) ==> View(s) != []
  {
    hide ViewOf;
    EvictOneView(s);
    var t := EvictOne(s);
    if Live(s.entries, s.order[0]) {
      assert View(s)[1..] == View(t);
    } else {
      assert View(s) == View(t);
    }
  }

  /** Eviction keeps the invariant, trims the list, and always ends within budget. */
  lemma {:induction false} EvictRefines(s: State)
    requires Inv(s)
    ensures Inv(Evict(s)) && Evict(s).bytes <= s.budget && Evict(s).budget == s.budget
    ensures View(Evict(s)) == Trim(View(s), s.budget)
    ensures |Evict(s).order| <= |s.order|
    decreases |s.order|
  {
    hide Inv;
    InvTotal(s);
    if s.order == [] {
      assert View(s) == [];
    } else if s.bytes > s.budget {
      EvictOneRefines(s);
      EvictRefines(EvictOne(s));
    }
  }

  /** Eviction only removes entries. */
  lemma {:induction false} EvictSubset(s: State, k: Key)
    ensures k in Evict(s).entries ==> k in s.entries && Evict(s).entries[k] == s.entries[k]
    decreases |s.order|
  {
    if s.bytes > s.budget && s.order != [] {
      EvictSubset(EvictOne(s), k);
    }
  }

  lemma InvTotal(s: State)
    requires Inv(s)
    ensures s.bytes == Total(View(s))
  {
  }

  lemma {:induction false} RetainFacts(m: map<Key, Entry>, order: seq<Slot>)
    ensures ViewOf(m, Retain(m, order)) == ViewOf(m, order)
    ensures forall slot :: slot in Retain(m, order) <==> slot in order && Live(m, slot)
    ensures |Retain(m, order)| == |ViewOf(m, order)|
  {
    if order != [] {
      RetainFacts(m, order[1..]);
      assert order == [order[0]] + order[1..];
      var r := Retain(m, order);
      if Live(m, order[0]) {
        assert r[1..] == Retain(m, order[1..]);
      } else {
        assert r == Retain(m, order[1..]);
      }
    }
  }

  lemma ConsOrdered(x: Slot, rest: seq<Slot>, limit: nat)
    requires Ordered(rest, limit) && x.stamp < limit
    requires forall slot :: slot in rest ==> x.stamp < slot.stamp
    ensures Ordered([x] + rest, limit)
  {
  }

  lemma TailOrdered(order: seq<Slot>, limit: nat)
    requires Ordered(order, limit) && order != []
    ensures Ordered(order[1..], limit) && order[0].stamp < limit
    ensures forall slot :: slot in order[1..] ==> order[0].stamp < slot.stamp
  {
  }

  lemma RetainStep(m: map<Key, Entry>, order: seq<Slot>)
    ensures Retain(m, order)
            == if order == [] then []
               else if Live(m, order[0]) then [order[0]] + Retain(m, order[1..]) else Retain(m, order[1..])
  {
    assert order != [] ==> [] + Retain(m, order[1..]) == Retain(m, order[1..]);
  }

  lemma {:induction false} RetainOrdered(m: map<Key, Entry>, order: seq<Slot>, limit: nat)
    requires Ordered(order, limit)
    ensures Ordered(Retain(m, order), limit)
  {
    hide *;
    RetainStep(m, order);
    if order != [] {
      TailOrdered(order, limit);
      RetainOrdered(m, order[1..], limit);
      RetainFacts(m, order[1..]);
      ConsOrdered(order[0], Retain(m, order[1..]), limit);
    }
  }

  lemma RetainOwned(m: map<Key, Entry>, order: seq<Slot>)
    requires Owned(m, order)
    ensures Owned(m, Retain(m, order))
  {
    hide Retain, ViewOf;
    RetainFacts(m, order);
  }

  /** Compaction changes nothing that can be seen, and leaves at most two slots per live entry
      and 64 more. */
  lemma CompactRefines(s: State)
    requires Inv(s)
    ensures Inv(Compact(s)) && View(Compact(s)) == View(s)
    ensures Compact(s).entries == s.entries && Compact(s).bytes == s.bytes && Compact(s).budget == s.budget
    ensures |Compact(s).order| <= 2 * |s.entries| + 64
  {
    hide ViewOf, Total, Retain, Ordered, Live, DistinctKeys;
    RetainFacts(s.entries, s.order);
    RetainOrdered(s.entries, s.order, s.nextSeq);
    RetainOwned(s.entries, s.order);
    ViewIsMap(s);
  }

  lemma InsertedOrder(s: State, k: Key, msg: Message, now: nat, ttl: nat, weight: nat)
    requires Inv(s)
    ensures var t := Inserted(s, k, msg, now, ttl, weight);
            Ordered(t.order, t.nextSeq) && Owned(t.entries, t.order) && |t.entries| <= |s.entries| + 1
  {
    var t := Inserted(s, k, msg, now, ttl, weight);
    assert t.order[|s.order|] == Slot(s.nextSeq, k);
    assert t.entries.Keys == s.entries.Keys + {k};
  }

  lemma InsertedView(s: State, k: Key, msg: Message, now: nat, ttl: nat, weight: nat)
    requires Ordered(s.order, s.nextSeq)
    ensures var t := Inserted(s, k, msg, now, ttl, weight);
            View(t) == Without(View(s), k) + [(k, t.entries[k])]
  {
    var t := Inserted(s, k, msg, now, ttl, weight);
    var last := [Slot(s.nextSeq, k)];
    ViewWithout(s.entries, t.entries, k, s.order);
    ViewAppend(t.entries, s.order, last);
    assert last[1..] == [];
    assert ViewOf(t.entries, last) == [(k, t.entries[k])];
  }

  lemma InsertedRefines(s: State, k: Key, msg: Message, now: nat, ttl: nat, weight: nat)
    requires Inv(s)
    ensures var t := Inserted(s, k, msg, now, ttl, weight);
            && Inv(t) && View(t) == Without(View(s), k) + [(k, t.entries[k])]
            && |t.entries| <= |s.entries| + 1
  {
    hide ViewOf, Without, Owned, Ordered;
    var t := Inserted(s, k, msg, now, ttl, weight);
    InsertedOrder(s, k, msg, now, ttl, weight);
    InsertedView(s, k, msg, now, ttl, weight);
    TotalAppend(Without(View(s), k), [(k, t.entries[k])]);
    assert [(k, t.entries[k])][1..] == [];
    ViewIsMap(s);
    if k in s.entries {
      assert (k, s.entries[k]) in View(s);
      WithoutTotal(View(s), k, s.entries[k]);
    } else {
      forall i | 0 <= i < |View(s)| ensures View(s)[i].0 != k {
        assert View(s)[i] == (View(s)[i].0, View(s)[i].1) && View(s)[i] in View(s);
      }
      WithoutAbsent(View(s), k);
    }
  }

  /** Storing refines storing in the plain list, and ends within budget. */
  lemma PutRefines(s: State, cfg: Config, k: Key, msg: Message, now: nat, ttl: Option<nat>, weight: nat)
    requires Inv(s) && Accepts(s, cfg, ttl, weight)
    ensures var t := Put(s, cfg, k, msg, now, ttl, weight);
            && Inv(t) && t.bytes <= t.budget == s.budget
            && View(t) == Store(View(s), k, Entry(msg, now, ttl.value, weight, 0, false, s.nextSeq), s.budget)
            && |t.order| <= 2 * (|s.entries| + 1) + COMPACT_SLACK
  {
    hide Inv, View, Evict, Compact;
    var a := Inserted(s, k, msg, now, ttl.value, weight);
    InsertedRefines(s, k, msg, now, ttl.value, weight);
    CompactRefines(a);
    EvictRefines(Compact(a));
  }

  lemma {:induction false} TrimKeepsLast(v: Listing, item: (Key, Entry), budget: nat)
    requires item.1.weight <= budget
    ensures Trim(v + [item], budget) != []
    ensures Trim(v + [item], budget)[|Trim(v + [item], budget)| - 1] == item
  {
    var w := v + [item];
    if v == [] {
      assert w[1..] == [];
      assert Total(w) == item.1.weight;
    } else if Total(w) > budget {
      assert w[1..] == v[1..] + [item];
      TrimKeepsLast(v[1..], item, budget);
    }
  }

  /** An accepted put survives its own eviction, as the newest entry. */
  lemma PutSurvives(s: State, cfg: Config, k: Key, msg: Message, now: nat, ttl: Option<nat>, weight: nat)
    requires Inv(s) && Accepts(s, cfg, ttl, weight)
    ensures var t := Put(s, cfg, k, msg, now, ttl, weight);
            && k in t.entries && t.entries[k] == Entry(msg, now, ttl.value, weight, 0, false, s.nextSeq)
            && View(t) != [] && View(t)[|View(t)| - 1].0 == k
  {
    hide Inv, View, Put;
    var e := Entry(msg, now, ttl.value, weight, 0, false, s.nextSeq);
    var t := Put(s, cfg, k, msg, now, ttl, weight);
    PutRefines(s, cfg, k, msg, now, ttl, weight);
    TrimKeepsLast(Without(View(s), k), (k, e), s.budget);
    assert (k, e) in View(t);
    ViewIsMap(t);
  }

  /** Trimming removes the shortest run of oldest entries that frees enough. */
  lemma {:induction false} TrimIsShortest(v: Listing, budget: nat) returns (n: nat)
    ensures n <= |v| && Trim(v, budget) == v[n..] && Total(v[n..]) <= budget
    ensures forall m :: 0 <= m < n ==> Total(v[m..]) > budget
  {
    if v == [] || Total(v) <= budget {
      n := 0;
      assert v[0..] == v;
    } else {
      var p := TrimIsShortest(v[1..], budget);
      n := p + 1;
      assert v[1..][p..] == v[n..];
      forall m | 0 <= m < n ensures Total(v[m..]) > budget {
        if m > 0 {
          assert v[1..][m - 1..] == v[m..];
        } else {
          assert v[0..] == v;
        }
      }
    }
  }

  lemma DroppedRefines(s: State, k: Key)
    requires Inv(s) && k in s.entries
    ensures Inv(Dropped(s, k)) && View(Dropped(s, k)) == Without(View(s), k)
    ensures Dropped(s, k).bytes <= s.bytes
  {
    var t := Dropped(s, k);
    ViewWithout(s.entries, t.entries, k, s.order);
    ViewIsMap(s);
    WithoutTotal(View(s), k, s.entries[k]);
  }

  lemma UpdateRefines(s: State, k: Key, e: Entry)
    requires Inv(s) && k in s.entries && e.stamp == s.entries[k].stamp && e.weight == s.entries[k].weight
    ensures var t := s.(entries := s.entries[k := e]);
            Inv(t) && View(t) == Replaced(View(s), k, e) && |t.entries| == |s.entries|
  {
    var t := s.(entries := s.entries[k := e]);
    ViewReplaced(s.entries, k, e, s.order);
    ViewIsMap(s);
    forall i | 0 <= i < |View(s)| && View(s)[i].0 == k ensures View(s)[i].1.weight == e.weight {
      assert View(s)[i] == (k, View(s)[i].1) && View(s)[i] in View(s);
    }
    ReplacedTotal(View(s), k, e);
    assert t.entries.Keys == s.entries.Keys;
  }

  /** A lookup either removes a dead entry or updates the one it found; nothing moves. */
  lemma GetRefines(s: State, cfg: Config, k: Key, now: nat)
    requires Inv(s) && cfg.sizeBytes != 0 && k in s.entries
    ensures var t := Get(s, cfg, k, now).0;
            && Inv(t) && t.bytes <= s.bytes && t.budget == s.budget
            && View(t) == (if Dead(s.entries[k], cfg, now) then Without(View(s), k)
                           else Replaced(View(s), k, t.entries[k]))
            && (Dead(s.entries[k], cfg, now) || t.order == s.order)
            && (Dead(s.entries[k], cfg, now) ==> |t.order| <= |s.order|)
  {
    hide Inv, View, Compact, Claims, Expired;
    if Dead(s.entries[k], cfg, now) {
      DroppedRefines(s, k);
      CompactRefines(Dropped(s, k));
      CompactShrinks(Dropped(s, k));
    } else {
      UpdateRefines(s, k, Get(s, cfg, k, now).0.entries[k]);
    }
  }

  lemma CompactShrinks(s: State)
    ensures |Compact(s).order| <= |s.order|
  {
    RetainShorter(s.entries, s.order);
  }

  lemma {:induction false} RetainShorter(m: map<Key, Entry>, order: seq<Slot>)
    ensures |Retain(m, order)| <= |order|
  {
    if order != [] {
      RetainShorter(m, order[1..]);
    }
  }

  /** A resize trims the list to the new budget. */
  lemma ResizeRefines(s: State, cfg: Config)
    requires Inv(s)
    ensures var t := Resize(s, cfg);
            && Inv(t) && t.bytes <= t.budget == PerShard(cfg.sizeBytes)
            && View(t) == Trim(View(s), PerShard(cfg.sizeBytes))
            && |t.order| <= |s.order|
  {
    EvictRefines(s.(budget := PerShard(cfg.sizeBytes)));
  }

  /** A change of configuration that nothing interrupts trims the list to the new budget, and a size
      of zero leaves nothing. */
  lemma SetConfigRefines(s: State, cfg: Config)
    requires Inv(s)
    ensures var t := SetConfig(s, cfg);
            && Inv(t) && t.bytes <= t.budget == PerShard(cfg.sizeBytes)
            && View(t) == (if cfg.sizeBytes == 0 then [] else Trim(View(s), PerShard(cfg.sizeBytes)))
  {
    ResizeRefines(s, cfg);
  }
}
