/**
 Whole runs of a cache shard: every operation gives the answer a plain list would give, the
 byte budget is never exceeded, the slot queue cannot leak, and refresh claims are accounted for.

 A step is what happens under the shard's lock.  The configuration is read before the lock is
 taken, so each step carries the copy it read, and a change of configuration is one step that
 resizes and perhaps another that clears, with anything in between.
 */
module CacheRuns {
  import opened CacheState
  import opened CacheRefinement

  datatype Op =
    | PutOp(cfg: Config, key: Key, msg: Message, now: nat, ttl: Option<nat>, weight: nat)
    | GetOp(cfg: Config, key: Key, now: nat)
    | EndOp(key: Key)
    | ResizeOp(cfg: Config)
    | ClearOp

  datatype Out = Stored(ok: bool) | Found(hit: Option<Hit>) | Done

  function Step(s: State, op: Op): (State, Out) {
    match op
    case PutOp(cfg, k, msg, now, ttl, weight) =>
      (Put(s, cfg, k, msg, now, ttl, weight), Stored(Accepts(s, cfg, ttl, weight)))
    case GetOp(cfg, k, now) =>
      var (t, hit) := Get(s, cfg, k, now);
      (t, Found(hit))
    case EndOp(k) => (EndRefresh(s, k), Done)
    case ResizeOp(cfg) => (Resize(s, cfg), Done)
    case ClearOp => (Clear(s), Done)
  }

  function Run(s: State, ops: seq<Op>): State {
    if ops == [] then s else Step(Run(s, ops[..|ops| - 1]), ops[|ops| - 1]).0
  }

  function Outs(s: State, ops: seq<Op>): (outs: seq<Out>)
    ensures |outs| == |ops|
  {
    if ops == [] then []
    else Outs(s, ops[..|ops| - 1]) + [Step(Run(s, ops[..|ops| - 1]), ops[|ops| - 1]).1]
  }

  // ---- the plain list as a cache

  datatype Plain = Plain(budget: nat, list: Listing)

  function Find(v: Listing, k: Key): Option<Entry> {
    if v == [] then None else if v[0].0 == k then Some(v[0].1) else Find(v[1..], k)
  }

  function PlainStep(p: Plain, op: Op): (Plain, Out) {
    match op
    case PutOp(cfg, k, msg, now, ttl, weight) =>
      if cfg.sizeBytes != 0 && ttl.Some? && weight <= p.budget then
        (p.(list := Store(p.list, k, Entry(msg, now, ttl.value, weight, 0, false, 0), p.budget)), Stored(true))
      else (p, Stored(false))
    case GetOp(cfg, k, now) =>
      var found := Find(p.list, k);
      if cfg.sizeBytes == 0 || found.None? then (p, Found(None))
      else if Dead(found.value, cfg, now) then (p.(list := Without(p.list, k)), Found(None))
      else
        var e := Counted(found.value);
        var claims := Claims(e, cfg, now);
        (p.(list := Replaced(p.list, k, e.(refreshing := e.refreshing || claims))),
         Found(Some(Hit(e.msg, if Expired(e, now) then Stale else Fresh, claims))))
    case EndOp(k) =>
      var found := Find(p.list, k);
      if found.None? then (p, Done)
      else (p.(list := Replaced(p.list, k, found.value.(refreshing := false))), Done)
    case ResizeOp(cfg) => (Plain(PerShard(cfg.sizeBytes), Trim(p.list, PerShard(cfg.sizeBytes))), Done)
    case ClearOp => (p.(list := []), Done)
  }

  function PlainRun(p: Plain, ops: seq<Op>): Plain {
    if ops == [] then p else PlainStep(PlainRun(p, ops[..|ops| - 1]), ops[|ops| - 1]).0
  }

  function PlainOuts(p: Plain, ops: seq<Op>): seq<Out> {
    if ops == [] then []
    else PlainOuts(p, ops[..|ops| - 1]) + [PlainStep(PlainRun(p, ops[..|ops| - 1]), ops[|ops| - 1]).1]
  }

  // ---- forgetting sequence numbers

  function Erase(v: Listing): Listing {
    if v == [] then [] else [(v[0].0, v[0].1.(stamp := 0))] + Erase(v[1..])
  }

  lemma {:induction false} EraseTotal(v: Listing)
    ensures Total(Erase(v)) == Total(v) && |Erase(v)| == |v|
  {
    if v != [] {
      EraseTotal(v[1..]);
      assert Erase(v)[1..] == Erase(v[1..]);
    }
  }

  lemma {:induction false} EraseTrim(v: Listing, budget: nat)
    ensures Erase(Trim(v, budget)) == Trim(Erase(v), budget)
  {
    EraseTotal(v);
    if v != [] {
      EraseTrim(v[1..], budget);
      assert Erase(v)[1..] == Erase(v[1..]);
    }
  }

  lemma {:induction false} EraseWithout(v: Listing, k: Key)
    ensures Erase(Without(v, k)) == Without(Erase(v), k)
  {
    if v != [] {
      EraseWithout(v[1..], k);
      assert Erase(v)[1..] == Erase(v[1..]);
      if v[0].0 == k {
        assert Without(v, k) == Without(v[1..], k);
      } else {
        assert Without(v, k)[1..] == Without(v[1..], k);
      }
    }
  }

  lemma {:induction false} EraseReplaced(v: Listing, k: Key, e: Entry)
    ensures Erase(Replaced(v, k, e)) == Replaced(Erase(v), k, e.(stamp := 0))
  {
    if v != [] {
      EraseReplaced(v[1..], k, e);
      assert Erase(v)[1..] == Erase(v[1..]);
      assert Replaced(v, k, e)[1..] == Replaced(v[1..], k, e);
    }
  }

  lemma EraseStep(v: Listing)
    ensures Erase(v) == if v == [] then [] else [(v[0].0, v[0].1.(stamp := 0))] + Erase(v[1..])
  {
  }

  lemma {:induction false} EraseAppend(a: Listing, b: Listing)
    ensures Erase(a + b) == Erase(a) + Erase(b)
  {
    hide Erase;
    if a == [] {
      EraseStep(a);
      assert a + b == b;
    } else {
      EraseAppend(a[1..], b);
      assert (a + b)[1..] == a[1..] + b;
      EraseStep(a + b);
      EraseStep(a);
    }
  }

  lemma {:induction false} EraseFind(v: Listing, k: Key)
    ensures Find(Erase(v), k) == match Find(v, k) case None => None case Some(e) => Some(e.(stamp := 0))
  {
    if v != [] {
      EraseFind(v[1..], k);
      assert Erase(v)[1..] == Erase(v[1..]);
    }
  }

  lemma {:induction false} FindMember(v: Listing, k: Key)
    ensures Find(v, k).Some? ==> (k, Find(v, k).value) in v
    ensures Find(v, k).None? ==> forall e :: (k, e) !in v
  {
    if v != [] {
      FindMember(v[1..], k);
      assert v == [v[0]] + v[1..];
    }
  }

  lemma FindIsLookup(s: State, k: Key)
    requires Inv(s)
    ensures Find(View(s), k) == if k in s.entries then Some(s.entries[k]) else None
  {
    hide View, Inv;
    ViewIsMap(s);
    FindMember(View(s), k);
    if k in s.entries {
      assert (k, s.entries[k]) in View(s);
    }
  }

  // ---- one step

  function PlainOf(s: State): Plain {
    Plain(s.budget, Erase(View(s)))
  }

  ghost predicate Good(s: State) {
    Inv(s) && s.bytes <= s.budget
  }

  lemma PutStep(s: State, op: Op)
    requires Good(s) && op.PutOp?
    ensures Good(Step(s, op).0)
    ensures (PlainOf(Step(s, op).0), Step(s, op).1) == PlainStep(PlainOf(s), op)
  {
    hide Inv, View, Evict, Put, Total, Erase, Trim, Without;
    if Accepts(s, op.cfg, op.ttl, op.weight) {
      PutRefines(s, op.cfg, op.key, op.msg, op.now, op.ttl, op.weight);
      var e := Entry(op.msg, op.now, op.ttl.value, op.weight, 0, false, s.nextSeq);
      EraseTrim(Without(View(s), op.key) + [(op.key, e)], s.budget);
      EraseAppend(Without(View(s), op.key), [(op.key, e)]);
      EraseWithout(View(s), op.key);
      EraseOne(op.key, e);
    } else {
      PutRejected(s, op.cfg, op.key, op.msg, op.now, op.ttl, op.weight);
    }
  }

  lemma EraseOne(k: Key, e: Entry)
    ensures Erase([(k, e)]) == [(k, e.(stamp := 0))]
  {
    assert [(k, e)][1..] == [];
  }

  lemma PutRejected(s: State, cfg: Config, k: Key, msg: Message, now: nat, ttl: Option<nat>, weight: nat)
    requires !Accepts(s, cfg, ttl, weight)
    ensures Put(s, cfg, k, msg, now, ttl, weight) == s
  {
  }

  /** A lookup never consults the sequence number. */
  lemma StampIrrelevant(e: Entry, cfg: Config, now: nat)
    ensures Dead(e.(stamp := 0), cfg, now) == Dead(e, cfg, now)
    ensures Expired(Counted(e.(stamp := 0)), now) == Expired(Counted(e), now)
    ensures Claims(Counted(e.(stamp := 0)), cfg, now) == Claims(Counted(e), cfg, now)
    ensures Counted(e.(stamp := 0)) == Counted(e).(stamp := 0)
  {
  }

  lemma GetStep(s: State, op: Op)
    requires Good(s) && op.GetOp?
    ensures Good(Step(s, op).0)
    ensures (PlainOf(Step(s, op).0), Step(s, op).1) == PlainStep(PlainOf(s), op)
  {
    hide Inv, View, Compact, Erase, Without, Replaced, Find, Dead, Claims, Expired;
    var k := op.key;
    FindIsLookup(s, k);
    EraseFind(View(s), k);
    if op.cfg.sizeBytes != 0 && k in s.entries {
      var e := s.entries[k];
      StampIrrelevant(e, op.cfg, op.now);
      GetRefines(s, op.cfg, k, op.now);
      if Dead(e, op.cfg, op.now) {
        EraseWithout(View(s), k);
      } else {
        var kept := Get(s, op.cfg, k, op.now).0.entries[k];
        EraseReplaced(View(s), k, kept);
        var c := Counted(e.(stamp := 0));
        assert kept.(stamp := 0) == c.(refreshing := c.refreshing || Claims(c, op.cfg, op.now));
      }
    }
  }

  lemma OtherStep(s: State, op: Op)
    requires Good(s) && !op.PutOp? && !op.GetOp?
    ensures Good(Step(s, op).0)
    ensures (PlainOf(Step(s, op).0), Step(s, op).1) == PlainStep(PlainOf(s), op)
  {
    hide Inv, View, Erase, Replaced, Find, Evict, Trim;
    match op
    case EndOp(k) =>
      FindIsLookup(s, k);
      EraseFind(View(s), k);
      if k in s.entries {
        var e := s.entries[k].(refreshing := false);
        UpdateRefines(s, k, e);
        EraseReplaced(View(s), k, e);
      }
    case ResizeOp(cfg) =>
      ResizeRefines(s, cfg);
      EraseTrim(View(s), PerShard(cfg.sizeBytes));
    case ClearOp => ClearedView(s);
  }

  lemma ClearedView(s: State)
    ensures View(Clear(s)) == [] && Inv(Clear(s)) && Erase([]) == []
  {
  }

  /** Every operation keeps the invariant and the budget, and does to the shard, and answers,
      what it would on the plain list. */
  lemma StepRefines(s: State, op: Op)
    requires Good(s)
    ensures Good(Step(s, op).0)
    ensures (PlainOf(Step(s, op).0), Step(s, op).1) == PlainStep(PlainOf(s), op)
  {
    hide Good, Step, PlainStep, PlainOf;
    match op
    case PutOp(_, _, _, _, _, _) => PutStep(s, op);
    case GetOp(_, _, _) => GetStep(s, op);
    case _ => OtherStep(s, op);
  }

  lemma EmptyGood(budget: nat)
    ensures Good(Empty(budget)) && PlainOf(Empty(budget)) == Plain(budget, [])
  {
  }

  /** A fresh shard and an empty plain list cannot be told apart by any run of operations, whatever
      configurations they were started under, and the bytes held always equal the weight of the
      entries held and fit the budget. */
  lemma {:induction false} RunRefines(budget: nat, ops: seq<Op>)
    ensures Good(Run(Empty(budget), ops))
    ensures PlainOf(Run(Empty(budget), ops)) == PlainRun(Plain(budget, []), ops)
    ensures Outs(Empty(budget), ops) == PlainOuts(Plain(budget, []), ops)
  {
    hide Good, Step, PlainStep, PlainOf;
    if ops == [] {
      EmptyGood(budget);
    } else {
      RunRefines(budget, ops[..|ops| - 1]);
      StepRefines(Run(Empty(budget), ops[..|ops| - 1]), ops[|ops| - 1]);
    }
  }

  // ---- the slot queue

  /** Every store weighs at least `w`, and every budget is at most `limit`. */
  predicate Bounded(ops: seq<Op>, w: nat, limit: nat) {
    forall i :: 0 <= i < |ops| ==> OpBounded(ops[i], w, limit)
  }

  predicate OpBounded(op: Op, w: nat, limit: nat) {
    && (op.PutOp? ==> op.weight >= w)
    && (op.ResizeOp? ==> PerShard(op.cfg.sizeBytes) <= limit)
  }

  predicate Heavy(v: Listing, w: nat) {
    forall i :: 0 <= i < |v| ==> v[i].1.weight >= w
  }

  lemma {:induction false} HeavyCount(v: Listing, w: nat)
    requires Heavy(v, w)
    ensures |v| * w <= Total(v)
  {
    if v != [] {
      HeavyCount(v[1..], w);
      assert |v| * w == |v[1..]| * w + w;
    }
  }

  lemma {:induction false} HeavyWithout(v: Listing, k: Key, w: nat)
    requires Heavy(v, w)
    ensures Heavy(Without(v, k), w)
  {
    if v != [] {
      HeavyWithout(v[1..], k, w);
    }
  }

  lemma {:induction false} HeavyReplaced(v: Listing, k: Key, e: Entry, w: nat)
    requires Heavy(v, w) && ((k, e) in v || e.weight >= w)
    ensures Heavy(Replaced(v, k, e), w)
  {
    assert e.weight >= w;
    if v != [] {
      HeavyReplaced(v[1..], k, e, w);
    }
  }

  lemma {:induction false} HeavyTrim(v: Listing, budget: nat, w: nat)
    requires Heavy(v, w)
    ensures Heavy(Trim(v, budget), w)
  {
    if v != [] {
      HeavyTrim(v[1..], budget, w);
    }
  }

  lemma HeavyFind(v: Listing, k: Key, w: nat)
    requires Heavy(v, w) && Find(v, k).Some?
    ensures Find(v, k).value.weight >= w
  {
    FindMember(v, k);
  }

  lemma PlainHeavy(p: Plain, op: Op, w: nat, limit: nat)
    requires Heavy(p.list, w) && OpBounded(op, w, limit)
    ensures Heavy(PlainStep(p, op).0.list, w)
  {
    hide Without, Replaced, Trim, Find, Dead, Claims, Expired, Heavy, PerShard;
    match op
    case PutOp(cfg, k, msg, now, ttl, weight) =>
      if ttl.Some? {
        var e := Entry(msg, now, ttl.value, weight, 0, false, 0);
        HeavyWithout(p.list, k, w);
        HeavyAppend(Without(p.list, k), (k, e), w);
        HeavyTrim(Without(p.list, k) + [(k, e)], p.budget, w);
      }
    case GetOp(cfg, k, now) =>
      HeavyWithout(p.list, k, w);
      if Find(p.list, k).Some? {
        HeavyFind(p.list, k, w);
        var e := Counted(Find(p.list, k).value);
        HeavyReplaced(p.list, k, e.(refreshing := e.refreshing || Claims(e, cfg, now)), w);
      }
    case EndOp(k) =>
      if Find(p.list, k).Some? {
        HeavyFind(p.list, k, w);
        HeavyReplaced(p.list, k, Find(p.list, k).value.(refreshing := false), w);
      }
    case ResizeOp(cfg) =>
      HeavyTrim(p.list, PerShard(cfg.sizeBytes), w);
    case ClearOp => HeavyNone(w);
  }

  lemma HeavyNone(w: nat)
    ensures Heavy([], w)
  {
  }

  lemma HeavyAppend(v: Listing, item: (Key, Entry), w: nat)
    requires Heavy(v, w) && item.1.weight >= w
    ensures Heavy(v + [item], w)
  {
  }

  /** How long the queue can get: two slots for each entry that can fit and one more, and the slack. */
  function QueueLimit(w: nat, limit: nat): nat
    requires w > 0
  {
    2 * (limit / w + 1) + COMPACT_SLACK
  }

  ghost predicate Slim(s: State, w: nat, limit: nat)
    requires w > 0
  {
    && Good(s) && Heavy(Erase(View(s)), w)
    && s.budget <= limit && |s.order| <= QueueLimit(w, limit)
  }

  lemma QuotientBound(n: nat, w: nat, limit: nat)
    requires w > 0 && n * w <= limit
    ensures n <= limit / w
  {
    var over := n - limit / w;
    assert over * w == n * w - limit / w * w;
    assert over * w < w;
    assert over > 0 ==> over * w >= w;
  }

  lemma FewEntries(s: State, w: nat, limit: nat)
    requires w > 0 && Slim(s, w, limit)
    ensures |s.entries| <= limit / w
  {
    hide View, Erase, Heavy, Total;
    ViewIsMap(s);
    EraseTotal(View(s));
    InvTotal(s);
    HeavyCount(Erase(View(s)), w);
    QuotientBound(|s.entries|, w, limit);
  }

  lemma SlimStep(s: State, op: Op, w: nat, limit: nat)
    requires w > 0 && Slim(s, w, limit) && OpBounded(op, w, limit)
    ensures Slim(Step(s, op).0, w, limit)
  {
    hide View, Erase, Heavy, Inv, PlainStep, Evict, Compact, Get, Put, PerShard;
    StepRefines(s, op);
    PlainHeavy(PlainOf(s), op, w, limit);
    FewEntries(s, w, limit);
    match op
    case PutOp(cfg, k, msg, now, ttl, weight) =>
      if Accepts(s, cfg, ttl, weight) {
        PutRefines(s, cfg, k, msg, now, ttl, weight);
      } else {
        PutRejected(s, cfg, k, msg, now, ttl, weight);
      }
    case GetOp(cfg, k, now) =>
      GetNoLonger(s, cfg, k, now);
    case EndOp(k) =>
    case ResizeOp(cfg) => ResizeRefines(s, cfg);
    case ClearOp =>
  }

  lemma GetNoLonger(s: State, cfg: Config, k: Key, now: nat)
    requires Inv(s)
    ensures |Get(s, cfg, k, now).0.order| <= |s.order| && Get(s, cfg, k, now).0.budget == s.budget
  {
    hide Inv, Compact, Dead;
    if cfg.sizeBytes != 0 && k in s.entries {
      GetRefines(s, cfg, k, now);
    } else {
      GetMisses(s, cfg, k, now);
    }
  }

  lemma GetMisses(s: State, cfg: Config, k: Key, now: nat)
    requires cfg.sizeBytes == 0 || k !in s.entries
    ensures Get(s, cfg, k, now) == (s, None)
  {
  }

  /** The slot queue cannot leak: over any run it stays under a constant set by the largest
      budget and the least weight stored. */
  lemma {:induction false} QueueBounded(budget: nat, ops: seq<Op>, w: nat, limit: nat)
    requires w > 0 && budget <= limit && Bounded(ops, w, limit)
    ensures Slim(Run(Empty(budget), ops), w, limit)
  {
    hide Step, OpBounded, PerShard, Good;
    if ops == [] {
      EmptyGood(budget);
    } else {
      var before := ops[..|ops| - 1];
      QueueBounded(budget, before, w, limit);
      SlimStep(Run(Empty(budget), before), ops[|ops| - 1], w, limit);
    }
  }

  // ---- refresh claims

  function Bit(b: bool): nat {
    if b then 1 else 0
  }

  /** Refreshes granted for `k`. */
  function Grants(s: State, ops: seq<Op>, k: Key): nat {
    if ops == [] then 0
    else
      var op, out := ops[|ops| - 1], Outs(s, ops)[|ops| - 1];
      Grants(s, ops[..|ops| - 1], k) + Bit(op.GetOp? && op.key == k && out.Found? && out.hit.Some? && out.hit.value.refresh)
  }

  /** Stores accepted for `k`. */
  function Stores(s: State, ops: seq<Op>, k: Key): nat {
    if ops == [] then 0
    else
      var op, out := ops[|ops| - 1], Outs(s, ops)[|ops| - 1];
      Stores(s, ops[..|ops| - 1], k) + Bit(op.PutOp? && op.key == k && out == Stored(true))
  }

  /** Claims released on `k`. */
  function Releases(ops: seq<Op>, k: Key): nat {
    if ops == [] then 0
    else Releases(ops[..|ops| - 1], k) + Bit(ops[|ops| - 1].EndOp? && ops[|ops| - 1].key == k)
  }

  /** Whether a refresh of `k` could be granted, time permitting. */
  predicate Claimable(s: State, k: Key) {
    k in s.entries && !s.entries[k].refreshing
  }

  /** One operation grants a refresh only by using up a store or a release. */
  lemma GrantStep(s: State, op: Op, k: Key)
    ensures var (t, out) := Step(s, op);
            Bit(op.GetOp? && op.key == k && out.Found? && out.hit.Some? && out.hit.value.refresh)
            + Bit(Claimable(t, k))
            <= Bit(Claimable(s, k)) + Bit(op.PutOp? && op.key == k && out == Stored(true))
               + Bit(op.EndOp? && op.key == k)
  {
    hide Evict, Retain, Expired;
    match op
    case PutOp(cfg, j, msg, now, ttl, weight) =>
      if Accepts(s, cfg, ttl, weight) {
        EvictSubset(Compact(Inserted(s, j, msg, now, ttl.value, weight)), k);
      }
    case GetOp(cfg, j, now) =>
    case EndOp(j) =>
    case ResizeOp(cfg) => EvictSubset(s.(budget := PerShard(cfg.sizeBytes)), k);
    case ClearOp =>
  }

  /** Over any run, refreshes granted for a key never exceed its stores plus its releases. */
  lemma {:induction false} GrantsBounded(s: State, ops: seq<Op>, k: Key)
    requires k !in s.entries
    ensures Grants(s, ops, k) + Bit(Claimable(Run(s, ops), k)) <= Stores(s, ops, k) + Releases(ops, k)
  {
    hide Step;
    if ops != [] {
      var before := ops[..|ops| - 1];
      GrantsBounded(s, before, k);
      GrantStep(Run(s, before), ops[|ops| - 1], k);
    }
  }

  // ---- what a hit returns

  /** The last store accepted for `k`. */
  function LastStore(s: State, ops: seq<Op>, k: Key): (last: Option<Op>)
    ensures last.Some? ==> last.value.PutOp? && last.value.key == k && last.value.ttl.Some?
  {
    if ops == [] then None
    else
      var op, out := ops[|ops| - 1], Outs(s, ops)[|ops| - 1];
      if op.PutOp? && op.key == k && op.ttl.Some? && out == Stored(true) then Some(op)
      else LastStore(s, ops[..|ops| - 1], k)
  }

  /** The entry was put there by `op`; lookups and refreshes have changed nothing but its flags. */
  predicate FromStore(e: Entry, op: Op) {
    op.PutOp? && op.ttl.Some?
    && e == Entry(op.msg, op.now, op.ttl.value, op.weight, e.hits, e.refreshing, e.stamp)
  }

  /** No step alters what is stored under a key except a store to that key. */
  lemma OriginKept(s: State, op: Op, k: Key)
    requires k in Step(s, op).0.entries
    ensures var e := Step(s, op).0.entries[k];
            if op.PutOp? && op.key == k && Step(s, op).1 == Stored(true) then FromStore(e, op)
            else k in s.entries && e == s.entries[k].(hits := e.hits, refreshing := e.refreshing)
  {
    hide Evict, Retain, Expired, Claims;
    match op
    case PutOp(cfg, j, msg, now, ttl, weight) =>
      if Accepts(s, cfg, ttl, weight) {
        EvictSubset(Compact(Inserted(s, j, msg, now, ttl.value, weight)), k);
      }
    case GetOp(cfg, j, now) =>
    case EndOp(j) =>
    case ResizeOp(cfg) => EvictSubset(s.(budget := PerShard(cfg.sizeBytes)), k);
    case ClearOp =>
  }

  lemma {:induction false} EntryFromLastStore(s: State, ops: seq<Op>, k: Key)
    requires k !in s.entries && k in Run(s, ops).entries
    ensures LastStore(s, ops, k).Some? && FromStore(Run(s, ops).entries[k], LastStore(s, ops, k).value)
  {
    hide Step;
    var before, op := ops[..|ops| - 1], ops[|ops| - 1];
    OriginKept(Run(s, before), op, k);
    AcceptedHasTtl(Run(s, before), op);
    if !(op.PutOp? && op.key == k && Step(Run(s, before), op).1 == Stored(true)) {
      EntryFromLastStore(s, before, k);
    }
  }

  lemma AcceptedHasTtl(s: State, op: Op)
    ensures op.PutOp? && Step(s, op).1 == Stored(true) ==> op.ttl.Some?
  {
  }

  /** After any run, a hit is the response last stored for that key.  It is fresh exactly while
      younger than its TTL, and older it is served only in optimistic mode and within the maximum age. */
  lemma HitIsLastStored(budget: nat, ops: seq<Op>, cfg: Config, k: Key, now: nat)
    ensures var hit := Get(Run(Empty(budget), ops), cfg, k, now).1;
            hit.Some? ==>
              LastStore(Empty(budget), ops, k).Some?
              && var put := LastStore(Empty(budget), ops, k).value; var age := Minus(now, put.now);
                 && hit.value.msg == put.msg
                 && (hit.value.freshness == Fresh <==> age < put.ttl.value)
                 && (age >= put.ttl.value ==> cfg.optimistic && age <= cfg.maxAge)
  {
    hide Step, Compact, Claims;
    if Get(Run(Empty(budget), ops), cfg, k, now).1.Some? {
      EntryFromLastStore(Empty(budget), ops, k);
    }
  }

  // ---- when a lookup hits, and when it asks for a refresh

  /** After any run, a lookup hits exactly when the key is held and its response is younger than its
      TTL or may be served stale; otherwise it drops the entry.  No other entry is touched. */
  lemma HitsExactly(budget: nat, ops: seq<Op>, cfg: Config, k: Key, now: nat)
    ensures var s := Run(Empty(budget), ops); var (t, hit) := Get(s, cfg, k, now);
            if cfg.sizeBytes == 0 || k !in s.entries then t == s && hit.None?
            else
              LastStore(Empty(budget), ops, k).Some?
              && var put := LastStore(Empty(budget), ops, k).value; var age := Minus(now, put.now);
                 (hit.Some? <==> age < put.ttl.value || (cfg.optimistic && age <= cfg.maxAge))
                 && t.entries.Keys == (if hit.Some? then s.entries.Keys else s.entries.Keys - {k})
                 && forall j :: j in t.entries && j != k ==> t.entries[j] == s.entries[j]
  {
    hide Step, Claims, Counted;
    var s := Run(Empty(budget), ops);
    if cfg.sizeBytes != 0 && k in s.entries {
      EntryFromLastStore(Empty(budget), ops, k);
      CompactKeepsEntries(Dropped(s, k));
      hide Compact;
    }
  }

  lemma CompactKeepsEntries(s: State)
    ensures Compact(s).entries == s.entries
  {
    hide Retain;
  }

  /** Hits on `k` since its last accepted store. */
  function HitsSince(s: State, ops: seq<Op>, k: Key): nat {
    if ops == [] then 0
    else
      var op, out, before := ops[|ops| - 1], Outs(s, ops)[|ops| - 1], HitsSince(s, ops[..|ops| - 1], k);
      if op.PutOp? && op.key == k && out == Stored(true) then 0
      else before + Bit(op.GetOp? && op.key == k && out.Found? && out.hit.Some?)
  }

  /** Whether a refresh of `k` was granted and neither a store nor a release came after it. */
  function Marked(s: State, ops: seq<Op>, k: Key): bool {
    if ops == [] then false
    else
      var op, out := ops[|ops| - 1], Outs(s, ops)[|ops| - 1];
      if op.PutOp? && op.key == k && out == Stored(true) then false
      else if op.EndOp? && op.key == k then false
      else if op.GetOp? && op.key == k && out.Found? && out.hit.Some? && out.hit.value.refresh then true
      else Marked(s, ops[..|ops| - 1], k)
  }

  predicate SameFlags(e: Entry, hits: nat, marked: bool) {
    e.hits == (if hits < U32_MAX then hits else U32_MAX) && e.refreshing == marked
  }

  lemma FlagsKept(s: State, op: Op, k: Key, hits: nat, marked: bool)
    requires k in s.entries ==> SameFlags(s.entries[k], hits, marked)
    requires k in Step(s, op).0.entries
    ensures var out := Step(s, op).1; var e := Step(s, op).0.entries[k];
            if op.PutOp? && op.key == k && out == Stored(true) then SameFlags(e, 0, false)
            else SameFlags(e, hits + Bit(op.GetOp? && op.key == k && out.Found? && out.hit.Some?),
                           !(op.EndOp? && op.key == k)
                           && (marked || (op.GetOp? && op.key == k && out.Found? && out.hit.Some? && out.hit.value.refresh)))
  {
    hide Evict, Retain, Expired, Claims;
    match op
    case PutOp(cfg, j, msg, now, ttl, weight) =>
      if Accepts(s, cfg, ttl, weight) {
        EvictSubset(Compact(Inserted(s, j, msg, now, ttl.value, weight)), k);
      }
    case GetOp(cfg, j, now) =>
    case EndOp(j) =>
    case ResizeOp(cfg) => EvictSubset(s.(budget := PerShard(cfg.sizeBytes)), k);
    case ClearOp =>
  }

  lemma {:induction false} FlagsCounted(s: State, ops: seq<Op>, k: Key)
    requires k !in s.entries && k in Run(s, ops).entries
    ensures SameFlags(Run(s, ops).entries[k], HitsSince(s, ops, k), Marked(s, ops, k))
  {
    hide Step, SameFlags;
    var before, op := ops[..|ops| - 1], ops[|ops| - 1];
    if k in Run(s, before).entries {
      FlagsCounted(s, before, k);
    }
    FlagsKept(Run(s, before), op, k, HitsSince(s, before, k), Marked(s, before, k));
  }

  /** After any run, a hit asks for a refresh exactly when none is under way for the entry and either
      it is past its TTL, or stale responses may be served, it was hit before, and the last tenth of
      its TTL or its last second has begun. */
  lemma RefreshesExactly(budget: nat, ops: seq<Op>, cfg: Config, k: Key, now: nat)
    ensures var hit := Get(Run(Empty(budget), ops), cfg, k, now).1;
            hit.Some? ==>
              LastStore(Empty(budget), ops, k).Some?
              && var put := LastStore(Empty(budget), ops, k).value;
                 var age, ttl := Minus(now, put.now), put.ttl.value;
                 hit.value.refresh <==>
                   !Marked(Empty(budget), ops, k)
                   && (age >= ttl
                       || (cfg.optimistic && HitsSince(Empty(budget), ops, k) >= 1
                           && (ttl <= age + ttl / 10 || ttl <= age + 1_000_000_000)))
  {
    hide Step, Compact, Run;
    if Get(Run(Empty(budget), ops), cfg, k, now).1.Some? {
      EntryFromLastStore(Empty(budget), ops, k);
      FlagsCounted(Empty(budget), ops, k);
    }
  }

  /** The shards together never exceed the configured size by more than their number, and waste less. */
  lemma BudgetsAddUp(sizeBytes: nat)
    ensures sizeBytes < 16 * (PerShard(sizeBytes) + 1)
    ensures 16 * PerShard(sizeBytes) <= if sizeBytes < 16 then 16 else sizeBytes
  {
  }
}
