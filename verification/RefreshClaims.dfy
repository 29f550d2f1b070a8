/**
 The refresh-claim protocol, across `cache.rs`, `resolver.rs` and `refresh.rs`: a lookup claims
 an entry, the resolver hands a job to the queue, and the worker ends the claim.  Every lock or
 channel operation is one step, so any interleaving is a run.  A lookup or a store carries the
 configuration it read before it took the shard's lock.
 */
module RefreshClaims {
  import opened CacheState
  import CacheRefinement

  const QUEUE: nat := 1024
  const CONCURRENT: nat := 32

  /** `deciding`, `handing` and `releasing` hold the claims resolver tasks are carrying: not yet
      past the choice to serve, on their way to the queue, or about to be given up.  `held` is the
      job the worker took off the queue and is finding a permit for. */
  datatype Protocol = Protocol(shard: State, attached: bool,
                         deciding: multiset<(Key, Freshness)>, handing: multiset<Key>,
                         releasing: multiset<Key>, queue: seq<Key>, held: Option<Key>, flying: multiset<Key>)

  datatype Event =
    | Attach
    | Lookup(cfg: Config, key: Key, now: nat)
    | Decide(key: Key, freshness: Freshness)
    | Offer(key: Key, accepted: bool)
    | Release(key: Key)
    | Take
    | Spawn
    | Land(key: Key)
    | StorePut(cfg: Config, key: Key, msg: Message, now: nat, ttl: Option<nat>, weight: nat)
    | Resized(cfg: Config)
    | ClearCache

  function Start(budget: nat, attached: bool): Protocol {
    Protocol(Empty(budget), attached, multiset{}, multiset{}, multiset{}, [], None, multiset{})
  }

  /** `try_send` accepts only while the queue has room; a full or closed queue gives the job back. */
  predicate Enabled(s: Protocol, e: Event) {
    match e
    case Decide(k, f) => (k, f) in s.deciding
    case Offer(k, accepted) => k in s.handing && (accepted ==> |s.queue| < QUEUE)
    case Release(k) => k in s.releasing
    case Take => s.held.None? && s.queue != []
    case Spawn => s.held.Some? && |s.flying| < CONCURRENT
    case Land(k) => k in s.flying
    case _ => true
  }

  function Step(s: Protocol, e: Event): Protocol
    requires Enabled(s, e)
  {
    match e
    case Attach => s.(attached := true)
    case Lookup(cfg, k, now) =>
      var (shard, hit) := Get(s.shard, cfg, k, now);
      if hit.Some? && hit.value.refresh then
        s.(shard := shard, deciding := s.deciding + multiset{(k, hit.value.freshness)})
      else s.(shard := shard)
    case Decide(k, f) =>
      var t := s.(deciding := s.deciding - multiset{(k, f)});
      if f == Fresh || s.attached then t.(handing := t.handing + multiset{k})
      else t.(releasing := t.releasing + multiset{k})
    case Offer(k, accepted) =>
      var t := s.(handing := s.handing - multiset{k});
      if !s.attached then t
      else if accepted then t.(queue := t.queue + [k])
      else t.(releasing := t.releasing + multiset{k})
    case Release(k) => s.(releasing := s.releasing - multiset{k}, shard := EndRefresh(s.shard, k))
    case Take => s.(held := Some(s.queue[0]), queue := s.queue[1..])
    case Spawn => s.(held := None, flying := s.flying + multiset{s.held.value})
    case Land(k) => s.(flying := s.flying - multiset{k}, shard := EndRefresh(s.shard, k))
    case StorePut(cfg, k, msg, now, ttl, weight) => s.(shard := Put(s.shard, cfg, k, msg, now, ttl, weight))
    case Resized(cfg) => s.(shard := Resize(s.shard, cfg))
    case ClearCache => s.(shard := Clear(s.shard))
  }

  ghost predicate Reachable(s: Protocol, budget: nat, attached: bool, n: nat)
    decreases n
  {
    if n == 0 then s == Start(budget, attached)
    else exists p, e :: Reachable(p, budget, attached, n - 1) && Enabled(p, e) && s == Step(p, e)
  }

  // ---- no claim without a job

  predicate Refreshing(s: Protocol, k: Key) {
    k in s.shard.entries && s.shard.entries[k].refreshing
  }

  /** Somebody is carrying a job for `k` and will end its claim. */
  predicate Outstanding(s: Protocol, k: Key) {
    || (k, Fresh) in s.deciding || (k, Stale) in s.deciding
    || k in s.handing || k in s.releasing || k in s.queue || s.held == Some(k) || k in s.flying
  }

  ghost predicate Inv(s: Protocol) {
    && (forall k :: Refreshing(s, k) ==> Outstanding(s, k))
    && |s.queue| <= QUEUE && |s.flying| <= CONCURRENT
  }

  lemma LookupMarks(s: Protocol, cfg: Config, j: Key, now: nat, k: Key)
    requires Refreshing(Step(s, Lookup(cfg, j, now)), k)
    ensures Refreshing(s, k) || (j == k && Outstanding(Step(s, Lookup(cfg, j, now)), k))
  {
    hide Retain, Expired, Compact, Dead, Claims, Counted;
    var t := Step(s, Lookup(cfg, j, now));
    assert t.shard == Get(s.shard, cfg, j, now).0;
    DroppedKeeps(s.shard, j, k);
    if j in s.shard.entries {
      CountedKeeps(s.shard.entries[j]);
    }
  }

  lemma CountedKeeps(e: Entry)
    ensures Counted(e).refreshing == e.refreshing
  {
  }

  lemma DroppedKeeps(t: State, j: Key, k: Key)
    ensures j in t.entries && k in Compact(Dropped(t, j)).entries ==>
              k in t.entries && Compact(Dropped(t, j)).entries[k] == t.entries[k]
  {
    hide Retain;
  }

  lemma StoreUnmarks(s: Protocol, e: Event, k: Key)
    requires e.StorePut? && Refreshing(Step(s, e), k)
    ensures Refreshing(s, k)
  {
    hide Evict, Retain;
    if Accepts(s.shard, e.cfg, e.ttl, e.weight) {
      CacheRefinement.EvictSubset(Compact(Inserted(s.shard, e.key, e.msg, e.now, e.ttl.value, e.weight)), k);
    }
  }

  /** Only a lookup that says so marks an entry; storing unmarks. */
  lemma ShardStep(s: Protocol, e: Event, k: Key)
    requires Enabled(s, e) && Refreshing(Step(s, e), k)
    ensures Refreshing(s, k) || (e.Lookup? && e.key == k && Outstanding(Step(s, e), k))
  {
    hide *;
    match e
    case Lookup(cfg, j, now) => LookupMarks(s, cfg, j, now, k);
    case StorePut(_, _, _, _, _, _) => StoreUnmarks(s, e, k);
    case Resized(cfg) => ResizeUnmarks(s, cfg, k);
    case _ => OthersUnmark(s, e, k);
  }

  lemma ResizeUnmarks(s: Protocol, cfg: Config, k: Key)
    requires Refreshing(Step(s, Resized(cfg)), k)
    ensures Refreshing(s, k)
  {
    hide Evict;
    CacheRefinement.EvictSubset(s.shard.(budget := PerShard(cfg.sizeBytes)), k);
  }

  lemma OthersUnmark(s: Protocol, e: Event, k: Key)
    requires Enabled(s, e) && !e.Lookup? && !e.StorePut? && !e.Resized? && Refreshing(Step(s, e), k)
    ensures Refreshing(s, k)
  {
    hide *;
    if e.Release? || e.Land? {
      EndUnmarks(s, e, k);
    } else {
      RestKeepShard(s, e);
      ShardDecides(s, Step(s, e), k);
    }
  }

  lemma EndUnmarks(s: Protocol, e: Event, k: Key)
    requires Enabled(s, e) && (e.Release? || e.Land?) && Refreshing(Step(s, e), k)
    ensures Refreshing(s, k)
  {
    hide Get, Put, Resize;
  }

  lemma RestKeepShard(s: Protocol, e: Event)
    requires Enabled(s, e) && !e.Lookup? && !e.StorePut? && !e.Resized? && !e.Release? && !e.Land?
    ensures Step(s, e).shard == s.shard || Step(s, e).shard == Clear(s.shard)
  {
    hide Get, Put, Resize, Clear, EndRefresh;
  }

  lemma ShardDecides(s: Protocol, t: Protocol, k: Key)
    requires t.shard == s.shard || t.shard == Clear(s.shard)
    ensures Refreshing(t, k) ==> Refreshing(s, k)
  {
  }

  /** With the sender attached, nothing but the end of a claim loses a job. */
  lemma JobKept(s: Protocol, e: Event, k: Key)
    requires Enabled(s, e) && s.attached && !e.Release? && !e.Land?
    requires Outstanding(s, k)
    ensures Outstanding(Step(s, e), k)
  {
    hide Get, Put, Resize, Clear;
    if e.Take? {
      assert s.queue == [s.queue[0]] + s.queue[1..];
    } else if e.Decide? {
      DecideKept(s, e.key, e.freshness, k);
    } else if e.Offer? {
      OfferKept(s, e.key, e.accepted, k);
    } else {
      PlainKept(s, e, k);
    }
  }

  lemma DecideKept(s: Protocol, j: Key, f: Freshness, k: Key)
    requires Enabled(s, Decide(j, f)) && Outstanding(s, k)
    ensures Outstanding(Step(s, Decide(j, f)), k)
  {
    var t := Step(s, Decide(j, f));
    assert (k, Fresh) in s.deciding && (j, f) != (k, Fresh) ==> (k, Fresh) in t.deciding;
    assert (k, Stale) in s.deciding && (j, f) != (k, Stale) ==> (k, Stale) in t.deciding;
  }

  lemma OfferKept(s: Protocol, j: Key, accepted: bool, k: Key)
    requires Enabled(s, Offer(j, accepted)) && s.attached && Outstanding(s, k)
    ensures Outstanding(Step(s, Offer(j, accepted)), k)
  {
    QueuePushed(s.queue, j, k);
    assert k in s.handing && k != j ==> k in s.handing - multiset{j};
  }

  lemma PlainKept(s: Protocol, e: Event, k: Key)
    requires Enabled(s, e) && Outstanding(s, k)
    requires !e.Release? && !e.Land? && !e.Take? && !e.Decide? && !e.Offer?
    ensures Outstanding(Step(s, e), k)
  {
    hide Get, Put, Resize, Clear;
  }

  lemma QueuePushed(q: seq<Key>, j: Key, k: Key)
    ensures k in q + [j] <==> k in q || k == j
  {
  }

  /** The steps that lose a job end its claim at once. */
  lemma JobEnds(s: Protocol, e: Event, k: Key)
    requires Enabled(s, e) && (e.Release? || e.Land?) && Outstanding(s, k)
    ensures Outstanding(Step(s, e), k) || !Refreshing(Step(s, e), k)
  {
    hide Get, Put, Resize, Clear;
    if e.key != k {
      assert (k in s.releasing ==> k in s.releasing - multiset{e.key});
      assert (k in s.flying ==> k in s.flying - multiset{e.key});
    }
  }

  lemma InvStep(s: Protocol, e: Event)
    requires Inv(s) && s.attached && Enabled(s, e)
    ensures Inv(Step(s, e)) && Step(s, e).attached
  {
    hide Get, Put, Resize, Clear, Outstanding, Refreshing, EndRefresh;
    forall k | Refreshing(Step(s, e), k) ensures Outstanding(Step(s, e), k) {
      ShardStep(s, e, k);
      if Refreshing(s, k) {
        if e.Release? || e.Land? {
          JobEnds(s, e, k);
        } else {
          JobKept(s, e, k);
        }
      }
    }
  }

  /** With the sender attached before the first lookup, an entry marked refreshing always has a
      job for its key being handed over, queued or in flight. */
  lemma {:induction false} ClaimsHaveJobs(s: Protocol, budget: nat, n: nat)
    requires Reachable(s, budget, true, n)
    ensures Inv(s) && s.attached
    decreases n
  {
    hide Step, Enabled, Outstanding;
    if n > 0 {
      var p, e :| Reachable(p, budget, true, n - 1) && Enabled(p, e) && s == Step(p, e);
      ClaimsHaveJobs(p, budget, n - 1);
      InvStep(p, e);
    }
  }

  // ---- with a sender, nothing is locked out

  ghost predicate Runs(s: Protocol, es: seq<Event>)
    decreases |es|
  {
    es == [] || (Enabled(s, es[0]) && Runs(Step(s, es[0]), es[1..]))
  }

  function After(s: Protocol, es: seq<Event>): Protocol
    requires Runs(s, es)
    decreases |es|
  {
    if es == [] then s else After(Step(s, es[0]), es[1..])
  }

  predicate Idle(s: Protocol) {
    s.deciding == multiset{} && s.handing == multiset{} && s.releasing == multiset{}
    && s.queue == [] && s.held.None? && s.flying == multiset{}
  }

  /** The steps that carry a job on. */
  predicate JobStep(e: Event) {
    e.Decide? || e.Offer? || e.Release? || e.Take? || e.Spawn? || e.Land?
  }

  /** Steps still to be taken by jobs already under way. */
  function Work(s: Protocol): nat {
    6 * |s.deciding| + 5 * |s.handing| + |s.releasing| + 4 * |s.queue| + (if s.held.Some? then 3 else 0) + 2 * |s.flying|
  }

  lemma OfferWorks(s: Protocol, k: Key, accepted: bool)
    requires Enabled(s, Offer(k, accepted))
    ensures Work(Step(s, Offer(k, accepted))) < Work(s)
  {
  }

  lemma DecideWorks(s: Protocol, k: Key, f: Freshness)
    requires Enabled(s, Decide(k, f))
    ensures Work(Step(s, Decide(k, f))) < Work(s)
  {
  }

  lemma EndWorks(s: Protocol, e: Event)
    requires Enabled(s, e) && (e.Land? || e.Release?)
    ensures Work(Step(s, e)) < Work(s)
  {
    hide EndRefresh;
  }

  /** Each job step leaves fewer to be taken, and only a lookup adds any. */
  lemma WorkFalls(s: Protocol, e: Event)
    requires Enabled(s, e)
    ensures if JobStep(e) then Work(Step(s, e)) < Work(s)
            else Work(Step(s, e)) <= Work(s) + if e.Lookup? then 6 else 0
  {
    hide Get, Put, Resize, Clear, EndRefresh;
    match e
    case Offer(k, accepted) => OfferWorks(s, k, accepted);
    case Decide(k, f) => DecideWorks(s, k, f);
    case Land(_) => EndWorks(s, e);
    case Release(_) => EndWorks(s, e);
    case _ =>
  }

  function JobSteps(es: seq<Event>): nat {
    if es == [] then 0 else JobSteps(es[1..]) + if JobStep(es[0]) then 1 else 0
  }

  function Lookups(es: seq<Event>): nat {
    if es == [] then 0 else Lookups(es[1..]) + if es[0].Lookup? then 1 else 0
  }

  /** No schedule keeps the jobs busy for ever: each lookup pays for at most six job steps. */
  lemma {:induction false} JobsRunOut(s: Protocol, es: seq<Event>)
    requires Runs(s, es)
    ensures JobSteps(es) + Work(After(s, es)) <= Work(s) + 6 * Lookups(es)
    decreases |es|
  {
    hide Step, Enabled, Work, JobStep;
    if es != [] {
      WorkFalls(s, es[0]);
      JobsRunOut(Step(s, es[0]), es[1..]);
    }
  }

  ghost predicate Stuck(s: Protocol) {
    forall e :: JobStep(e) ==> !Enabled(s, e)
  }

  /** Jobs never block each other: no job step is possible exactly when no job is left.  A landing
      frees a permit, a permit frees the worker's hand, a free hand frees the queue, and a full
      queue sends the job back. */
  lemma StuckIsIdle(s: Protocol)
    ensures Stuck(s) <==> Idle(s)
  {
    if s.flying != multiset{} {
      var k :| k in s.flying;
      assert Enabled(s, Land(k));
    } else if s.held.Some? {
      assert Enabled(s, Spawn);
    } else if s.queue != [] {
      assert Enabled(s, Take);
    } else if s.releasing != multiset{} {
      var k :| k in s.releasing;
      assert Enabled(s, Release(k));
    } else if s.handing != multiset{} {
      var k :| k in s.handing;
      assert Enabled(s, Offer(k, false));
    } else if s.deciding != multiset{} {
      var d :| d in s.deciding;
      assert Enabled(s, Decide(d.0, d.1));
    }
  }

  lemma {:induction false} StillReachable(s: Protocol, budget: nat, attached: bool, n: nat, es: seq<Event>)
    requires Reachable(s, budget, attached, n) && Runs(s, es)
    ensures Reachable(After(s, es), budget, attached, n + |es|)
    decreases |es|
  {
    hide Step, Enabled;
    if es != [] {
      StillReachable(Step(s, es[0]), budget, attached, n + 1, es[1..]);
    }
  }

  lemma IdleUnmarked(s: Protocol, k: Key)
    requires Inv(s) && Idle(s)
    ensures !Refreshing(s, k)
  {
  }

  /** So no entry is locked out.  Whatever happens after a reachable state, the job steps are
      bounded by the work there was and the lookups since; and whenever none is left to take,
      nothing is marked refreshing. */
  lemma NoneLockedOut(s: Protocol, budget: nat, n: nat, es: seq<Event>)
    requires Reachable(s, budget, true, n) && Runs(s, es)
    ensures JobSteps(es) <= Work(s) + 6 * Lookups(es)
    ensures Stuck(After(s, es)) ==> forall k :: !Refreshing(After(s, es), k)
  {
    hide Step, Enabled, Reachable, Runs, Refreshing, Work, JobSteps, Lookups, Idle, Inv, After, JobStep;
    StillReachable(s, budget, true, n, es);
    ClaimsHaveJobs(After(s, es), budget, n + |es|);
    JobsRunOut(s, es);
    StuckIsIdle(After(s, es));
    if Stuck(After(s, es)) {
      forall k ensures !Refreshing(After(s, es), k) {
        IdleUnmarked(After(s, es), k);
      }
    }
  }

  /** From any state the jobs under way can run out by themselves. */
  lemma {:induction false} Drains(s: Protocol) returns (es: seq<Event>)
    ensures Runs(s, es) && Idle(After(s, es)) && |es| <= Work(s)
    ensures forall i :: 0 <= i < |es| ==> JobStep(es[i])
    decreases Work(s)
  {
    hide Step, Enabled, Work, JobStep;
    if Idle(s) {
      es := [];
    } else {
      StuckIsIdle(s);
      var e :| JobStep(e) && Enabled(s, e);
      WorkFalls(s, e);
      var rest := Drains(Step(s, e));
      es := [e] + rest;
      assert es[1..] == rest;
    }
  }

  // ---- without a sender

  /** An entry marked refreshing with no job to end its claim. */
  predicate LockedOut(s: Protocol, k: Key) {
    Refreshing(s, k) && !Outstanding(s, k)
  }

  /** A lockout lasts until the entry is stored again or leaves the cache: nothing refreshes it. */
  lemma LockoutLasts(s: Protocol, e: Event, k: Key)
    requires LockedOut(s, k) && Enabled(s, e)
    ensures var t := Step(s, e);
            if e.StorePut? && e.key == k && Accepts(s.shard, e.cfg, e.ttl, e.weight) then !Refreshing(t, k)
            else LockedOut(t, k) || k !in t.shard.entries
  {
    hide *;
    match e
    case Lookup(cfg, j, now) => LookupLeaves(s, cfg, j, now, k);
    case StorePut(cfg, j, msg, now, ttl, weight) => StoreLeaves(s, e, k);
    case Resized(cfg) => ResizeLeaves(s, cfg, k);
    case _ => OthersLeave(s, e, k);
  }

  lemma LookupLeaves(s: Protocol, cfg: Config, j: Key, now: nat, k: Key)
    requires LockedOut(s, k)
    ensures var t := Step(s, Lookup(cfg, j, now)); LockedOut(t, k) || k !in t.shard.entries
  {
    hide Get;
    GetSparesMarked(s.shard, cfg, j, now, k);
  }

  lemma GetSparesMarked(t: State, cfg: Config, j: Key, now: nat, k: Key)
    requires k in t.entries && t.entries[k].refreshing
    ensures var (u, hit) := Get(t, cfg, j, now);
            && (k in u.entries ==> u.entries[k].refreshing)
            && (hit.Some? && hit.value.refresh ==> j != k)
  {
    hide Retain, Expired, Compact, Dead, Counted, Claims;
    DroppedKeeps(t, j, k);
    if j in t.entries {
      CountedKeeps(t.entries[j]);
      NoSecondClaim(Counted(t.entries[j]), cfg, now);
    }
  }

  lemma NoSecondClaim(e: Entry, cfg: Config, now: nat)
    ensures e.refreshing ==> !Claims(e, cfg, now)
  {
  }

  lemma StoreLeaves(s: Protocol, e: Event, k: Key)
    requires LockedOut(s, k) && e.StorePut?
    ensures var t := Step(s, e);
            if e.key == k && Accepts(s.shard, e.cfg, e.ttl, e.weight) then !Refreshing(t, k)
            else LockedOut(t, k) || k !in t.shard.entries
  {
    hide Evict, Retain;
    if Accepts(s.shard, e.cfg, e.ttl, e.weight) {
      CacheRefinement.EvictSubset(Compact(Inserted(s.shard, e.key, e.msg, e.now, e.ttl.value, e.weight)), k);
    }
  }

  lemma ResizeLeaves(s: Protocol, cfg: Config, k: Key)
    requires LockedOut(s, k)
    ensures var t := Step(s, Resized(cfg)); LockedOut(t, k) || k !in t.shard.entries
  {
    hide Evict;
    CacheRefinement.EvictSubset(s.shard.(budget := PerShard(cfg.sizeBytes)), k);
  }

  lemma OthersLeave(s: Protocol, e: Event, k: Key)
    requires LockedOut(s, k) && Enabled(s, e) && !e.Lookup? && !e.StorePut? && !e.Resized?
    ensures var t := Step(s, e); LockedOut(t, k) || k !in t.shard.entries
  {
    hide *;
    NoNewJob(s, e, k);
    MarkKept(s, e, k);
  }

  lemma NoNewJob(s: Protocol, e: Event, k: Key)
    requires LockedOut(s, k) && Enabled(s, e) && !e.Lookup? && !e.StorePut? && !e.Resized?
    ensures !Outstanding(Step(s, e), k) && (e.Land? || e.Release? ==> e.key != k)
    ensures LockedOut(Step(s, e), k) <==> Refreshing(Step(s, e), k)
  {
    hide *;
    if e.Decide? {
      DecidesOld(s, e, k);
    } else if e.Offer? {
      OffersOld(s, e, k);
    } else {
      WorkerMovesOld(s, e, k);
    }
  }

  lemma DecidesOld(s: Protocol, e: Event, k: Key)
    requires LockedOut(s, k) && Enabled(s, e) && e.Decide?
    ensures !Outstanding(Step(s, e), k)
    ensures LockedOut(Step(s, e), k) <==> Refreshing(Step(s, e), k)
  {
    hide Get, Put, Resize, Clear, EndRefresh, Refreshing;
  }

  lemma OffersOld(s: Protocol, e: Event, k: Key)
    requires LockedOut(s, k) && Enabled(s, e) && e.Offer?
    ensures !Outstanding(Step(s, e), k)
    ensures LockedOut(Step(s, e), k) <==> Refreshing(Step(s, e), k)
  {
    hide Get, Put, Resize, Clear, EndRefresh, Refreshing;
  }

  lemma WorkerMovesOld(s: Protocol, e: Event, k: Key)
    requires LockedOut(s, k) && Enabled(s, e)
    requires !e.Lookup? && !e.StorePut? && !e.Resized? && !e.Decide? && !e.Offer?
    ensures !Outstanding(Step(s, e), k) && (e.Land? || e.Release? ==> e.key != k)
    ensures LockedOut(Step(s, e), k) <==> Refreshing(Step(s, e), k)
  {
    hide Get, Put, Resize, Clear, EndRefresh, Refreshing;
  }

  lemma MarkKept(s: Protocol, e: Event, k: Key)
    requires LockedOut(s, k) && Enabled(s, e) && !e.Lookup? && !e.StorePut? && !e.Resized?
    requires e.Land? || e.Release? ==> e.key != k
    ensures Refreshing(Step(s, e), k) || k !in Step(s, e).shard.entries
  {
    hide Get, Put, Resize, Outstanding;
  }

  // ---- under one configuration

  /** An operation of a resolver that is always configured with `cfg`, whose responses all weigh
      at least `w`. */
  predicate Under(e: Event, cfg: Config, w: nat) {
    match e
    case Lookup(c, _, _) => c == cfg
    case StorePut(c, _, _, _, _, weight) => c == cfg && weight >= w
    case Resized(c) => c == cfg
    case _ => true
  }

  ghost predicate ReachableUnder(s: Protocol, cfg: Config, w: nat, attached: bool, n: nat)
    decreases n
  {
    if n == 0 then s == Start(PerShard(cfg.sizeBytes), attached)
    else exists p, e :: ReachableUnder(p, cfg, w, attached, n - 1) && Enabled(p, e) && Under(e, cfg, w) && s == Step(p, e)
  }

  /** Whether a resolver with this configuration ever marks an entry: it serves stale responses,
      caches at all, and has room for a response. */
  predicate CanClaim(cfg: Config, w: nat) {
    cfg.optimistic && cfg.sizeBytes != 0 && w <= PerShard(cfg.sizeBytes)
  }

  lemma StartResized(budget: nat, cfg: Config, attached: bool)
    ensures Step(Start(budget, attached), Resized(cfg)) == Start(PerShard(cfg.sizeBytes), attached)
    ensures Reachable(Start(PerShard(cfg.sizeBytes), attached), budget, attached, 1)
  {
    assert Reachable(Start(budget, attached), budget, attached, 0);
  }

  /** Every run under one configuration is a run that resizes to it first. */
  lemma {:induction false} UnderIsReachable(s: Protocol, cfg: Config, w: nat, attached: bool, n: nat, budget: nat)
    requires ReachableUnder(s, cfg, w, attached, n)
    ensures Reachable(s, budget, attached, n + 1)
    decreases n
  {
    hide Step, Enabled, Start, Under;
    if n == 0 {
      StartResized(budget, cfg, attached);
    } else {
      var p, e :| ReachableUnder(p, cfg, w, attached, n - 1) && Enabled(p, e) && Under(e, cfg, w) && s == Step(p, e);
      UnderIsReachable(p, cfg, w, attached, n - 1, budget);
    }
  }

  /** Nothing is marked, and nothing is held either when nothing can be. */
  ghost predicate Unmarked(s: Protocol, cfg: Config, w: nat) {
    && s.shard.budget == PerShard(cfg.sizeBytes)
    && (forall k :: !Refreshing(s, k))
    && (cfg.sizeBytes == 0 || w > PerShard(cfg.sizeBytes) ==> s.shard.entries == map[])
  }

  lemma {:induction false} EvictKeepsBudget(t: State)
    ensures Evict(t).budget == t.budget
    decreases |t.order|
  {
    if t.bytes > t.budget && t.order != [] {
      EvictKeepsBudget(EvictOne(t));
    }
  }

  lemma {:induction false} EvictNothing(t: State)
    requires t.entries == map[]
    ensures Evict(t).entries == map[]
    decreases |t.order|
  {
    if t.bytes > t.budget && t.order != [] {
      EvictNothing(EvictOne(t));
    }
  }

  lemma LookupUnclaimed(s: Protocol, cfg: Config, w: nat, j: Key, now: nat, k: Key)
    requires Unmarked(s, cfg, w) && !CanClaim(cfg, w)
    ensures var t := Step(s, Lookup(cfg, j, now));
            && !Refreshing(t, k) && t.shard.budget == s.shard.budget
            && (s.shard.entries == map[] ==> t.shard.entries == map[])
  {
    hide Retain, Compact;
    assert !Refreshing(s, j) && !Refreshing(s, k);
    DroppedKeeps(s.shard, j, k);
    CompactKeepsBudget(s.shard, j);
  }

  lemma CompactKeepsBudget(t: State, j: Key)
    ensures j in t.entries ==> Compact(Dropped(t, j)).budget == t.budget
  {
    hide Retain;
  }

  lemma StoreUnclaimed(s: Protocol, cfg: Config, w: nat, e: Event)
    requires Unmarked(s, cfg, w) && !CanClaim(cfg, w) && e.StorePut? && Under(e, cfg, w)
    ensures var t := Step(s, e).shard;
            && t.budget == s.shard.budget
            && (cfg.sizeBytes == 0 || w > PerShard(cfg.sizeBytes) ==> t == s.shard)
  {
    hide Evict, Retain;
    if Accepts(s.shard, cfg, e.ttl, e.weight) {
      EvictKeepsBudget(Compact(Inserted(s.shard, e.key, e.msg, e.now, e.ttl.value, e.weight)));
    }
  }

  lemma ResizeUnclaimed(t: State, cfg: Config)
    ensures Resize(t, cfg).budget == PerShard(cfg.sizeBytes)
    ensures t.entries == map[] ==> Resize(t, cfg).entries == map[]
  {
    hide Evict;
    EvictKeepsBudget(t.(budget := PerShard(cfg.sizeBytes)));
    if t.entries == map[] {
      EvictNothing(t.(budget := PerShard(cfg.sizeBytes)));
    }
  }

  lemma OthersUnclaimed(s: Protocol, cfg: Config, w: nat, e: Event)
    requires Unmarked(s, cfg, w) && Enabled(s, e) && Under(e, cfg, w) && !e.Lookup? && !e.StorePut?
    ensures var t := Step(s, e).shard;
            t.budget == s.shard.budget && (s.shard.entries == map[] ==> t.entries == map[])
  {
    hide Get, Put, Resize, Refreshing, PerShard;
    ResizeUnclaimed(s.shard, cfg);
  }

  lemma UnmarkedStep(s: Protocol, cfg: Config, w: nat, e: Event)
    requires Unmarked(s, cfg, w) && !CanClaim(cfg, w) && Enabled(s, e) && Under(e, cfg, w)
    ensures Unmarked(Step(s, e), cfg, w)
  {
    hide Step, Refreshing, Outstanding, PerShard, Enabled;
    forall k ensures !Refreshing(Step(s, e), k) {
      if e.Lookup? {
        LookupUnclaimed(s, cfg, w, e.key, e.now, k);
      } else if Refreshing(Step(s, e), k) {
        ShardStep(s, e, k);
      }
    }
    if e.Lookup? {
      LookupUnclaimed(s, cfg, w, e.key, e.now, e.key);
    } else if e.StorePut? {
      StoreUnclaimed(s, cfg, w, e);
    } else {
      OthersUnclaimed(s, cfg, w, e);
    }
  }

  lemma {:induction false} NeverMarked(s: Protocol, cfg: Config, w: nat, attached: bool, n: nat)
    requires ReachableUnder(s, cfg, w, attached, n) && !CanClaim(cfg, w)
    ensures Unmarked(s, cfg, w)
    decreases n
  {
    hide Step, Enabled, Under, CanClaim;
    if n > 0 {
      var p, e :| ReachableUnder(p, cfg, w, attached, n - 1) && Enabled(p, e) && Under(e, cfg, w) && s == Step(p, e);
      NeverMarked(p, cfg, w, attached, n - 1);
      UnmarkedStep(p, cfg, w, e);
    }
  }

  const NAME: Key := Key("a", 1, 1, false, None)

  /** No sender, no jobs, and one entry in the cache. */
  function With(cfg: Config, e: Entry): Protocol {
    var budget := PerShard(cfg.sizeBytes);
    Start(budget, false).(shard := State(map[NAME := e], [Slot(0, NAME)], e.weight, budget, 1))
  }

  function Short(w: nat): Entry {
    Entry(Message(0), 0, SECOND, w, 0, false, 0)
  }

  lemma FirstLookups(cfg: Config, w: nat)
    requires CanClaim(cfg, w)
    ensures var e0 := Short(w); var e1 := e0.(hits := 1); var e2 := e0.(hits := 2, refreshing := true);
            && Get(With(cfg, e0).shard, cfg, NAME, 0) == (With(cfg, e1).shard, Some(Hit(Message(0), Fresh, false)))
            && Get(With(cfg, e1).shard, cfg, NAME, 0) == (With(cfg, e2).shard, Some(Hit(Message(0), Fresh, true)))
  {
    var e0 := Short(w);
    var e1 := e0.(hits := 1);
    assert map[NAME := e0][NAME := e1] == map[NAME := e1];
    assert map[NAME := e1][NAME := e0.(hits := 2, refreshing := true)] == map[NAME := e0.(hits := 2, refreshing := true)];
    assert Minus(0, 0) == 0 && Minus(SECOND, 0) == SECOND;
    assert Counted(e1) == e0.(hits := 2);
    assert !Claims(e1, cfg, 0) && Claims(e0.(hits := 2), cfg, 0);
  }

  lemma FirstStore(cfg: Config, w: nat)
    requires CanClaim(cfg, w)
    ensures ReachableUnder(With(cfg, Short(w)), cfg, w, false, 1)
  {
    var s0 := Start(PerShard(cfg.sizeBytes), false);
    assert Step(s0, StorePut(cfg, NAME, Message(0), 0, Some(SECOND), w)) == With(cfg, Short(w));
    assert ReachableUnder(s0, cfg, w, false, 0);
  }

  lemma Extend(p: Protocol, e: Event, cfg: Config, w: nat, n: nat)
    requires ReachableUnder(p, cfg, w, false, n) && Enabled(p, e) && Under(e, cfg, w)
    ensures ReachableUnder(Step(p, e), cfg, w, false, n + 1)
  {
  }

  /** A fresh entry about to expire is claimed on its second lookup; with no sender attached the
      job is dropped and the claim stays. */
  lemma LeakWithoutSender(cfg: Config, w: nat) returns (s: Protocol)
    requires CanClaim(cfg, w)
    ensures ReachableUnder(s, cfg, w, false, 5) && LockedOut(s, NAME)
  {
    hide ReachableUnder, Get, Put, EndRefresh, Resize, PerShard;
    var e0 := Short(w);
    var s1, s2, s3 := With(cfg, e0), With(cfg, e0.(hits := 1)), With(cfg, e0.(hits := 2, refreshing := true));
    FirstStore(cfg, w);
    FirstLookups(cfg, w);
    assert Step(s1, Lookup(cfg, NAME, 0)) == s2;
    Extend(s1, Lookup(cfg, NAME, 0), cfg, w, 1);
    s3 := s3.(deciding := multiset{(NAME, Fresh)});
    assert Step(s2, Lookup(cfg, NAME, 0)) == s3;
    Extend(s2, Lookup(cfg, NAME, 0), cfg, w, 2);
    var s4 := s3.(deciding := multiset{}, handing := multiset{NAME});
    assert Step(s3, Decide(NAME, Fresh)) == s4;
    Extend(s3, Decide(NAME, Fresh), cfg, w, 3);
    s := s4.(handing := multiset{});
    assert Step(s4, Offer(NAME, false)) == s;
    Extend(s4, Offer(NAME, false), cfg, w, 4);
  }

  /** Under one configuration no run locks an entry out, exactly when the sender is attached before
      the first lookup, or stale responses are never served, or no response fits a shard. */
  lemma NoLockoutIff(cfg: Config, w: nat, attached: bool)
    ensures (forall s, n: nat, k :: ReachableUnder(s, cfg, w, attached, n) ==> !LockedOut(s, k))
            <==> attached || !CanClaim(cfg, w)
  {
    hide ReachableUnder, Reachable, Refreshing, Outstanding, CanClaim, PerShard;
    forall s, n: nat, k | ReachableUnder(s, cfg, w, attached, n) && (attached || !CanClaim(cfg, w))
      ensures !LockedOut(s, k)
    {
      if attached {
        UnderIsReachable(s, cfg, w, true, n, 0);
        ClaimsHaveJobs(s, 0, n + 1);
      } else {
        NeverMarked(s, cfg, w, attached, n);
      }
    }
    if !attached && CanClaim(cfg, w) {
      var s := LeakWithoutSender(cfg, w);
    }
  }

  /** When the configuration may change, the sender is what decides, wherever the run starts. */
  lemma NoLockoutIffAttached(budget: nat, attached: bool)
    ensures (forall s, n: nat, k :: Reachable(s, budget, attached, n) ==> !LockedOut(s, k)) <==> attached
  {
    hide ReachableUnder, Reachable, Refreshing, Outstanding;
    if attached {
      forall s, n: nat, k | Reachable(s, budget, attached, n) ensures !LockedOut(s, k) {
        ClaimsHaveJobs(s, budget, n);
      }
    } else {
      var cfg := Config(SHARDS, true, 0);
      var s := LeakWithoutSender(cfg, 1);
      UnderIsReachable(s, cfg, 1, attached, 5, budget);
    }
  }
}
