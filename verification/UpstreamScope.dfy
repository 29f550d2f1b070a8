/**
 Which upstream pool answered what the resolver caches: `pool_for` and `forward` in
 `resolver.rs`, and the refreshes of `refresh.rs`, interleaved with pool replacements.
 */
module UpstreamScope {

  datatype Option<T> = None | Some(value: T)

  /** A cache key: the question, and the client's own upstreams if it has any. */
  datatype Key = Key(question: string, upstreams: Option<string>)

  /** A key with the client subnet sent along, under which requests coalesce. */
  type PendingKey = (Key, int)

  /** The pools installed at one time, by number. */
  datatype Pools = Pools(global: nat, clients: map<string, nat>)

  /** An answer, with the pool that gave it and the time that pool was chosen. */
  datatype Answer = Answer(pool: nat, era: nat, id: int)

  /** Which pool answers, and whether it belongs to these upstreams or only stands in for theirs. */
  function PoolFor(p: Pools, upstreams: Option<string>): (nat, bool) {
    if upstreams.None? then (p.global, true)
    else if upstreams.value in p.clients then (p.clients[upstreams.value], true)
    else (p.global, false)
  }

  /** A call of `forward`.  `key` is what it may store under; choosing a pool that is not its own
      clears it. */
  datatype Query = Query(asked: Option<Key>, upstreams: Option<string>, key: Option<Key>, pool: nat, own: bool,
                         era: nat, stage: Stage)

  datatype Stage =
    | Asked
    | Chosen
    | Leading(slot: PendingKey)
    | Alone
    | Following(leader: nat)
    | Exchanged(answer: Option<Answer>, lead: Option<PendingKey>)
    | Published(answer: Option<Answer>)
    | Replied(answer: Option<Answer>)

  /** `history` holds every set of pools installed so far; the last is the current one. */
  datatype State = State(history: seq<Pools>, inflight: map<PendingKey, nat>, cache: map<Key, Answer>, queries: seq<Query>)

  datatype Event =
    | Install(pools: Pools)
    | Resolve(question: Option<string>, upstreams: Option<string>)  // a client's query
    | Refresh(key: Key)                                             // a job of the refresh worker
    | Choose(q: nat)
    | Enter(q: nat, coalesce: bool, subnet: int)
    | Exchange(q: nat, answered: bool, id: int)
    | Publish(q: nat)
    | Store(q: nat, accepted: bool)
    | Read(q: nat)
    | Abort(q: nat)                 // the call is dropped half-way, and its lead with it
    | Evict(key: Key)

  function Initial(p: Pools): State {
    State([p], map[], map[], [])
  }

  predicate HasPublished(g: Query) {
    g.stage.Published? || g.stage.Replied?
  }

  predicate Enabled(s: State, e: Event) {
    match e
    case Install(_) => true
    case Resolve(_, _) => true
    case Refresh(_) => true
    case Choose(q) => q < |s.queries| && s.queries[q].stage.Asked? && s.history != []
    case Enter(q, _, _) => q < |s.queries| && s.queries[q].stage.Chosen?
    case Exchange(q, _, _) => q < |s.queries| && (s.queries[q].stage.Leading? || s.queries[q].stage.Alone?)
    case Publish(q) => q < |s.queries| && s.queries[q].stage.Exchanged?
    case Store(q, _) => q < |s.queries| && s.queries[q].stage.Published?
    case Read(q) => q < |s.queries| && s.queries[q].stage.Following? && s.queries[q].stage.leader < |s.queries|
                    && HasPublished(s.queries[s.queries[q].stage.leader])
    case Abort(q) => q < |s.queries| && !s.queries[q].stage.Asked?
    case Evict(_) => true
  }

  function To(s: State, q: nat, to: Query): State
    requires q < |s.queries|
  {
    s.(queries := s.queries[q := to])
  }

  function ScopedKey(question: Option<string>, upstreams: Option<string>): Option<Key> {
    if question.None? then None else Some(Key(question.value, upstreams))
  }

  function Step(s: State, e: Event): State
    requires Enabled(s, e)
  {
    match e
    case Install(p) => s.(history := s.history + [p])
    case Resolve(question, u) => s.(queries := s.queries + [Query(ScopedKey(question, u), u, None, 0, false, 0, Asked)])
    case Refresh(k) => s.(queries := s.queries + [Query(Some(k), k.upstreams, None, 0, false, 0, Asked)])
    case Choose(q) =>
      var g, era := s.queries[q], |s.history| - 1;
      var (pool, own) := PoolFor(s.history[era], g.upstreams);
      To(s, q, g.(key := if own then g.asked else None, pool := pool, own := own, era := era, stage := Chosen))
    case Enter(q, coalesce, subnet) =>
      var g := s.queries[q];
      if !coalesce || g.key.None? then To(s, q, g.(stage := Alone))
      else
        var slot := (g.key.value, subnet);
        if slot in s.inflight then To(s, q, g.(stage := Following(s.inflight[slot])))
        else To(s.(inflight := s.inflight[slot := q]), q, g.(stage := Leading(slot)))
    case Exchange(q, answered, id) =>
      var g := s.queries[q];
      var answer := if answered then Some(Answer(g.pool, g.era, id)) else None;
      To(s, q, g.(stage := Exchanged(answer, if g.stage.Leading? then Some(g.stage.slot) else None)))
    case Publish(q) =>
      var g := s.queries[q];
      var t := To(s, q, g.(stage := Published(g.stage.answer)));
      if g.stage.lead.Some? then t.(inflight := t.inflight - {g.stage.lead.value}) else t
    case Store(q, accepted) =>
      var g := s.queries[q];
      var t := To(s, q, g.(stage := Replied(g.stage.answer)));
      if g.stage.answer.Some? && g.key.Some? && accepted then t.(cache := t.cache[g.key.value := g.stage.answer.value])
      else t
    case Read(q) => To(s, q, s.queries[q].(stage := Replied(s.queries[s.queries[q].stage.leader].stage.answer)))
    case Abort(q) =>
      var g := s.queries[q];
      var t := To(s, q, g.(stage := Replied(if HasPublished(g) then g.stage.answer else None)));
      if g.stage.Leading? then t.(inflight := t.inflight - {g.stage.slot})
      else if g.stage.Exchanged? && g.stage.lead.Some? then t.(inflight := t.inflight - {g.stage.lead.value})
      else t
    case Evict(k) => s.(cache := s.cache - {k})
  }

  ghost predicate Reachable(s: State, p: Pools, n: nat)
    decreases n
  {
    if n == 0 then s == Initial(p)
    else exists r, e :: Reachable(r, p, n - 1) && Enabled(r, e) && s == Step(r, e)
  }

  /** An answer came from the pool that was installed for these upstreams at its time; for no
      upstreams of one's own that is the global pool. */
  predicate Belongs(s: State, a: Answer, upstreams: Option<string>) {
    a.era < |s.history| && PoolFor(s.history[a.era], upstreams) == (a.pool, true)
  }

  /** A query that may store does so only under its own upstreams, from their own pool. */
  predicate QueryInv(s: State, g: Query) {
    && (g.asked.Some? ==> g.asked.value.upstreams == g.upstreams)
    && (!g.stage.Asked? ==> g.era < |s.history| && PoolFor(s.history[g.era], g.upstreams) == (g.pool, g.own))
    && (g.key.Some? ==> !g.stage.Asked? && g.own && g.key == g.asked)
    && (g.stage.Leading? ==> g.key == Some(g.stage.slot.0))
    && (g.stage.Exchanged? && g.stage.lead.Some? ==> g.key == Some(g.stage.lead.value.0))
    && (g.stage.Following? ==> g.key.Some?)
    && AnswerInv(s, g)
  }

  predicate AnswerInv(s: State, g: Query) {
    (g.stage.Exchanged? || g.stage.Published? || g.stage.Replied?) && g.stage.answer.Some? && g.own
    ==> Belongs(s, g.stage.answer.value, g.upstreams)
  }

  predicate LeaderInv(s: State, i: nat, k: Key) {
    i < |s.queries| && s.queries[i].key == Some(k)
  }

  ghost predicate Inv(s: State) {
    && s.history != []
    && (forall q :: 0 <= q < |s.queries| ==> QueryInv(s, s.queries[q]))
    && (forall slot :: slot in s.inflight ==> LeaderInv(s, s.inflight[slot], slot.0))
    && (forall q :: 0 <= q < |s.queries| && s.queries[q].stage.Following? ==>
          s.queries[q].key.Some? && LeaderInv(s, s.queries[q].stage.leader, s.queries[q].key.value))
    && (forall k :: k in s.cache ==> Belongs(s, s.cache[k], k.upstreams))
  }

  lemma HistoryGrows(s: State, t: State, g: Query)
    requires s.history <= t.history && QueryInv(s, g)
    ensures QueryInv(t, g)
  {
  }

  /** Whether an event is a step of query `q`. */
  predicate Acts(e: Event, q: nat) {
    (e.Choose? || e.Enter? || e.Exchange? || e.Publish? || e.Store? || e.Read? || e.Abort?) && e.q == q
  }

  lemma ChooseStep(s: State, q: nat)
    requires Enabled(s, Choose(q)) && QueryInv(s, s.queries[q])
    ensures QueryInv(s, Step(s, Choose(q)).queries[q])
  {
    hide Belongs;
  }

  lemma EnterStep(s: State, e: Event)
    requires e.Enter? && Enabled(s, e) && QueryInv(s, s.queries[e.q])
    ensures QueryInv(s, Step(s, e).queries[e.q])
  {
    hide PoolFor;
  }

  lemma AnswerStep(s: State, e: Event)
    requires (e.Exchange? || e.Publish? || e.Store? || e.Abort?) && Enabled(s, e) && QueryInv(s, s.queries[e.q])
    ensures QueryInv(s, Step(s, e).queries[e.q])
  {
    hide PoolFor;
  }

  lemma OwnStep(s: State, e: Event, q: nat)
    requires Enabled(s, e) && q < |s.queries| && QueryInv(s, s.queries[q])
    requires !e.Read? && Acts(e, q)
    ensures QueryInv(s, Step(s, e).queries[q])
  {
    hide Enabled, Step, QueryInv;
    if e.Choose? {
      ChooseStep(s, q);
    } else if e.Enter? {
      EnterStep(s, e);
    } else {
      AnswerStep(s, e);
    }
  }

  lemma ReadStep(s: State, q: nat)
    requires Inv(s) && Enabled(s, Read(q))
    ensures QueryInv(s, Step(s, Read(q)).queries[q])
  {
    hide PoolFor;
    var l := s.queries[q].stage.leader;
    assert LeaderInv(s, l, s.queries[q].key.value);
    assert QueryInv(s, s.queries[q]) && QueryInv(s, s.queries[l]);
  }

  /** An event changes at most the query whose step it is, and never the past. */
  lemma OthersUntouched(s: State, e: Event, q: nat)
    requires Enabled(s, e)
    ensures s.history <= Step(s, e).history
    ensures q < |s.queries| ==> q < |Step(s, e).queries|
    ensures q < |s.queries| && !Acts(e, q) ==> Step(s, e).queries[q] == s.queries[q]
  {
    hide PoolFor, ScopedKey;
  }

  lemma NewQuery(s: State, e: Event, q: nat)
    requires Enabled(s, e) && |s.queries| <= q < |Step(s, e).queries|
    ensures QueryInv(s, Step(s, e).queries[q])
  {
    hide PoolFor;
  }

  lemma QueryStep(s: State, e: Event, q: nat)
    requires Inv(s) && Enabled(s, e) && q < |Step(s, e).queries|
    ensures QueryInv(Step(s, e), Step(s, e).queries[q])
  {
    hide QueryInv, LeaderInv, Belongs, Step, Enabled;
    OthersUntouched(s, e, q);
    if q >= |s.queries| {
      NewQuery(s, e, q);
    } else {
      assert QueryInv(s, s.queries[q]);
      if Acts(e, q) {
        if e.Read? {
          ReadStep(s, q);
        } else {
          OwnStep(s, e, q);
        }
      }
    }
    HistoryGrows(s, Step(s, e), Step(s, e).queries[q]);
  }

  /** Once a query may lead under a key, that key stays its own. */
  lemma LeaderKept(s: State, e: Event, i: nat, k: Key)
    requires Enabled(s, e) && LeaderInv(s, i, k) && QueryInv(s, s.queries[i])
    ensures LeaderInv(Step(s, e), i, k)
  {
    hide PoolFor, AnswerInv;
  }

  /** A slot is led by whoever entered it, under its own key. */
  lemma InflightFrom(s: State, e: Event, slot: PendingKey)
    requires Enabled(s, e) && slot in Step(s, e).inflight
    ensures (slot in s.inflight && Step(s, e).inflight[slot] == s.inflight[slot])
            || (e.Enter? && Step(s, e).inflight[slot] == e.q && s.queries[e.q].key == Some(slot.0))
  {
    hide PoolFor, ScopedKey;
  }

  lemma InflightStep(s: State, e: Event, slot: PendingKey)
    requires Inv(s) && Enabled(s, e) && slot in Step(s, e).inflight
    ensures LeaderInv(Step(s, e), Step(s, e).inflight[slot], slot.0)
  {
    hide Step, PoolFor, AnswerInv;
    InflightFrom(s, e, slot);
    var i := Step(s, e).inflight[slot];
    if slot in s.inflight && i == s.inflight[slot] {
      assert LeaderInv(s, i, slot.0);
    }
    assert QueryInv(s, s.queries[i]);
    LeaderKept(s, e, i, slot.0);
  }

  /** A query comes to follow only by entering, under its own key, a slot already led. */
  lemma StartsFollowing(s: State, e: Event, q: nat)
    requires Enabled(s, e) && q < |Step(s, e).queries| && Step(s, e).queries[q].stage.Following?
    ensures q < |s.queries|
    ensures Step(s, e).queries[q] == s.queries[q]
            || (e.Enter? && e.q == q && s.queries[q].key.Some? && Step(s, e).queries[q].key == s.queries[q].key
                && (s.queries[q].key.value, e.subnet) in s.inflight
                && Step(s, e).queries[q].stage.leader == s.inflight[(s.queries[q].key.value, e.subnet)])
  {
    hide PoolFor;
  }

  lemma FollowingStep(s: State, e: Event, q: nat)
    requires Inv(s) && Enabled(s, e) && q < |Step(s, e).queries| && Step(s, e).queries[q].stage.Following?
    ensures Step(s, e).queries[q].key.Some?
    ensures LeaderInv(Step(s, e), Step(s, e).queries[q].stage.leader, Step(s, e).queries[q].key.value)
  {
    hide Step, Enabled, AnswerInv, PoolFor;
    var g := Step(s, e).queries[q];
    StartsFollowing(s, e, q);
    assert QueryInv(s, s.queries[q]);
    assert LeaderInv(s, g.stage.leader, g.key.value);
    LeaderKept(s, e, g.stage.leader, g.key.value);
  }

  /** Only a store changes what is cached, and only under the storing query's own key. */
  lemma CacheFrom(s: State, e: Event, k: Key)
    requires Enabled(s, e) && k in Step(s, e).cache
    ensures (k in s.cache && Step(s, e).cache[k] == s.cache[k])
            || (e.Store? && s.queries[e.q].key == Some(k) && s.queries[e.q].stage.answer == Some(Step(s, e).cache[k]))
  {
    hide PoolFor, ScopedKey;
  }

  lemma CacheStep(s: State, e: Event, k: Key)
    requires Inv(s) && Enabled(s, e) && k in Step(s, e).cache
    ensures Belongs(Step(s, e), Step(s, e).cache[k], k.upstreams)
  {
    hide Step, PoolFor;
    CacheFrom(s, e, k);
    OthersUntouched(s, e, 0);
    if k in s.cache && Step(s, e).cache[k] == s.cache[k] {
      assert Belongs(s, s.cache[k], k.upstreams);
    } else {
      assert QueryInv(s, s.queries[e.q]);
    }
  }

  lemma InvStep(s: State, e: Event)
    requires Inv(s) && Enabled(s, e)
    ensures Inv(Step(s, e))
  {
    hide Step, QueryInv, LeaderInv, Belongs;
    var t := Step(s, e);
    forall q | 0 <= q < |t.queries| ensures QueryInv(t, t.queries[q]) {
      QueryStep(s, e, q);
    }
    forall slot | slot in t.inflight ensures LeaderInv(t, t.inflight[slot], slot.0) {
      InflightStep(s, e, slot);
    }
    forall q | 0 <= q < |t.queries| && t.queries[q].stage.Following?
      ensures t.queries[q].key.Some? && LeaderInv(t, t.queries[q].stage.leader, t.queries[q].key.value)
    {
      FollowingStep(s, e, q);
    }
    OthersUntouched(s, e, 0);
    forall k | k in t.cache ensures Belongs(t, t.cache[k], k.upstreams) {
      CacheStep(s, e, k);
    }
  }

  lemma {:induction false} ReachableInv(s: State, p: Pools, n: nat)
    requires Reachable(s, p, n)
    ensures Inv(s)
    decreases n
  {
    hide Step, Enabled, QueryInv, LeaderInv, Belongs;
    if n > 0 {
      var r, e :| Reachable(r, p, n - 1) && Enabled(r, e) && s == Step(r, e);
      ReachableInv(r, p, n - 1);
      InvStep(r, e);
    }
  }

  /** Clients without upstreams of their own are served by the global pool as theirs, others by their
      own pool, or by the global one as a stranger's while theirs is missing. */
  lemma PoolForIff(p: Pools, upstreams: Option<string>)
    ensures var (pool, own) := PoolFor(p, upstreams);
            && (own <==> upstreams.None? || upstreams.value in p.clients)
            && pool == if upstreams.Some? && own then p.clients[upstreams.value] else p.global
  {
  }

  /** A query on its own pool that was answered stores its answer under its key. */
  lemma OwnAnswersStore(s: State, e: Event)
    requires Enabled(s, e) && e.Store? && e.accepted && s.queries[e.q].key.Some? && s.queries[e.q].stage.answer.Some?
    ensures var k := s.queries[e.q].key.value;
            k in Step(s, e).cache && Step(s, e).cache[k] == s.queries[e.q].stage.answer.value
  {
  }

  /** Everything cached under a set of upstreams was answered by the pool installed for that set
      when it was asked, the global pool when the key names none. */
  lemma CachedFromOwnPool(s: State, p: Pools, n: nat, k: Key)
    requires Reachable(s, p, n) && k in s.cache
    ensures s.cache[k].era < |s.history|
    ensures k.upstreams.None? ==> s.cache[k].pool == s.history[s.cache[k].era].global
    ensures k.upstreams.Some? ==>
              k.upstreams.value in s.history[s.cache[k].era].clients
              && s.history[s.cache[k].era].clients[k.upstreams.value] == s.cache[k].pool
  {
    ReachableInv(s, p, n);
    assert Belongs(s, s.cache[k], k.upstreams);
  }

  /** A query that follows another is answered from a pool installed for its own upstreams too. */
  lemma FollowersStayInScope(s: State, p: Pools, n: nat, q: nat)
    requires Reachable(s, p, n) && Enabled(s, Read(q))
    ensures var g := Step(s, Read(q)).queries[q];
            g.stage.answer.Some? ==> Belongs(s, g.stage.answer.value, g.upstreams)
  {
    ReachableInv(s, p, n);
    var l := s.queries[q].stage.leader;
    assert LeaderInv(s, l, s.queries[q].key.value);
    assert QueryInv(s, s.queries[q]) && QueryInv(s, s.queries[l]);
  }

  /** A query answered while its own pool is missing is neither stored nor coalesced: it follows
      nobody, nobody follows it, and none of its steps changes the cache. */
  lemma StrangersKeepOut(s: State, p: Pools, n: nat, q: nat)
    requires Reachable(s, p, n) && q < |s.queries|
    requires !s.queries[q].stage.Asked? && !s.queries[q].own
    ensures !s.queries[q].stage.Following? && !s.queries[q].stage.Leading?
    ensures forall slot :: slot in s.inflight ==> s.inflight[slot] != q
    ensures forall f :: 0 <= f < |s.queries| && s.queries[f].stage.Following? ==> s.queries[f].stage.leader != q
    ensures forall accepted :: Enabled(s, Store(q, accepted)) ==> Step(s, Store(q, accepted)).cache == s.cache
  {
    ReachableInv(s, p, n);
    assert QueryInv(s, s.queries[q]);
    forall slot | slot in s.inflight ensures s.inflight[slot] != q {
      assert LeaderInv(s, s.inflight[slot], slot.0);
    }
    forall f | 0 <= f < |s.queries| && s.queries[f].stage.Following? ensures s.queries[f].stage.leader != q {
      assert LeaderInv(s, s.queries[f].stage.leader, s.queries[f].key.value);
    }
  }
}
