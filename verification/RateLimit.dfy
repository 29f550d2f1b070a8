/** The token-bucket limiter of `ratelimit.rs`, with exact instead of floating-point tokens. */
module RateLimit {

  /** A subnet's bucket; times are in seconds. */
  datatype Bucket = Bucket(tokens: real, last: real)

  /** Addresses are numbers; `subnet` groups them. */
  datatype Config = Config(perSecond: nat, allowlist: set<int>)

  type Buckets = map<int, Bucket>

  const IDLE_TTL: real := 300.0

  /** How far back the clock may step between queries without a sweep showing. */
  const SKEW: real := 299.0
  const SWEEP_AT: nat := 16_384

  function Min(a: real, b: real): real {
    if a < b then a else b
  }

  /** `duration_since`, which saturates. */
  function Elapsed(now: real, last: real): real {
    if now < last then 0.0 else now - last
  }

  predicate Exempt(cfg: Config, ip: int) {
    cfg.perSecond == 0 || ip in cfg.allowlist
  }

  function Swept(m: Buckets, now: real): Buckets {
    if |m| >= SWEEP_AT then map k | k in m && Elapsed(now, m[k].last) < IDLE_TTL :: m[k] else m
  }

  /** What flows into a bucket in a span of time. */
  function Flow(span: real, cap: real): real {
    span * cap
  }

  /** What a bucket holds at `now`, refilled for the time that has passed. */
  function Held(b: Bucket, cap: real, now: real): real {
    Min(b.tokens + Flow(Elapsed(now, b.last), cap), cap)
  }

  /** The tokens of `k` when it asks; an unknown subnet starts full. */
  function Refilled(m: Buckets, cap: real, k: int, now: real): real {
    Held(if k in m then m[k] else Bucket(cap, now), cap, now)
  }

  /** One query against bucket `k`: refill, then spend one token if there is one. */
  function Spend(m: Buckets, cap: real, k: int, now: real): (Buckets, bool) {
    var tokens := Refilled(m, cap, k, now);
    if tokens >= 1.0 then (m[k := Bucket(tokens - 1.0, now)], true)
    else (m[k := Bucket(tokens, now)], false)
  }

  function AllowStep(m: Buckets, cfg: Config, ip: int, now: real, subnet: int -> int, sweeping: bool): (Buckets, bool) {
    if Exempt(cfg, ip) then (m, true)
    else Spend(if sweeping then Swept(m, now) else m, cfg.perSecond as real, subnet(ip), now)
  }

  class Limiter {
    var cfg: Config
    var buckets: Buckets

    constructor (c: Config)
      ensures cfg == c && buckets == map[]
    {
      cfg, buckets := c, map[];
    }

    method Allow(ip: int, now: real, subnet: int -> int) returns (ok: bool)
      modifies this`buckets
      ensures (buckets, ok) == AllowStep(old(buckets), cfg, ip, now, subnet, true)
    {
      if cfg.perSecond == 0 || ip in cfg.allowlist {
        return true;
      }
      var key, cap := subnet(ip), cfg.perSecond as real;
      if |buckets| >= SWEEP_AT {
        buckets := map k | k in buckets && Elapsed(now, buckets[k].last) < IDLE_TTL :: buckets[k];
      }
      var b := if key in buckets then buckets[key] else Bucket(cap, now);
      var tokens := Min(b.tokens + Elapsed(now, b.last) * cap, cap);
      assert tokens == Refilled(buckets, cap, key, now);
      ok := tokens >= 1.0;
      buckets := buckets[key := Bucket(if ok then tokens - 1.0 else tokens, now)];
    }
  }

  // ---- runs

  datatype Query = Query(ip: int, at: real)

  /** Queries in the order they are handled.  Each reads the clock before it waits for the lock, so
      times may step back: here by at most `SKEW`. */
  ghost predicate NearlyInOrder(qs: seq<Query>) {
    forall i, j :: 0 <= i < j < |qs| ==> qs[i].at <= qs[j].at + SKEW
  }

  function After(cfg: Config, qs: seq<Query>, subnet: int -> int, sweeping: bool): Buckets {
    if qs == [] then map[]
    else
      var q := qs[|qs| - 1];
      AllowStep(After(cfg, qs[..|qs| - 1], subnet, sweeping), cfg, q.ip, q.at, subnet, sweeping).0
  }

  /** The answer to query `i`. */
  function Answer(cfg: Config, qs: seq<Query>, i: nat, subnet: int -> int, sweeping: bool): bool
    requires i < |qs|
  {
    AllowStep(After(cfg, qs[..i], subnet, sweeping), cfg, qs[i].ip, qs[i].at, subnet, sweeping).1
  }

  /** The tokens subnet `k` could spend at `now`; a subnet not tracked has a full bucket. */
  function Level(m: Buckets, cap: real, k: int, now: real): real {
    if k in m then Held(m[k], cap, now) else cap
  }

  ghost predicate Sound(m: Buckets, cap: real) {
    forall k :: k in m ==> 0.0 <= m[k].tokens <= cap
  }

  lemma NonNegative(a: real, cap: real)
    requires a >= 0.0 && cap >= 0.0
    ensures Flow(a, cap) >= 0.0
  {
  }

  lemma AtLeast(a: real, cap: real)
    requires a >= 1.0 && cap >= 0.0
    ensures Flow(a, cap) >= cap
  {
  }

  lemma HeldRange(b: Bucket, cap: real, now: real)
    requires cap >= 0.0 && b.tokens >= 0.0
    ensures 0.0 <= Held(b, cap, now) <= cap
  {
    NonNegative(Elapsed(now, b.last), cap);
  }

  lemma LevelRange(m: Buckets, cap: real, k: int, now: real)
    requires cap >= 0.0 && Sound(m, cap)
    ensures 0.0 <= Level(m, cap, k, now) <= cap
  {
    hide Held, Flow;
    if k in m {
      HeldRange(m[k], cap, now);
    }
  }

  lemma FillsUp(b: Bucket, cap: real, now: real)
    requires cap >= 0.0 && b.tokens >= 0.0 && Elapsed(now, b.last) >= 1.0
    ensures Held(b, cap, now) == cap
  {
    AtLeast(Elapsed(now, b.last), cap);
  }

  /** Sweeping changes no level from `SKEW` before the sweep on: what is swept had time to fill up. */
  lemma SweepKeepsLevel(m: Buckets, cap: real, k: int, now: real, later: real)
    requires cap >= 0.0 && Sound(m, cap) && now <= later + SKEW
    ensures Level(Swept(m, now), cap, k, later) == Level(m, cap, k, later)
    ensures Sound(Swept(m, now), cap)
  {
    hide Held, Flow;
    if k in m && Elapsed(now, m[k].last) >= IDLE_TTL {
      FillsUp(m[k], cap, later);
    }
  }

  lemma Product(a: real, b: real, cap: real)
    ensures Flow(a + b, cap) == Flow(a, cap) + Flow(b, cap)
  {
  }

  lemma Monotone(a: real, b: real, cap: real)
    requires a <= b && cap >= 0.0
    ensures Flow(a, cap) <= Flow(b, cap)
  {
    NonNegative(b - a, cap);
    Product(a, b - a, cap);
  }

  lemma MinRises(t: real, x: real, y: real, d: real, cap: real)
    requires y <= x + d && d >= 0.0
    ensures Min(t + y, cap) <= Min(t + x, cap) + d
  {
  }

  lemma HeldRises(b: Bucket, cap: real, now: real, later: real)
    requires cap >= 0.0
    ensures Held(b, cap, later) <= Held(b, cap, now) + Flow(Elapsed(later, now), cap)
  {
    hide Min, Flow;
    var x, y, d := Elapsed(now, b.last), Elapsed(later, b.last), Elapsed(later, now);
    NonNegative(d, cap);
    Monotone(y, x + d, cap);
    Product(x, d, cap);
    MinRises(b.tokens, Flow(x, cap), Flow(y, cap), Flow(d, cap), cap);
  }

  /** A level rises by at most `cap` a second as the clock moves on, and not when it steps back. */
  lemma LevelRises(m: Buckets, cap: real, k: int, now: real, later: real)
    requires cap >= 0.0
    ensures Level(m, cap, k, later) <= Level(m, cap, k, now) + Flow(Elapsed(later, now), cap)
  {
    hide Held, Flow;
    NonNegative(Elapsed(later, now), cap);
    if k in m {
      HeldRises(m[k], cap, now, later);
    }
  }

  lemma HeldAtOnce(b: Bucket, cap: real)
    requires b.tokens <= cap
    ensures Held(b, cap, b.last) == b.tokens
  {
    assert Elapsed(b.last, b.last) == 0.0;
    assert Flow(0.0, cap) == 0.0;
  }

  lemma RefilledIsLevel(m: Buckets, cap: real, k: int, now: real)
    ensures Refilled(m, cap, k, now) == Level(m, cap, k, now)
  {
    hide Held, Flow;
    HeldAtOnce(Bucket(cap, now), cap);
  }

  lemma OtherLevel(m: Buckets, cap: real, k: int, b: Bucket, j: int, later: real)
    requires j != k
    ensures Level(m[k := b], cap, j, later) == Level(m, cap, j, later)
  {
    hide Held, Flow;
  }

  /** A query is granted exactly when its subnet's level is at least one, and takes one from it. */
  lemma SpendLevel(m: Buckets, cap: real, k: int, now: real, j: int, later: real)
    requires cap >= 0.0 && Sound(m, cap)
    ensures Spend(m, cap, k, now).1 <==> Level(m, cap, k, now) >= 1.0
    ensures Sound(Spend(m, cap, k, now).0, cap)
    ensures j != k ==> Level(Spend(m, cap, k, now).0, cap, j, later) == Level(m, cap, j, later)
    ensures k in Spend(m, cap, k, now).0
            && Spend(m, cap, k, now).0[k]
               == Bucket(Level(m, cap, k, now) - (if Spend(m, cap, k, now).1 then 1.0 else 0.0), now)
  {
    hide Level, Refilled;
    LevelRange(m, cap, k, now);
    RefilledIsLevel(m, cap, k, now);
    if j != k {
      OtherLevel(m, cap, k, Spend(m, cap, k, now).0[k], j, later);
    }
  }

  function Cap(cfg: Config): real {
    cfg.perSecond as real
  }

  lemma {:induction false} RunSound(cfg: Config, qs: seq<Query>, subnet: int -> int, sweeping: bool)
    ensures Sound(After(cfg, qs, subnet, sweeping), Cap(cfg))
  {
    hide Spend, Swept;
    if qs != [] {
      var q, before := qs[|qs| - 1], qs[..|qs| - 1];
      RunSound(cfg, before, subnet, sweeping);
      var m := After(cfg, before, subnet, sweeping);
      SweepKeepsLevel(m, Cap(cfg), 0, q.at, q.at);
      SpendLevel(if sweeping then Swept(m, q.at) else m, Cap(cfg), subnet(q.ip), q.at, 0, q.at);
    }
  }

  // ---- sweeping is invisible

  /** Two limiters that will agree from `floor` on. */
  ghost predicate Agree(m: Buckets, n: Buckets, cap: real, floor: real) {
    forall k, later :: floor <= later ==> Level(m, cap, k, later) == Level(n, cap, k, later)
  }

  lemma SpendAgrees(m: Buckets, n: Buckets, cap: real, k: int, now: real, floor: real)
    requires cap >= 0.0 && Sound(m, cap) && Sound(n, cap) && Agree(m, n, cap, floor) && floor <= now
    ensures Spend(m, cap, k, now).1 == Spend(n, cap, k, now).1
    ensures Agree(Spend(m, cap, k, now).0, Spend(n, cap, k, now).0, cap, floor)
  {
    hide Spend, Level;
    assert Level(m, cap, k, now) == Level(n, cap, k, now);
    SpendLevel(m, cap, k, now, k, now);
    SpendLevel(n, cap, k, now, k, now);
    forall j, later | floor <= later
      ensures Level(Spend(m, cap, k, now).0, cap, j, later) == Level(Spend(n, cap, k, now).0, cap, j, later)
    {
      SpendLevel(m, cap, k, now, j, later);
      SpendLevel(n, cap, k, now, j, later);
      EqualBuckets(Spend(m, cap, k, now).0, Spend(n, cap, k, now).0, cap, k, later);
    }
  }

  lemma EqualBuckets(m: Buckets, n: Buckets, cap: real, k: int, later: real)
    requires k in m && k in n && m[k] == n[k]
    ensures Level(m, cap, k, later) == Level(n, cap, k, later)
  {
    hide Held, Flow;
  }

  lemma SweepAgrees(m: Buckets, cap: real, now: real, floor: real)
    requires cap >= 0.0 && Sound(m, cap) && now <= floor + SKEW
    ensures Agree(Swept(m, now), m, cap, floor) && Sound(Swept(m, now), cap)
  {
    hide Level, Swept;
    forall k, later | floor <= later ensures Level(Swept(m, now), cap, k, later) == Level(m, cap, k, later) {
      SweepKeepsLevel(m, cap, k, now, later);
    }
    SweepKeepsLevel(m, cap, 0, now, now);
  }

  /** Handling a query keeps a sweeping and a hoarding limiter in agreement, answer included. */
  lemma AllowAgrees(m: Buckets, n: Buckets, cfg: Config, q: Query, subnet: int -> int, floor: real)
    requires Sound(m, Cap(cfg)) && Sound(n, Cap(cfg)) && Agree(m, n, Cap(cfg), floor)
    requires floor <= q.at <= floor + SKEW
    ensures var (sm, a) := AllowStep(m, cfg, q.ip, q.at, subnet, true);
            var (sn, b) := AllowStep(n, cfg, q.ip, q.at, subnet, false);
            a == b && Agree(sm, sn, Cap(cfg), floor)
  {
    hide Spend, Swept, Level;
    SweepAgrees(m, Cap(cfg), q.at, floor);
    SpendAgrees(Swept(m, q.at), n, Cap(cfg), subnet(q.ip), q.at, floor);
  }

  lemma {:induction false} RunsAgree(cfg: Config, qs: seq<Query>, subnet: int -> int, floor: real)
    requires NearlyInOrder(qs) && forall i :: 0 <= i < |qs| ==> qs[i].at <= floor + SKEW
    ensures Agree(After(cfg, qs, subnet, true), After(cfg, qs, subnet, false), Cap(cfg), floor)
  {
    hide AllowStep, Level;
    if qs != [] {
      var q, before := qs[|qs| - 1], qs[..|qs| - 1];
      var lower := if q.at < floor then q.at else floor;
      assert forall i :: 0 <= i < |before| ==> before[i] == qs[i];
      RunsAgree(cfg, before, subnet, lower);
      RunSound(cfg, before, subnet, true);
      RunSound(cfg, before, subnet, false);
      AllowAgrees(After(cfg, before, subnet, true), After(cfg, before, subnet, false), cfg, q, subnet, lower);
    }
  }

  /** Sweeping idle buckets never changes an answer, compared with a limiter that forgets nothing,
      as long as no query is handled more than 299 seconds out of turn. */
  lemma SweepIsInvisible(cfg: Config, qs: seq<Query>, i: nat, subnet: int -> int)
    requires NearlyInOrder(qs) && i < |qs|
    ensures Answer(cfg, qs, i, subnet, true) == Answer(cfg, qs, i, subnet, false)
  {
    hide AllowStep, Level;
    var q, before := qs[i], qs[..i];
    RunsAgree(cfg, before, subnet, q.at);
    RunSound(cfg, before, subnet, true);
    RunSound(cfg, before, subnet, false);
    AllowAgrees(After(cfg, before, subnet, true), After(cfg, before, subnet, false), cfg, q, subnet, q.at);
  }

  // ---- the limit

  predicate Counts(cfg: Config, qs: seq<Query>, i: nat, k: int, subnet: int -> int)
    requires i < |qs|
  {
    cfg.perSecond != 0 && qs[i].ip !in cfg.allowlist && subnet(qs[i].ip) == k && Answer(cfg, qs, i, subnet, true)
  }

  /** Queries `i` to `j` from subnet `k`, exempt addresses aside, that were granted. */
  function Granted(cfg: Config, qs: seq<Query>, i: nat, j: nat, k: int, subnet: int -> int): nat
    requires i <= j <= |qs|
    decreases j
  {
    if i == j then 0
    else Granted(cfg, qs, i, j - 1, k, subnet) + if Counts(cfg, qs, j - 1, k, subnet) then 1 else 0
  }

  /** How far the clock moves forward, in all, over queries `i` to `j`. */
  function Advance(qs: seq<Query>, i: nat, j: nat): real
    requires i < j <= |qs|
    decreases j
  {
    if i == j - 1 then 0.0 else Advance(qs, i, j - 1) + Elapsed(qs[j - 1].at, qs[j - 2].at)
  }

  /** When no query is handled out of turn that is just the time between the first and the last. */
  lemma {:induction false} AdvanceInOrder(qs: seq<Query>, i: nat, j: nat)
    requires i < j <= |qs| && forall m, n :: 0 <= m < n < |qs| ==> qs[m].at <= qs[n].at
    ensures Advance(qs, i, j) == qs[j - 1].at - qs[i].at
    decreases j
  {
    if i < j - 1 {
      AdvanceInOrder(qs, i, j - 1);
    }
  }

  lemma StepLevel(cfg: Config, qs: seq<Query>, j: nat, k: int, subnet: int -> int)
    requires j < |qs|
    ensures Level(After(cfg, qs[..j + 1], subnet, true), Cap(cfg), k, qs[j].at)
            == Level(After(cfg, qs[..j], subnet, true), Cap(cfg), k, qs[j].at)
               - (if Counts(cfg, qs, j, k, subnet) then 1.0 else 0.0)
  {
    hide Spend, Swept, Level;
    var q, before := qs[j], qs[..j];
    assert qs[..j + 1][..j] == before;
    RunSound(cfg, before, subnet, true);
    var m := After(cfg, before, subnet, true);
    SweepKeepsLevel(m, Cap(cfg), k, q.at, q.at);
    var n, key := Swept(m, q.at), subnet(q.ip);
    SpendLevel(n, Cap(cfg), key, q.at, k, q.at);
    FreshLevel(Spend(n, Cap(cfg), key, q.at).0, Cap(cfg), key, q.at);
    LevelRange(n, Cap(cfg), key, q.at);
  }

  lemma FreshLevel(m: Buckets, cap: real, k: int, now: real)
    requires k in m && m[k].last == now && m[k].tokens <= cap
    ensures Level(m, cap, k, now) == m[k].tokens
  {
    hide Held, Flow;
    HeldAtOnce(m[k], cap);
  }

  /** What was granted and what is left never exceed what was there and what flowed in, in
      whatever order the queries are handled. */
  lemma {:induction false} TokensConserved(cfg: Config, qs: seq<Query>, i: nat, j: nat, k: int, subnet: int -> int)
    requires i < j <= |qs|
    ensures Granted(cfg, qs, i, j, k, subnet) as real
            + Level(After(cfg, qs[..j], subnet, true), Cap(cfg), k, qs[j - 1].at)
            <= Cap(cfg) + Flow(Advance(qs, i, j), Cap(cfg))
    decreases j
  {
    hide Level, Counts, After, Flow;
    var cap, now := Cap(cfg), qs[j - 1].at;
    StepLevel(cfg, qs, j - 1, k, subnet);
    RunSound(cfg, qs[..j - 1], subnet, true);
    if i == j - 1 {
      LevelRange(After(cfg, qs[..i], subnet, true), cap, k, now);
      NonNegative(0.0, cap);
    } else {
      var was := qs[j - 2].at;
      TokensConserved(cfg, qs, i, j - 1, k, subnet);
      LevelRises(After(cfg, qs[..j - 1], subnet, true), cap, k, was, now);
      Product(Advance(qs, i, j - 1), Elapsed(now, was), cap);
    }
  }

  /** Over any queries, one subnet is granted at most `cap` and `cap` more for each second the
      clock moved forward. */
  lemma GrantsLimited(cfg: Config, qs: seq<Query>, i: nat, j: nat, k: int, subnet: int -> int)
    requires i < j <= |qs|
    ensures Granted(cfg, qs, i, j, k, subnet) as real <= Cap(cfg) + Advance(qs, i, j) * Cap(cfg)
  {
    hide Level, Granted, Advance;
    TokensConserved(cfg, qs, i, j, k, subnet);
    RunSound(cfg, qs[..j], subnet, true);
    LevelRange(After(cfg, qs[..j], subnet, true), Cap(cfg), k, qs[j - 1].at);
  }

  /** So in any span of time, when no query is handled out of turn, at most `cap + cap * span`. */
  lemma GrantsLimitedInSpan(cfg: Config, qs: seq<Query>, i: nat, j: nat, k: int, subnet: int -> int)
    requires i < j <= |qs| && forall m, n :: 0 <= m < n < |qs| ==> qs[m].at <= qs[n].at
    ensures Granted(cfg, qs, i, j, k, subnet) as real <= Cap(cfg) + (qs[j - 1].at - qs[i].at) * Cap(cfg)
  {
    hide Granted, Advance;
    GrantsLimited(cfg, qs, i, j, k, subnet);
    AdvanceInOrder(qs, i, j);
  }

  /** Without a limit, or for an address on the list, every query is granted and nothing is counted. */
  lemma ExemptGoFree(m: Buckets, cfg: Config, ip: int, now: real, subnet: int -> int, sweeping: bool)
    requires cfg.perSecond == 0 || ip in cfg.allowlist
    ensures AllowStep(m, cfg, ip, now, subnet, sweeping) == (m, true)
  {
  }

  // ---- the limit is not lower than it says

  predicate Ascending(qs: seq<Query>) {
    forall i, j :: 0 <= i < j < |qs| ==> qs[i].at <= qs[j].at
  }

  /** No bucket was touched after `now`. */
  ghost predicate Past(m: Buckets, now: real) {
    forall k :: k in m ==> m[k].last <= now
  }

  lemma PastStep(m: Buckets, cfg: Config, q: Query, subnet: int -> int, now: real)
    requires Past(m, now) && q.at <= now
    ensures Past(AllowStep(m, cfg, q.ip, q.at, subnet, true).0, now)
  {
    hide Refilled;
  }

  lemma {:induction false} RunPast(cfg: Config, qs: seq<Query>, subnet: int -> int, now: real)
    requires forall i :: 0 <= i < |qs| ==> qs[i].at <= now
    ensures Past(After(cfg, qs, subnet, true), now)
  {
    hide AllowStep, Past;
    if qs == [] {
      NonePast(now);
    } else {
      RunPast(cfg, qs[..|qs| - 1], subnet, now);
      PastStep(After(cfg, qs[..|qs| - 1], subnet, true), cfg, qs[|qs| - 1], subnet, now);
    }
  }

  lemma NonePast(now: real)
    ensures Past(map[], now)
  {
  }

  lemma HeldRefills(b: Bucket, cap: real, now: real, later: real)
    requires cap >= 0.0 && b.last <= now <= later
    ensures Held(b, cap, later) >= Min(Held(b, cap, now) + Flow(later - now, cap), cap)
  {
    hide Min, Flow;
    var x, d := Elapsed(now, b.last), later - now;
    assert Elapsed(later, b.last) == x + d;
    Product(x, d, cap);
    MinRefills(b.tokens, Flow(x, cap), Flow(d, cap), cap);
  }

  lemma MinRefills(t: real, x: real, d: real, cap: real)
    ensures Min(t + (x + d), cap) >= Min(Min(t + x, cap) + d, cap)
  {
  }

  /** As time passes a level refills by `cap` a second until it is full. */
  lemma LevelRefills(m: Buckets, cap: real, k: int, now: real, later: real)
    requires cap >= 0.0 && Past(m, now) && now <= later
    ensures Level(m, cap, k, later) >= Min(Level(m, cap, k, now) + Flow(later - now, cap), cap)
  {
    hide Held, Flow;
    if k in m {
      HeldRefills(m[k], cap, now, later);
    }
  }

  /** What a second's refill from time `from` on comes to by `now`, at most a full bucket. */
  function Inflow(from: real, now: real, cap: real): real {
    Min(Flow(now - from, cap), cap)
  }

  lemma InflowGrows(from: real, now: real, later: real, cap: real, level: real, spent: real)
    requires cap >= 0.0 && from <= now <= later && spent >= 0.0 && level >= Inflow(from, now, cap) - spent
    ensures Min(level + Flow(later - now, cap), cap) >= Inflow(from, later, cap) - spent
  {
    hide Min, Flow;
    var x, d := now - from, later - now;
    assert later - from == x + d;
    Product(x, d, cap);
    NonNegative(d, cap);
    SpentRefills(Flow(x, cap), Flow(d, cap), cap, level, spent);
  }

  lemma SpentRefills(x: real, d: real, cap: real, level: real, spent: real)
    requires d >= 0.0 && spent >= 0.0 && level >= Min(x, cap) - spent
    ensures Min(level + d, cap) >= Min(x + d, cap) - spent
  {
  }

  /** From `from` on a subnet has what flowed in since then less what it was granted. */
  lemma {:induction false} LevelAtLeast(cfg: Config, qs: seq<Query>, i: nat, j: nat, k: int, subnet: int -> int,
                                        from: real, now: real)
    requires Ascending(qs) && i <= j <= |qs| && from <= now && forall m :: 0 <= m < j ==> qs[m].at <= now
    requires (forall m :: 0 <= m < i ==> qs[m].at <= from) && (forall m :: i <= m < j ==> from <= qs[m].at)
    ensures Level(After(cfg, qs[..j], subnet, true), Cap(cfg), k, now)
            >= Inflow(from, now, Cap(cfg)) - Granted(cfg, qs, i, j, k, subnet) as real
    decreases j
  {
    hide Level, Counts, After, Inflow, Min, Past, Flow;
    var cap, m := Cap(cfg), After(cfg, qs[..j], subnet, true);
    RunSound(cfg, qs[..j], subnet, true);
    if i == j {
      RunPast(cfg, qs[..j], subnet, from);
      LevelRange(m, cap, k, from);
      LevelRefills(m, cap, k, from, now);
      FromZero(from, now, cap, Level(m, cap, k, from));
    } else {
      var at := qs[j - 1].at;
      LevelAtLeast(cfg, qs, i, j - 1, k, subnet, from, at);
      StepLevel(cfg, qs, j - 1, k, subnet);
      RunPast(cfg, qs[..j], subnet, at);
      LevelRefills(m, cap, k, at, now);
      InflowGrows(from, at, now, cap, Level(m, cap, k, at), Granted(cfg, qs, i, j, k, subnet) as real);
    }
  }

  lemma FromZero(from: real, now: real, cap: real, level: real)
    requires level >= 0.0
    ensures Min(level + Flow(now - from, cap), cap) >= Inflow(from, now, cap)
  {
    hide Min, Flow;
    MinAbove(level, Flow(now - from, cap), cap);
  }

  lemma MinAbove(level: real, x: real, cap: real)
    requires level >= 0.0
    ensures Min(level + x, cap) >= Min(x, cap)
  {
  }

  lemma SecondFills(now: real, cap: real)
    ensures Inflow(now - 1.0, now, cap) == cap
  {
  }

  /** Handled in clock order, a query is refused only if its subnet was granted `cap` queries, the
      whole limit, in the second before it. */
  lemma RefusalIsEarned(cfg: Config, qs: seq<Query>, i: nat, j: nat, subnet: int -> int)
    requires Ascending(qs) && i <= j < |qs| && !Answer(cfg, qs, j, subnet, true)
    requires forall m :: 0 <= m < |qs| ==> (m < i ==> qs[m].at <= qs[j].at - 1.0) && (i <= m ==> qs[j].at - 1.0 <= qs[m].at)
    ensures Granted(cfg, qs, i, j, subnet(qs[j].ip), subnet) >= cfg.perSecond > 0
  {
    hide Level, Counts, After, Inflow, Granted;
    var cap, now, k := Cap(cfg), qs[j].at, subnet(qs[j].ip);
    LevelAtLeast(cfg, qs, i, j, k, subnet, now - 1.0, now);
    SecondFills(now, cap);
    RunSound(cfg, qs[..j], subnet, true);
    var m := After(cfg, qs[..j], subnet, true);
    SweepKeepsLevel(m, cap, k, now, now);
    SpendLevel(Swept(m, now), cap, k, now, k, now);
  }
}
