/**
 What each operation of `cache.rs` does to one shard of the response cache: a hash map beside a
 queue of eviction slots, some of which may be dead.
 */
module CacheState {

  datatype Option<T> = None | Some(value: T)

  /** What identifies a cached response. */
  datatype Key = Key(name: string, qtype: nat, qclass: nat, dnssecOk: bool, upstreams: Option<string>)

  /** A stored response; its content does not matter here. */
  datatype Message = Message(id: nat)

  /** A cached response.  Times are in nanoseconds. */
  datatype Entry = Entry(msg: Message, stored: nat, ttl: nat, weight: nat, hits: nat,
                         refreshing: bool, stamp: nat)

  /** A place in the eviction queue.  It is live while the entry under its key bears its stamp. */
  datatype Slot = Slot(stamp: nat, key: Key)

  datatype Config = Config(sizeBytes: nat, optimistic: bool, maxAge: nat)

  datatype Freshness = Fresh | Stale

  datatype Hit = Hit(msg: Message, freshness: Freshness, refresh: bool)

  datatype State = State(entries: map<Key, Entry>, order: seq<Slot>, bytes: nat, budget: nat, nextSeq: nat)

  const SHARDS: nat := 16
  const REFRESH_MIN_HITS: nat := 2
  const COMPACT_SLACK: nat := 64
  const SECOND: nat := 1_000_000_000
  const U32_MAX: nat := 0xffff_ffff

  /** Saturating subtraction. */
  function Minus(a: nat, b: nat): nat {
    if a < b then 0 else a - b
  }

  predicate Live(entries: map<Key, Entry>, slot: Slot) {
    slot.key in entries && entries[slot.key].stamp == slot.stamp
  }

  function PerShard(sizeBytes: nat): nat {
    if sizeBytes / SHARDS < 1 then 1 else sizeBytes / SHARDS
  }

  function Empty(budget: nat): State {
    State(map[], [], 0, budget, 0)
  }

  /** Drops the oldest slot, and its entry if the slot is live. */
  function EvictOne(s: State): State
    requires s.order != []
  {
    var slot := s.order[0];
    if Live(s.entries, slot) then
      s.(order := s.order[1..], entries := s.entries - {slot.key},
         bytes := Minus(s.bytes, s.entries[slot.key].weight))
    else s.(order := s.order[1..])
  }

  function Evict(s: State): State
    decreases |s.order|
  {
    if s.bytes <= s.budget || s.order == [] then s else Evict(EvictOne(s))
  }

  /** The slots that still name a live entry, in order. */
  function Retain(entries: map<Key, Entry>, order: seq<Slot>): seq<Slot> {
    if order == [] then []
    else (if Live(entries, order[0]) then [order[0]] else []) + Retain(entries, order[1..])
  }

  function Compact(s: State): State {
    if |s.order| <= |s.entries| * 2 + COMPACT_SLACK then s
    else s.(order := Retain(s.entries, s.order))
  }

  /** The shard just after the new entry and slot are in, before compaction and eviction. */
  function Inserted(s: State, k: Key, msg: Message, now: nat, ttl: nat, weight: nat): State {
    var e := Entry(msg, now, ttl, weight, 0, false, s.nextSeq);
    var was := if k in s.entries then Minus(s.bytes, s.entries[k].weight) else s.bytes;
    State(s.entries[k := e], s.order + [Slot(s.nextSeq, k)], was + weight, s.budget, s.nextSeq + 1)
  }

  /** Whether a response is stored: caching is on, it has a TTL, and it fits the budget. */
  predicate Accepts(s: State, cfg: Config, ttl: Option<nat>, weight: nat) {
    cfg.sizeBytes != 0 && ttl.Some? && weight <= s.budget
  }

  function Put(s: State, cfg: Config, k: Key, msg: Message, now: nat, ttl: Option<nat>, weight: nat): State {
    if Accepts(s, cfg, ttl, weight) then Evict(Compact(Inserted(s, k, msg, now, ttl.value, weight))) else s
  }

  /** Removes an expired entry; its slot stays until compaction. */
  function Dropped(s: State, k: Key): State
    requires k in s.entries
  {
    s.(entries := s.entries - {k}, bytes := Minus(s.bytes, s.entries[k].weight))
  }

  predicate Expired(e: Entry, now: nat) {
    Minus(now, e.stored) >= e.ttl
  }

  /** Past its TTL and not to be served stale. */
  predicate Dead(e: Entry, cfg: Config, now: nat) {
    Expired(e, now) && (!cfg.optimistic || Minus(now, e.stored) > cfg.maxAge)
  }

  function Counted(e: Entry): Entry {
    e.(hits := if e.hits < U32_MAX then e.hits + 1 else U32_MAX)
  }

  /** Whether this lookup claims the entry's background refresh; `e` already counts it. */
  predicate Claims(e: Entry, cfg: Config, now: nat) {
    var remaining := Minus(e.ttl, Minus(now, e.stored));
    var soon := if e.ttl / 10 < SECOND then SECOND else e.ttl / 10;
    var expiring := cfg.optimistic && e.hits >= REFRESH_MIN_HITS && remaining <= soon;
    (Expired(e, now) || expiring) && !e.refreshing
  }

  function Get(s: State, cfg: Config, k: Key, now: nat): (State, Option<Hit>) {
    if cfg.sizeBytes == 0 || k !in s.entries then (s, None)
    else if Dead(s.entries[k], cfg, now) then (Compact(Dropped(s, k)), None)
    else
      var e := Counted(s.entries[k]);
      var refresh := Claims(e, cfg, now);
      var kept := if refresh then e.(refreshing := true) else e;
      (s.(entries := s.entries[k := kept]),
       Some(Hit(e.msg, if Expired(e, now) then Stale else Fresh, refresh)))
  }

  function EndRefresh(s: State, k: Key): State {
    if k in s.entries then s.(entries := s.entries[k := s.entries[k].(refreshing := false)]) else s
  }

  /** A new budget, and the eviction it calls for. */
  function Resize(s: State, cfg: Config): State {
    Evict(s.(budget := PerShard(cfg.sizeBytes)))
  }

  /** A change of configuration that nothing interrupts; a size of zero empties the shard. */
  function SetConfig(s: State, cfg: Config): State {
    if cfg.sizeBytes == 0 then Clear(Resize(s, cfg)) else Resize(s, cfg)
  }

  function Clear(s: State): State {
    s.(entries := map[], order := [], bytes := 0)
  }
}
