/** One shard of the response cache, updated in place as `cache.rs` does. */
module CacheShard {
  import opened CacheState

  class Shard {
    var entries: map<Key, Entry>
    var order: seq<Slot>
    var bytes: nat
    var budget: nat
    var nextSeq: nat

    ghost function Abs(): State
      reads this
    {
      State(entries, order, bytes, budget, nextSeq)
    }

    constructor (perShard: nat)
      ensures Abs() == Empty(perShard)
    {
      entries, order, bytes, budget, nextSeq := map[], [], 0, perShard, 0;
    }

    /** Pops slots from the front, with the entries that are live, while over budget. */
    method EvictToFit()
      modifies this
      ensures Abs() == Evict(old(Abs()))
    {
      ghost var start := Abs();
      while bytes > budget
        invariant Evict(Abs()) == Evict(start)
        decreases |order|
      {
        if order == [] {
          break;
        }
        var slot := order[0];
        order := order[1..];
        var live := slot.key in entries && entries[slot.key].stamp == slot.stamp;
        if live {
          var e := entries[slot.key];
          entries := entries - {slot.key};
          bytes := if bytes < e.weight then 0 else bytes - e.weight;
        }
      }
    }

    /** Filters the queue in place, but only once it has outgrown the map. */
    method CompactOrder()
      modifies this`order
      ensures Abs() == Compact(old(Abs()))
    {
      if |order| <= |entries| * 2 + COMPACT_SLACK {
        return;
      }
      var kept, i := [], 0;
      ghost var goal := Retain(entries, order);
      assert order[0..] == order;
      while i < |order|
        invariant i <= |order|
        invariant goal == kept + Retain(entries, order[i..])
      {
        assert order[i..][1..] == order[i + 1..];
        if Live(entries, order[i]) {
          kept := kept + [order[i]];
        }
        i := i + 1;
      }
      order := kept;
    }

    method Put(cfg: Config, k: Key, msg: Message, now: nat, ttl: Option<nat>, weight: nat) returns (stored: bool)
      modifies this
      ensures stored == Accepts(old(Abs()), cfg, ttl, weight)
      ensures Abs() == CacheState.Put(old(Abs()), cfg, k, msg, now, ttl, weight)
    {
      hide Compact, Retain, Evict;
      if cfg.sizeBytes == 0 || ttl.None? || weight > budget {
        return false;
      }
      var stamp := nextSeq;
      nextSeq := nextSeq + 1;
      if k in entries {
        bytes := if bytes < entries[k].weight then 0 else bytes - entries[k].weight;
      }
      entries := entries[k := Entry(msg, now, ttl.value, weight, 0, false, stamp)];
      order := order + [Slot(stamp, k)];
      bytes := bytes + weight;
      CompactOrder();
      EvictToFit();
      stored := true;
    }

    method Get(cfg: Config, k: Key, now: nat) returns (hit: Option<Hit>)
      modifies this
      ensures (Abs(), hit) == CacheState.Get(old(Abs()), cfg, k, now)
    {
      hide Compact, Retain, Evict;
      if cfg.sizeBytes == 0 || k !in entries {
        return None;
      }
      var e := entries[k];
      var age := if now < e.stored then 0 else now - e.stored;
      var expired := age >= e.ttl;
      if expired && (!cfg.optimistic || age > cfg.maxAge) {
        entries := entries - {k};
        bytes := if bytes < e.weight then 0 else bytes - e.weight;
        CompactOrder();
        return None;
      }
      e := e.(hits := if e.hits < U32_MAX then e.hits + 1 else U32_MAX);
      var remaining := if e.ttl < age then 0 else e.ttl - age;
      var soon := if e.ttl / 10 < SECOND then SECOND else e.ttl / 10;
      var expiring := cfg.optimistic && e.hits >= REFRESH_MIN_HITS && remaining <= soon;
      var refresh := (expired || expiring) && !e.refreshing;
      if refresh {
        e := e.(refreshing := true);
      }
      entries := entries[k := e];
      hit := Some(Hit(e.msg, if expired then Stale else Fresh, refresh));
    }

    method EndRefresh(k: Key)
      modifies this`entries
      ensures Abs() == CacheState.EndRefresh(old(Abs()), k)
    {
      if k in entries {
        entries := entries[k := entries[k].(refreshing := false)];
      }
    }

    method Resize(cfg: Config)
      modifies this
      ensures Abs() == CacheState.Resize(old(Abs()), cfg)
    {
      budget := PerShard(cfg.sizeBytes);
      EvictToFit();
    }

    method SetConfig(cfg: Config)
      modifies this
      ensures Abs() == CacheState.SetConfig(old(Abs()), cfg)
    {
      Resize(cfg);
      if cfg.sizeBytes == 0 {
        Clear();
      }
    }

    method Clear()
      modifies this
      ensures Abs() == CacheState.Clear(old(Abs()))
    {
      entries, order, bytes := map[], [], 0;
    }
  }
}
