/**
 The shared connection cache: one method per region of code that holds the mutex, each proved
 against a function on the cached map. The functions are the steps of the protocol in module CacheProtocol.
 */
module ConnectionCache {
  import opened Text
  import opened ConnectionConfigs

  /** The identity of a driver instance. */
  type Inst = nat

  /** `lastPing` is `None` for Go's zero time. Times and intervals are in milliseconds. */
  datatype Entry = Entry(
    inst: Inst,
    lastPing: Option<int>,
    config: ConnectionConfig,
    keepAliveEnabled: bool,
    keepAliveInterval: int,
    keepAliveInFlight: bool)

  type Cache = map<ConnectionConfig, Entry>

  datatype Target = Target(key: ConnectionConfig, inst: Inst)

  predicate Holds(cache: Cache, key: ConnectionConfig, inst: Inst) {
    key in cache && cache[key].inst == inst
  }

  function Insert(cache: Cache, key: ConnectionConfig, inst: Inst, now: int, enabled: bool, interval: int): Cache {
    cache[key := Entry(inst, Some(now), key, enabled, interval, false)]
  }

  /** New keep-alive settings for the entry that was read, if it is still there; switching off also ends its turn. */
  function ApplySettings(cache: Cache, key: ConnectionConfig, inst: Inst, enabled: bool, interval: int): Cache {
    if Holds(cache, key, inst) then
      var cur := cache[key];
      cache[key := cur.(keepAliveEnabled := enabled,
                        keepAliveInterval := interval,
                        keepAliveInFlight := cur.keepAliveInFlight && enabled)]
    else
      cache
  }

  function Touch(cache: Cache, key: ConnectionConfig, inst: Inst, now: int): Cache {
    if Holds(cache, key, inst) then cache[key := cache[key].(lastPing := Some(now))] else cache
  }

  function FinishKeepAlive(cache: Cache, key: ConnectionConfig, inst: Inst, now: int): Cache {
    if Holds(cache, key, inst) then
      cache[key := cache[key].(keepAliveInFlight := false, lastPing := Some(now))]
    else
      cache
  }

  function Evict(cache: Cache, key: ConnectionConfig, inst: Inst): Cache {
    if Holds(cache, key, inst) then cache - {key} else cache
  }

  predicate Overdue(entry: Entry, now: int) {
    entry.lastPing.None? || now - entry.lastPing.value >= entry.keepAliveInterval
  }

  predicate WantsKeepAlive(entry: Entry, now: int) {
    entry.keepAliveEnabled && entry.keepAliveInterval > 0 && Overdue(entry, now)
  }

  predicate Due(entry: Entry, now: int) {
    WantsKeepAlive(entry, now) && !entry.keepAliveInFlight
  }

  function MarkEntry(entry: Entry, now: int): Entry {
    if Due(entry, now) then entry.(keepAliveInFlight := true) else entry
  }

  function MarkDue(cache: Cache, now: int): Cache {
    map key | key in cache :: MarkEntry(cache[key], now)
  }

  function DueTargets(cache: Cache, now: int): set<Target> {
    set key | key in cache && Due(cache[key], now) :: Target(key, cache[key].inst)
  }

  /**
   While the due targets are collected: the entries that have been looked at are marked, and their targets
   collected.
   */
  ghost predicate Collecting(
      before: Cache, cache: Cache, pending: set<ConnectionConfig>, targets: seq<Target>, now: int) {
    pending <= before.Keys == cache.Keys
    && (forall key :: key in before ==>
          cache[key] == if key in pending then before[key] else MarkEntry(before[key], now))
    && (forall t :: t in targets <==> t.key !in pending && t in DueTargets(before, now))
    && forall i, j :: 0 <= i < j < |targets| ==> targets[i].key != targets[j].key
  }

  lemma CollectDue(
      before: Cache, cache: Cache, pending: set<ConnectionConfig>, targets: seq<Target>, now: int,
      key: ConnectionConfig)
    requires Collecting(before, cache, pending, targets, now) && key in pending && Due(before[key], now)
    ensures Collecting(before, cache[key := cache[key].(keepAliveInFlight := true)], pending - {key},
                       targets + [Target(key, cache[key].inst)], now)
  {
    assert forall i :: 0 <= i < |targets| ==> targets[i] in targets;
  }

  lemma CollectOther(
      before: Cache, cache: Cache, pending: set<ConnectionConfig>, targets: seq<Target>, now: int,
      key: ConnectionConfig)
    requires Collecting(before, cache, pending, targets, now) && key in pending && !Due(before[key], now)
    ensures Collecting(before, cache, pending - {key}, targets, now)
  {
  }

  /** Which cached configurations a release takes. */
  type Matcher = ConnectionConfig -> bool

  function ReleasedKeys(cache: Cache, matches: Matcher): set<ConnectionConfig> {
    set key | key in cache && matches(cache[key].config)
  }

  /** No instance is cached under two keys. */
  ghost predicate Injective(cache: Cache) {
    forall k, l {:trigger cache[k].inst, cache[l].inst} ::
      k in cache && l in cache && cache[k].inst == cache[l].inst ==> k == l
  }

  /** The instances cached under some keys. */
  function InstancesAt(cache: Cache, keys: set<ConnectionConfig>): set<Inst> {
    set key | key in keys && key in cache :: cache[key].inst
  }

  /** One Close call for each instance cached under some keys. */
  function ClosesAt(cache: Cache, keys: set<ConnectionConfig>): multiset<Inst> {
    multiset(InstancesAt(cache, keys))
  }

  lemma ClosesAtNone(cache: Cache)
    ensures ClosesAt(cache, {}) == multiset{}
  {
    assert InstancesAt(cache, {}) == {};
  }

  lemma ClosesAtOneMore(cache: Cache, keys: set<ConnectionConfig>, key: ConnectionConfig, before: multiset<Inst>)
    requires Injective(cache) && key in cache && key !in keys
    ensures before + ClosesAt(cache, keys + {key}) == before + ClosesAt(cache, keys) + multiset{cache[key].inst}
  {
    assert cache[key].inst !in InstancesAt(cache, keys);
    assert InstancesAt(cache, keys + {key}) == InstancesAt(cache, keys) + {cache[key].inst};
  }

  /** The loop over a cache that closes each instance once. */
  method CloseEach(cache: Cache, before: multiset<Inst>) returns (calls: multiset<Inst>)
    requires Injective(cache)
    ensures calls == before + ClosesAt(cache, cache.Keys)
  {
    calls := before;
    var pending := cache.Keys;
    ghost var done: set<ConnectionConfig> := {};
    ClosesAtNone(cache);
    while pending != {}
      invariant pending + done == cache.Keys && pending !! done
      invariant calls == before + ClosesAt(cache, done)
      decreases pending
    {
      var key :| key in pending;
      pending := pending - {key};
      ClosesAtOneMore(cache, done, key, before);
      calls := calls + multiset{cache[key].inst};
      done := done + {key};
    }
    assert done == cache.Keys;
  }

  /** The App fields of the cache, and the log of the driver's Close calls. */
  class SharedCache {
    var dbCache: Cache
    var closeCalls: multiset<Inst>

    constructor ()
      ensures dbCache == map[] && closeCalls == multiset{}
    {
      dbCache, closeCalls := map[], multiset{};
    }

    /** The driver of an optional data source was removed: what is cached for the exact key is closed at once. */
    method DropUnsupported(key: ConnectionConfig)
      modifies this
      ensures dbCache == old(dbCache) - {key}
      ensures closeCalls
           == old(closeCalls) + if key in old(dbCache) then multiset{old(dbCache)[key].inst} else multiset{}
    {
      if key in dbCache {
        closeCalls := closeCalls + multiset{dbCache[key].inst};
        dbCache := dbCache - {key};
      }
    }

    method UpdateSettings(key: ConnectionConfig, entry: Entry, enabled: bool, interval: int) returns (current: Entry)
      modifies this
      ensures dbCache == ApplySettings(old(dbCache), key, entry.inst, enabled, interval)
      ensures closeCalls == old(closeCalls)
      ensures current == if Holds(old(dbCache), key, entry.inst) then dbCache[key] else entry
      ensures current.inst == entry.inst
    {
      current := entry;
      if key in dbCache && dbCache[key].inst == entry.inst {
        var cur := dbCache[key].(keepAliveEnabled := enabled, keepAliveInterval := interval);
        if !enabled {
          cur := cur.(keepAliveInFlight := false);
        }
        dbCache := dbCache[key := cur];
        current := cur;
      }
    }

    method RecordPing(key: ConnectionConfig, inst: Inst, now: int)
      modifies this
      ensures dbCache == Touch(old(dbCache), key, inst, now)
      ensures closeCalls == old(closeCalls)
    {
      if key in dbCache && dbCache[key].inst == inst {
        var cur := dbCache[key].(lastPing := Some(now));
        dbCache := dbCache[key := cur];
      }
    }

    /** After a failed ping the instance is closed inside the region, if it is still the cached one. */
    method CloseAfterFailedPing(key: ConnectionConfig, inst: Inst)
      modifies this
      ensures dbCache == Evict(old(dbCache), key, inst)
      ensures closeCalls == old(closeCalls) + if Holds(old(dbCache), key, inst) then multiset{inst} else multiset{}
    {
      if key in dbCache && dbCache[key].inst == inst {
        closeCalls := closeCalls + multiset{inst};
        dbCache := dbCache - {key};
      }
    }

    /** A dialled instance enters the cache unless another call was faster; `winner` is what callers will use. */
    method CacheOrReuse(key: ConnectionConfig, inst: Inst, now: int, enabled: bool, interval: int)
      returns (winner: Inst)
      modifies this
      ensures Holds(dbCache, key, winner)
      ensures if key in old(dbCache) then dbCache == old(dbCache) && winner == old(dbCache)[key].inst
              else dbCache == Insert(old(dbCache), key, inst, now, enabled, interval) && winner == inst
      ensures closeCalls == old(closeCalls)
    {
      if key in dbCache {
        return dbCache[key].inst;
      }
      dbCache := dbCache[key := Entry(inst, Some(now), key, enabled, interval, false)];
      winner := inst;
    }

    method Invalidate(key: ConnectionConfig) returns (found: bool)
      modifies this
      ensures found == (key in old(dbCache))
      ensures dbCache == old(dbCache) - {key}
      ensures closeCalls == old(closeCalls) + if found then multiset{old(dbCache)[key].inst} else multiset{}
    {
      if key !in dbCache {
        return false;
      }
      closeCalls := closeCalls + multiset{dbCache[key].inst};
      dbCache := dbCache - {key};
      found := true;
    }

    /** Takes every matching connection out of the cache; they are closed after the region ends. */
    method TakeMatching(matches: Matcher) returns (targets: seq<Target>)
      modifies this
      ensures dbCache == old(dbCache) - ReleasedKeys(old(dbCache), matches)
      ensures |targets| == |ReleasedKeys(old(dbCache), matches)|
      ensures forall i, j :: 0 <= i < j < |targets| ==> targets[i].key != targets[j].key
      ensures forall t :: t in targets <==> t.key in ReleasedKeys(old(dbCache), matches)
                                            && Holds(old(dbCache), t.key, t.inst)
      ensures closeCalls == old(closeCalls)
    {
      targets := [];
      ghost var before := dbCache;
      ghost var taken: set<ConnectionConfig> := {};
      var pending := dbCache.Keys;
      while pending != {}
        invariant pending <= before.Keys && taken !! pending
        invariant forall key :: key in taken <==> key in before && key !in pending && matches(before[key].config)
        invariant dbCache == before - taken
        invariant |targets| == |taken|
        invariant forall t :: t in targets <==> t.key in taken && Holds(before, t.key, t.inst)
        invariant forall i, j :: 0 <= i < j < |targets| ==> targets[i].key != targets[j].key
        invariant closeCalls == old(closeCalls)
        decreases pending
      {
        var key :| key in pending;
        pending := pending - {key};
        var entry := dbCache[key];
        if matches(entry.config) {
          assert forall t :: t in targets ==> t.key != key;
          targets := targets + [Target(key, entry.inst)];
          dbCache := dbCache - {key};
          taken := taken + {key};
        }
      }
      assert taken == ReleasedKeys(before, matches);
    }

    method CollectDueTargets(now: int) returns (targets: seq<Target>)
      modifies this
      ensures dbCache == MarkDue(old(dbCache), now)
      ensures forall t :: t in targets <==> t in DueTargets(old(dbCache), now)
      ensures forall i, j :: 0 <= i < j < |targets| ==> targets[i] != targets[j]
      ensures closeCalls == old(closeCalls)
    {
      targets := [];
      var cache := dbCache;
      var pending := cache.Keys;
      while pending != {}
        invariant dbCache == old(dbCache) && closeCalls == old(closeCalls)
        invariant Collecting(dbCache, cache, pending, targets, now)
        decreases pending
      {
        var key :| key in pending;
        var entry := cache[key];
        if entry.keepAliveEnabled && entry.keepAliveInterval > 0 && !entry.keepAliveInFlight
           && (entry.lastPing.None? || now - entry.lastPing.value >= entry.keepAliveInterval)
        {
          CollectDue(dbCache, cache, pending, targets, now, key);
          cache := cache[key := entry.(keepAliveInFlight := true)];
          targets := targets + [Target(key, entry.inst)];
        } else {
          CollectOther(dbCache, cache, pending, targets, now, key);
        }
        pending := pending - {key};
      }
      dbCache := cache;
    }

    method MarkKeepAliveSuccess(key: ConnectionConfig, inst: Inst, pingedAt: int)
      modifies this
      ensures dbCache == FinishKeepAlive(old(dbCache), key, inst, pingedAt)
      ensures closeCalls == old(closeCalls)
    {
      if key !in dbCache || dbCache[key].inst != inst {
        return;
      }
      dbCache := dbCache[key := dbCache[key].(keepAliveInFlight := false, lastPing := Some(pingedAt))];
    }

    /** The entry leaves the cache inside the region; its instance is closed afterwards by the keep-alive loop. */
    method TakeAfterFailedKeepAlive(target: Target) returns (inst: Option<Inst>)
      modifies this
      ensures dbCache == Evict(old(dbCache), target.key, target.inst)
      ensures inst == if Holds(old(dbCache), target.key, target.inst) then Some(target.inst) else None
      ensures closeCalls == old(closeCalls)
    {
      inst := None;
      if target.key in dbCache && dbCache[target.key].inst == target.inst {
        inst := Some(target.inst);
        dbCache := dbCache - {target.key};
      }
    }

    /** Shutdown closes every cached instance inside one region and empties the cache. */
    method CloseAll()
      requires Injective(dbCache)
      modifies this
      ensures dbCache == map[]
      ensures closeCalls == old(closeCalls) + ClosesAt(old(dbCache), old(dbCache).Keys)
    {
      closeCalls := CloseEach(dbCache, closeCalls);
      dbCache := map[];
    }
  }
}
