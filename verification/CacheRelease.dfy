/** Which connections a release takes out of the cache, in every state the application can reach. */
module CacheRelease {
  import opened Text
  import opened ConnectionConfigs
  import opened ConnectionKeys
  import opened ConnectionCache
  import opened CacheProtocol

  ghost predicate IsKey(key: ConnectionConfig, keying: Keying) {
    exists config :: keying.keyOf(config) == key
  }

  /** Entries are cached under the key of their own configuration, and so will be the instances just dialled. */
  ghost predicate WellKeyed(cache: Cache, keying: Keying) {
    forall key :: key in cache ==> cache[key].config == key && IsKey(key, keying)
  }

  ghost predicate SystemWellKeyed(s: System, keying: Keying) {
    WellKeyed(s.shared.cache, keying)
    && forall tid :: tid in s.threads && s.threads[tid].call.Dialled? ==> IsKey(s.threads[tid].call.key, keying)
  }

  lemma DialKeepsKeys(sh: Shared, th: Thread, answer: Answer, keying: Keying)
    requires IsDial(th.call) && WellKeyed(sh.cache, keying)
    requires th.call.Dialled? ==> IsKey(th.call.key, keying)
    ensures var (sh', th') := AdvanceDial(sh, th, answer, keying);
            WellKeyed(sh'.cache, keying) && (th'.call.Dialled? ==> IsKey(th'.call.key, keying))
  {
  }

  lemma LookupKeepsKeys(sh: Shared, call: Call, answer: Answer, keying: Keying)
    requires IsLookup(call) && WellKeyed(sh.cache, keying)
    ensures var (sh', call') := AdvanceLookup(sh, call, answer); WellKeyed(sh'.cache, keying) && !call'.Dialled?
  {
  }

  lemma KeepAliveKeepsKeys(sh: Shared, call: Call, answer: Answer, keying: Keying)
    requires IsKeepAlive(call) && WellKeyed(sh.cache, keying)
    ensures var (sh', call') := AdvanceKeepAlive(sh, call, answer); WellKeyed(sh'.cache, keying) && !call'.Dialled?
  {
  }

  lemma AdvanceKeepsKeys(sh: Shared, th: Thread, answer: Answer, keying: Keying)
    requires WellKeyed(sh.cache, keying)
    requires th.call.Dialled? ==> IsKey(th.call.key, keying)
    ensures var (sh', th') := Advance(sh, th, answer, keying);
            WellKeyed(sh'.cache, keying) && (th'.call.Dialled? ==> IsKey(th'.call.key, keying))
  {
    if IsLookup(th.call) {
      LookupKeepsKeys(sh, th.call, answer, keying);
    } else if IsDial(th.call) {
      DialKeepsKeys(sh, th, answer, keying);
    } else if IsKeepAlive(th.call) {
      KeepAliveKeepsKeys(sh, th.call, answer, keying);
    }
  }

  lemma {:induction false} AlwaysWellKeyed(states: seq<System>, steps: seq<Step>, keying: Keying, n: nat)
    requires IsRun(states, steps, keying) && n < |states|
    ensures SystemWellKeyed(states[n], keying)
  {
    if n > 0 {
      AlwaysWellKeyed(states, steps, keying, n - 1);
      if steps[n - 1].Run? {
        var (tid, answer) := (steps[n - 1].tid, steps[n - 1].answer);
        AdvanceKeepsKeys(states[n - 1].shared, states[n - 1].threads[tid], answer, keying);
      }
    }
  }

  /**
   A cached configuration keeps the release key and the type of the one it was cached for, and release keys show
   the type.
   */
  ghost predicate Lawful(keying: Keying) {
    forall config ::
      keying.releaseKeyOf(keying.keyOf(config)) == keying.releaseKeyOf(config)
      && keying.hasType(keying.keyOf(config)) == keying.hasType(config)
      && keying.hasType(keying.releaseKeyOf(config)) == keying.hasType(config)
  }

  lemma ConnectionKeyingIsLawful(rewrite: ParamsRewriter)
    ensures Lawful(ConnectionKeying(rewrite))
  {
    var keying := ConnectionKeying(rewrite);
    forall config
      ensures keying.releaseKeyOf(keying.keyOf(config)) == keying.releaseKeyOf(config)
      ensures keying.hasType(keying.keyOf(config)) == keying.hasType(config)
      ensures keying.hasType(keying.releaseKeyOf(config)) == keying.hasType(config)
    {
      ReleaseKeyOfCachedConfig(config, rewrite);
      KeysShowBlankType(config, rewrite);
    }
  }

  lemma KeysShowBlankType(config: ConnectionConfig, rewrite: ParamsRewriter)
    ensures (TrimSpace(NormalizeCacheKeyConfig(config, rewrite).dbType) == "") == (TrimSpace(config.dbType) == "")
    ensures (TrimSpace(NormalizeConnectionReleaseMatchConfig(config, rewrite).dbType) == "")
         == (TrimSpace(config.dbType) == "")
  {
    NormalizedType(config, rewrite);
    NormalizedTypeBlank(config.dbType);
  }

  lemma CountRemoved(cache: Cache, keys: set<ConnectionConfig>)
    requires keys <= cache.Keys
    ensures |keys| == |cache| - |cache - keys|
  {
    assert (cache - keys).Keys == cache.Keys - keys;
    assert |cache.Keys| == |cache| && |(cache - keys).Keys| == |cache - keys|;
  }

  /**
   Release is exact, in every reachable state. Each entry was cached for some configuration, and a release
   takes it out exactly when the released configuration has a type and both have the same release key; the
   entries that stay are unchanged, and the number returned is how many went. With the application's keying: same
   connection up to database, Redis index and parameters.
   */
  lemma ReleaseIsExact(states: seq<System>, steps: seq<Step>, keying: Keying, n: nat, released: ConnectionConfig,
                       key: ConnectionConfig)
    requires IsRun(states, steps, keying) && n < |states| && Lawful(keying)
    requires key in states[n].shared.cache
    ensures IsKey(key, keying)
    ensures forall config :: keying.keyOf(config) == key ==>
              (key !in ReleaseNow(states[n].shared, released, keying).0.cache
               <==> keying.hasType(released) && keying.releaseKeyOf(config) == keying.releaseKeyOf(released))
    ensures var cache' := ReleaseNow(states[n].shared, released, keying).0.cache;
            key in cache' ==> cache'[key] == states[n].shared.cache[key]
    ensures var (after, _, count) := ReleaseNow(states[n].shared, released, keying);
            count == |states[n].shared.cache| - |after.cache|
  {
    AlwaysWellKeyed(states, steps, keying, n);
    CountRemoved(states[n].shared.cache, ReleasedKeys(states[n].shared.cache, MatcherOf(released, keying)));
    forall config | keying.keyOf(config) == key
      ensures key !in ReleaseNow(states[n].shared, released, keying).0.cache
              <==> keying.hasType(released) && keying.releaseKeyOf(config) == keying.releaseKeyOf(released)
    {
      assert keying.hasType(keying.releaseKeyOf(config)) == keying.hasType(config) == keying.hasType(key);
      assert keying.hasType(keying.releaseKeyOf(released)) == keying.hasType(released);
      assert keying.releaseKeyOf(key) == keying.releaseKeyOf(config);
    }
  }

  /**
   With the application's keys: releasing a configuration takes exactly the connections cached for the same server, if
   it has a type at all.
   */
  lemma ReleasesSameServer(states: seq<System>, steps: seq<Step>, rewrite: ParamsRewriter, n: nat,
                           released: ConnectionConfig, config: ConnectionConfig)
    requires IsRun(states, steps, ConnectionKeying(rewrite)) && n < |states|
    requires NormalizeCacheKeyConfig(config, rewrite) in states[n].shared.cache
    ensures NormalizeCacheKeyConfig(config, rewrite)
              !in ReleaseNow(states[n].shared, released, ConnectionKeying(rewrite)).0.cache
            <==> TrimSpace(released.dbType) != "" && SameRelease(config, released)
  {
    var keying := ConnectionKeying(rewrite);
    ConnectionKeyingIsLawful(rewrite);
    ReleaseIsExact(states, steps, keying, n, released, NormalizeCacheKeyConfig(config, rewrite));
    SameReleaseKeyExactly(config, released, rewrite);
    assert keying.keyOf(config) == NormalizeCacheKeyConfig(config, rewrite);
  }

  /** A release reports how many entries went, and goes on to close their instances. */
  lemma ReleaseReportsCount(s: System, tid: nat, answer: Answer, keying: Keying)
    requires tid in s.threads && s.threads[tid].call.Releasing?
    ensures Enabled(s, Run(tid, answer))
    ensures var after := Apply(s, Run(tid, answer), keying);
            var (before, cache, th) := (s.shared.cache, after.shared.cache, after.threads[tid]);
            th.released == |before| - |cache|
            && th.call == ClosingReleased(InstancesAt(before, before.Keys - cache.Keys))
  {
    ReleaseCounts(s.shared, s.threads[tid].call.config, keying);
  }

  lemma ReleaseCounts(sh: Shared, config: ConnectionConfig, keying: Keying)
    ensures var (after, taken, count) := ReleaseNow(sh, config, keying);
            count == |sh.cache| - |after.cache| && taken == InstancesAt(sh.cache, sh.cache.Keys - after.cache.Keys)
  {
    var keys := ReleasedKeys(sh.cache, MatcherOf(config, keying));
    CountRemoved(sh.cache, keys);
    assert sh.cache.Keys - (sh.cache - keys).Keys == keys;
  }
}
