/**
 The connection ledger: in every reachable state of every interleaving, each driver instance ever created
 is in exactly one place, and is closed at most once.
 */
module CacheLedger {
  import opened Text
  import opened ConnectionConfigs
  import opened ConnectionCache
  import opened CacheProtocol

  /** The instances that only this call can close: dialled but not yet installed, or taken out of the cache. */
  function Held(call: Call): set<Inst> {
    match call
    case Connecting(_, _, inst, _) => {inst}
    case Rejected(_, _, inst, _, _, _) => {inst}
    case MakingRoom(pending) => pending
    case Dialled(inst, _) => {inst}
    case Duplicate(inst, _) => {inst}
    case ClosingReleased(pending) => pending
    case KeepAliveClosing(inst, _) => {inst}
    case _ => {}
  }

  ghost predicate InCache(cache: Cache, inst: Inst) {
    exists key :: Holds(cache, key, inst)
  }

  /** How often an instance is accounted for: each Close call, the cache, this call and the other calls count one. */
  ghost function Places(sh: Shared, mine: set<Inst>, others: set<Inst>, inst: Inst): nat {
    sh.closes[inst]
    + (if InCache(sh.cache, inst) then 1 else 0)
    + (if inst in mine then 1 else 0)
    + (if inst in others then 1 else 0)
  }

  ghost predicate Ledger(sh: Shared, mine: set<Inst>, others: set<Inst>) {
    Injective(sh.cache)
    && forall inst: Inst :: Places(sh, mine, others, inst) == if inst < sh.nextInst then 1 else 0
  }

  /** The same instances under the same keys, whatever else the entries say. */
  ghost predicate SameInstances(before: Cache, after: Cache) {
    before.Keys == after.Keys && forall key :: key in before ==> before[key].inst == after[key].inst
  }

  lemma SameInstancesKeepLedger(sh: Shared, after: Cache, mine: set<Inst>, others: set<Inst>)
    requires Ledger(sh, mine, others) && SameInstances(sh.cache, after)
    ensures Ledger(sh.(cache := after), mine, others)
  {
    forall inst: Inst ensures InCache(after, inst) == InCache(sh.cache, inst) {
      assert forall key :: Holds(after, key, inst) == Holds(sh.cache, key, inst);
    }
    assert forall inst: Inst ::
        Places(sh.(cache := after), mine, others, inst) == Places(sh, mine, others, inst);
  }

  lemma CloseHeldKeepsLedger(sh: Shared, inst: Inst, mine: set<Inst>, others: set<Inst>)
    requires Ledger(sh, mine, others) && inst in mine
    ensures Ledger(CloseNow(sh, inst), mine - {inst}, others)
  {
    assert forall i: Inst ::
        Places(CloseNow(sh, inst), mine - {inst}, others, i) == Places(sh, mine, others, i);
  }

  /** Without one key, exactly its instance is no longer cached. */
  lemma InCacheWithout(cache: Cache, keys: set<ConnectionConfig>, inst: Inst)
    requires Injective(cache)
    ensures InCache(cache - keys, inst) == (InCache(cache, inst) && inst !in InstancesAt(cache, keys))
  {
    assert forall key :: Holds(cache - keys, key, inst) == (Holds(cache, key, inst) && key !in keys);
    if InCache(cache, inst) {
      var key :| Holds(cache, key, inst);
      assert inst in InstancesAt(cache, keys) <==> key in keys;
    }
    if inst in InstancesAt(cache, keys) {
      var key :| key in keys && key in cache && cache[key].inst == inst;
      assert Holds(cache, key, inst);
    }
  }

  lemma InstancesAtCached(cache: Cache, keys: set<ConnectionConfig>, inst: Inst)
    requires inst in InstancesAt(cache, keys)
    ensures InCache(cache, inst)
  {
    var key :| key in keys && key in cache && cache[key].inst == inst;
    assert Holds(cache, key, inst);
  }

  lemma CloseCachedKeepsLedger(sh: Shared, key: ConnectionConfig, mine: set<Inst>, others: set<Inst>)
    requires Ledger(sh, mine, others)
    ensures Ledger(CloseCached(sh, key), mine, others)
  {
    if key in sh.cache {
      var inst := sh.cache[key].inst;
      assert Holds(sh.cache, key, inst);
      assert InstancesAt(sh.cache, {key}) == {inst};
      forall i: Inst ensures Places(CloseCached(sh, key), mine, others, i) == Places(sh, mine, others, i) {
        InCacheWithout(sh.cache, {key}, i);
      }
    }
  }

  lemma TakeKeepsLedger(sh: Shared, keys: set<ConnectionConfig>, others: set<Inst>)
    requires Ledger(sh, {}, others)
    ensures Ledger(sh.(cache := sh.cache - keys), InstancesAt(sh.cache, keys), others)
  {
    var taken := InstancesAt(sh.cache, keys);
    forall i: Inst ensures Places(sh.(cache := sh.cache - keys), taken, others, i) == Places(sh, {}, others, i) {
      InCacheWithout(sh.cache, keys, i);
      if i in taken {
        InstancesAtCached(sh.cache, keys, i);
      }
    }
  }

  lemma EvictKeepsLedger(sh: Shared, target: Target, others: set<Inst>)
    requires Ledger(sh, {}, others) && Holds(sh.cache, target.key, target.inst)
    ensures Ledger(sh.(cache := Evict(sh.cache, target.key, target.inst)), {target.inst}, others)
  {
    TakeKeepsLedger(sh, {target.key}, others);
    assert InstancesAt(sh.cache, {target.key}) == {target.inst};
  }

  lemma CreatePlaces(sh: Shared, others: set<Inst>, inst: Inst)
    requires Ledger(sh, {}, others)
    ensures Places(sh.(nextInst := sh.nextInst + 1), {sh.nextInst}, others, inst)
            == if inst < sh.nextInst + 1 then 1 else 0
  {
    assert Places(sh, {}, others, inst) == if inst < sh.nextInst then 1 else 0;
  }

  lemma CreateKeepsLedger(sh: Shared, others: set<Inst>)
    requires Ledger(sh, {}, others)
    ensures Ledger(sh.(nextInst := sh.nextInst + 1), {sh.nextInst}, others)
  {
    var after := sh.(nextInst := sh.nextInst + 1);
    forall inst: Inst
      ensures Places(after, {sh.nextInst}, others, inst) == if inst < after.nextInst then 1 else 0
    {
      CreatePlaces(sh, others, inst);
    }
  }

  lemma InstallKeepsLedger(sh: Shared, key: ConnectionConfig, entry: Entry, others: set<Inst>)
    requires Ledger(sh, {entry.inst}, others) && key !in sh.cache
    ensures Ledger(sh.(cache := sh.cache[key := entry]), {}, others)
  {
    var after := sh.cache[key := entry];
    assert Places(sh, {entry.inst}, others, entry.inst) <= 1;
    assert !InCache(sh.cache, entry.inst);
    forall k | k in sh.cache ensures sh.cache[k].inst != entry.inst {
      assert Holds(sh.cache, k, sh.cache[k].inst);
    }
    forall i: Inst ensures Places(sh.(cache := after), {}, others, i) == Places(sh, {entry.inst}, others, i) {
      assert Holds(after, key, entry.inst);
      assert forall k :: Holds(after, k, i) == (if k == key then i == entry.inst else Holds(sh.cache, k, i));
    }
  }

  lemma CloseAllKeepsLedger(sh: Shared, others: set<Inst>)
    requires Ledger(sh, {}, others)
    ensures Ledger(sh.(cache := map[], closes := sh.closes + ClosesAt(sh.cache, sh.cache.Keys)), {}, others)
  {
    TakeKeepsLedger(sh, sh.cache.Keys, others);
    var taken := sh.(cache := sh.cache - sh.cache.Keys);
    assert sh.cache - sh.cache.Keys == map[];
    var closed := taken.(closes := sh.closes + ClosesAt(sh.cache, sh.cache.Keys));
    assert forall i: Inst ::
        Places(closed, {}, others, i) == Places(taken, InstancesAt(sh.cache, sh.cache.Keys), others, i);
  }

  lemma LookupKeepsLedger(sh: Shared, call: Call, answer: Answer, others: set<Inst>)
    requires IsLookup(call) && Ledger(sh, {}, others)
    ensures var (sh', call') := AdvanceLookup(sh, call, answer);
            Ledger(sh', {}, others) && Held(call') == {}
  {
    match call
    case GetStart(key, _) => CloseCachedKeepsLedger(sh, key, {}, others);
    case GetHit(key, entry, _) =>
      var cache' := ApplySettings(sh.cache, key, entry.inst, answer.enabled, answer.interval);
      SameInstancesKeepLedger(sh, cache', {}, others);
    case GetPinged(key, entry) =>
      SameInstancesKeepLedger(sh, Touch(sh.cache, key, entry.inst, sh.now), {}, others);
    case GetPingFailed(key, _) => CloseCachedKeepsLedger(sh, key, {}, others);
    case _ =>
  }

  lemma DialKeepsLedger(sh: Shared, th: Thread, answer: Answer, keying: Keying, others: set<Inst>)
    requires IsDial(th.call) && Ledger(sh, Held(th.call), others)
    ensures var (sh', th') := AdvanceDial(sh, th, answer, keying); Ledger(sh', Held(th'.call), others)
  {
    match th.call
    case Dial(_, _) => CreateKeepsLedger(sh, others);
    case Connecting(_, _, _, _) =>
    case Rejected(_, _, inst, _, _, _) => CloseHeldKeepsLedger(sh, inst, {inst}, others);
                                          assert {inst} - {inst} == {};
    case RoundFailed(_, config, _) =>
      TakeKeepsLedger(sh, ReleasedKeys(sh.cache, MatcherOf(config, keying)), others);
    case MakingRoom(pending) =>
      if answer.target.inst in pending {
        CloseHeldKeepsLedger(sh, answer.target.inst, pending, others);
      }
    case Dialled(inst, key) =>
      if key !in sh.cache {
        InstallKeepsLedger(sh, key, Entry(inst, Some(sh.now), key, answer.enabled, answer.interval, false), others);
      }
    case Duplicate(inst, _) => CloseHeldKeepsLedger(sh, inst, {inst}, others);
                               assert {inst} - {inst} == {};
  }

  lemma PingResultKeepsLedger(sh: Shared, call: Call, answer: Answer, others: set<Inst>)
    requires (call.KeepAlivePinged? || call.KeepAliveFailed?) && Ledger(sh, {}, others)
    ensures var (sh', call') := AdvanceKeepAlive(sh, call, answer); Ledger(sh', Held(call'), others)
  {
    var target := call.target;
    if call.KeepAlivePinged? {
      SameInstancesKeepLedger(sh, FinishKeepAlive(sh.cache, target.key, target.inst, sh.now), {}, others);
    } else if Holds(sh.cache, target.key, target.inst) {
      EvictKeepsLedger(sh, target, others);
    }
  }

  lemma KeepAliveKeepsLedger(sh: Shared, call: Call, answer: Answer, others: set<Inst>)
    requires IsKeepAlive(call) && Ledger(sh, Held(call), others)
    ensures var (sh', call') := AdvanceKeepAlive(sh, call, answer); Ledger(sh', Held(call'), others)
  {
    match call
    case KeepAliveIdle => SameInstancesKeepLedger(sh, MarkDue(sh.cache, sh.now), {}, others);
    case KeepAlivePinged(_, _) => PingResultKeepsLedger(sh, call, answer, others);
    case KeepAliveFailed(_, _) => PingResultKeepsLedger(sh, call, answer, others);
    case KeepAliveClosing(inst, _) => CloseHeldKeepsLedger(sh, inst, {inst}, others);
                                      assert {inst} - {inst} == {};
    case _ =>
  }

  lemma OtherKeepsLedger(sh: Shared, th: Thread, answer: Answer, keying: Keying, others: set<Inst>)
    requires !IsLookup(th.call) && !IsDial(th.call) && !IsKeepAlive(th.call) && Ledger(sh, Held(th.call), others)
    ensures var (sh', th') := AdvanceOther(sh, th, answer, keying); Ledger(sh', Held(th'.call), others)
  {
    match th.call
    case Invalidating(key) => CloseCachedKeepsLedger(sh, key, {}, others);
    case Releasing(config) =>
      TakeKeepsLedger(sh, ReleasedKeys(sh.cache, MatcherOf(config, keying)), others);
    case ClosingReleased(pending) =>
      if answer.target.inst in pending {
        CloseHeldKeepsLedger(sh, answer.target.inst, pending, others);
      }
    case ShuttingDown => CloseAllKeepsLedger(sh, others);
    case _ =>
  }

  lemma AdvanceKeepsLedger(sh: Shared, th: Thread, answer: Answer, keying: Keying, others: set<Inst>)
    requires Ledger(sh, Held(th.call), others)
    ensures var (sh', th') := Advance(sh, th, answer, keying); Ledger(sh', Held(th'.call), others)
  {
    if IsLookup(th.call) {
      LookupKeepsLedger(sh, th.call, answer, others);
    } else if IsDial(th.call) {
      DialKeepsLedger(sh, th, answer, keying, others);
    } else if IsKeepAlive(th.call) {
      KeepAliveKeepsLedger(sh, th.call, answer, others);
    } else {
      OtherKeepsLedger(sh, th, answer, keying, others);
    }
  }

  /** Everything held by the calls of all threads but one. */
  ghost function HeldByOthers(threads: map<nat, Thread>, tid: nat): set<Inst> {
    set t, inst | t in threads && t != tid && inst in Held(threads[t].call) :: inst
  }

  ghost function HeldByAll(threads: map<nat, Thread>): set<Inst> {
    set t, inst | t in threads && inst in Held(threads[t].call) :: inst
  }

  lemma HeldByOthersUnchanged(threads: map<nat, Thread>, tid: nat, th: Thread)
    ensures HeldByOthers(threads[tid := th], tid) == HeldByOthers(threads, tid)
  {
    var after := threads[tid := th];
    assert forall t :: t in threads && t != tid ==> t in after && after[t] == threads[t];
    forall inst | inst in HeldByOthers(after, tid) ensures inst in HeldByOthers(threads, tid) {
      var t :| t in after && t != tid && inst in Held(after[t].call);
      assert t in threads;
    }
  }

  ghost predicate HoldsApart(threads: map<nat, Thread>) {
    forall t, u :: t in threads && u in threads && t != u ==> Held(threads[t].call) !! Held(threads[u].call)
  }

  /** Every instance created so far is in exactly one place, and nothing else is anywhere. */
  ghost predicate SystemLedger(s: System) {
    HoldsApart(s.threads) && Ledger(s.shared, {}, HeldByAll(s.threads))
  }

  lemma SplitHolders(sh: Shared, threads: map<nat, Thread>, tid: nat)
    requires HoldsApart(threads) && tid in threads
    ensures Ledger(sh, {}, HeldByAll(threads)) == Ledger(sh, Held(threads[tid].call), HeldByOthers(threads, tid))
  {
    var mine, others := Held(threads[tid].call), HeldByOthers(threads, tid);
    assert mine + others == HeldByAll(threads);
    assert mine !! others;
    assert forall i: Inst :: Places(sh, {}, HeldByAll(threads), i) == Places(sh, mine, others, i);
  }

  lemma RunKeepsLedger(s: System, tid: nat, answer: Answer, keying: Keying)
    requires SystemLedger(s) && tid in s.threads
    ensures var (shared, th) := Advance(s.shared, s.threads[tid], answer, keying);
            SystemLedger(System(shared, s.threads[tid := th]))
  {
    var (shared, th) := Advance(s.shared, s.threads[tid], answer, keying);
    var others := HeldByOthers(s.threads, tid);
    SplitHolders(s.shared, s.threads, tid);
    AdvanceKeepsLedger(s.shared, s.threads[tid], answer, keying, others);
    var threads := s.threads[tid := th];
    HeldByOthersUnchanged(s.threads, tid, th);
    assert Held(th.call) !! others by {
      forall i | i in Held(th.call) ensures i !in others {
        assert Places(shared, Held(th.call), others, i) <= 1;
      }
    }
    forall t, u | t in threads && u in threads && t != u
      ensures Held(threads[t].call) !! Held(threads[u].call)
    {
      assert t != tid ==> Held(threads[t].call) <= others;
      assert u != tid ==> Held(threads[u].call) <= others;
    }
    SplitHolders(shared, threads, tid);
  }

  lemma StepKeepsLedger(s: System, step: Step, keying: Keying)
    requires SystemLedger(s) && Enabled(s, step)
    ensures SystemLedger(Apply(s, step, keying))
  {
    match step
    case Spawn(tid, call) =>
      var s' := Apply(s, step, keying);
      assert Held(call) == {};
      HeldByOthersUnchanged(s.threads, tid, s'.threads[tid]);
      assert HeldByAll(s'.threads) == HeldByAll(s.threads) by {
        assert HeldByOthers(s.threads, tid) == HeldByAll(s.threads);
        assert HeldByAll(s'.threads) == HeldByOthers(s'.threads, tid);
      }
    case Run(tid, answer) => RunKeepsLedger(s, tid, answer, keying);
    case Elapse(millis) =>
      SameInstancesKeepLedger(s.shared, s.shared.cache, {}, HeldByAll(s.threads));
      var sh := s.shared.(now := s.shared.now + millis);
      assert forall i: Inst ::
          Places(sh, {}, HeldByAll(s.threads), i) == Places(s.shared, {}, HeldByAll(s.threads), i);
  }

  /** The ledger balances in every state of every run. */
  lemma {:induction false} LedgerAlways(states: seq<System>, steps: seq<Step>, keying: Keying, n: nat)
    requires IsRun(states, steps, keying) && n < |states|
    ensures SystemLedger(states[n])
  {
    if n == 0 {
      assert HeldByAll(INITIAL.threads) == {};
    } else {
      LedgerAlways(states, steps, keying, n - 1);
      StepKeepsLedger(states[n - 1], steps[n - 1], keying);
    }
  }

  /**
   What the ledger means, for every state of every run: an instance that exists is either cached, under one
   key only, or held by one call in progress, or closed, exactly one of the three; and no instance is ever
   closed twice.
   */
  lemma EveryInstanceInOnePlace(states: seq<System>, steps: seq<Step>, keying: Keying, n: nat, inst: Inst)
    requires IsRun(states, steps, keying) && n < |states|
    ensures states[n].shared.closes[inst] <= 1
    ensures var s := states[n];
            var cached := InCache(s.shared.cache, inst);
            var held := inst in HeldByAll(s.threads);
            var closed := s.shared.closes[inst] == 1;
            if inst < s.shared.nextInst then
              (cached && !held && !closed) || (!cached && held && !closed) || (!cached && !held && closed)
            else
              !cached && !held && !closed
    ensures forall k, l :: Holds(states[n].shared.cache, k, inst) && Holds(states[n].shared.cache, l, inst) ==> k == l
    ensures forall t, u :: t in states[n].threads && u in states[n].threads
                           && inst in Held(states[n].threads[t].call) && inst in Held(states[n].threads[u].call)
                           ==> t == u
  {
    LedgerAlways(states, steps, keying, n);
    var s := states[n];
    assert Places(s.shared, {}, HeldByAll(s.threads), inst) == if inst < s.shared.nextInst then 1 else 0;
  }

  /** No call holds an instance. */
  ghost predicate AtRest(s: System) {
    forall t :: t in s.threads ==> Held(s.threads[t].call) == {}
  }

  /** When no call holds an instance, every instance ever created is either cached or has been closed exactly once. */
  lemma NothingLeaksAtRest(states: seq<System>, steps: seq<Step>, keying: Keying, n: nat, inst: Inst)
    requires IsRun(states, steps, keying) && n < |states| && AtRest(states[n])
    ensures var sh := states[n].shared;
            sh.closes[inst] == if inst < sh.nextInst && !InCache(sh.cache, inst) then 1 else 0
  {
    EveryInstanceInOnePlace(states, steps, keying, n, inst);
  }
}
