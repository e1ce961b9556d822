/**
 What a get-or-dial call returns. In every interleaving it is an instance that the driver answered for, or that was
 used a moment ago; and one whose ping failed is neither returned nor found again.
 */
module CacheLookups {
  import opened Text
  import opened ConnectionConfigs
  import opened ConnectionCache
  import opened CacheProtocol
  import opened CacheLedger
  import opened CacheShutdown

  /** At any time any call may be made: to get a connection, to invalidate or release one, and to shut down; or not. */
  lemma AnyCallMayBegin(s: System, tid: nat, config: ConnectionConfig, forcePing: bool, millis: nat)
    requires tid !in s.threads
    ensures Enabled(s, Elapse(millis))
    ensures Enabled(s, Spawn(tid, GetStart(config, forcePing))) && Enabled(s, Spawn(tid, Invalidating(config)))
         && Enabled(s, Spawn(tid, Releasing(config))) && Enabled(s, Spawn(tid, ShuttingDown))
  {
  }

  /** The step is the next one of this thread. */
  predicate Moves(step: Step, tid: nat) {
    step.Run? && step.tid == tid
  }

  /** The instances that this call may still install. */
  function Dialling(call: Call): set<Inst> {
    match call
    case Connecting(_, _, inst, _) => {inst}
    case Rejected(_, _, inst, _, _, _) => {inst}
    case Dialled(inst, _) => {inst}
    case _ => {}
  }

  /** The instance is cached under these keys at most, and no call will install it. */
  ghost predicate Confined(s: System, inst: Inst, keys: set<ConnectionConfig>) {
    inst < s.shared.nextInst
    && (forall key :: Holds(s.shared.cache, key, inst) ==> key in keys)
    && forall t :: t in s.threads ==> inst !in Dialling(s.threads[t].call)
  }

  lemma DiallingGrows(sh: Shared, th: Thread, answer: Answer, keying: Keying)
    ensures var (sh', th') := Advance(sh, th, answer, keying);
            sh.nextInst <= sh'.nextInst && Dialling(th'.call) <= Dialling(th.call) + {sh.nextInst}
  {
  }

  lemma CacheStaysConfined(s: System, step: Step, keying: Keying, inst: Inst, keys: set<ConnectionConfig>)
    requires Enabled(s, step) && Confined(s, inst, keys)
    ensures forall key :: Holds(Apply(s, step, keying).shared.cache, key, inst) ==> key in keys
  {
    if step.Run? {
      var th := s.threads[step.tid];
      if th.call.Dialled? && th.call.key !in s.shared.cache {
        assert inst != th.call.inst;
      } else {
        RunLoses(s, step.tid, step.answer, keying);
      }
    }
  }

  /** Once confined, an instance stays confined. */
  lemma StaysConfined(s: System, step: Step, keying: Keying, inst: Inst, keys: set<ConnectionConfig>)
    requires Enabled(s, step) && Confined(s, inst, keys)
    ensures Confined(Apply(s, step, keying), inst, keys)
  {
    CacheStaysConfined(s, step, keying, inst, keys);
    if step.Run? {
      DiallingGrows(s.shared, s.threads[step.tid], step.answer, keying);
    }
  }

  /** The call has read this entry under this key, and may go on with its instance. */
  predicate Watches(call: Call, key: ConnectionConfig, inst: Inst) {
    match call
    case GetHit(k, entry, _) => k == key && entry.inst == inst
    case GetCheck(k, entry, _) => k == key && entry.inst == inst
    case GetPinged(k, entry) => k == key && entry.inst == inst
    case GetPingFailed(k, entry) => k == key && entry.inst == inst
    case _ => false
  }

  ghost predicate WatchedAreConfined(s: System) {
    forall t, key, inst :: t in s.threads && Watches(s.threads[t].call, key, inst) ==> Confined(s, inst, {key})
  }

  /** A cached instance is confined to its key. */
  lemma CachedIsConfined(s: System, key: ConnectionConfig, inst: Inst)
    requires SystemLedger(s) && Holds(s.shared.cache, key, inst)
    ensures Confined(s, inst, {key})
  {
    assert Places(s.shared, {}, HeldByAll(s.threads), inst) == if inst < s.shared.nextInst then 1 else 0;
    forall t | t in s.threads ensures inst !in Dialling(s.threads[t].call) {
      assert Dialling(s.threads[t].call) <= Held(s.threads[t].call);
      assert inst in Held(s.threads[t].call) ==> inst in HeldByAll(s.threads);
    }
  }

  /** A call begins to watch only what it has just found cached. */
  lemma WatchesWhatItRead(sh: Shared, th: Thread, answer: Answer, keying: Keying, key: ConnectionConfig, inst: Inst)
    requires Watches(Advance(sh, th, answer, keying).1.call, key, inst)
    ensures Watches(th.call, key, inst) || Holds(sh.cache, key, inst)
  {
  }

  lemma StepWatches(s: System, step: Step, keying: Keying)
    requires Enabled(s, step) && SystemLedger(s) && WatchedAreConfined(s)
    ensures WatchedAreConfined(Apply(s, step, keying))
  {
    var s' := Apply(s, step, keying);
    forall t, key, inst | t in s'.threads && Watches(s'.threads[t].call, key, inst) ensures Confined(s', inst, {key}) {
      if Moves(step, t) && Holds(s.shared.cache, key, inst) {
        CachedIsConfined(s, key, inst);
      } else if Moves(step, t) {
        WatchesWhatItRead(s.shared, s.threads[t], step.answer, keying, key, inst);
      }
      StaysConfined(s, step, keying, inst, {key});
    }
  }

  lemma {:induction false} AlwaysWatched(states: seq<System>, steps: seq<Step>, keying: Keying, n: nat)
    requires IsRun(states, steps, keying) && n < |states|
    ensures WatchedAreConfined(states[n])
  {
    if n > 0 {
      AlwaysWatched(states, steps, keying, n - 1);
      LedgerAlways(states, steps, keying, n - 1);
      StepWatches(states[n - 1], steps[n - 1], keying);
    }
  }

  // A ping that fails.

  /** The entry has to be pinged: a ping is forced, or its last one is at least half a minute ago. */
  predicate IsStale(entry: Entry, forcePing: bool, now: int) {
    forcePing || entry.lastPing.None? || entry.lastPing.value + 30_000 <= now
  }

  /** The thread has turned away from the instance, and goes on without it. */
  predicate GoesOnWithout(call: Call, inst: Inst) {
    match call
    case GetMiss(_) => true
    case Dial(_, _) => true
    case Connecting(_, _, own, _) => own != inst
    case Rejected(_, _, own, _, _, _) => own != inst
    case RoundFailed(_, _, _) => true
    case MakingRoom(_) => true
    case Dialled(own, _) => own != inst
    case Duplicate(own, existing) => own != inst && existing != inst
    case Returned(returned) => returned != inst
    case Failed => true
    case _ => false
  }

  ghost predicate HasTurnedAway(s: System, tid: nat, inst: Inst) {
    tid in s.threads
    && ((s.threads[tid].call.GetPingFailed? && s.threads[tid].call.entry.inst == inst)
        || (Confined(s, inst, {}) && GoesOnWithout(s.threads[tid].call, inst)))
  }

  lemma GoesOn(sh: Shared, th: Thread, answer: Answer, keying: Keying, inst: Inst)
    requires GoesOnWithout(th.call, inst) && inst < sh.nextInst && forall key :: !Holds(sh.cache, key, inst)
    ensures GoesOnWithout(Advance(sh, th, answer, keying).1.call, inst)
  {
    if th.call.Dialled? && th.call.key in sh.cache {
      assert !Holds(sh.cache, th.call.key, inst);
    }
  }

  /** The region after a failed ping takes the instance out, if it is there, and closes it. */
  lemma EvictsAfterFailure(s: System, step: Step, keying: Keying, inst: Inst)
    requires Enabled(s, step) && step.Run? && s.threads[step.tid].call.GetPingFailed?
    requires s.threads[step.tid].call.entry.inst == inst && Confined(s, inst, {s.threads[step.tid].call.key})
    ensures Confined(Apply(s, step, keying), inst, {}) && Apply(s, step, keying).threads[step.tid].call.GetMiss?
    ensures Apply(s, step, keying).shared.closes[inst]
         == s.shared.closes[inst] + if InCache(s.shared.cache, inst) then 1 else 0
  {
    var key := s.threads[step.tid].call.key;
    StaysConfined(s, step, keying, inst, {key});
    assert InCache(s.shared.cache, inst) <==> Holds(s.shared.cache, key, inst);
  }

  lemma StaysTurnedAway(s: System, step: Step, keying: Keying, tid: nat, inst: Inst)
    requires Enabled(s, step) && WatchedAreConfined(s) && HasTurnedAway(s, tid, inst)
    ensures HasTurnedAway(Apply(s, step, keying), tid, inst)
  {
    var call := s.threads[tid].call;
    if call.GetPingFailed? {
      if Moves(step, tid) {
        assert Watches(call, call.key, inst);
        EvictsAfterFailure(s, step, keying, inst);
      }
    } else {
      StaysConfined(s, step, keying, inst, {});
      if Moves(step, tid) {
        GoesOn(s.shared, s.threads[tid], step.answer, keying, inst);
      }
    }
  }

  lemma {:induction false} TurnedAwayFrom(
      states: seq<System>, steps: seq<Step>, keying: Keying, j: nat, n: nat, tid: nat, inst: Inst)
    requires IsRun(states, steps, keying) && j <= n < |states| && HasTurnedAway(states[j], tid, inst)
    ensures HasTurnedAway(states[n], tid, inst)
  {
    if j < n {
      TurnedAwayFrom(states, steps, keying, j, n - 1, tid, inst);
      AlwaysWatched(states, steps, keying, n - 1);
      StaysTurnedAway(states[n - 1], steps[n - 1], keying, tid, inst);
    }
  }

  /** Step `j` is that of a thread with an entry in its hands that it is about to use. */
  predicate IsCheck(states: seq<System>, steps: seq<Step>, j: nat, tid: nat) {
    j < |steps| && j < |states| && Moves(steps[j], tid) && tid in states[j].threads
    && states[j].threads[tid].call.GetCheck?
  }

  /**
   A call whose ping fails never returns the instance that it pinged; and once it has gone on, nobody finds that
   instance in the cache again.
   */
  lemma FailedPingIsNeverReturned(states: seq<System>, steps: seq<Step>, keying: Keying, j: nat, n: nat, tid: nat)
    requires IsRun(states, steps, keying) && IsCheck(states, steps, j, tid) && j < n < |states|
    requires var call := states[j].threads[tid].call; IsStale(call.entry, call.forcePing, states[j].shared.now)
    requires !steps[j].answer.ok
    ensures tid in states[n].threads
    ensures var (inst, call) := (states[j].threads[tid].call.entry.inst, states[n].threads[tid].call);
            call != Returned(inst) && (!call.GetPingFailed? ==> !InCache(states[n].shared.cache, inst))
  {
    var inst := states[j].threads[tid].call.entry.inst;
    assert HasTurnedAway(states[j + 1], tid, inst);
    TurnedAwayFrom(states, steps, keying, j + 1, n, tid, inst);
  }

  // A ping that succeeds, or that is not needed.

  /** A call uses a cached instance without a ping exactly when none is forced and the last one is recent. */
  lemma UnpingedExactlyWhenRecent(states: seq<System>, steps: seq<Step>, keying: Keying, j: nat, tid: nat)
    requires IsRun(states, steps, keying) && IsCheck(states, steps, j, tid)
    ensures tid in states[j + 1].threads
    ensures var call := states[j].threads[tid].call;
            (states[j + 1].threads[tid].call == Returned(call.entry.inst)
             <==> !IsStale(call.entry, call.forcePing, states[j].shared.now))
            && (states[j + 1].threads[tid].call.Returned? ==>
                  states[j + 1].threads[tid].call == Returned(call.entry.inst))
            && states[j + 1].shared == states[j].shared
  {
  }

  /** The instance is about to be returned, or has been. */
  predicate HasSucceeded(call: Call, key: ConnectionConfig, inst: Inst) {
    (call.GetPinged? && call.key == key && call.entry.inst == inst) || call == Returned(inst)
  }

  lemma {:induction false} SucceededFrom(
      states: seq<System>, steps: seq<Step>, keying: Keying, j: nat, n: nat, tid: nat, key: ConnectionConfig,
      inst: Inst)
    requires IsRun(states, steps, keying) && j <= n < |states|
    requires tid in states[j].threads && HasSucceeded(states[j].threads[tid].call, key, inst)
    ensures tid in states[n].threads && HasSucceeded(states[n].threads[tid].call, key, inst)
    ensures (states[n].threads[tid].call.Returned? <==>
               states[j].threads[tid].call.Returned? || exists i :: j <= i < n && Moves(steps[i], tid))
  {
    if j < n {
      SucceededFrom(states, steps, keying, j, n - 1, tid, key, inst);
      SucceedsOn(states[n - 1], steps[n - 1], keying, tid, key, inst);
    }
  }

  lemma SucceedsOn(s: System, step: Step, keying: Keying, tid: nat, key: ConnectionConfig, inst: Inst)
    requires Enabled(s, step) && tid in s.threads && HasSucceeded(s.threads[tid].call, key, inst)
    ensures tid in Apply(s, step, keying).threads
    ensures var call := Apply(s, step, keying).threads[tid].call;
            HasSucceeded(call, key, inst) && (call.Returned? <==> s.threads[tid].call.Returned? || Moves(step, tid))
    ensures Moves(step, tid) ==>
              if s.threads[tid].call.Returned? then Apply(s, step, keying).shared == s.shared
              else OnlyRecords(s.shared, Apply(s, step, keying).shared, key, inst)
  {
  }

  /** The ping is recorded on the entry that holds the instance, if it is still there; nothing else changes. */
  ghost predicate OnlyRecords(before: Shared, after: Shared, key: ConnectionConfig, inst: Inst) {
    after.closes == before.closes && after.nextInst == before.nextInst && after.cache.Keys == before.cache.Keys
    && forall k :: k in before.cache ==>
         after.cache[k] == if k == key && before.cache[k].inst == inst then
                             before.cache[k].(lastPing := Some(before.now))
                           else before.cache[k]
  }

  /**
   A call whose ping succeeds returns the instance that it pinged, at its next step, and records the ping; it closes
   nothing and deletes nothing.
   */
  lemma SucceededPingIsReturned(states: seq<System>, steps: seq<Step>, keying: Keying, j: nat, n: nat, tid: nat)
    requires IsRun(states, steps, keying) && IsCheck(states, steps, j, tid) && j < n < |states|
    requires var call := states[j].threads[tid].call; IsStale(call.entry, call.forcePing, states[j].shared.now)
    requires steps[j].answer.ok
    ensures states[j + 1].shared == states[j].shared && tid in states[n].threads
    ensures var inst := states[j].threads[tid].call.entry.inst;
            (states[n].threads[tid].call == Returned(inst) <==> exists i :: j < i < n && Moves(steps[i], tid))
    ensures n < |steps| && Moves(steps[n], tid) ==>
              var (key, inst) := (states[j].threads[tid].call.key, states[j].threads[tid].call.entry.inst);
              if states[n].threads[tid].call == Returned(inst) then states[n + 1].shared == states[n].shared
              else OnlyRecords(states[n].shared, states[n + 1].shared, key, inst)
  {
    var (key, inst) := (states[j].threads[tid].call.key, states[j].threads[tid].call.entry.inst);
    assert states[j + 1].threads[tid].call.GetPinged?;
    SucceededFrom(states, steps, keying, j + 1, n, tid, key, inst);
    if n < |steps| {
      SucceedsOn(states[n], steps[n], keying, tid, key, inst);
    }
  }

  // What every returned instance has behind it.

  /** The instances that the call will return, or install and return. */
  function Promised(call: Call): set<Inst> {
    match call
    case GetPinged(_, entry) => {entry.inst}
    case Dialled(inst, _) => {inst}
    case Duplicate(_, existing) => {existing}
    case Returned(inst) => {inst}
    case _ => {}
  }

  /**
   The thread's step vouches for an instance: it was pinged, or pinged a moment ago; it was connected; or it was found
   cached for the connection that the call has just dialled.
   */
  predicate Vouches(s: System, tid: nat, answer: Answer, inst: Inst) {
    tid in s.threads
    && match s.threads[tid].call
       case GetCheck(_, entry, force) => entry.inst == inst && (answer.ok || !IsStale(entry, force, s.shared.now))
       case Connecting(_, _, own, _) => own == inst && answer.ok
       case Dialled(_, key) => Holds(s.shared.cache, key, inst)
       case _ => false
  }

  ghost predicate IsVouchedFor(states: seq<System>, steps: seq<Step>, n: nat, tid: nat, inst: Inst)
    requires n <= |states| && n <= |steps|
  {
    exists j :: 0 <= j < n && Moves(steps[j], tid) && Vouches(states[j], tid, steps[j].answer, inst)
  }

  lemma PromisesNeedVouching(s: System, tid: nat, answer: Answer, keying: Keying, inst: Inst)
    requires tid in s.threads && inst in Promised(Advance(s.shared, s.threads[tid], answer, keying).1.call)
    ensures inst in Promised(s.threads[tid].call) || Vouches(s, tid, answer, inst)
  {
  }

  lemma VouchedLater(states: seq<System>, steps: seq<Step>, n: nat, m: nat, tid: nat, inst: Inst)
    requires n <= m <= |states| && m <= |steps| && IsVouchedFor(states, steps, n, tid, inst)
    ensures IsVouchedFor(states, steps, m, tid, inst)
  {
    var j :| 0 <= j < n && Moves(steps[j], tid) && Vouches(states[j], tid, steps[j].answer, inst);
    assert Vouches(states[j], tid, steps[j].answer, inst);
  }

  lemma {:induction false} PromisedIsVouchedFor(
      states: seq<System>, steps: seq<Step>, keying: Keying, n: nat, tid: nat, inst: Inst)
    requires IsRun(states, steps, keying) && n < |states|
    requires tid in states[n].threads && inst in Promised(states[n].threads[tid].call)
    ensures IsVouchedFor(states, steps, n, tid, inst)
  {
    if n > 0 {
      var (before, step) := (states[n - 1], steps[n - 1]);
      if Moves(step, tid) {
        PromisesNeedVouching(before, tid, step.answer, keying, inst);
      }
      if tid in before.threads && inst in Promised(before.threads[tid].call) {
        PromisedIsVouchedFor(states, steps, keying, n - 1, tid, inst);
        VouchedLater(states, steps, n - 1, n, tid, inst);
      } else {
        assert Vouches(states[n - 1], tid, steps[n - 1].answer, inst);
      }
    }
  }

  /**
   Whatever a get-or-dial call returns, one of its own steps vouched for: a ping of it that succeeded or that was not
   needed, its own connect that succeeded, or the cache, which had it under the key of the connection just dialled.
   */
  lemma ReturnedIsVouchedFor(states: seq<System>, steps: seq<Step>, keying: Keying, n: nat, tid: nat, inst: Inst)
    requires IsRun(states, steps, keying) && n < |states|
    requires tid in states[n].threads && states[n].threads[tid].call == Returned(inst)
    ensures exists j :: 0 <= j < n && Moves(steps[j], tid) && Vouches(states[j], tid, steps[j].answer, inst)
  {
    PromisedIsVouchedFor(states, steps, keying, n, tid, inst);
    var j :| 0 <= j < n && Moves(steps[j], tid) && Vouches(states[j], tid, steps[j].answer, inst);
    assert Moves(steps[j], tid);
  }

  // How a lookup begins.

  lemma {:induction false} FailedStaysFailed(
      states: seq<System>, steps: seq<Step>, keying: Keying, j: nat, n: nat, tid: nat)
    requires IsRun(states, steps, keying) && j <= n < |states|
    requires tid in states[j].threads && states[j].threads[tid].call == Failed
    ensures tid in states[n].threads && states[n].threads[tid].call == Failed
  {
    if j < n {
      FailedStaysFailed(states, steps, keying, j, n - 1, tid);
    }
  }

  /** A call for an unsupported driver fails, and what was cached for it is closed and gone. */
  lemma UnsupportedFails(states: seq<System>, steps: seq<Step>, keying: Keying, j: nat, n: nat, tid: nat)
    requires IsRun(states, steps, keying) && j < n < |states|
    requires Moves(steps[j], tid) && tid in states[j].threads && states[j].threads[tid].call.GetStart?
    requires !steps[j].answer.ok
    ensures tid in states[n].threads && states[n].threads[tid].call == Failed
    ensures var (key, before, after) := (states[j].threads[tid].call.key, states[j].shared, states[j + 1].shared);
            after.cache == before.cache - {key}
            && after.closes == before.closes + if key in before.cache then multiset{before.cache[key].inst}
                                               else multiset{}
  {
    var key := states[j].threads[tid].call.key;
    if key !in states[j].shared.cache {
      assert states[j].shared.cache - {key} == states[j].shared.cache;
    }
    FailedStaysFailed(states, steps, keying, j + 1, n, tid);
  }

  /**
   A call for a supported driver finds exactly what is cached under its key at the moment it looks, and closes nothing
   on the way.
   */
  lemma LookupFindsCached(states: seq<System>, steps: seq<Step>, keying: Keying, j: nat, tid: nat)
    requires IsRun(states, steps, keying) && j < |steps| && Moves(steps[j], tid) && tid in states[j].threads
    ensures tid in states[j + 1].threads
    ensures var (call, after) := (states[j].threads[tid].call, states[j + 1].threads[tid].call);
            (call.GetStart? && steps[j].answer.ok ==>
               after == GetRead(call.key, call.forcePing) && states[j + 1].shared == states[j].shared)
            && (call.GetRead? ==>
                  states[j + 1].shared == states[j].shared
                  && (after.GetMiss? <==> call.key !in states[j].shared.cache)
                  && (!after.GetMiss? ==> after == GetHit(call.key, states[j].shared.cache[call.key], call.forcePing)))
  {
  }

  /**
   New keep-alive settings reach the cached entry that holds the instance read, and with them switched off its turn
   ends; all other entries, and all else of this one, stay.
   */
  lemma SettingsReachTheEntry(states: seq<System>, steps: seq<Step>, keying: Keying, j: nat, tid: nat,
                              k: ConnectionConfig)
    requires IsRun(states, steps, keying) && j < |steps| && Moves(steps[j], tid) && tid in states[j].threads
    requires states[j].threads[tid].call.GetHit? && k in states[j].shared.cache
    ensures k in states[j + 1].shared.cache
    ensures var (call, answer) := (states[j].threads[tid].call, steps[j].answer);
            var (was, becomes) := (states[j].shared.cache[k], states[j + 1].shared.cache[k]);
            var changed := call.entry.keepAliveEnabled != answer.enabled
                           || call.entry.keepAliveInterval != answer.interval;
            if changed && k == call.key && was.inst == call.entry.inst then
              becomes.keepAliveEnabled == answer.enabled && becomes.keepAliveInterval == answer.interval
              && (becomes.keepAliveInFlight <==> answer.enabled && was.keepAliveInFlight)
              && (becomes.inst, becomes.lastPing, becomes.config) == (was.inst, was.lastPing, was.config)
            else becomes == was
  {
  }
}
