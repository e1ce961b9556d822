/**
 What shutting down closes. The shutdown does not wait for calls in progress, so a call that is still dialling
 may install its instance afterwards.
 */
module CacheShutdown {
  import opened Text
  import opened ConnectionConfigs
  import opened ConnectionCache
  import opened CacheProtocol
  import opened CacheLedger

  /** Step `m` is the region in which the shutdown closes and empties the cache. */
  ghost predicate ShutsDown(states: seq<System>, steps: seq<Step>, m: nat) {
    m < |steps| && m < |states| && steps[m].Run? && steps[m].tid in states[m].threads
    && states[m].threads[steps[m].tid].call.ShuttingDown?
  }

  /** The step puts a dialled instance into the cache. */
  ghost predicate InstallsInstance(s: System, step: Step, inst: Inst) {
    step.Run? && step.tid in s.threads && s.threads[step.tid].call.Dialled?
    && s.threads[step.tid].call.inst == inst && s.threads[step.tid].call.key !in s.shared.cache
  }

  /** The keys whose entries the next step of a call deletes, if there are any. */
  function TakenKeys(cache: Cache, call: Call, answer: Answer, keying: Keying): set<ConnectionConfig> {
    match call
    case GetStart(key, _) => if answer.ok then {} else {key}
    case GetPingFailed(key, entry) => if Holds(cache, key, entry.inst) then {key} else {}
    case RoundFailed(round, config, maxUsers) =>
      if round == 1 && maxUsers then ReleasedKeys(cache, MatcherOf(config, keying)) else {}
    case Invalidating(key) => {key}
    case Releasing(config) => ReleasedKeys(cache, MatcherOf(config, keying))
    case ShuttingDown => cache.Keys
    case KeepAliveFailed(target, _) => if Holds(cache, target.key, target.inst) then {target.key} else {}
    case _ => {}
  }

  /** The step takes the instance out of the cache: by any of the calls that delete entries. */
  ghost predicate TakesOut(s: System, step: Step, keying: Keying, inst: Inst) {
    step.Run? && step.tid in s.threads
    && exists key :: key in TakenKeys(s.shared.cache, s.threads[step.tid].call, step.answer, keying)
                     && Holds(s.shared.cache, key, inst)
  }

  /** The same instances under the same keys, but for the keys deleted. */
  ghost predicate Loses(before: Cache, after: Cache, keys: set<ConnectionConfig>) {
    forall key, inst :: Holds(after, key, inst) <==> Holds(before, key, inst) && key !in keys
  }

  lemma LookupLoses(sh: Shared, call: Call, answer: Answer, keying: Keying)
    requires IsLookup(call)
    ensures Loses(sh.cache, AdvanceLookup(sh, call, answer).0.cache, TakenKeys(sh.cache, call, answer, keying))
  {
  }

  lemma KeepAliveLoses(sh: Shared, call: Call, answer: Answer, keying: Keying)
    requires IsKeepAlive(call)
    ensures Loses(sh.cache, AdvanceKeepAlive(sh, call, answer).0.cache, TakenKeys(sh.cache, call, answer, keying))
  {
  }

  lemma OtherLoses(sh: Shared, th: Thread, answer: Answer, keying: Keying)
    requires !IsLookup(th.call) && !IsDial(th.call) && !IsKeepAlive(th.call)
    ensures Loses(sh.cache, AdvanceOther(sh, th, answer, keying).0.cache,
                  TakenKeys(sh.cache, th.call, answer, keying))
  {
  }

  lemma DialLoses(sh: Shared, th: Thread, answer: Answer, keying: Keying)
    requires IsDial(th.call) && (th.call.Dialled? ==> th.call.key in sh.cache)
    ensures Loses(sh.cache, AdvanceDial(sh, th, answer, keying).0.cache,
                  TakenKeys(sh.cache, th.call, answer, keying))
  {
  }

  lemma RunLoses(s: System, tid: nat, answer: Answer, keying: Keying)
    requires tid in s.threads
    requires s.threads[tid].call.Dialled? ==> s.threads[tid].call.key in s.shared.cache
    ensures Loses(s.shared.cache, Advance(s.shared, s.threads[tid], answer, keying).0.cache,
                  TakenKeys(s.shared.cache, s.threads[tid].call, answer, keying))
  {
    var th := s.threads[tid];
    if IsLookup(th.call) {
      LookupLoses(s.shared, th.call, answer, keying);
    } else if IsDial(th.call) {
      DialLoses(s.shared, th, answer, keying);
    } else if IsKeepAlive(th.call) {
      KeepAliveLoses(s.shared, th.call, answer, keying);
    } else {
      OtherLoses(s.shared, th, answer, keying);
    }
  }

  lemma LosesInstances(before: Cache, after: Cache, keys: set<ConnectionConfig>, inst: Inst)
    requires Injective(before) && Loses(before, after, keys)
    ensures InCache(after, inst)
       <==> InCache(before, inst) && !(exists key :: key in keys && Holds(before, key, inst))
  {
    if key :| Holds(before, key, inst) {
      assert key !in keys ==> Holds(after, key, inst);
    }
  }

  lemma InstallAdds(s: System, step: Step, keying: Keying, inst: Inst)
    requires Enabled(s, step) && step.Run? && s.threads[step.tid].call.Dialled?
    requires s.threads[step.tid].call.key !in s.shared.cache
    ensures InCache(Apply(s, step, keying).shared.cache, inst)
       <==> InCache(s.shared.cache, inst) || InstallsInstance(s, step, inst)
  {
    var (call, after) := (s.threads[step.tid].call, Apply(s, step, keying).shared.cache);
    assert forall k :: Holds(after, k, inst) <==>
        (if k == call.key then inst == call.inst else Holds(s.shared.cache, k, inst));
    assert !Holds(s.shared.cache, call.key, inst);
  }

  /** After a step an instance is cached exactly if it is installed by it, or was cached and is not taken out. */
  lemma StepCaches(s: System, step: Step, keying: Keying, inst: Inst)
    requires Enabled(s, step) && Injective(s.shared.cache)
    ensures InCache(Apply(s, step, keying).shared.cache, inst)
       <==> InstallsInstance(s, step, inst) || (InCache(s.shared.cache, inst) && !TakesOut(s, step, keying, inst))
  {
    if step.Run? {
      var th := s.threads[step.tid];
      if th.call.Dialled? && th.call.key !in s.shared.cache {
        InstallAdds(s, step, keying, inst);
      } else {
        RunLoses(s, step.tid, step.answer, keying);
        LosesInstances(s.shared.cache, Apply(s, step, keying).shared.cache,
                       TakenKeys(s.shared.cache, th.call, step.answer, keying), inst);
      }
    }
  }

  /** Step `j` installs the instance, and no step from there to state `n` takes it out. */
  ghost predicate InstalledForGood(
      states: seq<System>, steps: seq<Step>, keying: Keying, j: nat, n: nat, inst: Inst)
    requires n <= |steps| && n <= |states|
  {
    j < n && InstallsInstance(states[j], steps[j], inst)
    && forall i :: j < i < n ==> !TakesOut(states[i], steps[i], keying, inst)
  }

  ghost predicate SomeForGood(
      states: seq<System>, steps: seq<Step>, keying: Keying, m: nat, n: nat, inst: Inst)
    requires n <= |steps| && n <= |states|
  {
    exists j :: m < j && InstalledForGood(states, steps, keying, j, n, inst)
  }

  lemma SomeForGoodOneMore(
      states: seq<System>, steps: seq<Step>, keying: Keying, m: nat, n: nat, inst: Inst)
    requires m < n < |steps| && n < |states|
    ensures SomeForGood(states, steps, keying, m, n + 1, inst)
       <==> InstallsInstance(states[n], steps[n], inst)
            || (SomeForGood(states, steps, keying, m, n, inst) && !TakesOut(states[n], steps[n], keying, inst))
  {
    var next := n + 1;
    if j :| m < j && InstalledForGood(states, steps, keying, j, next, inst) {
      assert j < n ==> InstalledForGood(states, steps, keying, j, n, inst);
    }
    if InstallsInstance(states[n], steps[n], inst) {
      assert InstalledForGood(states, steps, keying, n, n + 1, inst);
    }
    if SomeForGood(states, steps, keying, m, n, inst) && !TakesOut(states[n], steps[n], keying, inst) {
      var j :| m < j && InstalledForGood(states, steps, keying, j, n, inst);
      assert InstalledForGood(states, steps, keying, j, n + 1, inst);
    }
  }

  lemma ShutdownEmpties(states: seq<System>, steps: seq<Step>, keying: Keying, m: nat)
    requires IsRun(states, steps, keying) && ShutsDown(states, steps, m)
    ensures states[m + 1].shared.cache == map[]
  {
    assert states[m + 1] == Apply(states[m], steps[m], keying);
  }

  /** What is cached after the shutdown is exactly what was installed after it for good. */
  lemma {:induction false} CachedAfterShutdown(
      states: seq<System>, steps: seq<Step>, keying: Keying, m: nat, n: nat, inst: Inst)
    requires IsRun(states, steps, keying) && ShutsDown(states, steps, m) && m < n < |states|
    ensures InCache(states[n].shared.cache, inst)
       <==> SomeForGood(states, steps, keying, m, n, inst)
  {
    if n == m + 1 {
      ShutdownEmpties(states, steps, keying, m);
    } else {
      CachedAfterShutdown(states, steps, keying, m, n - 1, inst);
      LedgerAlways(states, steps, keying, n - 1);
      StepCaches(states[n - 1], steps[n - 1], keying, inst);
      SomeForGoodOneMore(states, steps, keying, m, n - 1, inst);
    }
  }

  /**
   What is left open after a shutdown, once no call holds an instance any more: exactly the instances that a call
   installed after it and that no later call took out of the cache. All others have been closed exactly once.
   */
  lemma LeftOpenAfterShutdown(states: seq<System>, steps: seq<Step>, keying: Keying, m: nat, n: nat, inst: Inst)
    requires IsRun(states, steps, keying) && ShutsDown(states, steps, m) && m < n < |states| && AtRest(states[n])
    requires inst < states[n].shared.nextInst
    ensures states[n].shared.closes[inst] <= 1
    ensures states[n].shared.closes[inst] == 0
       <==> exists j :: m < j < n && InstallsInstance(states[j], steps[j], inst)
                        && forall i :: j < i < n ==> !TakesOut(states[i], steps[i], keying, inst)
  {
    NothingLeaksAtRest(states, steps, keying, n, inst);
    CachedAfterShutdown(states, steps, keying, m, n, inst);
    if j :| m < j && InstalledForGood(states, steps, keying, j, n, inst) {
      assert InstallsInstance(states[j], steps[j], inst);
    }
    if j :| m < j < n && InstallsInstance(states[j], steps[j], inst)
            && forall i :: j < i < n ==> !TakesOut(states[i], steps[i], keying, inst) {
      assert InstalledForGood(states, steps, keying, j, n, inst);
    }
  }

  /** In particular, when no call installs an instance after the shutdown, every instance is closed exactly once. */
  lemma QuietShutdownClosesEverything(states: seq<System>, steps: seq<Step>, keying: Keying, m: nat, n: nat)
    requires IsRun(states, steps, keying) && ShutsDown(states, steps, m) && m < n < |states| && AtRest(states[n])
    requires forall j, inst :: m < j < n ==> !InstallsInstance(states[j], steps[j], inst)
    ensures forall inst: Inst :: inst < states[n].shared.nextInst ==> states[n].shared.closes[inst] == 1
  {
    forall inst: Inst | inst < states[n].shared.nextInst ensures states[n].shared.closes[inst] == 1 {
      LeftOpenAfterShutdown(states, steps, keying, m, n, inst);
    }
  }

  // A run that leaks.

  /** An instance was installed after step `m` and before state `n`. */
  ghost predicate InstalledAfter(states: seq<System>, steps: seq<Step>, m: nat, n: nat, inst: Inst) {
    exists j :: m < j < n && j < |states| && j < |steps| && InstallsInstance(states[j], steps[j], inst)
  }

  lemma OneMoreStep(states: seq<System>, steps: seq<Step>, keying: Keying, step: Step)
    returns (states': seq<System>, steps': seq<Step>)
    requires IsRun(states, steps, keying) && Enabled(states[|steps|], step)
    ensures states' == states + [Apply(states[|steps|], step, keying)] && steps' == steps + [step]
    ensures IsRun(states', steps', keying) && |steps'| == |steps| + 1
    ensures states'[|steps'|] == Apply(states[|steps|], step, keying)
  {
    states', steps' := states + [Apply(states[|steps|], step, keying)], steps + [step];
  }

  /** What happened in a run has happened in every longer run. */
  lemma StillInLongerRun(
      states: seq<System>, steps: seq<Step>, states': seq<System>, steps': seq<Step>, m: nat, n: nat, inst: Inst)
    requires states <= states' && steps <= steps' && ShutsDown(states, steps, m) && n <= |steps|
    ensures ShutsDown(states', steps', m)
    ensures InstalledAfter(states, steps, m, n, inst) ==> InstalledAfter(states', steps', m, |steps'|, inst)
  {
    if InstalledAfter(states, steps, m, n, inst) {
      var j :| m < j < n && j < |states| && j < |steps| && InstallsInstance(states[j], steps[j], inst);
      assert InstallsInstance(states'[j], steps'[j], inst);
    }
  }

  /** The same answer all along: the driver works, and the configuration is the one asked for. */
  function Agreeable(config: ConnectionConfig): Answer {
    Answer(true, false, 0, false, false, config, Target(config, 0))
  }

  /** Nothing is cached or closed, and call 1 is where `call` says; the keep-alive loop is at `loop`. */
  ghost predicate IsAt(s: System, call: Call, loop: Call, instances: nat) {
    s.shared.cache == map[] && s.shared.closes == multiset{} && s.shared.nextInst == instances
    && s.threads.Keys == {KEEP_ALIVE, 1} && s.threads[KEEP_ALIVE].call == loop && s.threads[1].call == call
  }

  lemma StartLooking(config: ConnectionConfig, keying: Keying) returns (states: seq<System>, steps: seq<Step>)
    ensures IsRun(states, steps, keying) && IsAt(states[|steps|], GetMiss(keying.keyOf(config)), KeepAliveIdle, 0)
  {
    var (key, answer) := (keying.keyOf(config), Agreeable(config));
    states, steps := OneMoreStep([INITIAL], [], keying, Spawn(1, GetStart(key, false)));
    states, steps := OneMoreStep(states, steps, keying, Run(1, answer));
    states, steps := OneMoreStep(states, steps, keying, Run(1, answer));
  }

  lemma StartConnecting(config: ConnectionConfig, keying: Keying) returns (states: seq<System>, steps: seq<Step>)
    ensures IsRun(states, steps, keying) && IsAt(states[|steps|], Connecting(1, 1, 0, config), KeepAliveStopped, 1)
  {
    var answer := Agreeable(config);
    states, steps := StartLooking(config, keying);
    states, steps := OneMoreStep(states, steps, keying, Run(1, answer));
    assert IsAt(states[|steps|], Dial(1, 1), KeepAliveIdle, 0);
    states, steps := OneMoreStep(states, steps, keying, Run(1, answer));
    assert IsAt(states[|steps|], Connecting(1, 1, 0, config), KeepAliveIdle, 1);
    states, steps := OneMoreStep(states, steps, keying, Run(KEEP_ALIVE, answer));
  }

  /** Call 2 is where `second` says, and call 1 where `first` says; the keep-alive loop has ended. */
  ghost predicate IsPair(s: System, first: Call, second: Call) {
    s.shared.cache == map[] && s.shared.closes == multiset{} && s.shared.nextInst == 1
    && s.threads.Keys == {KEEP_ALIVE, 1, 2} && s.threads[KEEP_ALIVE].call == KeepAliveStopped
    && s.threads[1].call == first && s.threads[2].call == second
  }

  lemma ShutDownPair(s: System, first: Call, answer: Answer, keying: Keying)
    requires IsPair(s, first, ShuttingDown)
    ensures IsPair(Apply(s, Run(2, answer), keying), first, Finished)
  {
    ClosesAtNone(s.shared.cache);
    assert s.shared.cache.Keys == {};
  }

  lemma ConnectPair(s: System, config: ConnectionConfig, keying: Keying)
    requires IsPair(s, Connecting(1, 1, 0, config), Finished)
    ensures IsPair(Apply(s, Run(1, Agreeable(config)), keying), Dialled(0, keying.keyOf(config)), Finished)
  {
  }

  lemma ShutDownWhileConnecting(config: ConnectionConfig, keying: Keying)
    returns (states: seq<System>, steps: seq<Step>, m: nat)
    ensures IsRun(states, steps, keying) && ShutsDown(states, steps, m) && m < |steps|
    ensures IsPair(states[|steps|], Dialled(0, keying.keyOf(config)), Finished)
  {
    var (first, answer) := (Connecting(1, 1, 0, config), Agreeable(config));
    states, steps := StartConnecting(config, keying);
    states, steps := OneMoreStep(states, steps, keying, Spawn(2, ShuttingDown));
    m := |steps|;
    assert IsPair(states[m], first, ShuttingDown);
    ShutDownPair(states[m], first, answer, keying);
    states, steps := OneMoreStep(states, steps, keying, Run(2, answer));
    ConnectPair(states[|steps|], config, keying);
    states, steps := OneMoreStep(states, steps, keying, Run(1, answer));
  }

  /** All is at rest, and instance 0 is open in the cache. */
  ghost predicate IsLeaking(s: System, key: ConnectionConfig) {
    s.shared.cache.Keys == {key} && s.shared.cache[key].inst == 0 && s.shared.closes == multiset{}
    && s.shared.nextInst == 1
    && s.threads.Keys == {KEEP_ALIVE, 1, 2} && s.threads[KEEP_ALIVE].call == KeepAliveStopped
    && s.threads[1].call == Returned(0) && s.threads[2].call == Finished
  }

  /**
   A concrete run: a shutdown comes while a call is connecting. The call then installs its instance, and
   when all is at rest that instance is still open, in a cache that nobody looks into any more.
   */
  lemma ShutdownMayLeak(config: ConnectionConfig, keying: Keying)
    returns (states: seq<System>, steps: seq<Step>, m: nat)
    ensures IsRun(states, steps, keying) && ShutsDown(states, steps, m) && m < |steps|
    ensures IsLeaking(states[|steps|], keying.keyOf(config)) && AtRest(states[|steps|])
    ensures InstalledAfter(states, steps, m, |steps|, 0) && states[|steps|].shared.closes[0] == 0
  {
    var answer := Agreeable(config);
    states, steps, m := ShutDownWhileConnecting(config, keying);
    var j := |steps|;
    assert InstallsInstance(states[j], Run(1, answer), 0);
    states, steps := OneMoreStep(states, steps, keying, Run(1, answer));
    assert InstallsInstance(states[j], steps[j], 0);
  }

  lemma InvalidateLeaked(s: System, key: ConnectionConfig, answer: Answer, keying: Keying)
    requires IsLeaking(s, key)
    ensures var s' := Apply(Apply(s, Spawn(3, Invalidating(key)), keying), Run(3, answer), keying);
            AtRest(s') && s'.shared.nextInst == 1 && s'.shared.closes == multiset{0}
  {
  }

  /**
   What is installed after a shutdown is not always left open: in this run a later call invalidates it, so
   whether anything was installed does not decide alone.
   */
  lemma LateInstanceMayStillBeClosed(config: ConnectionConfig, keying: Keying)
    returns (states: seq<System>, steps: seq<Step>, m: nat)
    ensures IsRun(states, steps, keying) && ShutsDown(states, steps, m) && m < |steps|
    ensures AtRest(states[|steps|]) && states[|steps|].shared.nextInst == 1
    ensures states[|steps|].shared.closes[0] == 1 && InstalledAfter(states, steps, m, |steps|, 0)
  {
    var (key, answer) := (keying.keyOf(config), Agreeable(config));
    var leaking, before;
    leaking, before, m := ShutdownMayLeak(config, keying);
    InvalidateLeaked(leaking[|before|], key, answer, keying);
    states, steps := OneMoreStep(leaking, before, keying, Spawn(3, Invalidating(key)));
    states, steps := OneMoreStep(states, steps, keying, Run(3, answer));
    StillInLongerRun(leaking, before, states, steps, m, |before|, 0);
  }
}
