/** How dialling goes on, in every interleaving: when it is tried again, when it starts over, and how it ends. */
module DialOutcomes {
  import opened Text
  import opened ConnectionConfigs
  import opened ConnectionCache
  import opened CacheProtocol
  import opened CacheLookups

  /** Step `j` is that of a thread in the midst of a call. */
  predicate IsStep(states: seq<System>, steps: seq<Step>, j: nat, tid: nat) {
    j < |steps| && j < |states| && Moves(steps[j], tid) && tid in states[j].threads
  }

  /** A call that needs a new instance makes one, or fails at once while it is told to wait. */
  lemma DialBegins(states: seq<System>, steps: seq<Step>, keying: Keying, j: nat, tid: nat)
    requires IsRun(states, steps, keying) && IsStep(states, steps, j, tid)
    requires states[j].threads[tid].call.GetMiss?
    ensures tid in states[j + 1].threads && states[j + 1].shared == states[j].shared
    ensures states[j + 1].threads[tid].call == if steps[j].answer.ok then Dial(1, 1) else Failed
  {
  }

  /** Each attempt has a new instance, which then is connected or refused by what the driver says. */
  lemma AttemptGoesOn(states: seq<System>, steps: seq<Step>, keying: Keying, j: nat, tid: nat)
    requires IsRun(states, steps, keying) && IsStep(states, steps, j, tid)
    ensures tid in states[j + 1].threads
    ensures var (before, after) := (states[j].threads[tid].call, states[j + 1].threads[tid].call);
            var (sh, sh', answer) := (states[j].shared, states[j + 1].shared, steps[j].answer);
            && (before.Dial? && answer.ok ==>
                  after == Connecting(before.round, before.attempt, sh.nextInst, answer.config)
                  && sh' == sh.(nextInst := sh.nextInst + 1))
            && (before.Dial? && !answer.ok ==>
                  after == RoundFailed(before.round, answer.config, answer.maxUsers) && sh' == sh)
            && (before.Connecting? && answer.ok ==>
                  after == Dialled(before.inst, keying.keyOf(before.config)) && sh' == sh)
            && (before.Connecting? && !answer.ok ==> after.Rejected? && sh' == sh)
  {
  }

  /**
   A refused attempt is closed, and tried again exactly when it was one of the first three, the refusal was transient
   and the application started no more than twenty seconds ago.
   */
  lemma RetriesExactly(states: seq<System>, steps: seq<Step>, keying: Keying, j: nat, tid: nat)
    requires IsRun(states, steps, keying) && IsStep(states, steps, j, tid)
    requires states[j].threads[tid].call.Rejected?
    ensures tid in states[j + 1].threads
    ensures var (call, sh) := (states[j].threads[tid].call, states[j].shared);
            var after := states[j + 1].threads[tid].call;
            && states[j + 1].shared == sh.(closes := sh.closes + multiset{call.inst})
            && (after == Dial(call.round, call.attempt + 1)
                <==> call.attempt <= 3 && call.transient && 0 <= sh.now <= 20_000)
            && (after != Dial(call.round, call.attempt + 1) ==>
                  after == RoundFailed(call.round, call.config, call.maxUsers))
  {
  }

  /** Only a first round that the server refused for want of connections makes room; any other failure is final. */
  lemma MakesRoomExactly(states: seq<System>, steps: seq<Step>, keying: Keying, j: nat, tid: nat)
    requires IsRun(states, steps, keying) && IsStep(states, steps, j, tid)
    requires states[j].threads[tid].call.RoundFailed?
    ensures tid in states[j + 1].threads
    ensures var (call, after) := (states[j].threads[tid].call, states[j + 1].threads[tid].call);
            && (after.MakingRoom? <==> call.round == 1 && call.maxUsers)
            && (after.MakingRoom? || (after == Failed && states[j + 1].shared == states[j].shared))
  {
  }

  /** The entry would be released with the configuration. */
  ghost predicate Matches(key: ConnectionConfig, config: ConnectionConfig, keying: Keying) {
    keying.hasType(key) && keying.releaseKeyOf(key) == keying.releaseKeyOf(config)
  }

  ghost predicate SomeMatches(cache: Cache, config: ConnectionConfig, keying: Keying) {
    exists key :: key in cache && Matches(cache[key].config, config, keying)
  }

  lemma ReleasesSome(sh: Shared, config: ConnectionConfig, keying: Keying)
    ensures ReleaseNow(sh, config, keying).2 > 0 <==> SomeMatches(sh.cache, config, keying)
  {
    var keys := ReleasedKeys(sh.cache, MatcherOf(config, keying));
    if SomeMatches(sh.cache, config, keying) {
      var key :| key in sh.cache && Matches(sh.cache[key].config, config, keying);
      assert key in keys;
    }
  }

  /** While it makes room, a call remembers how much it has released. */
  lemma {:induction false} RemembersRelease(
      states: seq<System>, steps: seq<Step>, keying: Keying, j: nat, n: nat, tid: nat)
    requires IsRun(states, steps, keying) && j <= n < |states|
    requires tid in states[j].threads && states[j].threads[tid].call.MakingRoom?
    requires forall i :: j < i <= n ==> tid in states[i].threads && states[i].threads[tid].call.MakingRoom?
    ensures states[n].threads[tid].released == states[j].threads[tid].released
  {
    if j < n {
      RemembersRelease(states, steps, keying, j, n - 1, tid);
    }
  }

  /**
   A call that has made room starts over exactly when there was something to release: when, as it looked, some cached
   connection was one to the same server as the configuration refused.
   */
  lemma StartsOverExactly(states: seq<System>, steps: seq<Step>, keying: Keying, j: nat, n: nat, tid: nat)
    requires IsRun(states, steps, keying) && IsStep(states, steps, j, tid) && IsStep(states, steps, n, tid) && j < n
    requires states[j].threads[tid].call.RoundFailed?
    requires forall i :: j < i <= n ==> tid in states[i].threads && states[i].threads[tid].call.MakingRoom?
    requires states[n].threads[tid].call.pending == {}
    ensures tid in states[n + 1].threads
    ensures states[n + 1].threads[tid].call
         == if SomeMatches(states[j].shared.cache, states[j].threads[tid].call.config, keying) then Dial(2, 1)
            else Failed
  {
    var call := states[j].threads[tid].call;
    assert states[j + 1].threads[tid].call.MakingRoom?;
    ReleasesSome(states[j].shared, call.config, keying);
    RemembersRelease(states, steps, keying, j + 1, n, tid);
  }

  /**
   A connected instance is cached under the key it was dialled for, as just pinged, if nothing is there; else it is
   closed, and the cached one is returned.
   */
  lemma InstallsOrGivesWay(states: seq<System>, steps: seq<Step>, keying: Keying, j: nat, tid: nat)
    requires IsRun(states, steps, keying) && IsStep(states, steps, j, tid)
    ensures tid in states[j + 1].threads
    ensures var (before, after) := (states[j].threads[tid].call, states[j + 1].threads[tid].call);
            var (sh, sh', answer) := (states[j].shared, states[j + 1].shared, steps[j].answer);
            && (before.Dialled? && before.key !in sh.cache ==>
                  after == Returned(before.inst)
                  && sh' == sh.(cache := sh.cache[before.key :=
                       Entry(before.inst, Some(sh.now), before.key, answer.enabled, answer.interval, false)]))
            && (before.Dialled? && before.key in sh.cache ==>
                  after == Duplicate(before.inst, sh.cache[before.key].inst) && sh' == sh)
            && (before.Duplicate? ==>
                  after == Returned(before.existing) && sh' == sh.(closes := sh.closes + multiset{before.inst}))
  {
  }
}
