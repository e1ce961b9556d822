/** The keep-alive loop never loses a connection: nothing stays marked in flight once its tick is over. */
module CacheKeepAlive {
  import opened Text
  import opened ConnectionConfigs
  import opened ConnectionCache
  import opened CacheProtocol

  /** The targets that the current tick has collected and not yet dealt with. */
  function Unfinished(call: Call): set<Target> {
    match call
    case KeepAlivePinging(rest) => rest
    case KeepAlivePinged(target, rest) => rest + {target}
    case KeepAliveFailed(target, rest) => rest + {target}
    case KeepAliveClosing(_, rest) => rest
    case _ => {}
  }

  ghost predicate Covered(cache: Cache, unfinished: set<Target>) {
    forall key :: key in cache && cache[key].keepAliveInFlight ==> Target(key, cache[key].inst) in unfinished
  }

  /** Every entry of `after` that is in flight was already there, in flight, with the same instance. */
  ghost predicate NoNewFlights(before: Cache, after: Cache) {
    forall key :: key in after && after[key].keepAliveInFlight ==>
      key in before && before[key].keepAliveInFlight && before[key].inst == after[key].inst
  }

  lemma CallersStartNoFlights(sh: Shared, th: Thread, answer: Answer, keying: Keying)
    requires !IsKeepAlive(th.call)
    ensures var (sh', th') := Advance(sh, th, answer, keying);
            NoNewFlights(sh.cache, sh'.cache) && !IsKeepAlive(th'.call)
  {
  }

  /** Only the first thread runs the loop, and whatever is in flight is on its list. */
  ghost predicate InFlightOnList(s: System) {
    KEEP_ALIVE in s.threads
    && (forall tid :: tid in s.threads ==> (IsKeepAlive(s.threads[tid].call) <==> tid == KEEP_ALIVE))
    && Covered(s.shared.cache, Unfinished(s.threads[KEEP_ALIVE].call))
  }

  lemma LoopKeepsList(sh: Shared, call: Call, answer: Answer)
    requires IsKeepAlive(call) && Covered(sh.cache, Unfinished(call))
    ensures var (sh', call') := AdvanceKeepAlive(sh, call, answer);
            IsKeepAlive(call') && Covered(sh'.cache, Unfinished(call'))
  {
    if call.KeepAliveIdle? && !answer.ok {
      forall key | key in sh.cache && Due(sh.cache[key], sh.now)
        ensures Target(key, sh.cache[key].inst) in DueTargets(sh.cache, sh.now)
      {
      }
    }
  }

  lemma StepKeepsList(s: System, step: Step, keying: Keying)
    requires InFlightOnList(s) && Enabled(s, step)
    ensures InFlightOnList(Apply(s, step, keying))
  {
    if step.Run? {
      var call := s.threads[step.tid].call;
      if step.tid == KEEP_ALIVE {
        LoopKeepsList(s.shared, call, step.answer);
      } else {
        CallersStartNoFlights(s.shared, s.threads[step.tid], step.answer, keying);
      }
    }
  }

  /**
   In every state of every interleaving an entry marked in flight has its key and instance among the targets
   the current tick has not finished, whatever happened to settings and entries in the meantime.
   */
  lemma {:induction false} InFlightAlwaysOnList(states: seq<System>, steps: seq<Step>, keying: Keying, n: nat)
    requires IsRun(states, steps, keying) && n < |states|
    ensures InFlightOnList(states[n])
  {
    if n > 0 {
      InFlightAlwaysOnList(states, steps, keying, n - 1);
      StepKeepsList(states[n - 1], steps[n - 1], keying);
    }
  }

  /** After a tick no entry is in flight, so the next tick collects exactly the enabled, overdue entries. */
  lemma NextTickCollectsOverdue(states: seq<System>, steps: seq<Step>, keying: Keying, n: nat)
    requires IsRun(states, steps, keying) && n < |steps|
    requires KEEP_ALIVE in states[n].threads && states[n].threads[KEEP_ALIVE].call.KeepAliveIdle?
    requires steps[n].Run? && steps[n].tid == KEEP_ALIVE && !steps[n].answer.ok
    ensures var cache := states[n].shared.cache;
            forall key :: key in cache ==> !cache[key].keepAliveInFlight
    ensures KEEP_ALIVE in states[n + 1].threads
    ensures var (cache, now) := (states[n].shared.cache, states[n].shared.now);
            forall t :: t in Unfinished(states[n + 1].threads[KEEP_ALIVE].call)
                        <==> Holds(cache, t.key, t.inst)
                             && (var entry := cache[t.key];
                                 entry.keepAliveEnabled && entry.keepAliveInterval > 0
                                 && (entry.lastPing.None? || entry.lastPing.value + entry.keepAliveInterval <= now))
  {
    InFlightAlwaysOnList(states, steps, keying, n);
    var cache := states[n].shared.cache;
    forall key | key in cache && Due(cache[key], states[n].shared.now)
      ensures Target(key, cache[key].inst) in DueTargets(cache, states[n].shared.now)
    {
    }
  }

  /** How many steps of its own the loop still needs to finish the current tick. */
  function TickWork(call: Call): nat {
    match call
    case KeepAlivePinging(rest) => 3 * |rest| + 1
    case KeepAlivePinged(_, rest) => 3 * |rest| + 2
    case KeepAliveFailed(_, rest) => 3 * |rest| + 3
    case KeepAliveClosing(_, rest) => 3 * |rest| + 2
    case _ => 0
  }

  /** A tick ends: each step that pings a collected target, or follows up on one, leaves less to do. */
  lemma TickMakesProgress(sh: Shared, call: Call, answer: Answer)
    requires TickWork(call) > 0
    requires call.KeepAlivePinging? && call.rest != {} ==> answer.target in call.rest
    ensures TickWork(AdvanceKeepAlive(sh, call, answer).1) < TickWork(call)
    ensures TickWork(AdvanceKeepAlive(sh, call, answer).1) == 0 ==> AdvanceKeepAlive(sh, call, answer).1.KeepAliveIdle?
  {
    if call.KeepAlivePinging? && call.rest != {} {
      assert |call.rest - {answer.target}| == |call.rest| - 1;
    }
  }

  // What becomes of a target.

  /** The keep-alive loop makes step `j`. */
  predicate IsTickStep(states: seq<System>, steps: seq<Step>, j: nat) {
    j < |steps| && j < |states| && steps[j].Run? && steps[j].tid == KEEP_ALIVE && KEEP_ALIVE in states[j].threads
  }

  /** Pinging a target goes on by what the driver answers, and touches nothing yet. */
  lemma PingDecidesNext(states: seq<System>, steps: seq<Step>, keying: Keying, j: nat)
    requires IsRun(states, steps, keying) && IsTickStep(states, steps, j)
    requires states[j].threads[KEEP_ALIVE].call.KeepAlivePinging?
    requires steps[j].answer.target in states[j].threads[KEEP_ALIVE].call.rest
    ensures KEEP_ALIVE in states[j + 1].threads && states[j + 1].shared == states[j].shared
    ensures var (call, target) := (states[j + 1].threads[KEEP_ALIVE].call, steps[j].answer.target);
            if steps[j].answer.ok then call.KeepAlivePinged? && call.target == target
            else call.KeepAliveFailed? && call.target == target
  {
  }

  /** A successful keep-alive is recorded on the entry that still holds the instance, and nothing is closed. */
  lemma SuccessIsRecorded(states: seq<System>, steps: seq<Step>, keying: Keying, j: nat)
    requires IsRun(states, steps, keying) && IsTickStep(states, steps, j)
    requires states[j].threads[KEEP_ALIVE].call.KeepAlivePinged?
    ensures var (before, after) := (states[j].shared, states[j + 1].shared);
            var target := states[j].threads[KEEP_ALIVE].call.target;
            after.closes == before.closes && after.cache.Keys == before.cache.Keys
            && forall k :: k in before.cache ==>
                 after.cache[k] == if k == target.key && before.cache[k].inst == target.inst then
                                     before.cache[k].(keepAliveInFlight := false, lastPing := Some(before.now))
                                   else before.cache[k]
  {
  }

  /** A failed one takes the entry away if it still holds the instance, and exactly then the instance is closed next. */
  lemma FailureEvicts(states: seq<System>, steps: seq<Step>, keying: Keying, j: nat)
    requires IsRun(states, steps, keying) && IsTickStep(states, steps, j)
    requires states[j].threads[KEEP_ALIVE].call.KeepAliveFailed?
    ensures KEEP_ALIVE in states[j + 1].threads
    ensures var (before, after) := (states[j].shared.cache, states[j + 1].shared.cache);
            var (target, call) := (states[j].threads[KEEP_ALIVE].call.target, states[j + 1].threads[KEEP_ALIVE].call);
            if target.key in before && before[target.key].inst == target.inst then
              after == before - {target.key} && call.KeepAliveClosing? && call.inst == target.inst
            else after == before && call.KeepAlivePinging?
  {
  }

  lemma TakenIsClosed(states: seq<System>, steps: seq<Step>, keying: Keying, j: nat)
    requires IsRun(states, steps, keying) && IsTickStep(states, steps, j)
    requires states[j].threads[KEEP_ALIVE].call.KeepAliveClosing?
    ensures var inst := states[j].threads[KEEP_ALIVE].call.inst;
            states[j + 1].shared == states[j].shared.(closes := states[j].shared.closes + multiset{inst})
  {
  }
}
