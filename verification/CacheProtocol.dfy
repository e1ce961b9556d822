/**
 Every concurrent use of the connection cache as one state machine. A thread is somewhere inside one
 call; one step of a thread is one region under the mutex or one driver call made without it, so the runs
 of the machine are all interleavings. What the driver, the network and the clock answer is `Answer`.
 */
module CacheProtocol {
  import opened Text
  import opened ConnectionConfigs
  import opened ConnectionCache

  const PING_INTERVAL := 30_000
  const RETRY_ATTEMPTS := 4
  const RETRY_WINDOW := 20_000

  datatype Call =
    // get-or-dial
    | GetStart(key: ConnectionConfig, forcePing: bool)
    | GetRead(key: ConnectionConfig, forcePing: bool)
    | GetHit(key: ConnectionConfig, entry: Entry, forcePing: bool)
    | GetCheck(key: ConnectionConfig, entry: Entry, forcePing: bool)
    | GetPinged(key: ConnectionConfig, entry: Entry)
    | GetPingFailed(key: ConnectionConfig, entry: Entry)
    | GetMiss(key: ConnectionConfig)
    | Dial(round: nat, attempt: nat)
    | Connecting(round: nat, attempt: nat, inst: Inst, config: ConnectionConfig)
    | Rejected(round: nat, attempt: nat, inst: Inst, config: ConnectionConfig, transient: bool, maxUsers: bool)
    | RoundFailed(round: nat, config: ConnectionConfig, maxUsers: bool)
    | MakingRoom(pending: set<Inst>)
    | Dialled(inst: Inst, key: ConnectionConfig)
    | Duplicate(inst: Inst, existing: Inst)
    | Returned(inst: Inst)
    | Failed
    // the other callers
    | Invalidating(key: ConnectionConfig)
    | Releasing(config: ConnectionConfig)
    | ClosingReleased(pending: set<Inst>)
    | ShuttingDown
    | Finished
    // the keep-alive loop
    | KeepAliveIdle
    | KeepAlivePinging(rest: set<Target>)
    | KeepAlivePinged(target: Target, rest: set<Target>)
    | KeepAliveFailed(target: Target, rest: set<Target>)
    | KeepAliveClosing(inst: Inst, rest: set<Target>)
    | KeepAliveStopped

  /** A call in progress, and its history: what it created, installed in the cache and released. */
  datatype Thread = Thread(call: Call, begun: int, created: set<Inst>, installed: Option<Inst>, released: nat)

  /** `now` counts from the start of the application; `closes` counts the Close calls on each instance. */
  datatype Shared = Shared(cache: Cache, closes: multiset<Inst>, nextInst: Inst, now: int)

  datatype Answer = Answer(
    ok: bool,
    enabled: bool,
    interval: int,
    transient: bool,
    maxUsers: bool,
    config: ConnectionConfig,
    target: Target)

  /** How configurations become cache keys and release keys, and which of them have a type. */
  datatype Keying = Keying(
    keyOf: ConnectionConfig -> ConnectionConfig,
    releaseKeyOf: ConnectionConfig -> ConnectionConfig,
    hasType: ConnectionConfig -> bool)

  /** The application's own keying; what is proved of the protocol holds for any other as well. */
  function ConnectionKeying(rewrite: ParamsRewriter): Keying {
    Keying(
      (config: ConnectionConfig) => NormalizeCacheKeyConfig(config, rewrite),
      (config: ConnectionConfig) => NormalizeConnectionReleaseMatchConfig(config, rewrite),
      (config: ConnectionConfig) => TrimSpace(config.dbType) != "")
  }

  /** A release takes the cached configurations that have a type and the release key of the released one. */
  function MatcherOf(released: ConnectionConfig, keying: Keying): Matcher {
    config => keying.hasType(config) && keying.releaseKeyOf(config) == keying.releaseKeyOf(released)
  }

  function CloseNow(sh: Shared, inst: Inst): Shared {
    sh.(closes := sh.closes + multiset{inst})
  }

  /** Takes the entry out of the cache and closes its instance inside the same region. */
  function CloseCached(sh: Shared, key: ConnectionConfig): Shared {
    if key in sh.cache then CloseNow(sh, sh.cache[key].inst).(cache := sh.cache - {key}) else sh
  }

  function ReleaseNow(sh: Shared, config: ConnectionConfig, keying: Keying): (Shared, set<Inst>, nat) {
    var keys := ReleasedKeys(sh.cache, MatcherOf(config, keying));
    (sh.(cache := sh.cache - keys), InstancesAt(sh.cache, keys), |keys|)
  }

  function NeedsPing(entry: Entry, forcePing: bool, now: int): bool {
    forcePing || entry.lastPing.None? || now - entry.lastPing.value >= PING_INTERVAL
  }

  function MayRetry(attempt: nat, transient: bool, now: int): bool {
    attempt < RETRY_ATTEMPTS && transient && 0 <= now <= RETRY_WINDOW
  }

  /** The steps of a get-or-dial call up to the point where it needs a new instance. */
  function AdvanceLookup(sh: Shared, call: Call, answer: Answer): (Shared, Call) {
    match call
    case GetStart(key, force) =>
      if answer.ok then (sh, GetRead(key, force)) else (CloseCached(sh, key), Failed)
    case GetRead(key, force) =>
      (sh, if key in sh.cache then GetHit(key, sh.cache[key], force) else GetMiss(key))
    case GetHit(key, entry, force) =>
      if entry.keepAliveEnabled == answer.enabled && entry.keepAliveInterval == answer.interval then
        (sh, GetCheck(key, entry, force))
      else
        var cache := ApplySettings(sh.cache, key, entry.inst, answer.enabled, answer.interval);
        (sh.(cache := cache), GetCheck(key, if Holds(cache, key, entry.inst) then cache[key] else entry, force))
    case GetCheck(key, entry, force) =>
      (sh, if !NeedsPing(entry, force, sh.now) then Returned(entry.inst)
           else if answer.ok then GetPinged(key, entry)
           else GetPingFailed(key, entry))
    case GetPinged(key, entry) =>
      (sh.(cache := Touch(sh.cache, key, entry.inst, sh.now)), Returned(entry.inst))
    case GetPingFailed(key, entry) =>
      (if Holds(sh.cache, key, entry.inst) then CloseCached(sh, key) else sh, GetMiss(key))
    case GetMiss(key) =>
      (sh, if answer.ok then Dial(1, 1) else Failed)
    case _ => (sh, call)
  }

  /** The steps that create, connect, give up or install an instance. */
  function AdvanceDial(sh: Shared, th: Thread, answer: Answer, keying: Keying): (Shared, Thread) {
    match th.call
    case Dial(round, attempt) =>
      if answer.ok then
        (sh.(nextInst := sh.nextInst + 1),
         th.(call := Connecting(round, attempt, sh.nextInst, answer.config), created := th.created + {sh.nextInst}))
      else
        (sh, th.(call := RoundFailed(round, answer.config, answer.maxUsers)))
    case Connecting(round, attempt, inst, config) =>
      (sh, th.(call := if answer.ok then Dialled(inst, keying.keyOf(config))
                       else Rejected(round, attempt, inst, config, answer.transient, answer.maxUsers)))
    case Rejected(round, attempt, inst, config, transient, maxUsers) =>
      (CloseNow(sh, inst),
       th.(call := if MayRetry(attempt, transient, sh.now) then Dial(round, attempt + 1)
                   else RoundFailed(round, config, maxUsers)))
    case RoundFailed(round, config, maxUsers) =>
      if round == 1 && maxUsers then
        var (sh', taken, count) := ReleaseNow(sh, config, keying);
        (sh', th.(call := MakingRoom(taken), released := count))
      else
        (sh, th.(call := Failed))
    case MakingRoom(pending) =>
      if pending == {} then
        (sh, th.(call := if th.released > 0 then Dial(2, 1) else Failed))
      else if answer.target.inst in pending then
        (CloseNow(sh, answer.target.inst), th.(call := MakingRoom(pending - {answer.target.inst})))
      else
        (sh, th)
    case Dialled(inst, key) =>
      if key in sh.cache then
        (sh, th.(call := Duplicate(inst, sh.cache[key].inst)))
      else
        (sh.(cache := Insert(sh.cache, key, inst, sh.now, answer.enabled, answer.interval)),
         th.(call := Returned(inst), installed := Some(inst)))
    case Duplicate(inst, existing) =>
      (CloseNow(sh, inst), th.(call := Returned(existing)))
    case _ => (sh, th)
  }

  function AdvanceOther(sh: Shared, th: Thread, answer: Answer, keying: Keying): (Shared, Thread) {
    match th.call
    case Invalidating(key) => (CloseCached(sh, key), th.(call := Finished))
    case Releasing(config) =>
      var (sh', taken, count) := ReleaseNow(sh, config, keying);
      (sh', th.(call := ClosingReleased(taken), released := count))
    case ClosingReleased(pending) =>
      if pending == {} then (sh, th.(call := Finished))
      else if answer.target.inst in pending then
        (CloseNow(sh, answer.target.inst), th.(call := ClosingReleased(pending - {answer.target.inst})))
      else (sh, th)
    case ShuttingDown =>
      (sh.(cache := map[], closes := sh.closes + ClosesAt(sh.cache, sh.cache.Keys)), th.(call := Finished))
    case _ => (sh, th)
  }

  /** One tick of the keep-alive loop, region by region; `answer.ok` ends the loop when it is idle. */
  function AdvanceKeepAlive(sh: Shared, call: Call, answer: Answer): (Shared, Call) {
    match call
    case KeepAliveIdle =>
      if answer.ok then (sh, KeepAliveStopped)
      else (sh.(cache := MarkDue(sh.cache, sh.now)), KeepAlivePinging(DueTargets(sh.cache, sh.now)))
    case KeepAlivePinging(rest) =>
      (sh, if rest == {} then KeepAliveIdle
           else if answer.target !in rest then call
           else if answer.ok then KeepAlivePinged(answer.target, rest - {answer.target})
           else KeepAliveFailed(answer.target, rest - {answer.target}))
    case KeepAlivePinged(target, rest) =>
      (sh.(cache := FinishKeepAlive(sh.cache, target.key, target.inst, sh.now)), KeepAlivePinging(rest))
    case KeepAliveFailed(target, rest) =>
      (sh.(cache := Evict(sh.cache, target.key, target.inst)),
       if Holds(sh.cache, target.key, target.inst) then KeepAliveClosing(target.inst, rest)
       else KeepAlivePinging(rest))
    case KeepAliveClosing(inst, rest) => (CloseNow(sh, inst), KeepAlivePinging(rest))
    case _ => (sh, call)
  }

  predicate IsLookup(call: Call) {
    call.GetStart? || call.GetRead? || call.GetHit? || call.GetCheck? || call.GetPinged? || call.GetPingFailed?
    || call.GetMiss?
  }

  predicate IsDial(call: Call) {
    call.Dial? || call.Connecting? || call.Rejected? || call.RoundFailed? || call.MakingRoom? || call.Dialled?
    || call.Duplicate?
  }

  predicate IsKeepAlive(call: Call) {
    call.KeepAliveIdle? || call.KeepAlivePinging? || call.KeepAlivePinged? || call.KeepAliveFailed?
    || call.KeepAliveClosing? || call.KeepAliveStopped?
  }

  function Advance(sh: Shared, th: Thread, answer: Answer, keying: Keying): (Shared, Thread) {
    if IsLookup(th.call) then
      var (sh', call') := AdvanceLookup(sh, th.call, answer); (sh', th.(call := call'))
    else if IsDial(th.call) then AdvanceDial(sh, th, answer, keying)
    else if IsKeepAlive(th.call) then
      var (sh', call') := AdvanceKeepAlive(sh, th.call, answer); (sh', th.(call := call'))
    else AdvanceOther(sh, th, answer, keying)
  }

  /** Thread 0 is the keep-alive loop; the others are callers, as many as there are. */
  datatype System = System(shared: Shared, threads: map<nat, Thread>)

  const KEEP_ALIVE: nat := 0

  datatype Step =
    | Spawn(tid: nat, call: Call)
    | Run(tid: nat, answer: Answer)
    | Elapse(millis: nat)

  const INITIAL := System(
    Shared(map[], multiset{}, 0, 0),
    map[KEEP_ALIVE := Thread(KeepAliveIdle, 0, {}, None, 0)])

  predicate IsEntryPoint(call: Call) {
    call.GetStart? || call.Invalidating? || call.Releasing? || call.ShuttingDown?
  }

  /** Shutdown enters its region only after the keep-alive loop has ended. */
  predicate Enabled(s: System, step: Step) {
    match step
    case Spawn(tid, call) => tid !in s.threads && IsEntryPoint(call)
    case Run(tid, _) =>
      tid in s.threads
      && (s.threads[tid].call.ShuttingDown? ==>
            KEEP_ALIVE in s.threads && s.threads[KEEP_ALIVE].call.KeepAliveStopped?)
    case Elapse(_) => true
  }

  function Apply(s: System, step: Step, keying: Keying): System
    requires Enabled(s, step)
  {
    match step
    case Spawn(tid, call) => s.(threads := s.threads[tid := Thread(call, s.shared.now, {}, None, 0)])
    case Run(tid, answer) =>
      var (shared, th) := Advance(s.shared, s.threads[tid], answer, keying);
      System(shared, s.threads[tid := th])
    case Elapse(millis) => s.(shared := s.shared.(now := s.shared.now + millis))
  }

  /** A run: the states passed through from the initial one, each by one enabled step. */
  ghost predicate IsRun(states: seq<System>, steps: seq<Step>, keying: Keying) {
    |states| == |steps| + 1
    && states[0] == INITIAL
    && forall i :: 0 <= i < |steps| ==>
         Enabled(states[i], steps[i]) && states[i + 1] == Apply(states[i], steps[i], keying)
  }
}
