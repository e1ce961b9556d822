/** What one get-or-dial call costs: how many instances it creates, when it starts over, and what it leaves open. */
module DialAccounting {
  import opened Text
  import opened ConnectionConfigs
  import opened ConnectionCache
  import opened CacheProtocol
  import opened CacheLedger

  /** The rounds and attempts of a call, and how many instances it may have created so far. */
  predicate WithinBudget(th: Thread) {
    var late := th.begun > RETRY_WINDOW;
    var count := |th.created|;
    match th.call
    case Dial(round, attempt) =>
      1 <= round <= 2 && 1 <= attempt <= RETRY_ATTEMPTS
      && count <= RETRY_ATTEMPTS * (round - 1) + attempt - 1
      && (late ==> attempt == 1 && count <= round - 1)
    case Connecting(round, attempt, _, _) =>
      1 <= round <= 2 && 1 <= attempt <= RETRY_ATTEMPTS
      && count <= RETRY_ATTEMPTS * (round - 1) + attempt
      && (late ==> attempt == 1 && count <= round)
    case Rejected(round, attempt, _, _, _, _) =>
      1 <= round <= 2 && 1 <= attempt <= RETRY_ATTEMPTS
      && count <= RETRY_ATTEMPTS * (round - 1) + attempt
      && (late ==> attempt == 1 && count <= round)
    case RoundFailed(round, _, _) =>
      1 <= round <= 2 && count <= RETRY_ATTEMPTS * round && (late ==> count <= round)
    case MakingRoom(_) => count <= RETRY_ATTEMPTS && (late ==> count <= 1)
    case Dialled(_, _) => count <= 2 * RETRY_ATTEMPTS && (late ==> count <= 2)
    case Duplicate(_, _) => count <= 2 * RETRY_ATTEMPTS && (late ==> count <= 2)
    case Returned(_) => count <= 2 * RETRY_ATTEMPTS && (late ==> count <= 2)
    case Failed => count <= 2 * RETRY_ATTEMPTS && (late ==> count <= 2)
    case _ => th.created == {}
  }

  predicate InSecondRound(call: Call) {
    (call.Dial? || call.Connecting? || call.Rejected? || call.RoundFailed?) && call.round == 2
  }

  /** The instance that the call has created and is working on. */
  function InHand(call: Call): set<Inst> {
    match call
    case Connecting(_, _, inst, _) => {inst}
    case Rejected(_, _, inst, _, _, _) => {inst}
    case Dialled(inst, _) => {inst}
    case Duplicate(inst, _) => {inst}
    case _ => {}
  }

  /** Whatever the call created is closed, in its hands, or the instance it put into the cache. */
  ghost predicate NothingForgotten(closes: multiset<Inst>, th: Thread) {
    forall inst :: inst in th.created ==> closes[inst] >= 1 || inst in InHand(th.call) || th.installed == Some(inst)
  }

  ghost predicate Accounted(sh: Shared, th: Thread) {
    0 <= th.begun <= sh.now
    && WithinBudget(th)
    && (InSecondRound(th.call) ==> th.released > 0)
    && (th.installed.Some? ==> th.call == Returned(th.installed.value))
    && NothingForgotten(sh.closes, th)
  }

  lemma CountOneMore(created: set<Inst>, inst: Inst)
    ensures |created + {inst}| <= |created| + 1
  {
    if inst in created {
      assert created + {inst} == created;
    }
  }

  lemma AttemptStaysAccounted(sh: Shared, th: Thread, answer: Answer, keying: Keying)
    requires (th.call.Dial? || th.call.Connecting?) && Accounted(sh, th)
    ensures var (sh', th') := AdvanceDial(sh, th, answer, keying); Accounted(sh', th')
  {
    CountOneMore(th.created, sh.nextInst);
  }

  lemma RejectionStaysAccounted(sh: Shared, th: Thread, answer: Answer, keying: Keying)
    requires th.call.Rejected? && Accounted(sh, th)
    ensures var (sh', th') := AdvanceDial(sh, th, answer, keying); Accounted(sh', th')
  {
  }

  lemma RoomStaysAccounted(sh: Shared, th: Thread, answer: Answer, keying: Keying)
    requires (th.call.RoundFailed? || th.call.MakingRoom?) && Accounted(sh, th)
    ensures var (sh', th') := AdvanceDial(sh, th, answer, keying); Accounted(sh', th')
  {
  }

  lemma InstallStaysAccounted(sh: Shared, th: Thread, answer: Answer, keying: Keying)
    requires (th.call.Dialled? || th.call.Duplicate?) && Accounted(sh, th)
    ensures var (sh', th') := AdvanceDial(sh, th, answer, keying); Accounted(sh', th')
  {
  }

  lemma DialStaysAccounted(sh: Shared, th: Thread, answer: Answer, keying: Keying)
    requires IsDial(th.call) && Accounted(sh, th)
    ensures var (sh', th') := AdvanceDial(sh, th, answer, keying); Accounted(sh', th')
  {
    if th.call.Dial? || th.call.Connecting? {
      AttemptStaysAccounted(sh, th, answer, keying);
    } else if th.call.Rejected? {
      RejectionStaysAccounted(sh, th, answer, keying);
    } else if th.call.RoundFailed? || th.call.MakingRoom? {
      RoomStaysAccounted(sh, th, answer, keying);
    } else {
      InstallStaysAccounted(sh, th, answer, keying);
    }
  }

  lemma LookupStaysAccounted(sh: Shared, th: Thread, answer: Answer)
    requires IsLookup(th.call) && Accounted(sh, th)
    ensures var (sh', call') := AdvanceLookup(sh, th.call, answer); Accounted(sh', th.(call := call'))
  {
  }

  lemma KeepAliveStaysAccounted(sh: Shared, th: Thread, answer: Answer)
    requires IsKeepAlive(th.call) && Accounted(sh, th)
    ensures var (sh', call') := AdvanceKeepAlive(sh, th.call, answer); Accounted(sh', th.(call := call'))
  {
  }

  lemma OtherStaysAccounted(sh: Shared, th: Thread, answer: Answer, keying: Keying)
    requires !IsLookup(th.call) && !IsDial(th.call) && !IsKeepAlive(th.call) && Accounted(sh, th)
    ensures var (sh', th') := AdvanceOther(sh, th, answer, keying); Accounted(sh', th')
  {
  }

  lemma AdvanceStaysAccounted(sh: Shared, th: Thread, answer: Answer, keying: Keying)
    requires Accounted(sh, th)
    ensures var (sh', th') := Advance(sh, th, answer, keying); Accounted(sh', th')
  {
    if IsLookup(th.call) {
      LookupStaysAccounted(sh, th, answer);
    } else if IsDial(th.call) {
      DialStaysAccounted(sh, th, answer, keying);
    } else if IsKeepAlive(th.call) {
      KeepAliveStaysAccounted(sh, th, answer);
    } else {
      OtherStaysAccounted(sh, th, answer, keying);
    }
  }

  /** Close calls are never taken back and the clock never goes back, whoever makes the step. */
  lemma AdvanceIsMonotone(sh: Shared, th: Thread, answer: Answer, keying: Keying)
    ensures var (sh', _) := Advance(sh, th, answer, keying); sh.closes <= sh'.closes && sh.now == sh'.now
  {
  }

  ghost predicate AllAccounted(s: System) {
    0 <= s.shared.now && forall tid :: tid in s.threads ==> Accounted(s.shared, s.threads[tid])
  }

  lemma StepStaysAccounted(s: System, step: Step, keying: Keying)
    requires AllAccounted(s) && Enabled(s, step)
    ensures AllAccounted(Apply(s, step, keying))
  {
    if step.Run? {
      AdvanceStaysAccounted(s.shared, s.threads[step.tid], step.answer, keying);
      AdvanceIsMonotone(s.shared, s.threads[step.tid], step.answer, keying);
    }
  }

  lemma {:induction false} AlwaysAccounted(states: seq<System>, steps: seq<Step>, keying: Keying, n: nat)
    requires IsRun(states, steps, keying) && n < |states|
    ensures AllAccounted(states[n])
  {
    if n > 0 {
      AlwaysAccounted(states, steps, keying, n - 1);
      StepStaysAccounted(states[n - 1], steps[n - 1], keying);
    }
  }

  /**
   The cost of a call, in every interleaving: at most eight instances, and at most two when it began after the
   startup window; a second round begins only after at least one cached connection was released; and when the
   call is over, everything it created has been closed, except the one instance it cached and returned.
   */
  lemma CallAccounting(states: seq<System>, steps: seq<Step>, keying: Keying, n: nat, tid: nat)
    requires IsRun(states, steps, keying) && n < |states| && tid in states[n].threads
    ensures var th := states[n].threads[tid];
            |th.created| <= 8
            && (th.begun > RETRY_WINDOW ==> |th.created| <= 2)
            && (InSecondRound(th.call) ==> th.released > 0)
    ensures var th := states[n].threads[tid];
            th.call.Returned? || th.call.Failed? ==>
              forall inst :: inst in th.created ==>
                states[n].shared.closes[inst] == 1
                || (th.call == Returned(inst) && th.installed == Some(inst))
  {
    AlwaysAccounted(states, steps, keying, n);
    var th := states[n].threads[tid];
    assert Accounted(states[n].shared, th);
    forall inst | inst in th.created ensures states[n].shared.closes[inst] <= 1 {
      EveryInstanceInOnePlace(states, steps, keying, n, inst);
    }
  }

  /** What an attempt to connect came to. */
  datatype Attempt = NoDriver | NoProxy | Refused(transient: bool) | Connected

  /**
   The attempts of one round, in order: a later one is made only after a transient refusal inside the startup
   window.
   */
  predicate Continues(attempts: seq<Attempt>, clock: seq<int>, k: nat)
    requires k < |attempts| == |clock|
  {
    attempts[k].Refused? && MayRetry(k + 1, attempts[k].transient, clock[k])
  }

  function Consecutive(first: Inst, count: nat): seq<Inst> {
    if count == 0 then [] else Consecutive(first, count - 1) + [first + count - 1]
  }

  /** The driver's own record of the instances it made and of those that were closed. */
  class DriverLog {
    var nextInst: Inst
    var created: seq<Inst>
    var closed: seq<Inst>

    ghost predicate Valid()
      reads this
    {
      forall i :: i in created ==> i < nextInst
    }

    constructor ()
      ensures Valid() && created == [] && closed == [] && nextInst == 0
    {
      nextInst, created, closed := 0, [], [];
    }

    /**
     One round of dialling. `attempts` says what each attempt comes to, `clock` when it ended. Every instance
     created is closed again in order of creation, except the last one when it connected; the round stops at
     the first attempt that does not call for another.
     */
    method ConnectWithStartupRetry(attempts: seq<Attempt>, clock: seq<int>) returns (inst: Option<Inst>, made: nat)
      requires |attempts| == |clock| == RETRY_ATTEMPTS && Valid()
      modifies this
      ensures Valid() && 1 <= made <= RETRY_ATTEMPTS
      ensures forall k :: 0 <= k < made - 1 ==> Continues(attempts, clock, k)
      ensures !Continues(attempts, clock, made - 1)
      ensures var last := attempts[made - 1];
              var tries := if last.NoDriver? then made - 1 else made;
              && nextInst == old(nextInst) + tries
              && created == old(created) + Consecutive(old(nextInst), tries)
              && inst == (if last.Connected? then Some(old(nextInst) + made - 1) else None)
              && closed == old(closed) + Consecutive(old(nextInst), if last.Connected? then made - 1 else tries)
    {
      made := 0;
      inst := None;
      while made < RETRY_ATTEMPTS
        invariant 0 <= made <= RETRY_ATTEMPTS && Valid() && inst == None
        invariant forall k :: 0 <= k < made ==> Continues(attempts, clock, k)
        invariant nextInst == old(nextInst) + made
        invariant created == old(created) + Consecutive(old(nextInst), made)
        invariant closed == old(closed) + Consecutive(old(nextInst), made)
      {
        var attempt := attempts[made];
        made := made + 1;
        if attempt.NoDriver? {
          return;
        }
        var dialled := nextInst;
        nextInst, created := nextInst + 1, created + [dialled];
        if attempt.Connected? {
          inst := Some(dialled);
          return;
        }
        closed := closed + [dialled];
        if attempt.NoProxy? || !MayRetry(made, attempt.transient, clock[made - 1]) {
          return;
        }
      }
    }
  }
}
