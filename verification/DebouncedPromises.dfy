/** What the promises of the debounced storage mean: when one is settled as kept, has its value been written? */
module DebouncedPromises {
  import opened Text
  import opened DebouncedStorage

  lemma OneMore<V>(base: map<string, V>, events: seq<Event<V>>, e: Event<V>)
    requires IsRun(base, events) && Enabled(After(base, events), e)
    ensures IsRun(base, events + [e]) && After(base, events + [e]) == Apply(After(base, events), e)
  {
    assert (events + [e])[..|events|] == events;
  }

  /**
   The layer takes any storage below it. With one that confirms a write late, a promise may be settled before its
   value is written: in this run a call is made between a base write and its confirmation, and it is settled with
   that, although its own write is still pending.
   */
  lemma PromiseSettledEarly<V>(base: map<string, V>, name: string, v1: V, v2: V)
    ensures var events := [Set(name, v1)] + [TimerFires(0, false)] + [Set(name, v2)] + [FlushContinues];
            var s := After(base, events);
            IsRun(base, events) && s.settled == [Settlement(0, true), Settlement(1, true)]
            && s.pendingWrite == Some(Write(name, v2)) && Lookup(s.base, name) == Some(v1)
  {
    var events: seq<Event<V>> := [];
    assert events + [Set(name, v1)] == [Set(name, v1)];
    OneMore(base, events, Set(name, v1));
    OneMore(base, [Set(name, v1)], TimerFires(0, false));
    OneMore(base, [Set(name, v1)] + [TimerFires(0, false)], Set(name, v2));
    OneMore(base, [Set(name, v1)] + [TimerFires(0, false)] + [Set(name, v2)], FlushContinues);
    assert AllSettled([0, 1], true) == [Settlement(0, true), Settlement(1, true)];
  }

  // What a settled promise means.

  /** The event decides the fate of every call made so far: it writes the pending value, or removes. */
  predicate Decides<V>(s: Storage<V>, e: Event<V>) {
    match e
    case Remove(_, _) => true
    case TimerFires(_, fails) => !fails && s.pendingWrite.Some?
    case PageHides(fails) => !fails && s.pendingWrite.Some?
    case _ => false
  }

  /** How many calls have had their value, or a newer one, written, or been superseded by a removal. */
  function Decided<V>(base: map<string, V>, events: seq<Event<V>>): nat {
    if events == [] then 0
    else
      var (before, last) := (events[..|events| - 1], events[|events| - 1]);
      DecidedAfter(After(base, before), Decided(base, before), last)
  }

  function DecidedAfter<V>(s: Storage<V>, decided: nat, e: Event<V>): nat {
    if Decides(s, e) then s.promises else decided
  }

  /** Event `j` decides, and the call was made before it. */
  ghost predicate IsDecidedAt<V>(base: map<string, V>, events: seq<Event<V>>, j: nat, promise: nat) {
    j < |events| && Decides(After(base, events[..j]), events[j]) && promise < After(base, events[..j]).promises
  }

  lemma DecidedInPrefix<V>(base: map<string, V>, events: seq<Event<V>>, j: nat, promise: nat)
    requires j + 1 < |events|
    ensures IsDecidedAt(base, events[..|events| - 1], j, promise) <==> IsDecidedAt(base, events, j, promise)
  {
    assert events[..|events| - 1][..j] == events[..j];
  }

  lemma PromisesGrow<V>(s: Storage<V>, e: Event<V>)
    ensures Apply(s, e).promises >= s.promises
  {
  }

  lemma {:induction false} PromisesGrowInRun<V>(base: map<string, V>, events: seq<Event<V>>, j: nat)
    requires j <= |events|
    ensures After(base, events[..j]).promises <= After(base, events).promises
  {
    if j == |events| {
      assert events[..j] == events;
    } else {
      var before := events[..|events| - 1];
      assert before[..j] == events[..j];
      PromisesGrowInRun(base, before, j);
      PromisesGrow(After(base, before), events[|before|]);
    }
  }

  /** These are exactly the calls made before some event that wrote the pending value or removed. */
  lemma {:induction false} DecidedMeans<V>(base: map<string, V>, events: seq<Event<V>>, promise: nat)
    ensures promise < Decided(base, events) <==> exists j :: IsDecidedAt(base, events, j, promise)
  {
    if events != [] {
      var before := events[..|events| - 1];
      DecidedMeans(base, before, promise);
      forall j | 0 <= j < |before|
        ensures IsDecidedAt(base, before, j, promise) <==> IsDecidedAt(base, events, j, promise)
        ensures IsDecidedAt(base, events, j, promise) ==> promise < After(base, before).promises
      {
        DecidedInPrefix(base, events, j, promise);
        PromisesGrowInRun(base, before, j);
      }
      DecidedByLast(base, events, promise);
    }
  }

  lemma DecidedByLast<V>(base: map<string, V>, events: seq<Event<V>>, promise: nat)
    requires events != []
    ensures var (before, last) := (events[..|events| - 1], events[|events| - 1]);
            && (IsDecidedAt(base, events, |before|, promise)
                <==> Decides(After(base, before), last) && promise < After(base, before).promises)
            && Decided(base, events) == DecidedAfter(After(base, before), Decided(base, before), last)
  {
  }

  /** Promises that wait have been decided, or the newest write is still pending. */
  ghost predicate WaitingIsPending<V>(s: Storage<V>, decided: nat) {
    decided <= s.promises
    && (s.pendingWrite.Some? ==> decided < s.promises)
    && (s.pendingWrite.None? && s.pendingPromises != [] ==> decided == s.promises)
  }

  lemma StepWaits<V>(s: Storage<V>, decided: nat, e: Event<V>)
    requires Sound(s) && WaitingIsPending(s, decided) && Enabled(s, e)
    ensures WaitingIsPending(Apply(s, e), DecidedAfter(s, decided, e))
  {
  }

  lemma {:induction false} AlwaysWaitingIsPending<V>(base: map<string, V>, events: seq<Event<V>>)
    requires IsRun(base, events)
    ensures WaitingIsPending(After(base, events), Decided(base, events))
  {
    if events != [] {
      var before := events[..|events| - 1];
      AlwaysSound(base, before);
      AlwaysWaitingIsPending(base, before);
      StepWaits(After(base, before), Decided(base, before), events[|before|]);
    }
  }

  /** A promise is reported as kept although its value has neither been written nor superseded by a write or removal. */
  ghost predicate SettledEarly<V>(s: Storage<V>, decided: nat, p: nat) {
    exists i :: 0 <= i < |s.settled| && s.settled[i] == Settlement(p, true) && decided <= p
  }

  lemma NoneEarly<V>(s: Storage<V>, decided: nat, e: Event<V>, p: nat)
    requires Sound(s) && WaitingIsPending(s, decided) && Enabled(s, e)
    requires !SettledEarly(s, decided, p)
    requires !(e.FlushContinues? && s.pendingWrite.Some? && s.pendingPromises != [])
    ensures !SettledEarly(Apply(s, e), DecidedAfter(s, decided, e), p)
  {
    if Decides(s, e) {
      DecidedIsNeverEarly(s, e, p);
    } else {
      UndecidedSettles(s, decided, e);
      forall i | 0 <= i < |Apply(s, e).settled| && Apply(s, e).settled[i] == Settlement(p, true) ensures p < decided {
        assert i < |s.settled| ==> s.settled[i] == Apply(s, e).settled[i];
      }
    }
  }

  /** An event that decides settles only promises of calls already made. */
  lemma DecidedIsNeverEarly<V>(s: Storage<V>, e: Event<V>, p: nat)
    requires Sound(s) && Enabled(s, e) && Decides(s, e)
    ensures !SettledEarly(Apply(s, e), s.promises, p)
  {
    StepIsSound(s, e);
  }

  /** Any other event settles as kept only promises that have been decided before. */
  lemma UndecidedSettles<V>(s: Storage<V>, decided: nat, e: Event<V>)
    requires Sound(s) && WaitingIsPending(s, decided) && Enabled(s, e) && !Decides(s, e)
    requires !(e.FlushContinues? && s.pendingWrite.Some? && s.pendingPromises != [])
    ensures s.settled <= Apply(s, e).settled
    ensures forall i :: |s.settled| <= i < |Apply(s, e).settled| && Apply(s, e).settled[i].ok ==>
              Apply(s, e).settled[i].promise < decided
  {
  }

  lemma LastIsEarly<V>(s: Storage<V>, decided: nat)
    requires Sound(s) && WaitingIsPending(s, decided) && s.flushing > 0
    requires s.pendingWrite.Some? && s.pendingPromises != []
    ensures SettledEarly(FinishFlush(s), decided, s.promises - 1)
  {
    assert s.pendingPromises[|s.pendingPromises| - 1] == s.promises - 1;
    assert FinishFlush(s).settled[s.promises - 1] == Settlement(s.promises - 1, true);
  }

  lemma StepEarly<V>(s: Storage<V>, decided: nat, e: Event<V>)
    requires Sound(s) && WaitingIsPending(s, decided) && Enabled(s, e)
    requires forall p: nat :: !SettledEarly(s, decided, p)
    ensures (exists p: nat :: SettledEarly(Apply(s, e), DecidedAfter(s, decided, e), p))
       <==> e.FlushContinues? && s.pendingWrite.Some? && s.pendingPromises != []
  {
    if e.FlushContinues? && s.pendingWrite.Some? && s.pendingPromises != [] {
      LastIsEarly(s, decided);
      var last: nat := s.promises - 1;
      assert SettledEarly(Apply(s, e), DecidedAfter(s, decided, e), last);
    } else {
      forall p: nat ensures !SettledEarly(Apply(s, e), DecidedAfter(s, decided, e), p) {
        NoneEarly(s, decided, e, p);
      }
    }
  }

  lemma DecidedMore<V>(base: map<string, V>, events: seq<Event<V>>, e: Event<V>)
    ensures Decided(base, events + [e]) == DecidedAfter(After(base, events), Decided(base, events), e)
    ensures After(base, events + [e]) == Apply(After(base, events), e)
  {
    assert (events + [e])[..|events|] == events;
  }

  /**
   Exactly when promises are settled too early, over all runs, also of a storage that confirms its writes late:
   one step does so if and only if it ends a flush while a newer write is pending whose promise still waits.
   */
  lemma StepSettlesEarlyExactly<V>(base: map<string, V>, events: seq<Event<V>>, e: Event<V>)
    requires IsRun(base, events) && Enabled(After(base, events), e)
    requires forall p: nat :: !SettledEarly(After(base, events), Decided(base, events), p)
    ensures (exists p: nat :: SettledEarly(After(base, events + [e]), Decided(base, events + [e]), p))
       <==> e.FlushContinues? && After(base, events).pendingWrite.Some? && After(base, events).pendingPromises != []
  {
    AlwaysSound(base, events);
    AlwaysWaitingIsPending(base, events);
    StepEarly(After(base, events), Decided(base, events), e);
    DecidedMore(base, events, e);
  }

  /**
   With a storage that answers at once, as the browser's local storage does, the rest of a flush is the next
   thing to run: nothing comes between a base write and its confirmation.
   */
  ghost predicate IsPrompt<V>(base: map<string, V>, events: seq<Event<V>>) {
    forall i :: 0 <= i < |events| && After(base, events[..i]).flushing > 0 ==> events[i].FlushContinues?
  }

  lemma PromptPrefix<V>(base: map<string, V>, events: seq<Event<V>>)
    requires IsPrompt(base, events) && events != []
    ensures IsPrompt(base, events[..|events| - 1])
  {
    var before := events[..|events| - 1];
    forall i | 0 <= i < |before| ensures before[..i] == events[..i] && before[i] == events[i] {
    }
  }

  /** When only the rest of a flush may come while one waits, at most one waits, and nothing is pending meanwhile. */
  ghost predicate FlushIsAlone<V>(s: Storage<V>) {
    s.flushing > 0 ==> s.flushing == 1 && s.pendingWrite.None?
  }

  lemma StepKeepsAlone<V>(s: Storage<V>, e: Event<V>)
    requires FlushIsAlone(s) && (s.flushing > 0 ==> e.FlushContinues?)
    ensures FlushIsAlone(Apply(s, e))
  {
  }

  lemma {:induction false} PromptFlushIsAlone<V>(base: map<string, V>, events: seq<Event<V>>)
    requires IsPrompt(base, events)
    ensures FlushIsAlone(After(base, events))
  {
    if events != [] {
      var before := events[..|events| - 1];
      PromptPrefix(base, events);
      PromptFlushIsAlone(base, before);
      StepKeepsAlone(After(base, before), events[|before|]);
    }
  }

  /**
   So there, a promise is settled as kept only once the value of its call or of a newer one has been written,
   or a removal has superseded it.
   */
  lemma {:induction false} SettledPromisesAreKept<V>(base: map<string, V>, events: seq<Event<V>>, p: nat)
    requires IsRun(base, events) && IsPrompt(base, events)
    ensures !SettledEarly(After(base, events), Decided(base, events), p)
  {
    if events != [] {
      var (before, last) := (events[..|events| - 1], events[|events| - 1]);
      PromptPrefix(base, events);
      SettledPromisesAreKept(base, before, p);
      PromptFlushIsAlone(base, before);
      AlwaysSound(base, before);
      AlwaysWaitingIsPending(base, before);
      NoneEarly(After(base, before), Decided(base, before), last, p);
    }
  }

  /** In any run, a write is left pending with no promise waiting only by the end of a flush, and always by that. */
  lemma OrphansPendingExactly<V>(base: map<string, V>, events: seq<Event<V>>, e: Event<V>)
    requires IsRun(base, events) && Enabled(After(base, events), e)
    requires var s := After(base, events); !(s.pendingWrite.Some? && s.pendingPromises == [])
    ensures var (s, after) := (After(base, events), Apply(After(base, events), e));
            (after.pendingWrite.Some? && after.pendingPromises == [] <==> e.FlushContinues? && s.pendingWrite.Some?)
  {
    AlwaysSound(base, events);
  }
}
