/** The debounced persistence layer: writes wait for a timer, and promises are settled together. */
module DebouncedStorage {
  import opened Text

  datatype Write<V> = Write(name: string, value: V)

  /** How the promise of a setItem call was settled; promises are numbered in the order of the calls. */
  datatype Settlement = Settlement(promise: nat, ok: bool)

  /**
   The variables of the layer, the storage below it, and what it has done to its surroundings: the live timers,
   the settled promises, and how many flushes wait for the base write they have made to be confirmed.
   */
  datatype Storage<V> = Storage(
    base: map<string, V>,
    pendingWrite: Option<Write<V>>,
    pendingTimer: Option<nat>,
    armed: set<nat>,
    nextTimer: nat,
    pendingPromises: seq<nat>,
    settled: seq<Settlement>,
    promises: nat,
    flushing: nat,
    listenersBound: bool)

  function Empty<V>(base: map<string, V>): Storage<V> {
    Storage(base, None, None, {}, 0, [], [], 0, 0, false)
  }

  function ClearTimer<V>(s: Storage<V>): Storage<V> {
    if s.pendingTimer.None? then s else s.(armed := s.armed - {s.pendingTimer.value}, pendingTimer := None)
  }

  function AllSettled(promises: seq<nat>, ok: bool): seq<Settlement> {
    seq(|promises|, i requires 0 <= i < |promises| => Settlement(promises[i], ok))
  }

  function SettlePending<V>(s: Storage<V>, ok: bool): Storage<V> {
    s.(pendingPromises := [], settled := s.settled + AllSettled(s.pendingPromises, ok))
  }

  function SetItem<V>(s: Storage<V>, name: string, value: V): Storage<V> {
    s.(listenersBound := true,
       pendingWrite := Some(Write(name, value)),
       pendingPromises := s.pendingPromises + [s.promises],
       promises := s.promises + 1,
       armed := (if s.pendingTimer.Some? then s.armed - {s.pendingTimer.value} else s.armed) + {s.nextTimer},
       pendingTimer := Some(s.nextTimer),
       nextTimer := s.nextTimer + 1)
  }

  /** The first part of a flush, up to the base write; a base write that throws settles at once. */
  function FlushPendingWrite<V>(s: Storage<V>, fails: bool): Storage<V> {
    var taken := ClearTimer(s).(pendingWrite := None);
    match s.pendingWrite
    case None => SettlePending(taken, true)
    case Some(w) =>
      if fails then SettlePending(taken, false)
      else taken.(base := s.base[w.name := w.value], flushing := s.flushing + 1)
  }

  /** The rest of a flush, once its base write is confirmed. */
  function FinishFlush<V>(s: Storage<V>): Storage<V>
    requires s.flushing > 0
  {
    SettlePending(s, true).(flushing := s.flushing - 1)
  }

  function RemoveItem<V>(s: Storage<V>, name: string, fails: bool): Storage<V> {
    var settled := SettlePending(ClearTimer(s).(pendingWrite := None), true);
    if fails then settled else settled.(base := s.base - {name})
  }

  class DebouncedPersistStorage<V> {
    var base: map<string, V>
    var pendingWrite: Option<Write<V>>
    var pendingTimer: Option<nat>
    var armed: set<nat>
    var nextTimer: nat
    var pendingPromises: seq<nat>
    var settled: seq<Settlement>
    var promises: nat
    var flushing: nat
    var listenersBound: bool

    ghost function State(): Storage<V>
      reads this
    {
      Storage(base, pendingWrite, pendingTimer, armed, nextTimer, pendingPromises, settled, promises, flushing,
              listenersBound)
    }

    constructor (base: map<string, V>)
      ensures State() == Empty(base)
    {
      this.base := base;
      pendingWrite, pendingTimer, armed, nextTimer := None, None, {}, 0;
      pendingPromises, settled, promises, flushing, listenersBound := [], [], 0, 0, false;
    }

    method Settle(ok: bool)
      modifies this
      ensures State() == SettlePending(old(State()), ok)
    {
      var promises := pendingPromises;
      pendingPromises := [];
      var i := 0;
      while i < |promises|
        invariant 0 <= i <= |promises|
        invariant State() == SettlePending(old(State()), ok).(settled := old(settled) + AllSettled(promises[..i], ok))
      {
        assert AllSettled(promises[..i + 1], ok) == AllSettled(promises[..i], ok) + [Settlement(promises[i], ok)];
        settled := settled + [Settlement(promises[i], ok)];
        i := i + 1;
      }
      assert promises[..i] == promises;
    }

    method Clear()
      modifies this
      ensures State() == ClearTimer(old(State()))
    {
      if pendingTimer.Some? {
        armed := armed - {pendingTimer.value};
        pendingTimer := None;
      }
    }

    method Set(name: string, value: V)
      modifies this
      ensures State() == SetItem(old(State()), name, value)
    {
      listenersBound := true;
      pendingWrite := Some(Write(name, value));
      if pendingTimer.Some? {
        armed := armed - {pendingTimer.value};
      }
      pendingPromises := pendingPromises + [promises];
      promises := promises + 1;
      armed := armed + {nextTimer};
      pendingTimer := Some(nextTimer);
      nextTimer := nextTimer + 1;
    }

    method Flush(fails: bool)
      modifies this
      ensures State() == FlushPendingWrite(old(State()), fails)
    {
      Clear();
      var nextWrite := pendingWrite;
      pendingWrite := None;
      if nextWrite.None? {
        Settle(true);
      } else if fails {
        Settle(false);
      } else {
        base := base[nextWrite.value.name := nextWrite.value.value];
        flushing := flushing + 1;
      }
    }

    method Finish()
      requires flushing > 0
      modifies this
      ensures State() == FinishFlush(old(State()))
    {
      Settle(true);
      flushing := flushing - 1;
    }

    method Remove(name: string, fails: bool)
      modifies this
      ensures State() == RemoveItem(old(State()), name, fails)
    {
      pendingWrite := None;
      Clear();
      Settle(true);
      if !fails {
        base := base - {name};
      }
    }
  }

  // Runs.

  datatype Event<V> =
    | Set(name: string, value: V)
    | Remove(name: string, fails: bool)
    | TimerFires(timer: nat, fails: bool)
    | PageHides(fails: bool)
    | FlushContinues

  ghost predicate Enabled<V>(s: Storage<V>, e: Event<V>) {
    match e
    case TimerFires(timer, _) => timer in s.armed
    case PageHides(_) => s.listenersBound
    case FlushContinues => s.flushing > 0
    case _ => true
  }

  function Apply<V>(s: Storage<V>, e: Event<V>): Storage<V> {
    match e
    case Set(name, value) => SetItem(s, name, value)
    case Remove(name, fails) => RemoveItem(s, name, fails)
    case TimerFires(timer, fails) => FlushPendingWrite(s.(armed := s.armed - {timer}), fails)
    case PageHides(fails) => FlushPendingWrite(s, fails)
    case FlushContinues => if s.flushing > 0 then FinishFlush(s) else s
  }

  function After<V>(base: map<string, V>, events: seq<Event<V>>): Storage<V> {
    if events == [] then Empty(base) else Apply(After(base, events[..|events| - 1]), events[|events| - 1])
  }

  ghost predicate IsRun<V>(base: map<string, V>, events: seq<Event<V>>) {
    events == []
    || (IsRun(base, events[..|events| - 1]) && Enabled(After(base, events[..|events| - 1]), events[|events| - 1]))
  }

  /** The storage without a debounce: every call takes effect at once. */
  function Direct<V>(base: map<string, V>, events: seq<Event<V>>): map<string, V> {
    if events == [] then base else DirectStep(Direct(base, events[..|events| - 1]), events[|events| - 1])
  }

  function DirectStep<V>(direct: map<string, V>, e: Event<V>): map<string, V> {
    match e
    case Set(name, value) => direct[name := value]
    case Remove(name, _) => direct - {name}
    case _ => direct
  }

  /**
   What holds at any time: a write is pending exactly when a timer is armed, and no other timer is; promises are
   settled in order and once; and while one is not settled, a write is pending or a flush is running.
   */
  ghost predicate Sound<V>(s: Storage<V>) {
    (s.pendingWrite.Some? <==> s.pendingTimer.Some?)
    && s.armed == (if s.pendingTimer.Some? then {s.pendingTimer.value} else {})
    && (s.pendingTimer.Some? ==> s.pendingTimer.value < s.nextTimer)
    && PromisesInOrder(s)
    && (s.pendingPromises != [] ==> s.pendingWrite.Some? || s.flushing > 0)
  }

  ghost predicate PromisesInOrder<V>(s: Storage<V>) {
    |s.settled| + |s.pendingPromises| == s.promises
    && (forall i :: 0 <= i < |s.settled| ==> s.settled[i].promise == i)
    && forall i :: 0 <= i < |s.pendingPromises| ==> s.pendingPromises[i] == |s.settled| + i
  }

  lemma SettlingIsOrderly<V>(s: Storage<V>, ok: bool)
    requires PromisesInOrder(s)
    ensures PromisesInOrder(SettlePending(s, ok))
  {
  }

  lemma StepIsSound<V>(s: Storage<V>, e: Event<V>)
    requires Sound(s) && Enabled(s, e)
    ensures Sound(Apply(s, e))
  {
    SettlingIsOrderly(s, true);
    SettlingIsOrderly(s, false);
  }

  lemma {:induction false} AlwaysSound<V>(base: map<string, V>, events: seq<Event<V>>)
    requires IsRun(base, events)
    ensures Sound(After(base, events))
  {
    if events != [] {
      AlwaysSound(base, events[..|events| - 1]);
      StepIsSound(After(base, events[..|events| - 1]), events[|events| - 1]);
    }
  }

  // Refinement of the direct storage.

  function Lookup<V>(m: map<string, V>, name: string): Option<V> {
    if name in m then Some(m[name]) else None
  }

  /** What a name will hold once the pending write is done. */
  function Intended<V>(s: Storage<V>, name: string): Option<V> {
    if s.pendingWrite.Some? && s.pendingWrite.value.name == name then Some(s.pendingWrite.value.value)
    else Lookup(s.base, name)
  }

  /** A write of `name` is pending that would change the storage. */
  predicate HasUnsaved<V(==)>(s: Storage<V>, name: string) {
    s.pendingWrite.Some? && s.pendingWrite.value.name == name
    && Lookup(s.base, name) != Some(s.pendingWrite.value.value)
  }

  /**
   A step that loses what was meant for `name`: a failing base call, or a call for another name while its write is
   pending.
   */
  predicate Loses<V(==)>(s: Storage<V>, e: Event<V>, name: string) {
    match e
    case Set(other, _) => other != name && HasUnsaved(s, name)
    case Remove(other, fails) => if other != name then HasUnsaved(s, name) else fails && name in s.base
    case TimerFires(_, fails) => fails && HasUnsaved(s, name)
    case PageHides(fails) => fails && HasUnsaved(s, name)
    case FlushContinues => false
  }

  /**
   A step keeps the agreement with the direct storage on a name exactly when it does not lose what was meant for
   it.
   */
  lemma StepAgreesExactly<V>(s: Storage<V>, direct: map<string, V>, e: Event<V>, name: string)
    requires Intended(s, name) == Lookup(direct, name)
    ensures Intended(Apply(s, e), name) == Lookup(DirectStep(direct, e), name) <==> !Loses(s, e, name)
  {
  }

  ghost predicate NeverLoses<V>(base: map<string, V>, events: seq<Event<V>>, name: string) {
    forall i :: 0 <= i < |events| ==> !Loses(After(base, events[..i]), events[i], name)
  }

  lemma {:induction false} AgreesWithDirect<V>(base: map<string, V>, events: seq<Event<V>>, name: string)
    requires NeverLoses(base, events, name)
    ensures Intended(After(base, events), name) == Lookup(Direct(base, events), name)
  {
    if events != [] {
      var before := events[..|events| - 1];
      forall i | 0 <= i < |before| ensures !Loses(After(base, before[..i]), before[i], name) {
        assert before[..i] == events[..i];
      }
      AgreesWithDirect(base, before, name);
      StepAgreesExactly(After(base, before), Direct(base, before), events[|events| - 1], name);
    }
  }

  predicate IsSimpleEvent<V>(e: Event<V>, name: string) {
    match e
    case Set(other, _) => other == name
    case Remove(other, fails) => other == name && !fails
    case TimerFires(_, fails) => !fails
    case PageHides(fails) => !fails
    case FlushContinues => true
  }

  /** Only one name is used, and the storage below never fails. */
  ghost predicate IsSimple<V>(events: seq<Event<V>>, name: string) {
    forall i :: 0 <= i < |events| ==> IsSimpleEvent(events[i], name)
  }

  lemma {:induction false} OnlyNamePending<V>(base: map<string, V>, events: seq<Event<V>>, name: string)
    requires IsSimple(events, name)
    ensures var s := After(base, events); s.pendingWrite.Some? ==> s.pendingWrite.value.name == name
  {
    if events != [] {
      OnlyNamePending(base, events[..|events| - 1], name);
    }
  }

  lemma StepKeepsOtherName<V>(s: Storage<V>, e: Event<V>, name: string, other: string)
    requires IsSimpleEvent(e, name) && other != name
    requires s.pendingWrite.Some? ==> s.pendingWrite.value.name == name
    ensures Lookup(Apply(s, e).base, other) == Lookup(s.base, other)
  {
  }

  lemma {:induction false} OtherNamesStay<V>(base: map<string, V>, events: seq<Event<V>>, name: string, other: string)
    requires IsSimple(events, name) && other != name
    ensures Lookup(After(base, events).base, other) == Lookup(base, other)
    ensures Lookup(Direct(base, events), other) == Lookup(base, other)
  {
    if events != [] {
      var (before, last) := (events[..|events| - 1], events[|events| - 1]);
      OtherNamesStay(base, before, name, other);
      OnlyNamePending(base, before, name);
      StepKeepsOtherName(After(base, before), last, name, other);
      assert IsSimpleEvent(last, name);
    }
  }

  lemma SimpleNeverLoses<V>(base: map<string, V>, events: seq<Event<V>>, name: string)
    requires IsSimple(events, name)
    ensures NeverLoses(base, events, name)
  {
    forall i | 0 <= i < |events| ensures !Loses(After(base, events[..i]), events[i], name) {
      assert events[i] in events;
    }
  }

  /**
   For one name over a storage that does not fail, the debounced storage refines the direct one: whenever no
   write is pending, both hold the same.
   */
  lemma RefinesDirectStorage<V>(base: map<string, V>, events: seq<Event<V>>, name: string)
    requires IsRun(base, events) && IsSimple(events, name)
    ensures var s := After(base, events); s.pendingWrite.None? ==> s.base == Direct(base, events)
    ensures var s := After(base, events); s.pendingWrite.None? && s.flushing == 0 ==> s.pendingPromises == []
  {
    var (s, direct) := (After(base, events), Direct(base, events));
    AlwaysSound(base, events);
    SimpleNeverLoses(base, events, name);
    AgreesWithDirect(base, events, name);
    if s.pendingWrite.None? {
      forall other ensures Lookup(s.base, other) == Lookup(direct, other) {
        if other != name {
          OtherNamesStay(base, events, name, other);
        }
      }
      SameLookups(s.base, direct);
    }
  }

  lemma SameLookups<V>(m: map<string, V>, n: map<string, V>)
    requires forall name :: Lookup(m, name) == Lookup(n, name)
    ensures m == n
  {
    forall name ensures name in m <==> name in n {
      assert Lookup(m, name) == Lookup(n, name);
    }
    forall name | name in m ensures m[name] == n[name] {
      assert Lookup(m, name) == Lookup(n, name);
    }
  }
}
