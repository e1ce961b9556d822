/**
 Saving a list of inputs one after the other, where a save changes one entry, which may also be what it takes some
 fields from. Leaving out all but the last input for each entry is harmless only if no field is missed.
 */
module DedupedSaves {
  import opened Text
  import opened ImportDedupe

  /**
   A store `R` of entries `E`, found by key. A save fails on a broken entry and otherwise applies the input to the
   entry with its key. Of every field `F` an input either says what it is to be, or nothing.
   */
  datatype Saving<!R, !I, !E, !F> = Saving(
    keyOf: I -> string,
    save: (R, I) -> Option<R>,
    entryOf: (R, string) -> E,
    apply: (E, I) -> E,
    broken: E -> bool,
    known: (E, F) -> string,
    says: (I, F) -> Option<string>,
    same: (E, E) -> bool)

  function Otherwise(said: Option<string>, known: string): string {
    if said.Some? then said.value else known
  }

  ghost predicate SavesOneEntry<R(!new), I(!new), E, F>(s: Saving<R, I, E, F>) {
    (forall r, x :: s.save(r, x).Some? <==> !s.broken(s.entryOf(r, s.keyOf(x))))
    && forall r, x, id :: s.save(r, x).Some? ==>
         s.entryOf(s.save(r, x).value, id)
         == if id == s.keyOf(x) then s.apply(s.entryOf(r, id), x) else s.entryOf(r, id)
  }

  ghost predicate DecidesFields<R, I(!new), E(!new), F(!new)>(s: Saving<R, I, E, F>) {
    (forall e, x :: !s.broken(e) ==> !s.broken(s.apply(e, x)))
    && forall e, x, f :: !s.broken(e) ==> s.known(s.apply(e, x), f) == Otherwise(s.says(x, f), s.known(e, f))
  }

  /** After the same input, entries differ at most in their fields. */
  ghost predicate SameByFields<R, I(!new), E(!new), F(!new)>(s: Saving<R, I, E, F>) {
    (forall e :: s.same(e, e))
    && forall a, b, x :: !s.broken(a) && !s.broken(b) ==>
         (s.same(s.apply(a, x), s.apply(b, x))
          <==> forall f :: s.known(s.apply(a, x), f) == s.known(s.apply(b, x), f))
  }

  ghost predicate Lawful<R(!new), I(!new), E(!new), F(!new)>(s: Saving<R, I, E, F>) {
    SavesOneEntry(s) && DecidesFields(s) && SameByFields(s)
  }

  datatype Progress<R> = Progress(store: R, ok: bool)

  /** Saving the first `n` inputs in order; nothing is saved after a save that failed. */
  function SaveFirst<R, I, E, F>(r: R, inputs: seq<I>, s: Saving<R, I, E, F>, n: nat): Progress<R>
    requires n <= |inputs|
  {
    if n == 0 then Progress(r, true)
    else
      var before := SaveFirst(r, inputs, s, n - 1);
      if !before.ok then before
      else match s.save(before.store, inputs[n - 1])
        case None => Progress(before.store, false)
        case Some(saved) => Progress(saved, true)
  }

  function SaveAll<R, I, E, F>(r: R, inputs: seq<I>, s: Saving<R, I, E, F>): Progress<R> {
    SaveFirst(r, inputs, s, |inputs|)
  }

  // What the saves do to one entry.

  /** An entry after the saves of those inputs that have its key. */
  function EntryAfter<R, I, E, F>(e: E, inputs: seq<I>, s: Saving<R, I, E, F>, key: string, n: nat): E
    requires n <= |inputs|
  {
    if n == 0 then e
    else
      var before := EntryAfter(e, inputs, s, key, n - 1);
      if s.keyOf(inputs[n - 1]) == key then s.apply(before, inputs[n - 1]) else before
  }

  lemma {:induction false} SavedEntry<R(!new), I(!new), E, F>(
      r: R, inputs: seq<I>, s: Saving<R, I, E, F>, n: nat, id: string)
    requires SavesOneEntry(s) && n <= |inputs| && SaveFirst(r, inputs, s, n).ok
    ensures s.entryOf(SaveFirst(r, inputs, s, n).store, id) == EntryAfter(s.entryOf(r, id), inputs, s, id, n)
  {
    if n > 0 {
      SavedEntry(r, inputs, s, n - 1, id);
    }
  }

  lemma {:induction false} StaysWhole<R, I(!new), E(!new), F(!new)>(
      e: E, inputs: seq<I>, s: Saving<R, I, E, F>, key: string, n: nat)
    requires DecidesFields(s) && n <= |inputs| && !s.broken(e)
    ensures !s.broken(EntryAfter(e, inputs, s, key, n))
  {
    if n > 0 {
      StaysWhole(e, inputs, s, key, n - 1);
    }
  }

  /** A saved entry that is broken was broken before, and no save was made of it. */
  lemma {:induction false} BrokenFromTheStart<R(!new), I(!new), E(!new), F(!new)>(
      r: R, inputs: seq<I>, s: Saving<R, I, E, F>, n: nat, id: string)
    requires Lawful(s) && n <= |inputs| && SaveFirst(r, inputs, s, n).ok
    ensures s.broken(s.entryOf(SaveFirst(r, inputs, s, n).store, id)) <==> s.broken(s.entryOf(r, id))
  {
    if n > 0 {
      BrokenFromTheStart(r, inputs, s, n - 1, id);
    }
  }

  /** The saves go through exactly when none of the inputs has a broken entry to begin with. */
  lemma {:induction false} SavesGoThroughExactly<R(!new), I(!new), E(!new), F(!new)>(
      r: R, inputs: seq<I>, s: Saving<R, I, E, F>, n: nat)
    requires Lawful(s) && n <= |inputs|
    ensures SaveFirst(r, inputs, s, n).ok <==> forall i :: 0 <= i < n ==> !s.broken(s.entryOf(r, s.keyOf(inputs[i])))
  {
    if n > 0 {
      SavesGoThroughExactly(r, inputs, s, n - 1);
      if SaveFirst(r, inputs, s, n - 1).ok {
        BrokenFromTheStart(r, inputs, s, n - 1, s.keyOf(inputs[n - 1]));
      }
    }
  }

  /** The last thing that the first `n` inputs with a key say of a field. */
  function LastSays<R, I, E, F>(inputs: seq<I>, s: Saving<R, I, E, F>, key: string, f: F, n: nat): Option<string>
    requires n <= |inputs|
  {
    if n == 0 then None
    else if s.keyOf(inputs[n - 1]) == key && s.says(inputs[n - 1], f).Some? then s.says(inputs[n - 1], f)
    else LastSays(inputs, s, key, f, n - 1)
  }

  lemma {:induction false} KnownAfter<R, I(!new), E(!new), F(!new)>(
      e: E, inputs: seq<I>, s: Saving<R, I, E, F>, key: string, n: nat, f: F)
    requires DecidesFields(s) && n <= |inputs| && !s.broken(e)
    ensures s.known(EntryAfter(e, inputs, s, key, n), f)
         == Otherwise(LastSays(inputs, s, key, f, n), s.known(e, f))
  {
    if n > 0 {
      KnownAfter(e, inputs, s, key, n - 1, f);
      StaysWhole(e, inputs, s, key, n - 1);
    }
  }

  /** An entry is as the last input with its key left it. */
  lemma {:induction false} LastShapes<R, I(!new), E(!new), F(!new)>(
      e: E, inputs: seq<I>, s: Saving<R, I, E, F>, key: string, n: nat) returns (before: E)
    requires DecidesFields(s) && n <= |inputs| && !s.broken(e)
    ensures !s.broken(before)
    ensures match LastWith(inputs, s.keyOf, n, key)
            case None => EntryAfter(e, inputs, s, key, n) == e
            case Some(x) => EntryAfter(e, inputs, s, key, n) == s.apply(before, x)
  {
    before := e;
    if n > 0 {
      if s.keyOf(inputs[n - 1]) == key {
        before := EntryAfter(e, inputs, s, key, n - 1);
        StaysWhole(e, inputs, s, key, n - 1);
      } else {
        before := LastShapes(e, inputs, s, key, n - 1);
      }
    }
  }

  // Exactly when the earlier inputs may be left out.

  /**
   The earlier inputs with a key may be left out as far as one field goes: the last input says something of it
   itself, or none of them does, or the last that does says what is stored.
   */
  predicate NothingOnlyEarlier<R, I, E, F>(e: E, inputs: seq<I>, s: Saving<R, I, E, F>, key: string, f: F) {
    var last := LastWith(inputs, s.keyOf, |inputs|, key);
    var said := LastSays(inputs, s, key, f, |inputs|);
    last.None? || s.says(last.value, f).Some? || said.None? || said.value == s.known(e, f)
  }

  lemma {:induction false} SayingLastIsLast<R, I, E, F>(
      inputs: seq<I>, s: Saving<R, I, E, F>, key: string, f: F, n: nat)
    requires n <= |inputs|
    ensures match LastWith(inputs, s.keyOf, n, key)
            case None => LastSays(inputs, s, key, f, n).None?
            case Some(last) => s.says(last, f).Some? ==> LastSays(inputs, s, key, f, n) == s.says(last, f)
  {
    if n > 0 {
      SayingLastIsLast(inputs, s, key, f, n - 1);
    }
  }

  lemma {:induction false} OnlyOneSays<R, I, E, F>(inputs: seq<I>, s: Saving<R, I, E, F>, key: string, f: F, n: nat)
    requires n <= |inputs| && DistinctKeys(inputs, s.keyOf) && key != ""
    ensures var last := LastWith(inputs, s.keyOf, n, key);
            LastSays(inputs, s, key, f, n) == if last.None? then None else s.says(last.value, f)
  {
    if n > 0 {
      OnlyOneSays(inputs, s, key, f, n - 1);
      if s.keyOf(inputs[n - 1]) == key {
        NoneWith(inputs, s.keyOf, n - 1, key);
      }
    }
  }

  lemma FieldIsKeptExactly<R, I(!new), E(!new), F(!new)>(
      e: E, inputs: seq<I>, s: Saving<R, I, E, F>, key: string, f: F)
    requires DecidesFields(s) && !s.broken(e) && key != ""
    ensures var kept := Deduped(inputs, s.keyOf);
            s.known(EntryAfter(e, kept, s, key, |kept|), f) == s.known(EntryAfter(e, inputs, s, key, |inputs|), f)
            <==> NothingOnlyEarlier(e, inputs, s, key, f)
  {
    var kept := Deduped(inputs, s.keyOf);
    KnownAfter(e, inputs, s, key, |inputs|, f);
    KnownAfter(e, kept, s, key, |kept|, f);
    KeptKeysAreDistinct(inputs, s.keyOf, |inputs|);
    OnlyOneSays(kept, s, key, f, |kept|);
    DedupedHasLast(inputs, s.keyOf, key);
    SayingLastIsLast(inputs, s, key, f, |inputs|);
  }

  lemma EntryIsKeptExactly<R, I(!new), E(!new), F(!new)>(
      e: E, inputs: seq<I>, s: Saving<R, I, E, F>, key: string)
    requires DecidesFields(s) && SameByFields(s) && !s.broken(e) && key != ""
    ensures var kept := Deduped(inputs, s.keyOf);
            s.same(EntryAfter(e, kept, s, key, |kept|), EntryAfter(e, inputs, s, key, |inputs|))
            <==> forall f :: NothingOnlyEarlier(e, inputs, s, key, f)
  {
    var kept := Deduped(inputs, s.keyOf);
    DedupedHasLast(inputs, s.keyOf, key);
    var a := LastShapes(e, kept, s, key, |kept|);
    var b := LastShapes(e, inputs, s, key, |inputs|);
    forall f
      ensures s.known(EntryAfter(e, kept, s, key, |kept|), f) == s.known(EntryAfter(e, inputs, s, key, |inputs|), f)
              <==> NothingOnlyEarlier(e, inputs, s, key, f)
    {
      FieldIsKeptExactly(e, inputs, s, key, f);
    }
  }

  ghost predicate AllKeyed<T>(inputs: seq<T>, keyOf: T -> string) {
    forall i :: 0 <= i < |inputs| ==> keyOf(inputs[i]) != ""
  }

  /** Every input has a kept one with its key. */
  lemma KeptStandsFor<T>(inputs: seq<T>, keyOf: T -> string, j: nat) returns (i: nat)
    requires j < |inputs| && keyOf(inputs[j]) != ""
    ensures var kept := Deduped(inputs, keyOf); i < |kept| && keyOf(kept[i]) == keyOf(inputs[j])
  {
    var (kept, key) := (Deduped(inputs, keyOf), keyOf(inputs[j]));
    DedupedHasLast(inputs, keyOf, key);
    NoneWith(inputs, keyOf, |inputs|, key);
    i := FindLastIndex(kept, keyOf, |kept|, key);
  }

  lemma KeptGoThroughExactly<R(!new), I(!new), E(!new), F(!new)>(r: R, inputs: seq<I>, s: Saving<R, I, E, F>)
    requires Lawful(s) && AllKeyed(inputs, s.keyOf)
    ensures SaveAll(r, Deduped(inputs, s.keyOf), s).ok <==> SaveAll(r, inputs, s).ok
  {
    var kept := Deduped(inputs, s.keyOf);
    SavesGoThroughExactly(r, inputs, s, |inputs|);
    SavesGoThroughExactly(r, kept, s, |kept|);
    forall i | 0 <= i < |kept| ensures exists j :: 0 <= j < |inputs| && inputs[j] == kept[i] {
      KeptAreInputs(inputs, s.keyOf, |inputs|, kept[i]);
    }
    forall j | 0 <= j < |inputs| ensures exists i :: 0 <= i < |kept| && s.keyOf(kept[i]) == s.keyOf(inputs[j]) {
      var i := KeptStandsFor(inputs, s.keyOf, j);
    }
  }

  lemma {:induction false} NoInputNoChange<R, I, E, F>(
      e: E, inputs: seq<I>, s: Saving<R, I, E, F>, id: string, n: nat)
    requires n <= |inputs| && LastWith(inputs, s.keyOf, n, id).None?
    ensures EntryAfter(e, inputs, s, id, n) == e
  {
    if n > 0 {
      NoInputNoChange(e, inputs, s, id, n - 1);
    }
  }

  lemma NoKeptInput<T>(inputs: seq<T>, keyOf: T -> string, id: string)
    requires LastWith(inputs, keyOf, |inputs|, id).None?
    ensures var kept := Deduped(inputs, keyOf); LastWith(kept, keyOf, |kept|, id).None?
  {
    var kept := Deduped(inputs, keyOf);
    NoneWith(inputs, keyOf, |inputs|, id);
    forall i | 0 <= i < |kept| ensures keyOf(kept[i]) != id {
      KeptAreInputs(inputs, keyOf, |inputs|, kept[i]);
    }
    NoneWith(kept, keyOf, |kept|, id);
  }

  /** The entry under any id, by the saves of the kept inputs and by those of all. */
  lemma IdIsKeptExactly<R(!new), I(!new), E(!new), F(!new)>(
      r: R, inputs: seq<I>, s: Saving<R, I, E, F>, id: string)
    requires Lawful(s) && AllKeyed(inputs, s.keyOf)
    requires SaveAll(r, inputs, s).ok && SaveAll(r, Deduped(inputs, s.keyOf), s).ok
    ensures s.same(s.entryOf(SaveAll(r, Deduped(inputs, s.keyOf), s).store, id),
                   s.entryOf(SaveAll(r, inputs, s).store, id))
            <==> forall f :: NothingOnlyEarlier(s.entryOf(r, id), inputs, s, id, f)
  {
    var (kept, e) := (Deduped(inputs, s.keyOf), s.entryOf(r, id));
    SavedEntry(r, inputs, s, |inputs|, id);
    SavedEntry(r, kept, s, |kept|, id);
    NoneWith(inputs, s.keyOf, |inputs|, id);
    if LastWith(inputs, s.keyOf, |inputs|, id).Some? {
      SavesGoThroughExactly(r, inputs, s, |inputs|);
      EntryIsKeptExactly(e, inputs, s, id);
    } else {
      NoInputNoChange(e, inputs, s, id, |inputs|);
      NoKeptInput(inputs, s.keyOf, id);
      NoInputNoChange(e, kept, s, id, |kept|);
    }
  }

  ghost predicate SameStore<R, I, E, F>(a: R, b: R, s: Saving<R, I, E, F>) {
    forall id: string :: s.same(s.entryOf(a, id), s.entryOf(b, id))
  }

  /**
   Saving only the last input for each key goes through exactly when saving them all in order does, and it leaves
   the same entries if and only if there is no field that the last input for a key does not mention while an
   earlier one changes it.
   */
  lemma DedupeIsLosslessExactly<R(!new), I(!new), E(!new), F(!new)>(r: R, inputs: seq<I>, s: Saving<R, I, E, F>)
    requires Lawful(s) && AllKeyed(inputs, s.keyOf)
    ensures var (kept, all) := (SaveAll(r, Deduped(inputs, s.keyOf), s), SaveAll(r, inputs, s));
            && kept.ok == all.ok
            && (all.ok ==> (SameStore(kept.store, all.store, s)
                            <==> forall id, f :: NothingOnlyEarlier(s.entryOf(r, id), inputs, s, id, f)))
  {
    KeptGoThroughExactly(r, inputs, s);
    if SaveAll(r, inputs, s).ok {
      forall id: string
        ensures s.same(s.entryOf(SaveAll(r, Deduped(inputs, s.keyOf), s).store, id),
                       s.entryOf(SaveAll(r, inputs, s).store, id))
                <==> forall f :: NothingOnlyEarlier(s.entryOf(r, id), inputs, s, id, f)
      {
        IdIsKeptExactly(r, inputs, s, id);
      }
    }
  }

  // Saves that stop.

  /** Saves that do not go through stop at the first broken entry, and leave what the saves before it do. */
  lemma {:induction false} StopsAtFirstBroken<R(!new), I(!new), E(!new), F(!new)>(
      r: R, inputs: seq<I>, s: Saving<R, I, E, F>, n: nat) returns (m: nat)
    requires Lawful(s) && n <= |inputs| && !SaveFirst(r, inputs, s, n).ok
    ensures m < n && s.broken(s.entryOf(r, s.keyOf(inputs[m])))
    ensures SaveFirst(r, inputs, s, m).ok && SaveFirst(r, inputs, s, n).store == SaveFirst(r, inputs, s, m).store
  {
    if SaveFirst(r, inputs, s, n - 1).ok {
      m := n - 1;
      BrokenFromTheStart(r, inputs, s, m, s.keyOf(inputs[m]));
    } else {
      m := StopsAtFirstBroken(r, inputs, s, n - 1);
    }
  }

  /** With distinct keys, an entry is changed by at most one of the inputs. */
  lemma {:induction false} OnlyOneApplies<R, I, E, F>(e: E, inputs: seq<I>, s: Saving<R, I, E, F>, n: nat, i: nat)
    requires i < n <= |inputs| && DistinctKeys(inputs, s.keyOf) && s.keyOf(inputs[i]) != ""
    ensures EntryAfter(e, inputs, s, s.keyOf(inputs[i]), n) == s.apply(e, inputs[i])
  {
    if i < n - 1 {
      OnlyOneApplies(e, inputs, s, n - 1, i);
    } else {
      NoneWith(inputs, s.keyOf, i, s.keyOf(inputs[i]));
      NoInputNoChange(e, inputs, s, s.keyOf(inputs[i]), i);
    }
  }

  /** With distinct keys, what the saves make of an entry shows exactly if it shows in one of them. */
  lemma ChangeShowsExactly<R, I, E, F, P>(
      e: E, inputs: seq<I>, s: Saving<R, I, E, F>, key: string, m: nat, part: E -> P)
    requires DistinctKeys(inputs, s.keyOf) && AllKeyed(inputs, s.keyOf) && m <= |inputs|
    ensures part(EntryAfter(e, inputs, s, key, m)) == part(e)
            <==> forall i :: 0 <= i < m && s.keyOf(inputs[i]) == key ==> part(s.apply(e, inputs[i])) == part(e)
  {
    if i :| 0 <= i < m && s.keyOf(inputs[i]) == key {
      OnlyOneApplies(e, inputs, s, m, i);
    } else {
      NoneWith(inputs, s.keyOf, m, key);
      NoInputNoChange(e, inputs, s, key, m);
    }
  }

  /** The input is saved before the saves come to a broken entry. */
  ghost predicate IsSavedBeforeStop<R, I, E, F>(r: R, inputs: seq<I>, s: Saving<R, I, E, F>, i: nat)
    requires i < |inputs|
  {
    forall j :: 0 <= j <= i ==> !s.broken(s.entryOf(r, s.keyOf(inputs[j])))
  }

  predicate LeavesPart<R, I, E, F, P(==)>(r: R, x: I, s: Saving<R, I, E, F>, part: E -> P) {
    var e := s.entryOf(r, s.keyOf(x));
    part(s.apply(e, x)) == part(e)
  }

  ghost predicate SameParts<R, I, E, F, P>(a: R, b: R, s: Saving<R, I, E, F>, part: E -> P) {
    forall id: string :: part(s.entryOf(a, id)) == part(s.entryOf(b, id))
  }

  lemma SameUpToExactly<R(!new), I(!new), E(!new), F(!new), P>(
      r: R, inputs: seq<I>, s: Saving<R, I, E, F>, m: nat, part: E -> P)
    requires Lawful(s) && DistinctKeys(inputs, s.keyOf) && AllKeyed(inputs, s.keyOf)
    requires m <= |inputs| && SaveFirst(r, inputs, s, m).ok
    ensures SameParts(SaveFirst(r, inputs, s, m).store, r, s, part)
            <==> forall i :: 0 <= i < m ==> LeavesPart(r, inputs[i], s, part)
  {
    var after := SaveFirst(r, inputs, s, m).store;
    forall id: string
      ensures part(s.entryOf(after, id)) == part(s.entryOf(r, id))
              <==> forall i :: 0 <= i < m && s.keyOf(inputs[i]) == id ==> LeavesPart(r, inputs[i], s, part)
    {
      SavedEntry(r, inputs, s, m, id);
      ChangeShowsExactly(s.entryOf(r, id), inputs, s, id, m, part);
    }
    if SameParts(after, r, s, part) {
      forall i | 0 <= i < m ensures LeavesPart(r, inputs[i], s, part) {
        var id := s.keyOf(inputs[i]);
        assert part(s.entryOf(after, id)) == part(s.entryOf(r, id));
      }
    }
  }

  /** Saves that stop leave a part of all entries alone exactly if those before the stop do, one by one. */
  lemma StoppedSavesLeaveExactly<R(!new), I(!new), E(!new), F(!new), P>(
      r: R, inputs: seq<I>, s: Saving<R, I, E, F>, part: E -> P)
    requires Lawful(s) && DistinctKeys(inputs, s.keyOf) && AllKeyed(inputs, s.keyOf)
    requires !SaveAll(r, inputs, s).ok
    ensures SameParts(SaveAll(r, inputs, s).store, r, s, part)
            <==> forall i :: 0 <= i < |inputs| && IsSavedBeforeStop(r, inputs, s, i) ==>
                   LeavesPart(r, inputs[i], s, part)
  {
    var m := StopsAtFirstBroken(r, inputs, s, |inputs|);
    SavesGoThroughExactly(r, inputs, s, m);
    SameUpToExactly(r, inputs, s, m, part);
    forall i | 0 <= i < |inputs| ensures i < m <==> IsSavedBeforeStop(r, inputs, s, i) {
    }
  }

  /** An input that alone says something of a field is missed when it is not the last. */
  lemma EarlierIsMissed<R(!new), I(!new), E(!new), F(!new)>(r: R, first: I, last: I, s: Saving<R, I, E, F>, f: F)
    requires Lawful(s) && s.keyOf(first) == s.keyOf(last) != "" && !s.broken(s.entryOf(r, s.keyOf(last)))
    requires s.says(first, f).Some? && s.says(last, f).None?
    ensures var (inputs, key) := ([first, last], s.keyOf(last));
            var (all, kept) := (SaveAll(r, inputs, s), SaveAll(r, Deduped(inputs, s.keyOf), s));
            && all.ok && s.known(s.entryOf(all.store, key), f) == s.says(first, f).value
            && kept.ok && s.known(s.entryOf(kept.store, key), f) == s.known(s.entryOf(r, key), f)
  {
    var (inputs, key) := ([first, last], s.keyOf(last));
    var (kept, e) := (Deduped(inputs, s.keyOf), s.entryOf(r, key));
    SavesGoThroughExactly(r, inputs, s, 2);
    KeptGoThroughExactly(r, inputs, s);
    SavedEntry(r, inputs, s, 2, key);
    SavedEntry(r, kept, s, |kept|, key);
    KnownAfter(e, inputs, s, key, 2, f);
    KnownAfter(e, kept, s, key, |kept|, f);
    KeptKeysAreDistinct(inputs, s.keyOf, 2);
    OnlyOneSays(kept, s, key, f, |kept|);
    DedupedHasLast(inputs, s.keyOf, key);
  }

  /** Of two inputs with different keys, the first is saved although the second fails. */
  lemma StopsAtSecond<R(!new), I(!new), E(!new), F(!new)>(r: R, first: I, failing: I, s: Saving<R, I, E, F>)
    requires Lawful(s) && s.keyOf(first) != s.keyOf(failing)
    requires !s.broken(s.entryOf(r, s.keyOf(first))) && s.broken(s.entryOf(r, s.keyOf(failing)))
    ensures Deduped([first, failing], s.keyOf) == [first, failing]
    ensures var saved := SaveAll(r, [first, failing], s);
            && !saved.ok
            && s.entryOf(saved.store, s.keyOf(first)) == s.apply(s.entryOf(r, s.keyOf(first)), first)
  {
    var inputs := [first, failing];
    DistinctAreKept(inputs, s.keyOf, 2);
    assert inputs[..2] == inputs;
    assert SaveFirst(r, inputs, s, 0) == Progress(r, true);
    BrokenFromTheStart(r, inputs, s, 1, s.keyOf(failing));
  }
}
