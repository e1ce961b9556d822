/** Of several inputs with one key, the last is kept. */
module ImportDedupe {
  import opened Text

  /** An input is kept when it has no key, or no later input has the same one. */
  predicate IsKept<T>(inputs: seq<T>, keyOf: T -> string, i: nat)
    requires i < |inputs|
  {
    keyOf(inputs[i]) == "" || forall j :: i < j < |inputs| ==> keyOf(inputs[j]) != keyOf(inputs[i])
  }

  /** The kept ones among the first `n` inputs. */
  function KeptFirst<T>(inputs: seq<T>, keyOf: T -> string, n: nat): seq<T>
    requires n <= |inputs|
  {
    if n == 0 then []
    else KeptFirst(inputs, keyOf, n - 1) + if IsKept(inputs, keyOf, n - 1) then [inputs[n - 1]] else []
  }

  function Deduped<T>(inputs: seq<T>, keyOf: T -> string): seq<T> {
    KeptFirst(inputs, keyOf, |inputs|)
  }

  /** The index of the last input with a key, among the first `n`. */
  ghost predicate IsLastIndex<T>(inputs: seq<T>, keyOf: T -> string, n: nat, key: string, i: nat) {
    i < n <= |inputs| && keyOf(inputs[i]) == key && forall j :: i < j < n ==> keyOf(inputs[j]) != key
  }

  ghost predicate IsLastIndexMap<T>(last: map<string, nat>, inputs: seq<T>, keyOf: T -> string, n: nat)
    requires n <= |inputs|
  {
    (forall key :: key in last ==> key != "" && IsLastIndex(inputs, keyOf, n, key, last[key]))
    && forall i :: 0 <= i < n ==> keyOf(inputs[i]) != "" ==> keyOf(inputs[i]) in last
  }

  method LastIndexes<T>(inputs: seq<T>, keyOf: T -> string) returns (last: map<string, nat>)
    ensures IsLastIndexMap(last, inputs, keyOf, |inputs|)
  {
    last := map[];
    for i := 0 to |inputs|
      invariant IsLastIndexMap(last, inputs, keyOf, i)
    {
      var id := keyOf(inputs[i]);
      if id == "" {
        continue;
      }
      last := last[id := i];
    }
  }

  method DedupeImportedSavedConnectionInputs<T>(inputs: seq<T>, keyOf: T -> string) returns (result: seq<T>)
    ensures result == Deduped(inputs, keyOf)
  {
    if |inputs| < 2 {
      assert inputs != [] ==> KeptFirst(inputs, keyOf, 1) == KeptFirst(inputs, keyOf, 0) + inputs;
      return inputs;
    }
    var last := LastIndexes(inputs, keyOf);
    result := [];
    for i := 0 to |inputs|
      invariant result == KeptFirst(inputs, keyOf, i)
    {
      var id := keyOf(inputs[i]);
      if id != "" {
        assert IsLastIndex(inputs, keyOf, |inputs|, id, last[id]);
        if last[id] != i {
          assert keyOf(inputs[last[id]]) == id;
          continue;
        }
      }
      result := result + [inputs[i]];
    }
  }

  // What is kept.

  lemma {:induction false} KeptAreInputs<T>(inputs: seq<T>, keyOf: T -> string, n: nat, x: T)
    requires n <= |inputs| && x in KeptFirst(inputs, keyOf, n)
    ensures exists i :: 0 <= i < n && inputs[i] == x && IsKept(inputs, keyOf, i)
  {
    if x in KeptFirst(inputs, keyOf, n - 1) {
      KeptAreInputs(inputs, keyOf, n - 1, x);
      var i :| 0 <= i < n - 1 && inputs[i] == x && IsKept(inputs, keyOf, i);
    }
  }

  ghost predicate DistinctKeys<T>(inputs: seq<T>, keyOf: T -> string) {
    forall i, j :: 0 <= i < j < |inputs| ==> keyOf(inputs[i]) == "" || keyOf(inputs[i]) != keyOf(inputs[j])
  }

  lemma {:induction false} KeptKeysAreDistinct<T>(inputs: seq<T>, keyOf: T -> string, n: nat)
    requires n <= |inputs|
    ensures DistinctKeys(KeptFirst(inputs, keyOf, n), keyOf)
  {
    if n > 0 {
      KeptKeysAreDistinct(inputs, keyOf, n - 1);
      var before := KeptFirst(inputs, keyOf, n - 1);
      forall i | 0 <= i < |before| ensures keyOf(before[i]) == "" || keyOf(before[i]) != keyOf(inputs[n - 1]) {
        KeptAreInputs(inputs, keyOf, n - 1, before[i]);
      }
    }
  }

  lemma {:induction false} DistinctAreKept<T>(inputs: seq<T>, keyOf: T -> string, n: nat)
    requires DistinctKeys(inputs, keyOf) && n <= |inputs|
    ensures KeptFirst(inputs, keyOf, n) == inputs[..n]
  {
    if n > 0 {
      DistinctAreKept(inputs, keyOf, n - 1);
      assert IsKept(inputs, keyOf, n - 1);
    }
  }

  /** Deduping twice is deduping once. */
  lemma DedupedTwice<T>(inputs: seq<T>, keyOf: T -> string)
    ensures Deduped(Deduped(inputs, keyOf), keyOf) == Deduped(inputs, keyOf)
  {
    KeptKeysAreDistinct(inputs, keyOf, |inputs|);
    var kept := Deduped(inputs, keyOf);
    DistinctAreKept(kept, keyOf, |kept|);
  }

  /** All inputs are kept exactly when no two have the same key. */
  lemma KeptWholeExactly<T>(inputs: seq<T>, keyOf: T -> string)
    ensures Deduped(inputs, keyOf) == inputs <==> DistinctKeys(inputs, keyOf)
  {
    KeptKeysAreDistinct(inputs, keyOf, |inputs|);
    if DistinctKeys(inputs, keyOf) {
      DistinctAreKept(inputs, keyOf, |inputs|);
      assert inputs[..|inputs|] == inputs;
    }
  }

  function Unkeyed<T>(inputs: seq<T>, keyOf: T -> string, n: nat): seq<T>
    requires n <= |inputs|
  {
    if n == 0 then [] else Unkeyed(inputs, keyOf, n - 1) + if keyOf(inputs[n - 1]) == "" then [inputs[n - 1]] else []
  }

  lemma {:induction false} UnkeyedFront<T>(inputs: seq<T>, more: seq<T>, keyOf: T -> string, n: nat)
    requires n <= |inputs|
    ensures Unkeyed(inputs + more, keyOf, n) == Unkeyed(inputs, keyOf, n)
  {
    if n > 0 {
      UnkeyedFront(inputs, more, keyOf, n - 1);
      assert (inputs + more)[n - 1] == inputs[n - 1];
    }
  }

  lemma {:induction false} UnkeyedMembers<T>(inputs: seq<T>, keyOf: T -> string, n: nat, x: T)
    requires n <= |inputs|
    ensures x in Unkeyed(inputs, keyOf, n) <==> keyOf(x) == "" && exists i :: 0 <= i < n && inputs[i] == x
  {
    if n > 0 {
      UnkeyedMembers(inputs, keyOf, n - 1, x);
    }
  }

  /** All inputs without a key stay, in order. */
  lemma {:induction false} UnkeyedStay<T>(inputs: seq<T>, keyOf: T -> string, n: nat)
    requires n <= |inputs|
    ensures var kept := KeptFirst(inputs, keyOf, n); Unkeyed(kept, keyOf, |kept|) == Unkeyed(inputs, keyOf, n)
  {
    if n > 0 {
      UnkeyedStay(inputs, keyOf, n - 1);
      var before := KeptFirst(inputs, keyOf, n - 1);
      if IsKept(inputs, keyOf, n - 1) {
        UnkeyedFront(before, [inputs[n - 1]], keyOf, |before|);
      } else {
        assert KeptFirst(inputs, keyOf, n) == before;
      }
    }
  }

  // The last of each key.

  /** The last of the first `n` inputs with a key. */
  function LastWith<T>(inputs: seq<T>, keyOf: T -> string, n: nat, key: string): Option<T>
    requires n <= |inputs|
  {
    if n == 0 then None
    else if keyOf(inputs[n - 1]) == key then Some(inputs[n - 1])
    else LastWith(inputs, keyOf, n - 1, key)
  }

  lemma {:induction false} LastWithFront<T>(inputs: seq<T>, more: seq<T>, keyOf: T -> string, n: nat, key: string)
    requires n <= |inputs|
    ensures LastWith(inputs + more, keyOf, n, key) == LastWith(inputs, keyOf, n, key)
  {
    if n > 0 {
      LastWithFront(inputs, more, keyOf, n - 1, key);
      assert (inputs + more)[n - 1] == inputs[n - 1];
    }
  }

  lemma {:induction false} NoneWith<T>(inputs: seq<T>, keyOf: T -> string, n: nat, key: string)
    requires n <= |inputs|
    ensures LastWith(inputs, keyOf, n, key).None? <==> forall i :: 0 <= i < n ==> keyOf(inputs[i]) != key
  {
    if n > 0 {
      NoneWith(inputs, keyOf, n - 1, key);
    }
  }

  /** From the last input with a key on, the kept inputs have that one as their last; before, they have none. */
  lemma {:induction false} KeptHaveLast<T>(inputs: seq<T>, keyOf: T -> string, n: nat, key: string, p: nat)
    requires key != "" && n <= |inputs| && IsLastIndex(inputs, keyOf, |inputs|, key, p)
    ensures var kept := KeptFirst(inputs, keyOf, n);
            LastWith(kept, keyOf, |kept|, key) == if p < n then Some(inputs[p]) else None
  {
    if n > 0 {
      KeptHaveLast(inputs, keyOf, n - 1, key, p);
      var before := KeptFirst(inputs, keyOf, n - 1);
      if IsKept(inputs, keyOf, n - 1) {
        LastWithFront(before, [inputs[n - 1]], keyOf, |before|, key);
        assert n - 1 < p ==> keyOf(inputs[n - 1]) != key;
      } else {
        assert KeptFirst(inputs, keyOf, n) == before;
        assert IsKept(inputs, keyOf, p);
      }
    }
  }

  lemma {:induction false} FindLastIndex<T>(inputs: seq<T>, keyOf: T -> string, n: nat, key: string) returns (p: nat)
    requires n <= |inputs| && LastWith(inputs, keyOf, n, key).Some?
    ensures IsLastIndex(inputs, keyOf, n, key, p) && LastWith(inputs, keyOf, n, key) == Some(inputs[p])
  {
    if keyOf(inputs[n - 1]) == key {
      p := n - 1;
    } else {
      p := FindLastIndex(inputs, keyOf, n - 1, key);
    }
  }

  /** For each key, the last kept input is the last input. */
  lemma DedupedHasLast<T>(inputs: seq<T>, keyOf: T -> string, key: string)
    requires key != ""
    ensures var kept := Deduped(inputs, keyOf);
            LastWith(kept, keyOf, |kept|, key) == LastWith(inputs, keyOf, |inputs|, key)
  {
    var kept := Deduped(inputs, keyOf);
    if LastWith(inputs, keyOf, |inputs|, key).Some? {
      var p := FindLastIndex(inputs, keyOf, |inputs|, key);
      KeptHaveLast(inputs, keyOf, |inputs|, key, p);
    } else {
      NoneWith(inputs, keyOf, |inputs|, key);
      forall i | 0 <= i < |kept| ensures keyOf(kept[i]) != key {
        KeptAreInputs(inputs, keyOf, |inputs|, kept[i]);
      }
      NoneWith(kept, keyOf, |kept|, key);
    }
  }
}
