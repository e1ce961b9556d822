/** Permutations of lists: moving one element, and lists whose elements have distinct keys. */
module Permutations {

  /** An element taken out at one place and put in at another, of the list without it. */
  function Moved<T>(s: seq<T>, from: nat, to: nat): seq<T>
    requires from < |s| && to < |s|
  {
    var others := s[..from] + s[from + 1..];
    others[..to] + [s[from]] + others[to..]
  }

  /** A permutation that puts one element at a place and keeps the order of all others. */
  ghost predicate IsMoved<T>(s: seq<T>, moved: seq<T>, from: nat, to: nat)
    requires from < |s| && to < |s|
  {
    multiset(moved) == multiset(s)
    && |moved| == |s| && moved[to] == s[from] && moved[..to] + moved[to + 1..] == s[..from] + s[from + 1..]
  }

  lemma MovedSpec<T>(s: seq<T>, from: nat, to: nat)
    requires from < |s| && to < |s|
    ensures var moved := Moved(s, from, to);
            |moved| == |s| && moved[to] == s[from] && moved[..to] + moved[to + 1..] == s[..from] + s[from + 1..]
  {
    var others := s[..from] + s[from + 1..];
    var moved := Moved(s, from, to);
    assert moved[..to] == others[..to] && moved[to + 1..] == others[to..];
    assert others == others[..to] + others[to..];
  }

  lemma CutOne<T>(s: seq<T>, k: nat)
    requires k < |s|
    ensures multiset(s) == multiset(s[..k] + s[k + 1..]) + multiset{s[k]}
  {
    assert s == s[..k] + [s[k]] + s[k + 1..];
  }

  lemma MovedIsMoved<T>(s: seq<T>, from: nat, to: nat)
    requires from < |s| && to < |s|
    ensures IsMoved(s, Moved(s, from, to), from, to)
  {
    MovedSpec(s, from, to);
    CutOne(s, from);
    CutOne(Moved(s, from, to), to);
  }

  lemma MovedInPlace<T>(s: seq<T>, k: nat)
    requires k < |s|
    ensures Moved(s, k, k) == s
  {
  }

  ghost predicate DistinctBy<T>(s: seq<T>, keyOf: T -> string) {
    forall i, j :: 0 <= i < j < |s| ==> keyOf(s[i]) != keyOf(s[j])
  }

  lemma OnlyOnce<T>(s: seq<T>, keyOf: T -> string, p: nat)
    requires DistinctBy(s, keyOf) && p < |s|
    ensures multiset(s)[s[p]] == 1
  {
    CutOne(s, p);
    var others := s[..p] + s[p + 1..];
    forall k | 0 <= k < |others| ensures keyOf(others[k]) != keyOf(s[p]) {
    }
    assert s[p] !in multiset(others);
  }

  lemma Twice<T>(s: seq<T>, i: nat, j: nat)
    requires i < j < |s| && s[i] == s[j]
    ensures multiset(s)[s[i]] >= 2
  {
    CutOne(s, j);
    assert (s[..j] + s[j + 1..])[i] == s[i];
    assert s[i] in multiset(s[..j] + s[j + 1..]);
  }

  /** A permutation of a list with distinct keys has distinct keys. */
  lemma PermutedKeysAreDistinct<T>(s: seq<T>, permuted: seq<T>, keyOf: T -> string)
    requires DistinctBy(s, keyOf) && multiset(permuted) == multiset(s)
    ensures DistinctBy(permuted, keyOf)
  {
    forall i, j | 0 <= i < j < |permuted| ensures keyOf(permuted[i]) != keyOf(permuted[j]) {
      if keyOf(permuted[i]) == keyOf(permuted[j]) {
        assert permuted[i] in multiset(s) && permuted[j] in multiset(s);
        var p :| 0 <= p < |s| && s[p] == permuted[i];
        var q :| 0 <= q < |s| && s[q] == permuted[j];
        OnlyOnce(s, keyOf, p);
        Twice(permuted, i, j);
      }
    }
  }
}
