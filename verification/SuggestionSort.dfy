/** Sorting index suggestions in place: by severity, then by descending row estimate, and stably. */
module SuggestionSort {

  datatype Suggestion<R> = Suggestion(severity: string, estRows: int, rest: R)

  /** The rank of a severity; one that is not known ranks with the most severe. */
  function SeverityRank(severity: string): int {
    if severity == "warning" then 1 else if severity == "info" then 2 else 0
  }

  type Ranking = string -> int

  /** `x` must stand before `y`. */
  predicate Precedes<R>(x: Suggestion<R>, y: Suggestion<R>, rank: Ranking) {
    rank(x.severity) < rank(y.severity) || (rank(x.severity) == rank(y.severity) && x.estRows > y.estRows)
  }

  ghost predicate IsSorted<R>(s: seq<Suggestion<R>>, rank: Ranking) {
    forall i, j :: 0 <= i < j < |s| ==> !Precedes(s[j], s[i], rank)
  }

  /** The suggestions of one rank with one estimate, in order. */
  function Class<R>(s: seq<Suggestion<R>>, rank: Ranking, r: int, rows: int): seq<Suggestion<R>> {
    if s == [] then []
    else
      var last := s[|s| - 1];
      Class(s[..|s| - 1], rank, r, rows) + if rank(last.severity) == r && last.estRows == rows then [last] else []
  }

  /** A suggestion put into a sorted list from behind, past all that it precedes. */
  function Insert<R>(s: seq<Suggestion<R>>, x: Suggestion<R>, rank: Ranking): seq<Suggestion<R>> {
    if s == [] || !Precedes(x, s[|s| - 1], rank) then s + [x]
    else Insert(s[..|s| - 1], x, rank) + [s[|s| - 1]]
  }

  function Sorted<R>(s: seq<Suggestion<R>>, n: nat, rank: Ranking): seq<Suggestion<R>>
    requires n <= |s|
  {
    if n == 0 then [] else Insert(Sorted(s, n - 1, rank), s[n - 1], rank)
  }

  lemma {:induction false} InsertMembers<R>(s: seq<Suggestion<R>>, x: Suggestion<R>, rank: Ranking)
    ensures |Insert(s, x, rank)| == |s| + 1
    ensures multiset(Insert(s, x, rank)) == multiset(s) + multiset{x}
  {
    if s != [] && Precedes(x, s[|s| - 1], rank) {
      InsertMembers(s[..|s| - 1], x, rank);
      assert s == s[..|s| - 1] + [s[|s| - 1]];
    }
  }

  lemma PrefixMembers<R>(s: seq<Suggestion<R>>, n: nat)
    requires 0 < n <= |s|
    ensures multiset(s[..n]) == multiset(s[..n - 1]) + multiset{s[n - 1]}
  {
    assert s[..n] == s[..n - 1] + [s[n - 1]];
  }

  lemma {:induction false} SortedMembers<R>(s: seq<Suggestion<R>>, n: nat, rank: Ranking)
    requires n <= |s|
    ensures |Sorted(s, n, rank)| == n && multiset(Sorted(s, n, rank)) == multiset(s[..n])
  {
    if n > 0 {
      SortedMembers(s, n - 1, rank);
      InsertMembers(Sorted(s, n - 1, rank), s[n - 1], rank);
      PrefixMembers(s, n);
    }
  }

  /** Nothing behind the last element of a sorted list belongs before what it does not precede. */
  lemma {:induction false} InsertIsSorted<R>(s: seq<Suggestion<R>>, x: Suggestion<R>, rank: Ranking)
    requires IsSorted(s, rank)
    ensures IsSorted(Insert(s, x, rank), rank)
  {
    if s != [] && Precedes(x, s[|s| - 1], rank) {
      var (front, last) := (s[..|s| - 1], s[|s| - 1]);
      InsertIsSorted(front, x, rank);
      InsertMembers(front, x, rank);
      forall i | 0 <= i < |s| ensures !Precedes(last, Insert(front, x, rank)[i], rank) {
        assert Insert(front, x, rank)[i] in multiset(front) + multiset{x};
      }
    }
  }

  lemma {:induction false} SortedIsSorted<R>(s: seq<Suggestion<R>>, n: nat, rank: Ranking)
    requires n <= |s|
    ensures IsSorted(Sorted(s, n, rank), rank)
  {
    if n > 0 {
      SortedIsSorted(s, n - 1, rank);
      InsertIsSorted(Sorted(s, n - 1, rank), s[n - 1], rank);
    }
  }

  lemma ClassOfMore<R>(s: seq<Suggestion<R>>, x: Suggestion<R>, rank: Ranking, r: int, rows: int)
    ensures Class(s + [x], rank, r, rows)
         == Class(s, rank, r, rows) + if rank(x.severity) == r && x.estRows == rows then [x] else []
  {
    assert (s + [x])[..|s|] == s;
  }

  /** An insertion puts a suggestion behind all that are ranked and estimated alike. */
  lemma {:induction false} InsertIsStable<R>(s: seq<Suggestion<R>>, x: Suggestion<R>, rank: Ranking, r: int, rows: int)
    ensures Class(Insert(s, x, rank), rank, r, rows) == Class(s + [x], rank, r, rows)
  {
    ClassOfMore(s, x, rank, r, rows);
    if s != [] && Precedes(x, s[|s| - 1], rank) {
      var (front, last) := (s[..|s| - 1], s[|s| - 1]);
      InsertIsStable(front, x, rank, r, rows);
      ClassOfMore(front, x, rank, r, rows);
      ClassOfMore(Insert(front, x, rank), last, rank, r, rows);
    }
  }

  lemma ClassOfPrefix<R>(s: seq<Suggestion<R>>, n: nat, rank: Ranking, r: int, rows: int)
    requires 0 < n <= |s|
    ensures Class(s[..n], rank, r, rows)
         == Class(s[..n - 1], rank, r, rows)
            + if rank(s[n - 1].severity) == r && s[n - 1].estRows == rows then [s[n - 1]] else []
  {
    assert s[..n] == s[..n - 1] + [s[n - 1]];
    ClassOfMore(s[..n - 1], s[n - 1], rank, r, rows);
  }

  lemma {:induction false} SortedIsStable<R>(s: seq<Suggestion<R>>, n: nat, rank: Ranking, r: int, rows: int)
    requires n <= |s|
    ensures Class(Sorted(s, n, rank), rank, r, rows) == Class(s[..n], rank, r, rows)
  {
    if n > 0 {
      SortedIsStable(s, n - 1, rank, r, rows);
      InsertIsStable(Sorted(s, n - 1, rank), s[n - 1], rank, r, rows);
      ClassOfMore(Sorted(s, n - 1, rank), s[n - 1], rank, r, rows);
      ClassOfPrefix(s, n, rank, r, rows);
    }
  }

  /** The result is sorted, a permutation of the input, and stable. */
  lemma SortingSpec<R>(s: seq<Suggestion<R>>, rank: Ranking)
    ensures var sorted := Sorted(s, |s|, rank);
            IsSorted(sorted, rank) && multiset(sorted) == multiset(s)
            && forall r, rows :: Class(sorted, rank, r, rows) == Class(s, rank, r, rows)
  {
    assert s[..|s|] == s;
    SortedIsSorted(s, |s|, rank);
    SortedMembers(s, |s|, rank);
    forall r, rows ensures Class(Sorted(s, |s|, rank), rank, r, rows) == Class(s, rank, r, rows) {
      SortedIsStable(s, |s|, rank, r, rows);
    }
  }

  /** The array while `x` sinks: `x` has reached `j`, and all it has passed stand one place higher. */
  function Sinking<R>(front: seq<Suggestion<R>>, x: Suggestion<R>, back: seq<Suggestion<R>>, j: nat): seq<Suggestion<R>>
    requires j <= |front|
  {
    front[..j] + [x] + front[j..] + back
  }

  lemma SinkStep<R>(front: seq<Suggestion<R>>, x: Suggestion<R>, back: seq<Suggestion<R>>, j: nat)
    requires 0 < j <= |front|
    ensures var s := Sinking(front, x, back, j);
            s[j] == x && s[j - 1] == front[j - 1] && s[j := s[j - 1]][j - 1 := x] == Sinking(front, x, back, j - 1)
  {
  }

  lemma InsertStep<R>(front: seq<Suggestion<R>>, x: Suggestion<R>, rank: Ranking, j: nat)
    requires 0 < j <= |front| && Precedes(x, front[j - 1], rank)
    requires Insert(front, x, rank) == Insert(front[..j], x, rank) + front[j..]
    ensures Insert(front, x, rank) == Insert(front[..j - 1], x, rank) + front[j - 1..]
  {
    assert front[..j][..j - 1] == front[..j - 1];
    assert [front[j - 1]] + front[j..] == front[j - 1..];
  }

  lemma SinkEnd<R>(front: seq<Suggestion<R>>, x: Suggestion<R>, back: seq<Suggestion<R>>, rank: Ranking, j: nat)
    requires j <= |front| && (j > 0 ==> !Precedes(x, front[j - 1], rank))
    requires Insert(front, x, rank) == Insert(front[..j], x, rank) + front[j..]
    ensures Sinking(front, x, back, j) == Insert(front, x, rank) + back
  {
  }

  /** One pass of the inner loop: the element at `i` sinks to its place by swaps. */
  method SinkInto<R>(a: array<Suggestion<R>>, i: nat, rank: Ranking)
    requires i < a.Length
    modifies a
    ensures a[..] == Insert(old(a[..i]), old(a[i]), rank) + old(a[i + 1..])
  {
    ghost var (front, x, back) := (a[..i], a[i], a[i + 1..]);
    var j := i;
    assert a[..] == Sinking(front, x, back, i);
    assert front[..i] == front && front[i..] == [] && Insert(front, x, rank) + [] == Insert(front, x, rank);
    while j > 0
      invariant 0 <= j <= i
      invariant a[..] == Sinking(front, x, back, j)
      invariant Insert(front, x, rank) == Insert(front[..j], x, rank) + front[j..]
    {
      SinkStep(front, x, back, j);
      assert a[j] == a[..][j] && a[j - 1] == a[..][j - 1];
      if !Precedes(a[j], a[j - 1], rank) {
        break;
      }
      InsertStep(front, x, rank, j);
      a[j], a[j - 1] := a[j - 1], a[j];
      j := j - 1;
    }
    SinkEnd(front, x, back, rank, j);
  }

  method SortInPlace<R>(a: array<Suggestion<R>>, rank: Ranking)
    modifies a
    ensures a[..] == Sorted(old(a[..]), a.Length, rank)
  {
    ghost var s := a[..];
    var i := 1;
    while i < a.Length
      invariant 1 <= i && (i == 1 || i <= a.Length)
      invariant i <= a.Length ==> a[..i] == Sorted(s, i, rank) && a[i..] == s[i..]
    {
      assert a[i] == a[i..][0] == s[i] && a[i + 1..] == a[i..][1..];
      SinkInto(a, i, rank);
      SortedMembers(s, i + 1, rank);
      assert a[..i + 1] == a[..][..i + 1] && a[i + 1..] == a[..][i + 1..];
      i := i + 1;
    }
    if a.Length == 0 {
      assert a[..] == [];
    } else {
      assert a[..] == a[..a.Length];
    }
  }

  /** What is most severe comes first, then warnings, then information; and of one kind, the larger estimate. */
  ghost predicate IsBySeverity<R>(s: seq<Suggestion<R>>) {
    forall i, j :: 0 <= i < j < |s| ==>
      (s[i].severity == "info" ==> s[j].severity == "info")
      && (s[i].severity == "warning" ==> s[j].severity == "warning" || s[j].severity == "info")
      && (AreOneKind(s[i].severity, s[j].severity) ==> s[i].estRows >= s[j].estRows)
  }

  predicate AreOneKind(a: string, b: string) {
    (a == "info" <==> b == "info") && (a == "warning" <==> b == "warning")
  }

  lemma InOrderExactly<R>(x: Suggestion<R>, y: Suggestion<R>)
    ensures !Precedes(y, x, SeverityRank)
       <==> (x.severity == "info" ==> y.severity == "info")
            && (x.severity == "warning" ==> y.severity == "warning" || y.severity == "info")
            && (AreOneKind(x.severity, y.severity) ==> x.estRows >= y.estRows)
  {
    assert "info"[0] != "warning"[0];
  }

  /** To be sorted by rank is just that. */
  lemma SortedMeans<R>(s: seq<Suggestion<R>>)
    ensures IsSorted(s, SeverityRank) <==> IsBySeverity(s)
  {
    forall i, j | 0 <= i < j < |s|
      ensures !Precedes(s[j], s[i], SeverityRank)
         <==> (s[i].severity == "info" ==> s[j].severity == "info")
              && (s[i].severity == "warning" ==> s[j].severity == "warning" || s[j].severity == "info")
              && (AreOneKind(s[i].severity, s[j].severity) ==> s[i].estRows >= s[j].estRows)
    {
      InOrderExactly(s[i], s[j]);
    }
  }

  method SortExplainSuggestions<R>(a: array<Suggestion<R>>)
    modifies a
    ensures IsBySeverity(a[..]) && multiset(a[..]) == multiset(old(a[..]))
    ensures forall r, rows :: Class(a[..], SeverityRank, r, rows) == Class(old(a[..]), SeverityRank, r, rows)
  {
    SortingSpec(a[..], SeverityRank);
    SortInPlace(a, SeverityRank);
    SortedMeans(a[..]);
  }
}
