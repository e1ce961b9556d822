/** Lists of distinct strings arranged by another list: the members it names come first, in its order. */
module Arrangements {

  ghost predicate Distinct<T(!new)>(s: seq<T>) {
    forall i, j :: 0 <= i < j < |s| ==> s[i] != s[j]
  }

  function Elements(s: seq<string>): set<string> {
    set x | x in s
  }

  /** The first `n` strings without repetitions. */
  function UniqueFirst(s: seq<string>, n: nat): seq<string>
    requires n <= |s|
  {
    if n == 0 then []
    else
      var before := UniqueFirst(s, n - 1);
      if s[n - 1] in before then before else before + [s[n - 1]]
  }

  function Unique(s: seq<string>): seq<string> {
    UniqueFirst(s, |s|)
  }

  function Within(s: seq<string>, keep: set<string>): seq<string> {
    if s == [] then []
    else Within(s[..|s| - 1], keep) + if s[|s| - 1] in keep then [s[|s| - 1]] else []
  }

  function Outside(s: seq<string>, drop: set<string>): seq<string> {
    if s == [] then []
    else Outside(s[..|s| - 1], drop) + if s[|s| - 1] in drop then [] else [s[|s| - 1]]
  }

  /** `items` in the order of `order`, and what `order` does not name behind, in the old order. */
  function Arrange(order: seq<string>, items: seq<string>): seq<string> {
    Within(Unique(order), Elements(items)) + Outside(items, Elements(order))
  }

  lemma {:induction false} UniqueFirstSpec(s: seq<string>, n: nat)
    requires n <= |s|
    ensures Distinct(UniqueFirst(s, n))
    ensures forall x :: x in UniqueFirst(s, n) <==> exists i :: 0 <= i < n && s[i] == x
  {
    if n > 0 {
      UniqueFirstSpec(s, n - 1);
      forall x ensures x in UniqueFirst(s, n) <==> exists i :: 0 <= i < n && s[i] == x {
        if x == s[n - 1] {
          assert s[n - 1] in UniqueFirst(s, n);
        }
      }
    }
  }

  lemma UniqueSpec(s: seq<string>)
    ensures Distinct(Unique(s)) && Elements(Unique(s)) == Elements(s)
  {
    UniqueFirstSpec(s, |s|);
    forall x ensures x in Unique(s) <==> x in s {
    }
  }

  lemma {:induction false} UniqueOfDistinct(s: seq<string>, n: nat)
    requires Distinct(s) && n <= |s|
    ensures UniqueFirst(s, n) == s[..n]
  {
    if n > 0 {
      UniqueOfDistinct(s, n - 1);
    }
  }

  lemma {:induction false} WithinSpec(s: seq<string>, keep: set<string>)
    ensures forall x :: x in Within(s, keep) <==> x in s && x in keep
    ensures Distinct(s) ==> Distinct(Within(s, keep))
  {
    if s != [] {
      WithinSpec(s[..|s| - 1], keep);
    }
  }

  lemma {:induction false} OutsideSpec(s: seq<string>, drop: set<string>)
    ensures forall x :: x in Outside(s, drop) <==> x in s && x !in drop
    ensures Distinct(s) ==> Distinct(Outside(s, drop))
  {
    if s != [] {
      OutsideSpec(s[..|s| - 1], drop);
    }
  }

  lemma {:induction false} WithinJoin(s: seq<string>, t: seq<string>, keep: set<string>)
    ensures Within(s + t, keep) == Within(s, keep) + Within(t, keep)
  {
    if t == [] {
      assert s + t == s;
    } else {
      assert (s + t)[..|s + t| - 1] == s + t[..|t| - 1];
      WithinJoin(s, t[..|t| - 1], keep);
    }
  }

  lemma {:induction false} OutsideJoin(s: seq<string>, t: seq<string>, drop: set<string>)
    ensures Outside(s + t, drop) == Outside(s, drop) + Outside(t, drop)
  {
    if t == [] {
      assert s + t == s;
    } else {
      assert (s + t)[..|s + t| - 1] == s + t[..|t| - 1];
      OutsideJoin(s, t[..|t| - 1], drop);
    }
  }

  lemma {:induction false} WithinAll(s: seq<string>, keep: set<string>)
    requires forall x :: x in s ==> x in keep
    ensures Within(s, keep) == s
  {
    if s != [] {
      WithinAll(s[..|s| - 1], keep);
    }
  }

  lemma {:induction false} WithinNone(s: seq<string>, keep: set<string>)
    requires forall x :: x in s ==> x !in keep
    ensures Within(s, keep) == []
  {
    if s != [] {
      WithinNone(s[..|s| - 1], keep);
    }
  }

  lemma {:induction false} OutsideAll(s: seq<string>, drop: set<string>)
    requires forall x :: x in s ==> x !in drop
    ensures Outside(s, drop) == s
  {
    if s != [] {
      OutsideAll(s[..|s| - 1], drop);
    }
  }

  lemma {:induction false} OutsideNone(s: seq<string>, drop: set<string>)
    requires forall x :: x in s ==> x in drop
    ensures Outside(s, drop) == []
  {
    if s != [] {
      OutsideNone(s[..|s| - 1], drop);
    }
  }

  lemma WithinOne(x: string, keep: set<string>)
    ensures Within([x], keep) == if x in keep then [x] else []
  {
    assert [x][..0] == [];
  }

  lemma {:induction false} WithinTwice(s: seq<string>, big: set<string>, small: set<string>)
    requires small <= big
    ensures Within(Within(s, big), small) == Within(s, small)
  {
    if s != [] {
      var (before, last) := (s[..|s| - 1], s[|s| - 1]);
      WithinTwice(before, big, small);
      if last in big {
        WithinJoin(Within(before, big), [last], small);
        WithinOne(last, small);
      } else {
        assert Within(before, big) + [] == Within(before, big);
      }
    }
  }

  lemma DistinctJoin(s: seq<string>, t: seq<string>)
    requires Distinct(s) && Distinct(t) && forall x :: x in s ==> x !in t
    ensures Distinct(s + t)
  {
    forall i, j | 0 <= i < j < |s + t| ensures (s + t)[i] != (s + t)[j] {
      if i < |s| <= j {
        assert s[i] in s && t[j - |s|] in t;
      }
    }
  }

  lemma NamedSpec(order: seq<string>, items: seq<string>)
    ensures var named := Within(Unique(order), Elements(items));
            Distinct(named) && forall x :: x in named <==> x in order && x in items
  {
    UniqueSpec(order);
    WithinSpec(Unique(order), Elements(items));
    forall x ensures x in Unique(order) <==> x in order {
      assert x in Elements(Unique(order)) <==> x in Elements(order);
    }
  }

  /** An arrangement is a rearrangement: distinct again, with the same members. */
  lemma ArrangeSpec(order: seq<string>, items: seq<string>)
    requires Distinct(items)
    ensures Distinct(Arrange(order, items)) && Elements(Arrange(order, items)) == Elements(items)
    ensures forall x :: x in Arrange(order, items) <==> x in items
  {
    NamedSpec(order, items);
    OutsideSpec(items, Elements(order));
    DistinctJoin(Within(Unique(order), Elements(items)), Outside(items, Elements(order)));
  }

  lemma ArrangeSame(r: seq<string>, items: seq<string>)
    requires Distinct(r) && forall x :: x in r <==> x in items
    ensures Arrange(r, items) == r
  {
    UniqueOfDistinct(r, |r|);
    assert r[..|r|] == r;
    WithinAll(r, Elements(items));
    OutsideNone(items, Elements(r));
  }

  /** Arranging by an arrangement of the same members changes nothing. */
  lemma ArrangeByResult(order: seq<string>, items: seq<string>)
    requires Distinct(items)
    ensures Arrange(Arrange(order, items), items) == Arrange(order, items)
  {
    ArrangeSpec(order, items);
    ArrangeSame(Arrange(order, items), items);
  }

  lemma OutsideNamed(order: seq<string>, items: seq<string>)
    ensures Outside(Arrange(order, items), Elements(order)) == Outside(items, Elements(order))
  {
    var (named, others) := (Within(Unique(order), Elements(items)), Outside(items, Elements(order)));
    NamedSpec(order, items);
    OutsideSpec(items, Elements(order));
    OutsideJoin(named, others, Elements(order));
    OutsideNone(named, Elements(order));
    OutsideAll(others, Elements(order));
  }

  /** Arranging twice by the same order is arranging once. */
  lemma ArrangeTwice(order: seq<string>, items: seq<string>)
    requires Distinct(items)
    ensures Arrange(order, Arrange(order, items)) == Arrange(order, items)
  {
    ArrangeSpec(order, items);
    OutsideNamed(order, items);
  }

  /** The members of the first part of a list are arranged among themselves as if there were no second part. */
  lemma ArrangeFirstPart(order: seq<string>, first: seq<string>, second: seq<string>)
    requires forall x :: x in first ==> x !in second
    ensures Within(Arrange(order, first + second), Elements(first)) == Arrange(order, first)
  {
    var (all, keep, drop) := (Elements(first + second), Elements(first), Elements(order));
    WithinJoin(Within(Unique(order), all), Outside(first + second, drop), keep);
    forall x | x in keep ensures x in all {
      assert x in first + second;
    }
    WithinTwice(Unique(order), all, keep);
    OutsideJoin(first, second, drop);
    WithinJoin(Outside(first, drop), Outside(second, drop), keep);
    OutsideSpec(first, drop);
    OutsideSpec(second, drop);
    WithinAll(Outside(first, drop), keep);
    WithinNone(Outside(second, drop), keep);
  }
}
