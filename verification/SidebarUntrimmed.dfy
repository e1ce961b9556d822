/**
 Moving a root token that is not trimmed: the new order trims it, the tag list does not, and the two may then
 disagree. Here is exactly when they do.
 */
module SidebarUntrimmed {
  import opened Text
  import opened Arrangements
  import opened SidebarOrder
  import opened SidebarActions
  import opened SidebarTags
  import opened SidebarReorder

  // Lists with one token inserted.

  lemma {:induction false} UniqueAppend(u: seq<string>, v: seq<string>)
    ensures Unique(u + v) == Unique(u) + Outside(Unique(v), Elements(u))
  {
    if v == [] {
      assert u + v == u;
      assert Unique(u) + [] == Unique(u);
    } else {
      var (w, x) := (v[..|v| - 1], v[|v| - 1]);
      UniqueAppend(u, w);
      assert u + v == (u + w) + [x] && v == w + [x];
      UniqueMore(u + w, x);
      UniqueMore(w, x);
      UniqueAppendStep(u, w, x);
    }
  }

  lemma MembersOfUnique(s: seq<string>, x: string)
    ensures x in Unique(s) <==> x in s
  {
    UniqueSpec(s);
    assert x in Elements(Unique(s)) <==> x in Elements(s);
  }

  lemma UniqueAppendStep(u: seq<string>, w: seq<string>, x: string)
    ensures Pushed(Unique(u) + Outside(Unique(w), Elements(u)), x)
         == Unique(u) + Outside(Pushed(Unique(w), x), Elements(u))
  {
    MembersOfUnique(u, x);
    OutsideSpec(Unique(w), Elements(u));
    OutsideMore(Unique(w), x, Elements(u));
    PushedBehind(Unique(u), Outside(Unique(w), Elements(u)), x);
  }

  lemma UniqueSame(s: seq<string>)
    requires Distinct(s)
    ensures Unique(s) == s
  {
    UniqueOfDistinct(s, |s|);
    assert s[..|s|] == s;
  }

  lemma DistinctParts(front: seq<string>, back: seq<string>)
    requires Distinct(front + back)
    ensures Distinct(front) && Distinct(back)
    ensures forall y :: y in front ==> y !in back
  {
    var s := front + back;
    forall i, j | 0 <= i < |front| && 0 <= j < |back| ensures front[i] != back[j] {
      assert s[i] == front[i] && s[|front| + j] == back[j];
    }
    forall i, j | 0 <= i < j < |back| ensures back[i] != back[j] {
      assert s[|front| + i] == back[i] && s[|front| + j] == back[j];
    }
    assert forall i :: 0 <= i < |front| ==> s[i] == front[i];
  }

  lemma UniqueOneBefore(x: string, back: seq<string>)
    requires Distinct(back)
    ensures Unique([x] + back) == [x] + Outside(back, {x})
  {
    UniqueAppend([x], back);
    UniqueSame([x]);
    UniqueSame(back);
    assert Elements([x]) == {x};
  }

  /** A token inserted into a list without repetitions stands there, unless it has come up before. */
  lemma UniqueInserted(front: seq<string>, x: string, back: seq<string>)
    requires Distinct(front + back)
    ensures Unique(front + ([x] + back)) == if x in front then front + back else front + ([x] + Outside(back, {x}))
  {
    DistinctParts(front, back);
    UniqueSame(front);
    UniqueOneBefore(x, back);
    UniqueAppend(front, [x] + back);
    InsertedBehind(front, x, back);
  }

  lemma InsertedBehind(front: seq<string>, x: string, back: seq<string>)
    requires forall y :: y in front ==> y !in back
    ensures front + Outside([x] + Outside(back, {x}), Elements(front))
         == if x in front then front + back else front + ([x] + Outside(back, {x}))
  {
    OutsideSpec(back, {x});
    OutsideJoin([x], Outside(back, {x}), Elements(front));
    OutsideAll(Outside(back, {x}), Elements(front));
    if x in front {
      OutsideNone([x], Elements(front));
      OutsideAll(back, {x});
      assert [] + back == back;
    } else {
      OutsideAll([x], Elements(front));
    }
  }

  /**
   Moving `x` from `q` to the front of a stretch changes what is seen of the members of `keep` unless none is
   passed.
   */
  lemma MovedForward(front: seq<string>, passed: seq<string>, x: string, rest: seq<string>, keep: set<string>)
    requires x in keep && x !in passed
    ensures Within(front + ([x] + (passed + rest)), keep) == Within(front + (passed + ([x] + rest)), keep)
       <==> Within(passed, keep) == []
  {
    var (f, p, r) := (Within(front, keep), Within(passed, keep), Within(rest, keep));
    WithinOne(x, keep);
    WithinJoin(front, [x] + (passed + rest), keep);
    WithinJoin([x], passed + rest, keep);
    WithinJoin(passed, rest, keep);
    WithinJoin(front, passed + ([x] + rest), keep);
    WithinJoin(passed, [x] + rest, keep);
    WithinJoin([x], rest, keep);
    WithinSpec(passed, keep);
    SameFront(f, p, x, r);
  }

  lemma SameFront(f: seq<string>, p: seq<string>, x: string, r: seq<string>)
    requires x !in p
    ensures f + ([x] + (p + r)) == f + (p + ([x] + r)) <==> p == []
  {
    var (u, v) := (f + ([x] + (p + r)), f + (p + ([x] + r)));
    if p == [] {
      assert p + r == r && p + ([x] + r) == [x] + r;
    } else {
      assert u[|f|] == x && v[|f|] == p[0];
    }
  }

  // What is seen of the tags after an untrimmed token was inserted.

  lemma {:induction false} TokensInJoin(front: seq<string>, back: seq<string>, n: nat, all: nat)
    requires n <= |back| && all == |front| + n
    ensures TokensIn(front + back, all) == TokensIn(front, |front|) + TokensIn(back, n)
  {
    if n == 0 {
      TokensInFront(front, back, |front|);
      assert TokensIn(front, |front|) + [] == TokensIn(front, |front|);
    } else {
      TokensInJoin(front, back, n - 1, all - 1);
      assert (front + back)[all - 1] == back[n - 1];
    }
  }

  lemma {:induction false} TokensInFront(front: seq<string>, back: seq<string>, n: nat)
    requires n <= |front|
    ensures TokensIn(front + back, n) == TokensIn(front, n)
  {
    if n > 0 {
      TokensInFront(front, back, n - 1);
      assert (front + back)[n - 1] == front[n - 1];
    }
  }

  ghost predicate AllClean(tokens: seq<string>) {
    forall i :: 0 <= i < |tokens| ==> IsClean(tokens[i])
  }

  lemma TokensInClean(tokens: seq<string>)
    requires AllClean(tokens)
    ensures TokensIn(tokens, |tokens|) == tokens
  {
    TokensOfClean(tokens, |tokens|);
    assert tokens[..|tokens|] == tokens;
  }

  /** The token that an entry stands for, if it does. */
  function TokenOf(entry: string): seq<string> {
    if IsToken(JsTrim(entry)) then [JsTrim(entry)] else []
  }

  lemma TokensInOne(entry: string)
    ensures TokensIn([entry], 1) == TokenOf(entry)
  {
    assert TokensIn([entry], 0) == [];
  }

  lemma TokensInInserted(front: seq<string>, entry: string, back: seq<string>)
    requires AllClean(front) && AllClean(back)
    ensures var all := front + ([entry] + back); TokensIn(all, |all|) == front + (TokenOf(entry) + back)
  {
    TokensInClean(front);
    TokensInClean(back);
    TokensInOne(entry);
    TokensInJoin([entry], back, |back|, |[entry] + back|);
    TokensInJoin(front, [entry] + back, |[entry] + back|, |front + ([entry] + back)|);
  }

  /** A list that has all of `items`, without repetitions, arranges them as they stand in it. */
  lemma ArrangeByAll(order: seq<string>, items: seq<string>)
    requires Distinct(order) && forall x :: x in items ==> x in order
    ensures Arrange(order, items) == Within(order, Elements(items))
  {
    UniqueSame(order);
    OutsideNone(items, Elements(order));
    assert Within(order, Elements(items)) + [] == Within(order, Elements(items));
  }

  /** Without a stranger among them, the members of `keep` are seen the same. */
  lemma StrangerUnseen(front: seq<string>, x: string, back: seq<string>, keep: set<string>)
    requires x !in keep
    ensures Within(front + ([x] + back), keep) == Within(front + back, keep)
  {
    WithinOne(x, keep);
    WithinJoin(front, [x] + back, keep);
    WithinJoin([x], back, keep);
    WithinJoin(front, back, keep);
    assert [] + Within(back, keep) == Within(back, keep);
  }

  lemma {:induction false} OutsideUnseen(s: seq<string>, x: string, keep: set<string>)
    requires x !in keep
    ensures Within(Outside(s, {x}), keep) == Within(s, keep)
  {
    if s != [] {
      var (before, last) := (s[..|s| - 1], s[|s| - 1]);
      OutsideUnseen(before, x, keep);
      if last == x {
        assert Outside(before, {x}) + [] == Outside(before, {x});
        assert Within(before, keep) + [] == Within(before, keep);
      } else {
        WithinMore(Outside(before, {x}), last, keep);
      }
    }
  }

  /** What the sanitized order shows of `keep` when `x` has been inserted, and is not a member. */
  lemma StrangerInserted(front: seq<string>, x: string, back: seq<string>, keep: set<string>)
    requires Distinct(front + back) && x !in keep
    ensures Within(Unique(front + ([x] + back)), keep) == Within(front + back, keep)
  {
    UniqueInserted(front, x, back);
    if x !in front {
      StrangerUnseen(front, x, Outside(back, {x}), keep);
      OutsideUnseen(back, x, keep);
      WithinJoin(front, Outside(back, {x}), keep);
      WithinJoin(front, back, keep);
    }
  }

  lemma CutTwice(r: seq<string>, at: nat, q: nat)
    requires at <= q < |r|
    ensures r == r[..at] + (r[at..q] + ([r[q]] + r[q + 1..]))
    ensures r[at..] == r[at..q] + ([r[q]] + r[q + 1..])
  {
  }

  /** When `x` is a member that stands at `q`, inserting it at `at` moves it only forward. */
  lemma MemberInserted(r: seq<string>, at: nat, x: string, keep: set<string>)
    requires Distinct(r) && at <= |r| && x in keep && x in r
    ensures Within(Unique(r[..at] + ([x] + r[at..])), keep) == Within(r, keep)
       <==> (at <= IndexOf(r, x) ==> Within(r[at..IndexOf(r, x)], keep) == [])
  {
    var q := IndexOf(r, x);
    assert r[..at] + r[at..] == r;
    UniqueInserted(r[..at], x, r[at..]);
    if q < at {
      assert r[..at][q] == x;
    } else {
      NotBefore(r, at, q);
      CutTwice(r, at, q);
      OutsideMiddle(r[at..q], x, r[q + 1..]);
      MovedForward(r[..at], r[at..q], x, r[q + 1..], keep);
    }
  }

  lemma NotBefore(r: seq<string>, at: nat, q: nat)
    requires Distinct(r) && at <= q < |r|
    ensures r[q] !in r[..at] && r[q] !in r[at..q] && r[q] !in r[q + 1..]
  {
  }

  // The action.

  /** Where a token that is not in the order goes. */
  function PlaceOf(order: seq<string>, target: string, insertBefore: bool): (at: nat)
    ensures at <= |order|
  {
    var k := IndexOf(order, target);
    if k == |order| then k else if insertBefore then k else k + 1
  }

  lemma InsertedUntrimmed(order: seq<string>, source: string, target: string, insertBefore: bool)
    requires source !in order && source != "" && target != "" && source != target
    ensures var at := PlaceOf(order, target, insertBefore);
            MoveToken(order, source, target, insertBefore) == order[..at] + ([source] + order[at..])
  {
    OutsideAll(order, {source});
  }

  /** The current order has no repetitions, only clean tokens, and all tokens of the tags. */
  lemma CurrentOrderIsClean(s: Sidebar)
    requires IsSane(s)
    ensures Distinct(CurrentOrder(s)) && AllClean(CurrentOrder(s))
    ensures forall x :: x in TagTokens(s.tags) ==> x in CurrentOrder(s) && IsClean(x)
  {
    ResolvedListsDefaultTokens(s.order, s.tags, s.connections);
    DefaultTokensAreClean(s.tags, s.connections);
    forall i | 0 <= i < |CurrentOrder(s)| ensures IsClean(CurrentOrder(s)[i]) {
      assert CurrentOrder(s)[i] in CurrentOrder(s);
    }
  }

  /** The tags after an untrimmed token was inserted: as they stood in the order before. */
  lemma TagsAfterUntrimmed(s: Sidebar, at: nat, source: string)
    requires IsSane(s) && JsTrim(source) != source && at <= |CurrentOrder(s)|
    ensures var r := CurrentOrder(s);
            TagTokens(TagsInOrder(s.tags, r[..at] + ([source] + r[at..]))) == Within(r, Elements(TagTokens(s.tags)))
  {
    var (r, tokens) := (CurrentOrder(s), TagTokens(s.tags));
    var order := r[..at] + ([source] + r[at..]);
    CurrentOrderIsClean(s);
    assert source !in r;
    assert r == r[..at] + r[at..];
    InsertInto(r, at, source);
    TagsFollowTokens(s.tags, order);
    ArrangeByAll(order, tokens);
    StrangerUnseen(r[..at], source, r[at..], Elements(tokens));
  }

  lemma SanitizedOfInserted(r: seq<string>, at: nat, source: string)
    requires AllClean(r) && at <= |r|
    ensures Sanitized(r[..at] + ([source] + r[at..])) == Unique(r[..at] + (TokenOf(source) + r[at..]))
    ensures forall x :: x in r ==> x in Unique(r[..at] + (TokenOf(source) + r[at..]))
  {
    TokensInInserted(r[..at], source, r[at..]);
    forall x | x in r ensures x in Unique(r[..at] + (TokenOf(source) + r[at..])) {
      MembersOfUnique(r[..at] + (TokenOf(source) + r[at..]), x);
      assert r == r[..at] + r[at..];
    }
  }

  /** The tag tokens in the order after an untrimmed token was inserted. */
  lemma OrderAfterUntrimmed(s: Sidebar, at: nat, source: string)
    requires IsSane(s) && at <= |CurrentOrder(s)|
    ensures var r := CurrentOrder(s);
            var keep := Elements(TagTokens(s.tags));
            Within(Resolved(r[..at] + ([source] + r[at..]), s.tags, s.connections), keep)
            == Within(Unique(r[..at] + (TokenOf(source) + r[at..])), keep)
  {
    var (r, tokens) := (CurrentOrder(s), TagTokens(s.tags));
    CurrentOrderIsClean(s);
    SanitizedOfInserted(r, at, source);
    ResolvedTagsOfSanitized(r[..at] + ([source] + r[at..]), s.tags, s.connections);
    UniqueSpec(r[..at] + (TokenOf(source) + r[at..]));
    ArrangeByAll(Unique(r[..at] + (TokenOf(source) + r[at..])), tokens);
  }

  /** An untrimmed source is put before tag tokens that stand before its trimmed form. */
  ghost predicate PassesTags(s: Sidebar, source: string, target: string, insertBefore: bool) {
    var (r, x) := (CurrentOrder(s), JsTrim(source));
    var (at, q) := (PlaceOf(r, target, insertBefore), IndexOf(r, x));
    target != "" && source != target && x in TagTokens(s.tags)
    && at < q && exists i :: at <= i < q && r[i] in TagTokens(s.tags)
  }

  lemma SomeSeen(r: seq<string>, at: nat, q: nat, items: seq<string>)
    requires at <= q <= |r|
    ensures Within(r[at..q], Elements(items)) == [] <==> forall i :: at <= i < q ==> r[i] !in items
  {
    WithinSpec(r[at..q], Elements(items));
    forall i | at <= i < q ensures r[i] in r[at..q] {
      assert r[at..q][i - at] == r[i];
    }
    if Within(r[at..q], Elements(items)) != [] {
      var y := Within(r[at..q], Elements(items))[0];
      assert y in r[at..q];
    }
  }

  /**
   With an untrimmed source the tags do not always follow the order: they fail to exactly when the trimmed token
   is that of a tag, and the place where it is put has another tag's token between it and the token's own place.
   */
  lemma UntrimmedSourceDisagreesExactly(s: Sidebar, source: string, target: string, insertBefore: bool)
    requires IsSane(s) && JsTrim(source) != source
    ensures var after := ReorderSidebarRoot(s, source, target, insertBefore);
            (Within(after.order, Elements(TagTokens(s.tags))) == TagTokens(after.tags)
             <==> !PassesTags(s, source, target, insertBefore))
  {
    var (r, x, tokens) := (CurrentOrder(s), JsTrim(source), TagTokens(s.tags));
    CurrentOrderIsClean(s);
    if source == "" || target == "" || source == target {
      UnmovedAgrees(s);
    } else {
      InsertedUntrimmed(r, source, target, insertBefore);
      UntrimmedAt(s, PlaceOf(r, target, insertBefore), source);
    }
  }

  lemma UntrimmedAt(s: Sidebar, at: nat, source: string)
    requires IsSane(s) && JsTrim(source) != source && at <= |CurrentOrder(s)|
    ensures var (r, x, tokens) := (CurrentOrder(s), JsTrim(source), TagTokens(s.tags));
            var order := r[..at] + ([source] + r[at..]);
            (Within(Resolved(order, s.tags, s.connections), Elements(tokens)) == TagTokens(TagsInOrder(s.tags, order))
             <==> !(x in tokens && at < IndexOf(r, x) && exists i :: at <= i < IndexOf(r, x) && r[i] in tokens))
  {
    TagsAfterUntrimmed(s, at, source);
    OrderAfterUntrimmed(s, at, source);
    InsertedAgrees(s, at, source);
  }

  lemma UnmovedAgrees(s: Sidebar)
    requires IsSane(s)
    ensures Within(Resolved(CurrentOrder(s), s.tags, s.connections), Elements(TagTokens(s.tags)))
         == TagTokens(TagsInOrder(s.tags, CurrentOrder(s)))
  {
    ResolvedIsTrimmed(s);
    assert AllTrimmed(CurrentOrder(s));
    ResolvedTags(CurrentOrder(s), s.tags, s.connections);
    TagsFollowTokens(s.tags, CurrentOrder(s));
  }

  lemma InsertedAgrees(s: Sidebar, at: nat, source: string)
    requires IsSane(s) && at <= |CurrentOrder(s)|
    ensures var (r, x, tokens) := (CurrentOrder(s), JsTrim(source), TagTokens(s.tags));
            (Within(Unique(r[..at] + (TokenOf(source) + r[at..])), Elements(tokens)) == Within(r, Elements(tokens))
             <==> !(x in tokens && at < IndexOf(r, x) && exists i :: at <= i < IndexOf(r, x) && r[i] in tokens))
  {
    var (r, x, tokens) := (CurrentOrder(s), JsTrim(source), TagTokens(s.tags));
    CurrentOrderIsClean(s);
    assert r == r[..at] + r[at..];
    if x in tokens {
      MemberInserted(r, at, x, Elements(tokens));
      if at <= IndexOf(r, x) {
        SomeSeen(r, at, IndexOf(r, x), tokens);
      }
    } else if IsToken(x) {
      StrangerInserted(r[..at], x, r[at..], Elements(tokens));
    } else {
      assert [] + r[at..] == r[at..];
      UniqueSame(r);
    }
  }

  function TwoTags(): Sidebar {
    Sidebar([], [Tag("a", "", []), Tag("b", "", [])], [])
  }

  lemma TwoTagTokens()
    ensures TagTokens(TwoTags().tags) == ["tag:a", "tag:b"] && IsSane(TwoTags())
  {
    TrimSpec("a", JsSpace);
    TrimSpec("b", JsSpace);
    assert BuildTagToken("a") == "tag:" + "a" == "tag:a";
    assert BuildTagToken("b") == "tag:" + "b" == "tag:b";
  }

  lemma TwoTagsOrder()
    ensures CurrentOrder(TwoTags()) == ["tag:a", "tag:b"]
  {
    var d := DefaultOrder(TwoTags().tags, []);
    TwoTagTokens();
    assert d == ["tag:a", "tag:b"] + [];
    assert "tag:a"[4] != "tag:b"[4];
    UniqueSame(d);
    OutsideAll(d, {});
    assert Sanitized([]) == [] && Unique([]) == [] && Elements([]) == {};
  }

  lemma TrimmedTagB()
    ensures JsTrim(" tag:b") == "tag:b"
  {
    var s := "tag:b";
    TrimSpec(s, JsSpace);
    assert " tag:b"[1..] == s;
    assert TrimStart(" tag:b", JsSpace) == TrimStart(s, JsSpace);
  }

  /** The input that shows it: with tags a and b, putting " tag:b" before "tag:a" turns the order but not the tags. */
  lemma UntrimmedSourceMisplacesTags()
    ensures var after := ReorderSidebarRoot(TwoTags(), " tag:b", "tag:a", true);
            Within(after.order, Elements(TagTokens(TwoTags().tags))) != TagTokens(after.tags)
  {
    TwoTagTokens();
    TwoTagsOrder();
    TrimmedTagB();
    var r := CurrentOrder(TwoTags());
    assert "tag:a"[4] != "tag:b"[4];
    assert r[0] == "tag:a" && r[1] == "tag:b" && r[1..] == ["tag:b"];
    assert PlaceOf(r, "tag:a", true) == 0 && IndexOf(r, "tag:b") == 1;
    assert " tag:b" != "tag:a" && " tag:b" != "tag:b" by {
      assert |" tag:b"| == 6 && |"tag:a"| == 5 && |"tag:b"| == 5;
    }
    assert PassesTags(TwoTags(), " tag:b", "tag:a", true);
    UntrimmedSourceDisagreesExactly(TwoTags(), " tag:b", "tag:a", true);
  }
}
