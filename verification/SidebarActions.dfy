/**
 What the sidebar's actions keep: the order lists exactly the default tokens, and the tags stand in the order of
 their tokens.
 */
module SidebarActions {
  import opened Text
  import opened Arrangements
  import opened SidebarOrder

  // The resolved order.

  /** The resolved order is, for every input, a list without repetitions of exactly the default tokens. */
  lemma ResolvedListsDefaultTokens(saved: seq<string>, tags: seq<Tag>, connections: seq<string>)
    ensures var r := Resolved(saved, tags, connections);
            Distinct(r) && forall x :: x in r <==> x in DefaultOrder(tags, connections)
  {
    var d := DefaultOrder(tags, connections);
    UniqueSpec(d);
    ArrangeSpec(Sanitized(saved), Unique(d));
    forall x ensures x in Unique(d) <==> x in d {
      assert x in Elements(Unique(d)) <==> x in Elements(d);
    }
  }

  ghost predicate ComesBefore(s: seq<string>, x: string, y: string) {
    exists p, q :: 0 <= p < q < |s| && s[p] == x && s[q] == y
  }

  lemma {:induction false} WithinKeepsOrder(s: seq<string>, keep: set<string>, i: nat, j: nat)
    requires i < j < |Within(s, keep)|
    ensures ComesBefore(s, Within(s, keep)[i], Within(s, keep)[j])
  {
    var before := Within(s[..|s| - 1], keep);
    if j < |before| {
      WithinKeepsOrder(s[..|s| - 1], keep, i, j);
      var p, q :| 0 <= p < q < |s| - 1 && s[p] == before[i] && s[q] == before[j];
    } else {
      WithinSpec(s[..|s| - 1], keep);
      assert before[i] in s[..|s| - 1];
    }
  }

  lemma {:induction false} OutsideKeepsOrder(s: seq<string>, drop: set<string>, i: nat, j: nat)
    requires i < j < |Outside(s, drop)|
    ensures ComesBefore(s, Outside(s, drop)[i], Outside(s, drop)[j])
  {
    var before := Outside(s[..|s| - 1], drop);
    if j < |before| {
      OutsideKeepsOrder(s[..|s| - 1], drop, i, j);
      var p, q :| 0 <= p < q < |s| - 1 && s[p] == before[i] && s[q] == before[j];
    } else {
      OutsideSpec(s[..|s| - 1], drop);
      assert before[i] in s[..|s| - 1];
    }
  }

  /** Saved tokens keep their saved order and come before missing ones, which keep their default order. */
  lemma ArrangeKeepsOrder(order: seq<string>, items: seq<string>, i: nat, j: nat)
    requires i < j < |Arrange(order, items)|
    ensures var r := Arrange(order, items);
            if r[j] in order then ComesBefore(Unique(order), r[i], r[j])
            else r[i] in order || ComesBefore(items, r[i], r[j])
  {
    var (named, r) := (Within(Unique(order), Elements(items)), Arrange(order, items));
    NamedSpec(order, items);
    OutsideSpec(items, Elements(order));
    if j < |named| {
      WithinKeepsOrder(Unique(order), Elements(items), i, j);
      assert r[i] == named[i] && r[j] == named[j];
    } else {
      assert r[j] == Outside(items, Elements(order))[j - |named|];
      if i < |named| {
        assert r[i] == named[i];
      } else {
        OutsideKeepsOrder(items, Elements(order), i - |named|, j - |named|);
      }
    }
  }

  lemma ResolvedKeepsSavedOrder(saved: seq<string>, tags: seq<Tag>, connections: seq<string>, i: nat, j: nat)
    requires i < j < |Resolved(saved, tags, connections)|
    ensures var (r, s) := (Resolved(saved, tags, connections), Sanitized(saved));
            if r[j] in s then ComesBefore(s, r[i], r[j])
            else r[i] in s || ComesBefore(Unique(DefaultOrder(tags, connections)), r[i], r[j])
  {
    var s := Sanitized(saved);
    ArrangeKeepsOrder(s, Unique(DefaultOrder(tags, connections)), i, j);
    UniqueSpec(TokensIn(saved, |saved|));
    UniqueOfDistinct(s, |s|);
    assert s[..|s|] == s;
  }

  // Tokens that are left alone by trimming.

  predicate IsClean(token: string) {
    JsTrim(token) == token && IsToken(token)
  }

  ghost predicate AllTrimmed(tokens: seq<string>) {
    forall i :: 0 <= i < |tokens| ==> JsTrim(tokens[i]) == tokens[i]
  }

  lemma BuiltTokenIsTrimmed(prefix: string, id: string)
    requires prefix == TAG || prefix == CONNECTION
    ensures JsTrim(prefix + JsTrim(id)) == prefix + JsTrim(id)
  {
    TrimSpec(id, JsSpace);
    TrimSpec(prefix + JsTrim(id), JsSpace);
  }

  lemma {:induction false} TokensOfTrimmed(tokens: seq<string>, n: nat, x: string)
    requires n <= |tokens| && AllTrimmed(tokens)
    ensures x in TokensIn(tokens, n) <==> IsToken(x) && x in tokens[..n]
  {
    if n > 0 {
      TokensOfTrimmed(tokens, n - 1, x);
      assert tokens[..n] == tokens[..n - 1] + [tokens[n - 1]];
    }
  }

  lemma {:induction false} TokensOfClean(tokens: seq<string>, n: nat)
    requires n <= |tokens| && forall i :: 0 <= i < |tokens| ==> IsClean(tokens[i])
    ensures TokensIn(tokens, n) == tokens[..n]
  {
    if n > 0 {
      TokensOfClean(tokens, n - 1);
      assert IsClean(tokens[n - 1]);
    }
  }

  lemma SanitizedClean(tokens: seq<string>)
    requires Distinct(tokens) && forall i :: 0 <= i < |tokens| ==> IsClean(tokens[i])
    ensures Sanitized(tokens) == tokens
  {
    TokensOfClean(tokens, |tokens|);
    UniqueOfDistinct(tokens, |tokens|);
    assert tokens[..|tokens|] == tokens;
  }

  /** A token names a tag or a connection, by some id. */
  ghost predicate NamesSomething(token: string) {
    exists id :: id != "" && (token == "tag:" + id || token == "connection:" + id)
  }

  lemma TokenExactly(token: string)
    ensures IsToken(token) <==> NamesSomething(token)
  {
    if IsTagToken(token) {
      assert token == "tag:" + token[|TAG|..];
    } else if IsConnectionToken(token) {
      assert token == "connection:" + token[|CONNECTION|..];
    }
  }

  lemma {:induction false} TokensAreThose(entries: seq<string>, n: nat, x: string)
    requires n <= |entries|
    ensures x in TokensIn(entries, n) <==> IsToken(x) && exists i :: 0 <= i < n && JsTrim(entries[i]) == x
  {
    if n > 0 {
      TokensAreThose(entries, n - 1, x);
    }
  }

  /** Sanitizing keeps exactly the entries that name something once they are trimmed. */
  lemma SanitizedExactly(entries: seq<string>, x: string)
    ensures x in Sanitized(entries)
       <==> NamesSomething(x) && exists i :: 0 <= i < |entries| && JsTrim(entries[i]) == x
  {
    TokenExactly(x);
    TokensAreThose(entries, |entries|, x);
    UniqueSpec(TokensIn(entries, |entries|));
    assert x in Elements(Sanitized(entries)) <==> x in Elements(TokensIn(entries, |entries|));
  }

  /** The kinds of token are told apart by what they name. */
  lemma KindExactly(token: string)
    ensures IsTagToken(token) <==> exists id :: id != "" && token == "tag:" + id
    ensures IsConnectionToken(token) <==> exists id :: id != "" && token == "connection:" + id
  {
    if IsTagToken(token) {
      assert token == "tag:" + token[|TAG|..];
    }
    if IsConnectionToken(token) {
      assert token == "connection:" + token[|CONNECTION|..];
    }
  }

  /** Resolving a resolved order changes nothing, when no tag or connection has a blank id. */
  lemma ResolvingTwice(saved: seq<string>, tags: seq<Tag>, connections: seq<string>)
    requires forall x :: x in DefaultOrder(tags, connections) ==> IsClean(x)
    ensures Resolved(Resolved(saved, tags, connections), tags, connections) == Resolved(saved, tags, connections)
  {
    var (r, d) := (Resolved(saved, tags, connections), DefaultOrder(tags, connections));
    ResolvedListsDefaultTokens(saved, tags, connections);
    forall i | 0 <= i < |r| ensures IsClean(r[i]) {
      assert r[i] in r;
    }
    SanitizedClean(r);
    UniqueSpec(d);
    ArrangeByResult(Sanitized(saved), Unique(d));
  }

  predicate NotBlank(id: string) {
    JsTrim(id) != ""
  }

  lemma BuiltTokenIsClean(id: string)
    requires NotBlank(id)
    ensures IsClean(BuildTagToken(id)) && IsClean(BuildConnectionToken(id))
  {
    BuiltTokenIsTrimmed(TAG, id);
    BuiltTokenIsTrimmed(CONNECTION, id);
  }

  lemma {:induction false} UngroupedTokensAreBuilt(connections: seq<string>, grouped: set<string>, x: string)
    requires x in UngroupedTokens(connections, grouped)
    ensures exists i :: 0 <= i < |connections| && x == BuildConnectionToken(connections[i])
  {
    var before := connections[..|connections| - 1];
    if x in UngroupedTokens(before, grouped) {
      UngroupedTokensAreBuilt(before, grouped, x);
      var i :| 0 <= i < |before| && x == BuildConnectionToken(before[i]);
      assert connections[i] == before[i];
    }
  }

  lemma DefaultTokensAreClean(tags: seq<Tag>, connections: seq<string>)
    requires forall i :: 0 <= i < |tags| ==> NotBlank(tags[i].id)
    requires forall i :: 0 <= i < |connections| ==> NotBlank(connections[i])
    ensures forall x :: x in DefaultOrder(tags, connections) ==> IsClean(x)
  {
    forall x | x in DefaultOrder(tags, connections) ensures IsClean(x) {
      if x in TagTokens(tags) {
        var i :| 0 <= i < |tags| && TagTokens(tags)[i] == x;
        BuiltTokenIsClean(tags[i].id);
      } else {
        UngroupedTokensAreBuilt(connections, GroupedConnections(tags), x);
        var i :| 0 <= i < |connections| && x == BuildConnectionToken(connections[i]);
        BuiltTokenIsClean(connections[i]);
      }
    }
  }
}
