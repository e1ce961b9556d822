/**
 The order of the sidebar: tags and ungrouped connections in one list of tokens, and the tags in the order of
 theirs.
 */
module SidebarOrder {
  import opened Text
  import opened Arrangements

  datatype Tag = Tag(id: string, name: string, connectionIds: seq<string>)

  const TAG: string := "tag:"
  const CONNECTION: string := "connection:"

  function BuildTagToken(tagId: string): string {
    TAG + JsTrim(tagId)
  }

  function BuildConnectionToken(connectionId: string): string {
    CONNECTION + JsTrim(connectionId)
  }

  predicate IsTagToken(token: string) {
    TAG <= token && |token| > |TAG|
  }

  predicate IsConnectionToken(token: string) {
    CONNECTION <= token && |token| > |CONNECTION|
  }

  predicate IsToken(token: string) {
    IsTagToken(token) || IsConnectionToken(token)
  }

  /** The entries that are tokens once they are trimmed. */
  function TokensIn(entries: seq<string>, n: nat): seq<string>
    requires n <= |entries|
  {
    if n == 0 then []
    else
      var token := JsTrim(entries[n - 1]);
      TokensIn(entries, n - 1) + if IsToken(token) then [token] else []
  }

  function Sanitized(entries: seq<string>): seq<string> {
    Unique(TokensIn(entries, |entries|))
  }

  method SanitizeSidebarRootOrder(entries: seq<string>) returns (result: seq<string>)
    ensures result == Sanitized(entries)
  {
    var seen: set<string> := {};
    result := [];
    for i := 0 to |entries|
      invariant result == Unique(TokensIn(entries, i)) && seen == Elements(result)
    {
      var token := JsTrim(entries[i]);
      if !IsToken(token) {
        assert TokensIn(entries, i + 1) == TokensIn(entries, i);
        continue;
      }
      UniqueMore(TokensIn(entries, i), token);
      if token in seen {
        continue;
      }
      seen := seen + {token};
      result := result + [token];
    }
  }

  lemma {:induction false} UniqueFirstOfLonger(s: seq<string>, x: string, n: nat)
    requires n <= |s|
    ensures UniqueFirst(s + [x], n) == UniqueFirst(s, n)
  {
    if n > 0 {
      UniqueFirstOfLonger(s, x, n - 1);
    }
  }

  lemma UniqueMore(s: seq<string>, x: string)
    ensures Unique(s + [x]) == if x in Unique(s) then Unique(s) else Unique(s) + [x]
  {
    UniqueFirstOfLonger(s, x, |s|);
  }

  function TagTokens(tags: seq<Tag>): (tokens: seq<string>)
    ensures |tokens| == |tags|
  {
    seq(|tags|, i requires 0 <= i < |tags| => BuildTagToken(tags[i].id))
  }

  function GroupedConnections(tags: seq<Tag>): set<string> {
    set i, j | 0 <= i < |tags| && 0 <= j < |tags[i].connectionIds| && tags[i].connectionIds[j] != ""
      :: tags[i].connectionIds[j]
  }

  function UngroupedTokens(connections: seq<string>, grouped: set<string>): seq<string> {
    if connections == [] then []
    else
      UngroupedTokens(connections[..|connections| - 1], grouped)
      + if connections[|connections| - 1] in grouped then []
        else [BuildConnectionToken(connections[|connections| - 1])]
  }

  /** All tags, then the connections that are in no tag. */
  function DefaultOrder(tags: seq<Tag>, connections: seq<string>): seq<string> {
    TagTokens(tags) + UngroupedTokens(connections, GroupedConnections(tags))
  }

  /** The default tokens, arranged by the saved order. */
  function Resolved(saved: seq<string>, tags: seq<Tag>, connections: seq<string>): seq<string> {
    Arrange(Sanitized(saved), Unique(DefaultOrder(tags, connections)))
  }

  method ResolveSidebarRootOrderTokens(saved: seq<string>, tags: seq<Tag>, connections: seq<string>)
    returns (result: seq<string>)
    ensures result == Resolved(saved, tags, connections)
  {
    var defaultOrder := DefaultOrder(tags, connections);
    if |defaultOrder| == 0 {
      UniqueSpec(defaultOrder);
      WithinNone(Unique(Sanitized(saved)), Elements(Unique(defaultOrder)));
      return [];
    }
    var sanitized := SanitizeSidebarRootOrder(saved);
    var valid := Elements(defaultOrder);
    UniqueSpec(defaultOrder);
    var seen: set<string>;
    result, seen := PushSaved(sanitized, valid);
    PushSavedSpec(sanitized, defaultOrder);
    ExtendedByMissing(sanitized, defaultOrder, result);
    result := PushMissing(defaultOrder, result, seen);
  }

  /** The saved tokens that are still valid, in the saved order. */
  method PushSaved(sanitized: seq<string>, valid: set<string>) returns (result: seq<string>, seen: set<string>)
    ensures result == Within(Unique(sanitized), valid) && seen == Elements(result)
  {
    result, seen := [], {};
    for i := 0 to |sanitized|
      invariant result == Within(UniqueFirst(sanitized, i), valid) && seen == Elements(result)
    {
      WithinSpec(UniqueFirst(sanitized, i), valid);
      if sanitized[i] !in valid || sanitized[i] in seen {
        continue;
      }
      seen := seen + {sanitized[i]};
      result := result + [sanitized[i]];
    }
  }

  lemma OutsideMore(s: seq<string>, x: string, drop: set<string>)
    ensures Outside(s + [x], drop) == if x in drop then Outside(s, drop) else Outside(s, drop) + [x]
  {
    assert (s + [x])[..|s|] == s;
    assert Outside(s, drop) + [] == Outside(s, drop);
  }

  /** The saved ones among the default tokens have been pushed. */
  ghost predicate SavedArePushed(sanitized: seq<string>, defaultOrder: seq<string>, pushed: seq<string>) {
    (forall x :: x in defaultOrder ==> (x in pushed <==> x in sanitized))
  }

  lemma PushSavedSpec(sanitized: seq<string>, defaultOrder: seq<string>)
    ensures SavedArePushed(sanitized, defaultOrder, Within(Unique(sanitized), Elements(defaultOrder)))
  {
    NamedSpec(sanitized, defaultOrder);
  }

  /** A default token is pushed unless it has been saved or has come up before. */
  lemma MissingStep(sanitized: seq<string>, defaultOrder: seq<string>, pushed: seq<string>, i: nat)
    requires i < |defaultOrder| && SavedArePushed(sanitized, defaultOrder, pushed)
    ensures var (x, missing) := (defaultOrder[i], MissingFirst(sanitized, defaultOrder, i));
            GrowsBy(missing, MissingFirst(sanitized, defaultOrder, i + 1), pushed, x)
  {
    OutsideSpec(UniqueFirst(defaultOrder, i), Elements(sanitized));
    OutsideMore(UniqueFirst(defaultOrder, i), defaultOrder[i], Elements(sanitized));
  }

  /** A list with further tokens pushed behind it, each unless it is there already. */
  function Extended(pushed: seq<string>, tokens: seq<string>, n: nat): seq<string>
    requires n <= |tokens|
  {
    if n == 0 then pushed
    else
      var before := Extended(pushed, tokens, n - 1);
      if tokens[n - 1] in before then before else before + [tokens[n - 1]]
  }

  lemma PushedBehind(pushed: seq<string>, missing: seq<string>, x: string)
    ensures pushed + missing + [x] == pushed + (missing + [x])
  {
  }

  /** The default tokens still missing, after the first `n`. */
  function MissingFirst(sanitized: seq<string>, defaultOrder: seq<string>, n: nat): seq<string>
    requires n <= |defaultOrder|
  {
    Outside(UniqueFirst(defaultOrder, n), Elements(sanitized))
  }

  /** One more token is missing unless it has been pushed, or was missing already. */
  predicate GrowsBy(before: seq<string>, after: seq<string>, pushed: seq<string>, x: string) {
    after == if x in pushed || x in before then before else before + [x]
  }

  lemma {:induction false} ExtendedBy(pushed: seq<string>, tokens: seq<string>, missing: seq<seq<string>>, n: nat)
    requires n <= |tokens| && |missing| == |tokens| + 1 && missing[0] == []
    requires forall i :: 0 <= i < |tokens| ==> GrowsBy(missing[i], missing[i + 1], pushed, tokens[i])
    ensures Extended(pushed, tokens, n) == pushed + missing[n]
  {
    if n == 0 {
      assert pushed + [] == pushed;
    } else {
      ExtendedBy(pushed, tokens, missing, n - 1);
      assert GrowsBy(missing[n - 1], missing[n - 1 + 1], pushed, tokens[n - 1]);
      PushedBehind(pushed, missing[n - 1], tokens[n - 1]);
    }
  }

  lemma ExtendedByMissing(sanitized: seq<string>, defaultOrder: seq<string>, pushed: seq<string>)
    requires SavedArePushed(sanitized, defaultOrder, pushed)
    ensures Extended(pushed, defaultOrder, |defaultOrder|)
         == pushed + Outside(Unique(defaultOrder), Elements(sanitized))
  {
    var n := |defaultOrder|;
    var missing := seq(n + 1, i requires 0 <= i <= n => MissingFirst(sanitized, defaultOrder, i));
    forall i | 0 <= i < n ensures GrowsBy(missing[i], missing[i + 1], pushed, defaultOrder[i]) {
      MissingStep(sanitized, defaultOrder, pushed, i);
    }
    ExtendedBy(pushed, defaultOrder, missing, n);
  }

  /** The default tokens that have not been saved, behind the others. */
  method PushMissing(defaultOrder: seq<string>, pushed: seq<string>, pushedSet: set<string>)
    returns (result: seq<string>)
    requires pushedSet == Elements(pushed)
    ensures result == Extended(pushed, defaultOrder, |defaultOrder|)
  {
    var seen := pushedSet;
    result := pushed;
    for i := 0 to |defaultOrder|
      invariant result == Extended(pushed, defaultOrder, i) && seen == Elements(result)
    {
      if defaultOrder[i] in seen {
        continue;
      }
      seen := seen + {defaultOrder[i]};
      result := result + [defaultOrder[i]];
    }
  }
}
