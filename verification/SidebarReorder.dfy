/** The two reordering actions of the sidebar. */
module SidebarReorder {
  import opened Text
  import opened Arrangements
  import opened Permutations
  import opened SidebarOrder
  import opened SidebarActions
  import opened SidebarTags

  /** The part of the store that the sidebar's order depends on. */
  datatype Sidebar = Sidebar(order: seq<string>, tags: seq<Tag>, connections: seq<string>)

  function CurrentOrder(s: Sidebar): seq<string> {
    Resolved(s.order, s.tags, s.connections)
  }

  function TokensFor(tagIds: seq<string>): seq<string> {
    seq(|tagIds|, i requires 0 <= i < |tagIds| => BuildTagToken(tagIds[i]))
  }

  function NotTags(tokens: seq<string>): seq<string> {
    if tokens == [] then []
    else NotTags(tokens[..|tokens| - 1]) + if IsTagToken(tokens[|tokens| - 1]) then [] else [tokens[|tokens| - 1]]
  }

  function ReorderTags(s: Sidebar, tagIds: seq<string>): Sidebar {
    var ordered := TokensFor(tagIds) + NotTags(CurrentOrder(s));
    var newTags := TagsInOrder(s.tags, ordered);
    Sidebar(Resolved(ordered, newTags, s.connections), newTags, s.connections)
  }

  function IndexOf(tokens: seq<string>, token: string): (k: nat)
    ensures k <= |tokens|
    ensures k < |tokens| <==> token in tokens
    ensures k < |tokens| ==> tokens[k] == token
  {
    if tokens == [] then 0
    else if tokens[0] == token then 0
    else 1 + IndexOf(tokens[1..], token)
  }

  function MoveToken(order: seq<string>, source: string, target: string, insertBefore: bool): seq<string> {
    if source == "" || target == "" || source == target then order
    else
      var filtered := Outside(order, {source});
      var k := IndexOf(filtered, target);
      var at := if k == |filtered| then |filtered| else if insertBefore then k else k + 1;
      filtered[..at] + ([source] + filtered[at..])
  }

  function ReorderSidebarRoot(s: Sidebar, source: string, target: string, insertBefore: bool): Sidebar {
    var order := MoveToken(CurrentOrder(s), source, target, insertBefore);
    Sidebar(Resolved(order, s.tags, s.connections), TagsInOrder(s.tags, order), s.connections)
  }

  // Only tokens of tags matter to the order of the tags.

  function Pushed(tokens: seq<string>, x: string): seq<string> {
    if x in tokens then tokens else tokens + [x]
  }

  lemma PushAlike(u: seq<string>, v: seq<string>, x: string, keep: set<string>, skipped: bool)
    requires Within(u, keep) == Within(v, keep)
    requires x in keep ==> !skipped && (x in u <==> x in v)
    ensures Within(if skipped then u else Pushed(u, x), keep) == Within(Pushed(v, x), keep)
  {
    WithinMore(u, x, keep);
    WithinMore(v, x, keep);
  }

  lemma UniqueNext(tokens: seq<string>, n: nat)
    requires 0 < n <= |tokens| && AllTrimmed(tokens)
    ensures UniqueFirst(tokens, n) == Pushed(UniqueFirst(tokens, n - 1), tokens[n - 1])
    ensures Unique(TokensIn(tokens, n))
         == if IsToken(tokens[n - 1]) then Pushed(Unique(TokensIn(tokens, n - 1)), tokens[n - 1])
            else Unique(TokensIn(tokens, n - 1))
  {
    NotATokenIsSkipped(tokens, n);
    UniqueMore(TokensIn(tokens, n - 1), tokens[n - 1]);
  }

  /** Two lists grow by a token alike, as far as members of `keep` go. */
  predicate GrowAlike(u: seq<string>, u': seq<string>, v: seq<string>, v': seq<string>, x: string, keep: set<string>) {
    u' == (if IsToken(x) then Pushed(u, x) else u)
    && v' == Pushed(v, x)
    && (x in keep ==> IsToken(x) && (x in u <==> x in v))
  }

  lemma GrownAlike(
      u: seq<string>, u': seq<string>, v: seq<string>, v': seq<string>, x: string, keep: set<string>)
    requires Within(u, keep) == Within(v, keep) && GrowAlike(u, u', v, v', x, keep)
    ensures Within(u', keep) == Within(v', keep)
  {
    PushAlike(u, v, x, keep, !IsToken(x));
  }

  lemma SanitizedGrowsAlike(tokens: seq<string>, keep: set<string>, i: nat)
    requires i < |tokens| && AllTrimmed(tokens) && forall x :: x in keep ==> IsToken(x)
    ensures GrowAlike(Unique(TokensIn(tokens, i)), Unique(TokensIn(tokens, i + 1)),
                      UniqueFirst(tokens, i), UniqueFirst(tokens, i + 1), tokens[i], keep)
  {
    SeenAlike(tokens, i, tokens[i]);
    UniqueNext(tokens, i + 1);
  }

  /** What sanitizing keeps of the first `n` tokens, as far as members of `keep` go: all of it. */
  ghost predicate KeptAlike(tokens: seq<string>, keep: set<string>, n: nat)
    requires n <= |tokens|
  {
    Within(Unique(TokensIn(tokens, n)), keep) == Within(UniqueFirst(tokens, n), keep)
  }

  lemma KeptAlikeNext(tokens: seq<string>, keep: set<string>, n: nat)
    requires n < |tokens| && AllTrimmed(tokens) && (forall x :: x in keep ==> IsToken(x)) && KeptAlike(tokens, keep, n)
    ensures KeptAlike(tokens, keep, n + 1)
  {
    SanitizedGrowsAlike(tokens, keep, n);
    GrownAlike(Unique(TokensIn(tokens, n)), Unique(TokensIn(tokens, n + 1)),
               UniqueFirst(tokens, n), UniqueFirst(tokens, n + 1), tokens[n], keep);
  }

  lemma {:induction false} SanitizingKeeps(tokens: seq<string>, keep: set<string>, n: nat)
    requires n <= |tokens| && AllTrimmed(tokens) && forall x :: x in keep ==> IsToken(x)
    ensures KeptAlike(tokens, keep, n)
  {
    if n > 0 {
      SanitizingKeeps(tokens, keep, n - 1);
      KeptAlikeNext(tokens, keep, n - 1);
    }
  }

  lemma NotATokenIsSkipped(tokens: seq<string>, n: nat)
    requires 0 < n <= |tokens| && AllTrimmed(tokens)
    ensures TokensIn(tokens, n)
         == if IsToken(tokens[n - 1]) then TokensIn(tokens, n - 1) + [tokens[n - 1]] else TokensIn(tokens, n - 1)
  {
    assert JsTrim(tokens[n - 1]) == tokens[n - 1];
    assert TokensIn(tokens, n - 1) + [] == TokensIn(tokens, n - 1);
  }

  lemma SeenAlike(tokens: seq<string>, n: nat, x: string)
    requires n <= |tokens| && AllTrimmed(tokens)
    ensures IsToken(x) ==> (x in Unique(TokensIn(tokens, n)) <==> x in UniqueFirst(tokens, n))
  {
    TokensOfTrimmed(tokens, n, x);
    UniqueSpec(TokensIn(tokens, n));
    assert x in Elements(Unique(TokensIn(tokens, n))) <==> x in Elements(TokensIn(tokens, n));
    UniqueFirstSpec(tokens, n);
    assert x in tokens[..n] <==> exists i :: 0 <= i < n && tokens[i] == x;
  }

  lemma SanitizedArranges(tokens: seq<string>, items: seq<string>)
    requires AllTrimmed(tokens) && forall x :: x in items ==> IsToken(x)
    ensures Arrange(Sanitized(tokens), items) == Arrange(tokens, items)
  {
    var sanitized := Sanitized(tokens);
    SanitizingKeeps(tokens, Elements(items), |tokens|);
    UniqueSpec(TokensIn(tokens, |tokens|));
    UniqueOfDistinct(sanitized, |sanitized|);
    assert sanitized[..|sanitized|] == sanitized;
    forall x | x in items ensures x in Elements(sanitized) <==> x in Elements(tokens) {
      TokensOfTrimmed(tokens, |tokens|, x);
      assert tokens[..|tokens|] == tokens;
      assert x in Elements(Unique(TokensIn(tokens, |tokens|))) <==> x in Elements(TokensIn(tokens, |tokens|));
    }
    OutsideSame(items, Elements(sanitized), Elements(tokens));
  }

  lemma {:induction false} UniqueJoin(first: seq<string>, second: seq<string>, n: nat)
    requires Distinct(first) && n <= |second| && forall x :: x in first ==> x !in second
    ensures UniqueFirst(first + second, |first| + n) == first + UniqueFirst(second, n)
  {
    if n == 0 {
      UniqueFront(first, second, |first|);
      UniqueOfDistinct(first, |first|);
      assert first[..|first|] == first && first + [] == first;
    } else {
      UniqueJoin(first, second, n - 1);
      assert (first + second)[|first| + n - 1] == second[n - 1];
      PushedBehind(first, UniqueFirst(second, n - 1), second[n - 1]);
    }
  }

  lemma {:induction false} UniqueFront(first: seq<string>, second: seq<string>, n: nat)
    requires n <= |first|
    ensures UniqueFirst(first + second, n) == UniqueFirst(first, n)
  {
    if n > 0 {
      UniqueFront(first, second, n - 1);
      assert (first + second)[n - 1] == first[n - 1];
    }
  }

  // The theorems.

  /**
   What the store's own sanitizing gives: tags with distinct, trimmed ids that are not blank, and such
   connections.
   */
  ghost predicate IsSane(s: Sidebar) {
    DistinctIds(s.tags) && CleanIds(s.tags) && forall i :: 0 <= i < |s.connections| ==> NotBlank(s.connections[i])
  }

  /** The tag tokens of the order, in order, are exactly the tokens of the tags. */
  ghost predicate TagsFollowOrder(s: Sidebar) {
    Within(s.order, Elements(TagTokens(s.tags))) == TagTokens(s.tags)
  }

  lemma ConnectionTokenStart(connections: seq<string>, grouped: set<string>, x: string)
    requires x in UngroupedTokens(connections, grouped)
    ensures x != "" && x[0] == 'c'
  {
    UngroupedTokensAreBuilt(connections, grouped, x);
    var i :| 0 <= i < |connections| && x == BuildConnectionToken(connections[i]);
    assert x[0] == CONNECTION[0];
  }

  lemma TagTokenStart(tags: seq<Tag>, x: string)
    requires x in TagTokens(tags)
    ensures x != "" && x[0] == 't'
  {
    var k :| 0 <= k < |tags| && TagTokens(tags)[k] == x;
    assert x[0] == TAG[0];
  }

  lemma TokenKindsDiffer(tags: seq<Tag>, connections: seq<string>, x: string)
    requires x in TagTokens(tags)
    ensures x !in UngroupedTokens(connections, GroupedConnections(tags))
  {
    if x in UngroupedTokens(connections, GroupedConnections(tags)) {
      ConnectionTokenStart(connections, GroupedConnections(tags), x);
      TagTokenStart(tags, x);
    }
  }

  lemma UniqueOfParts(first: seq<string>, second: seq<string>)
    requires Distinct(first) && forall x :: x in first ==> x !in second
    ensures Unique(first + second) == first + Unique(second) && forall x :: x in first ==> x !in Unique(second)
  {
    UniqueSpec(second);
    forall x | x in first ensures x !in Unique(second) {
      assert x in Elements(Unique(second)) <==> x in Elements(second);
    }
    UniqueJoin(first, second, |second|);
  }

  /** The default tokens without repetitions: those of the tags, and then the others. */
  lemma DefaultParts(tags: seq<Tag>, connections: seq<string>)
    requires DistinctIds(tags) && CleanIds(tags)
    ensures var (first, second) := (TagTokens(tags), Unique(UngroupedTokens(connections, GroupedConnections(tags))));
            Unique(DefaultOrder(tags, connections)) == first + second && forall x :: x in first ==> x !in second
  {
    TokensAreDistinct(tags);
    forall x | x in TagTokens(tags) ensures x !in UngroupedTokens(connections, GroupedConnections(tags)) {
      TokenKindsDiffer(tags, connections, x);
    }
    UniqueOfParts(TagTokens(tags), UngroupedTokens(connections, GroupedConnections(tags)));
  }

  lemma ResolvedTagsOfSanitized(order: seq<string>, tags: seq<Tag>, connections: seq<string>)
    requires DistinctIds(tags) && CleanIds(tags)
    ensures Within(Resolved(order, tags, connections), Elements(TagTokens(tags)))
         == Arrange(Sanitized(order), TagTokens(tags))
  {
    DefaultParts(tags, connections);
    ArrangeFirstPart(Sanitized(order), TagTokens(tags), Unique(UngroupedTokens(connections, GroupedConnections(tags))));
  }

  /** Among the tag tokens, the resolved order is the saved one arranging the tags. */
  lemma ResolvedTags(order: seq<string>, tags: seq<Tag>, connections: seq<string>)
    requires DistinctIds(tags) && CleanIds(tags) && AllTrimmed(order)
    ensures Within(Resolved(order, tags, connections), Elements(TagTokens(tags))) == Arrange(order, TagTokens(tags))
  {
    ResolvedTagsOfSanitized(order, tags, connections);
    forall x | x in TagTokens(tags) ensures IsToken(x) {
      TagTokensAreTokens(tags, x);
    }
    SanitizedArranges(order, TagTokens(tags));
  }

  lemma TagTokensAreTokens(tags: seq<Tag>, x: string)
    requires CleanIds(tags) && x in TagTokens(tags)
    ensures IsToken(x)
  {
    var k :| 0 <= k < |tags| && TagTokens(tags)[k] == x;
    TokenOfId(tags[k], x);
  }

  function TagId(tag: Tag): string {
    tag.id
  }

  lemma PermutedTagsAreSane(tags: seq<Tag>, permuted: seq<Tag>)
    requires DistinctIds(tags) && CleanIds(tags) && multiset(permuted) == multiset(tags)
    ensures DistinctIds(permuted) && CleanIds(permuted)
  {
    forall i | 0 <= i < |permuted| ensures permuted[i] in tags {
      assert permuted[i] in multiset(permuted);
    }
    PermutedKeysAreDistinct(tags, permuted, TagId);
  }

  lemma {:induction false} NotTagsAreTokens(tokens: seq<string>, x: string)
    requires x in NotTags(tokens)
    ensures x in tokens
  {
    if x !in tokens[..|tokens| - 1] && x != tokens[|tokens| - 1] {
      NotTagsAreTokens(tokens[..|tokens| - 1], x);
    } else if x in NotTags(tokens[..|tokens| - 1]) {
      NotTagsAreTokens(tokens[..|tokens| - 1], x);
    }
  }

  lemma ResolvedIsTrimmed(s: Sidebar)
    ensures forall x :: x in CurrentOrder(s) ==> JsTrim(x) == x
  {
    ResolvedListsDefaultTokens(s.order, s.tags, s.connections);
    forall x | x in DefaultOrder(s.tags, s.connections) ensures JsTrim(x) == x {
      if x in TagTokens(s.tags) {
        var i :| 0 <= i < |s.tags| && TagTokens(s.tags)[i] == x;
        BuiltTokenIsTrimmed(TAG, s.tags[i].id);
      } else {
        UngroupedTokensAreBuilt(s.connections, GroupedConnections(s.tags), x);
        var i :| 0 <= i < |s.connections| && x == BuildConnectionToken(s.connections[i]);
        BuiltTokenIsTrimmed(CONNECTION, s.connections[i]);
      }
    }
  }

  lemma ReorderedIsTrimmed(s: Sidebar, tagIds: seq<string>)
    ensures AllTrimmed(TokensFor(tagIds) + NotTags(CurrentOrder(s)))
  {
    var tokens := TokensFor(tagIds) + NotTags(CurrentOrder(s));
    ResolvedIsTrimmed(s);
    forall i | 0 <= i < |tokens| ensures JsTrim(tokens[i]) == tokens[i] {
      if i < |tagIds| {
        BuiltTokenIsTrimmed(TAG, tagIds[i]);
      } else {
        NotTagsAreTokens(CurrentOrder(s), NotTags(CurrentOrder(s))[i - |tagIds|]);
      }
    }
  }

  /** Reordering tags by ids, whatever ids are given: the same tags, in the order of their tokens in the new order. */
  lemma ReorderTagsIsConsistent(s: Sidebar, tagIds: seq<string>)
    requires IsSane(s)
    ensures var after := ReorderTags(s, tagIds);
            multiset(after.tags) == multiset(s.tags) && IsSane(after) && TagsFollowOrder(after)
  {
    var ordered := TokensFor(tagIds) + NotTags(CurrentOrder(s));
    var newTags := TagsInOrder(s.tags, ordered);
    TagsInOrderPermute(s.tags, ordered);
    PermutedTagsAreSane(s.tags, newTags);
    ReorderedIsTrimmed(s, tagIds);
    ResolvedTags(ordered, newTags, s.connections);
    TagsFollowTokens(s.tags, ordered);
    TokensAreDistinct(s.tags);
    ArrangeTwice(ordered, TagTokens(s.tags));
  }

  lemma MovedIsTrimmed(order: seq<string>, source: string, target: string, insertBefore: bool)
    requires (forall x :: x in order ==> JsTrim(x) == x) && JsTrim(source) == source
    ensures AllTrimmed(MoveToken(order, source, target, insertBefore))
  {
    OutsideSpec(order, {source});
    var moved := MoveToken(order, source, target, insertBefore);
    forall i | 0 <= i < |moved| ensures JsTrim(moved[i]) == moved[i] {
      assert moved[i] == source || moved[i] in order;
    }
  }

  /** Moving a root token, whatever it is, loses and doubles no tag. */
  lemma ReorderSidebarRootPermutes(s: Sidebar, source: string, target: string, insertBefore: bool)
    requires IsSane(s)
    ensures var after := ReorderSidebarRoot(s, source, target, insertBefore);
            multiset(after.tags) == multiset(s.tags) && IsSane(after)
  {
    var order := MoveToken(CurrentOrder(s), source, target, insertBefore);
    TagsInOrderPermute(s.tags, order);
    PermutedTagsAreSane(s.tags, TagsInOrder(s.tags, order));
  }

  /**
   Moving a trimmed root token next to another: the tags stand in exactly the order of their tokens in the new
   order.
   */
  lemma ReorderSidebarRootIsConsistent(s: Sidebar, source: string, target: string, insertBefore: bool)
    requires IsSane(s) && JsTrim(source) == source
    ensures var after := ReorderSidebarRoot(s, source, target, insertBefore);
            Within(after.order, Elements(TagTokens(s.tags))) == TagTokens(after.tags)
  {
    var order := MoveToken(CurrentOrder(s), source, target, insertBefore);
    ResolvedIsTrimmed(s);
    MovedIsTrimmed(CurrentOrder(s), source, target, insertBefore);
    ResolvedTags(order, s.tags, s.connections);
    TagsFollowTokens(s.tags, order);
  }

  lemma CutBehind(s: seq<string>, at: nat)
    requires at <= |s|
    ensures s == s[..at] + s[at..]
    ensures at == |s| ==> s[at..] == []
    ensures at > 0 ==> s[..at] != [] && s[..at][at - 1] == s[at - 1]
  {
  }

  /** A token moves right before or right behind its target, or to the end without one; all others keep their order. */
  lemma MovePutsSourceAtTarget(order: seq<string>, source: string, target: string, insertBefore: bool)
    returns (front: seq<string>, back: seq<string>)
    requires source != target && source != "" && target != ""
    ensures Outside(order, {source}) == front + back
    ensures MoveToken(order, source, target, insertBefore) == front + ([source] + back)
    ensures if target !in order then back == []
            else if insertBefore then back != [] && back[0] == target
            else front != [] && front[|front| - 1] == target
  {
    var filtered := Outside(order, {source});
    OutsideSpec(order, {source});
    var k := IndexOf(filtered, target);
    var at := if k == |filtered| then k else if insertBefore then k else k + 1;
    front, back := filtered[..at], filtered[at..];
    CutBehind(filtered, at);
  }

  lemma MoveRearranges(order: seq<string>, source: string, target: string, insertBefore: bool)
    requires Distinct(order) && source in order
    ensures var moved := MoveToken(order, source, target, insertBefore);
            Distinct(moved) && forall x :: x in moved <==> x in order
  {
    if source != "" && target != "" && source != target {
      var filtered := Outside(order, {source});
      OutsideSpec(order, {source});
      var k := IndexOf(filtered, target);
      InsertInto(filtered, if k == |filtered| then |filtered| else if insertBefore then k else k + 1, source);
    }
  }

  lemma InsertInto(s: seq<string>, at: nat, x: string)
    requires Distinct(s) && at <= |s| && x !in s
    ensures Distinct(s[..at] + ([x] + s[at..]))
    ensures forall y :: y in s[..at] + ([x] + s[at..]) <==> y == x || y in s
  {
    var t := s[..at] + ([x] + s[at..]);
    assert s == s[..at] + s[at..];
    forall y ensures y in t <==> y == x || y in s {
    }
  }

  /** When the moved token is in the sidebar, the new order is exactly the moved one. */
  lemma ReorderSidebarRootMoves(s: Sidebar, source: string, target: string, insertBefore: bool)
    requires IsSane(s) && source in CurrentOrder(s)
    ensures ReorderSidebarRoot(s, source, target, insertBefore).order
         == MoveToken(CurrentOrder(s), source, target, insertBefore)
  {
    var (r, d) := (CurrentOrder(s), DefaultOrder(s.tags, s.connections));
    var moved := MoveToken(r, source, target, insertBefore);
    ResolvedListsDefaultTokens(s.order, s.tags, s.connections);
    MoveRearranges(r, source, target, insertBefore);
    DefaultTokensAreClean(s.tags, s.connections);
    forall i | 0 <= i < |moved| ensures IsClean(moved[i]) {
      assert moved[i] in r;
    }
    SanitizedClean(moved);
    UniqueSpec(d);
    forall x ensures x in Unique(d) <==> x in d {
      assert x in Elements(Unique(d)) <==> x in Elements(d);
    }
    ArrangeSame(moved, Unique(d));
  }

  // Inserting tokens.

  function FirstConnection(tokens: seq<string>): (k: nat)
    ensures k <= |tokens|
    ensures k < |tokens| ==> IsConnectionToken(tokens[k])
    ensures forall i :: 0 <= i < k ==> !IsConnectionToken(tokens[i])
  {
    if tokens == [] || IsConnectionToken(tokens[0]) then 0 else 1 + FirstConnection(tokens[1..])
  }

  /** A token that is not there yet goes before the first connection. */
  function InsertBeforeUngrouped(order: seq<string>, token: string): seq<string> {
    if token == "" || token in order then order
    else
      var k := FirstConnection(order);
      order[..k] + ([token] + order[k..])
  }

  /** A token is put, or put again, behind an anchor, or at the end when there is no such anchor. */
  function InsertAfter(order: seq<string>, token: string, anchor: string): seq<string> {
    if token == "" then order
    else
      var filtered := Outside(order, {token});
      var at := PlaceBehind(filtered, anchor);
      filtered[..at] + ([token] + filtered[at..])
  }

  /**
   Inserting adds the token once, keeps all others in their order, and puts it between the tags and the
   connections.
   */
  lemma InsertBeforeUngroupedSpec(order: seq<string>, token: string) returns (front: seq<string>, back: seq<string>)
    requires Distinct(order) && token != "" && token !in order
    ensures order == front + back && InsertBeforeUngrouped(order, token) == front + ([token] + back)
    ensures Distinct(InsertBeforeUngrouped(order, token))
    ensures (forall i :: 0 <= i < |front| ==> !IsConnectionToken(front[i]))
         && (back != [] ==> IsConnectionToken(back[0]))
  {
    var k := FirstConnection(order);
    front, back := order[..k], order[k..];
    InsertInto(order, k, token);
  }

  /** Where a token goes that is put behind an anchor. */
  function PlaceBehind(tokens: seq<string>, anchor: string): (at: nat)
    ensures at <= |tokens|
    ensures if anchor in tokens then at > 0 && tokens[at - 1] == anchor else at == |tokens|
  {
    var k := IndexOf(tokens, anchor);
    if k == |tokens| then k else k + 1
  }

  lemma OthersStay(order: seq<string>, token: string, anchor: string)
    requires Distinct(order)
    ensures var others := Outside(order, {token});
            Distinct(others) && token !in others && (anchor in others <==> anchor in order && anchor != token)
  {
    OutsideSpec(order, {token});
  }

  /** The token goes right behind its anchor, or to the end, and all others keep their order. */
  lemma InsertAfterSpec(order: seq<string>, token: string, anchor: string)
    returns (front: seq<string>, back: seq<string>)
    requires Distinct(order) && token != ""
    ensures Outside(order, {token}) == front + back && InsertAfter(order, token, anchor) == front + ([token] + back)
    ensures Distinct(InsertAfter(order, token, anchor))
    ensures if anchor in order && anchor != token then front != [] && front[|front| - 1] == anchor else back == []
  {
    var filtered := Outside(order, {token});
    var at := PlaceBehind(filtered, anchor);
    OthersStay(order, token, anchor);
    front, back := filtered[..at], filtered[at..];
    CutBehind(filtered, at);
    InsertInto(filtered, at, token);
  }
}
