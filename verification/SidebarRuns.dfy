/**
 All actions on the sidebar, and their runs: when the tags stand in the order of their tokens, and when the stored
 order lists every tag and every connection that is in none.
 */
module SidebarRuns {
  import opened Text
  import opened Arrangements
  import opened Permutations
  import opened SidebarOrder
  import opened SidebarActions
  import opened SidebarTags
  import opened SidebarReorder
  import opened SidebarUntrimmed

  datatype Action =
    | AddConnection(id: string)
    | RemoveConnection(id: string)
    | ReplaceConnections(connections: seq<string>)
    | AddTag(tag: Tag)
    | UpdateTag(tag: Tag)
    | RemoveTag(id: string)
    | MoveToTag(id: string, targetTagId: string)
    | ReorderConnections(id: string, targetId: string, targetTagId: string, insertBefore: bool)
    | ReorderTagIds(tagIds: seq<string>)
    | ReorderRoot(source: string, target: string, insertBefore: bool)

  // The actions.

  /** Tags with the connections that each is given, whatever they were. */
  function Grouping(tags: seq<Tag>, idsOf: Tag -> seq<string>): (grouped: seq<Tag>)
    ensures |grouped| == |tags|
    ensures forall i :: 0 <= i < |tags| ==> grouped[i] == tags[i].(connectionIds := idsOf(tags[i]))
  {
    seq(|tags|, i requires 0 <= i < |tags| => tags[i].(connectionIds := idsOf(tags[i])))
  }

  function WithoutConnection(id: string): Tag -> seq<string> {
    (tag: Tag) => Outside(tag.connectionIds, {id})
  }

  function OnlyIn(id: string, targetTagId: string): Tag -> seq<string> {
    (tag: Tag) =>
      var others := Outside(tag.connectionIds, {id});
      if tag.id == targetTagId then others + [id] else others
  }

  /** `x` next to `target`, or at the end. */
  function PutNextTo(ids: seq<string>, x: string, target: string, insertBefore: bool): seq<string> {
    var k := IndexOf(ids, target);
    var at := if k == |ids| then k else if insertBefore then k else k + 1;
    ids[..at] + ([x] + ids[at..])
  }

  function NextToIn(id: string, targetId: string, targetTagId: string, insertBefore: bool): Tag -> seq<string> {
    (tag: Tag) =>
      var others := Outside(tag.connectionIds, {id});
      if tag.id == targetTagId then PutNextTo(others, id, targetId, insertBefore) else others
  }

  function Updated(tags: seq<Tag>, tag: Tag): (updated: seq<Tag>)
    ensures |updated| == |tags|
    ensures forall i :: 0 <= i < |tags| ==> updated[i] == if tags[i].id == tag.id then tag else tags[i]
  {
    seq(|tags|, i requires 0 <= i < |tags| => if tags[i].id == tag.id then tag else tags[i])
  }

  function TagsWithout(tags: seq<Tag>, id: string): seq<Tag> {
    if tags == [] then []
    else TagsWithout(tags[..|tags| - 1], id) + if tags[|tags| - 1].id == id then [] else [tags[|tags| - 1]]
  }

  function Ungrouped(connections: seq<string>, tags: seq<Tag>): seq<string> {
    Outside(connections, set i, j | 0 <= i < |tags| && 0 <= j < |tags[i].connectionIds| :: tags[i].connectionIds[j])
  }

  function Resolve(order: seq<string>, tags: seq<Tag>, connections: seq<string>): Sidebar {
    Sidebar(Resolved(order, tags, connections), tags, connections)
  }

  /** The tag that the connection is in, as a token; `tag:` when it is in none. */
  function SourceToken(tags: seq<Tag>, id: string): string {
    if tags == [] then BuildTagToken("")
    else if id in tags[0].connectionIds then BuildTagToken(tags[0].id)
    else SourceToken(tags[1..], id)
  }

  function MoveConnectionToTag(s: Sidebar, id: string, targetTagId: string): Sidebar {
    var tags := Grouping(s.tags, OnlyIn(id, targetTagId));
    var next := Resolved(s.order, tags, s.connections);
    var token := BuildConnectionToken(id);
    if targetTagId != "" then Sidebar(Outside(next, {token}), tags, s.connections)
    else Resolve(InsertAfter(next, token, SourceToken(s.tags, id)), tags, s.connections)
  }

  function ReorderTheConnections(
      s: Sidebar, id: string, targetId: string, targetTagId: string, insertBefore: bool): Sidebar {
    if id == "" || targetId == "" || id == targetId then s
    else if targetTagId != "" then
      Resolve(s.order, Grouping(s.tags, NextToIn(id, targetId, targetTagId, insertBefore)), s.connections)
    else
      var tags := Grouping(s.tags, WithoutConnection(id));
      var ungrouped := PutNextTo(Ungrouped(Outside(s.connections, {id}), tags), id, targetId, insertBefore);
      Resolve(s.order, tags, Arrange(ungrouped, s.connections))
  }

  function RemoveTheConnection(s: Sidebar, id: string): Sidebar {
    Resolve(Outside(s.order, {BuildConnectionToken(id)}), Grouping(s.tags, WithoutConnection(id)),
            Outside(s.connections, {id}))
  }

  function AddTheTag(s: Sidebar, tag: Tag): Sidebar {
    Resolve(InsertBeforeUngrouped(CurrentOrder(s), BuildTagToken(tag.id)), s.tags + [tag], s.connections)
  }

  function RemoveTheTag(s: Sidebar, id: string): Sidebar {
    Resolve(Outside(s.order, {BuildTagToken(id)}), TagsWithout(s.tags, id), s.connections)
  }

  function Apply(s: Sidebar, a: Action): Sidebar {
    match a
    case AddConnection(id) => s.(connections := s.connections + [id])
    case RemoveConnection(id) => RemoveTheConnection(s, id)
    case ReplaceConnections(connections) => Resolve(s.order, s.tags, connections)
    case AddTag(tag) => AddTheTag(s, tag)
    case UpdateTag(tag) => Resolve(s.order, Updated(s.tags, tag), s.connections)
    case RemoveTag(id) => RemoveTheTag(s, id)
    case MoveToTag(id, targetTagId) => MoveConnectionToTag(s, id, targetTagId)
    case ReorderConnections(id, targetId, targetTagId, insertBefore) =>
      ReorderTheConnections(s, id, targetId, targetTagId, insertBefore)
    case ReorderTagIds(tagIds) => ReorderTags(s, tagIds)
    case ReorderRoot(source, target, insertBefore) => ReorderSidebarRoot(s, source, target, insertBefore)
  }

  /** Connections come with ids that are not blank, and a new tag with a new id that is trimmed and not blank. */
  ghost predicate Enabled(s: Sidebar, a: Action) {
    match a
    case AddConnection(id) => NotBlank(id)
    case ReplaceConnections(connections) => forall i :: 0 <= i < |connections| ==> NotBlank(connections[i])
    case AddTag(tag) => DistinctIds(s.tags + [tag]) && CleanIds([tag])
    case _ => true
  }

  /** The order has each token once, and those of the tags in the order of the tags. */
  ghost predicate Good(s: Sidebar) {
    IsSane(s) && Distinct(s.order) && AllClean(s.order) && TagsFollowOrder(s)
  }

  // What keeps the tags in the order of their tokens.

  lemma ResolvedIsClean(order: seq<string>, tags: seq<Tag>, connections: seq<string>)
    requires IsSane(Sidebar(order, tags, connections))
    ensures Distinct(Resolved(order, tags, connections)) && AllClean(Resolved(order, tags, connections))
  {
    CurrentOrderIsClean(Sidebar(order, tags, connections));
  }

  lemma ResolvedIsGood(order: seq<string>, tags: seq<Tag>, connections: seq<string>)
    requires AllTrimmed(order) && IsSane(Sidebar(order, tags, connections))
    ensures Good(Resolve(order, tags, connections)) <==> Arrange(order, TagTokens(tags)) == TagTokens(tags)
  {
    ResolvedIsClean(order, tags, connections);
    ResolvedTags(order, tags, connections);
  }

  lemma FollowedArranges(order: seq<string>, items: seq<string>)
    requires Distinct(order) && Within(order, Elements(items)) == items
    ensures Arrange(order, items) == items
  {
    WithinSpec(order, Elements(items));
    ArrangeByAll(order, items);
  }

  /** An action keeps the tags in order when it changes neither their tokens nor these tokens' places in the order. */
  lemma SameTagsStayGood(s: Sidebar, order: seq<string>, tags: seq<Tag>, connections: seq<string>)
    requires Good(s) && Distinct(order) && AllTrimmed(order) && IsSane(Sidebar(order, tags, connections))
    requires TagTokens(tags) == TagTokens(s.tags)
    requires Within(order, Elements(TagTokens(s.tags))) == Within(s.order, Elements(TagTokens(s.tags)))
    ensures Good(Resolve(order, tags, connections))
  {
    FollowedArranges(order, TagTokens(tags));
    ResolvedIsGood(order, tags, connections);
  }

  lemma SameIdsAreSane(tags: seq<Tag>, other: seq<Tag>)
    requires DistinctIds(tags) && CleanIds(tags)
    requires |other| == |tags| && forall i :: 0 <= i < |tags| ==> other[i].id == tags[i].id
    ensures DistinctIds(other) && CleanIds(other) && TagTokens(other) == TagTokens(tags)
  {
  }

  lemma ConnectionIsNoTag(tags: seq<Tag>, id: string)
    ensures BuildConnectionToken(id) !in Elements(TagTokens(tags))
  {
    var x := BuildConnectionToken(id);
    assert x[0] == CONNECTION[0];
    if x in TagTokens(tags) {
      TagTokenStart(tags, x);
    }
  }

  lemma OutsideIsClean(order: seq<string>, drop: set<string>)
    requires Distinct(order) && AllClean(order)
    ensures Distinct(Outside(order, drop)) && AllClean(Outside(order, drop))
  {
    OutsideSpec(order, drop);
    forall i | 0 <= i < |Outside(order, drop)| ensures IsClean(Outside(order, drop)[i]) {
      assert Outside(order, drop)[i] in order;
    }
  }

  lemma SaneWithout(s: Sidebar, order: seq<string>, tags: seq<Tag>, drop: set<string>)
    requires IsSane(s) && DistinctIds(tags) && CleanIds(tags)
    ensures IsSane(Sidebar(order, tags, Outside(s.connections, drop)))
  {
    OutsideSpec(s.connections, drop);
    var others := Outside(s.connections, drop);
    forall i | 0 <= i < |others| ensures NotBlank(others[i]) {
      assert others[i] in s.connections;
    }
  }

  lemma CleanIsTrimmed(order: seq<string>)
    requires AllClean(order)
    ensures AllTrimmed(order)
  {
  }

  /** Taking a connection's token out of the order. */
  lemma WithoutToken(s: Sidebar, id: string)
    requires Good(s)
    ensures var order := Outside(s.order, {BuildConnectionToken(id)});
            Distinct(order) && AllClean(order)
            && Within(order, Elements(TagTokens(s.tags))) == Within(s.order, Elements(TagTokens(s.tags)))
  {
    ConnectionIsNoTag(s.tags, id);
    OutsideIsClean(s.order, {BuildConnectionToken(id)});
    OutsideUnseen(s.order, BuildConnectionToken(id), Elements(TagTokens(s.tags)));
  }

  lemma RemoveConnectionStaysGood(s: Sidebar, id: string)
    requires Good(s)
    ensures Good(RemoveTheConnection(s, id))
  {
    var (order, tags) := (Outside(s.order, {BuildConnectionToken(id)}), Grouping(s.tags, WithoutConnection(id)));
    SameIdsAreSane(s.tags, tags);
    WithoutToken(s, id);
    CleanIsTrimmed(order);
    SaneWithout(s, order, tags, {id});
    SameTagsStayGood(s, order, tags, Outside(s.connections, {id}));
  }

  lemma UpdateTagStaysGood(s: Sidebar, tag: Tag)
    requires Good(s)
    ensures Good(Resolve(s.order, Updated(s.tags, tag), s.connections))
  {
    SameIdsAreSane(s.tags, Updated(s.tags, tag));
    SameTagsStayGood(s, s.order, Updated(s.tags, tag), s.connections);
  }

  lemma RegroupedStaysGood(s: Sidebar, idsOf: Tag -> seq<string>)
    requires Good(s)
    ensures Good(Resolve(s.order, Grouping(s.tags, idsOf), s.connections))
  {
    SameIdsAreSane(s.tags, Grouping(s.tags, idsOf));
    SameTagsStayGood(s, s.order, Grouping(s.tags, idsOf), s.connections);
  }

  lemma WithoutTokenStaysGood(s: Sidebar, id: string)
    requires Good(s)
    ensures Good(s.(order := Outside(s.order, {BuildConnectionToken(id)})))
  {
    WithoutToken(s, id);
  }

  /** The sidebar with the connections regrouped, before its order is changed. */
  function Regrouped(s: Sidebar, id: string, targetTagId: string): Sidebar {
    Resolve(s.order, Grouping(s.tags, OnlyIn(id, targetTagId)), s.connections)
  }

  lemma MoveIntoTagIs(s: Sidebar, id: string, targetTagId: string)
    requires targetTagId != ""
    ensures var next := Regrouped(s, id, targetTagId);
            MoveConnectionToTag(s, id, targetTagId)
            == next.(order := Outside(next.order, {BuildConnectionToken(id)}))
  {
  }

  lemma MoveIntoTagStaysGood(s: Sidebar, id: string, targetTagId: string)
    requires Good(s) && targetTagId != ""
    ensures Good(MoveConnectionToTag(s, id, targetTagId))
  {
    MoveIntoTagIs(s, id, targetTagId);
    RegroupedStaysGood(s, OnlyIn(id, targetTagId));
    WithoutTokenStaysGood(Regrouped(s, id, targetTagId), id);
  }

  lemma TrimmedAround(front: seq<string>, x: string, back: seq<string>)
    requires AllTrimmed(front + back) && JsTrim(x) == x
    ensures AllTrimmed(front + ([x] + back))
  {
    var all := front + ([x] + back);
    forall i | 0 <= i < |all| ensures JsTrim(all[i]) == all[i] {
      if i < |front| {
        assert all[i] == (front + back)[i];
      } else if i > |front| {
        assert all[i] == (front + back)[i - 1];
      }
    }
  }

  /** Putting a connection's token behind an anchor. */
  lemma WithTokenBehind(s: Sidebar, id: string, anchor: string)
    requires Good(s)
    ensures var order := InsertAfter(s.order, BuildConnectionToken(id), anchor);
            Distinct(order) && AllTrimmed(order)
            && Within(order, Elements(TagTokens(s.tags))) == Within(s.order, Elements(TagTokens(s.tags)))
  {
    var token := BuildConnectionToken(id);
    var front, back := InsertAfterSpec(s.order, token, anchor);
    WithoutToken(s, id);
    ConnectionIsNoTag(s.tags, id);
    StrangerUnseen(front, token, back, Elements(TagTokens(s.tags)));
    BuiltTokenIsTrimmed(CONNECTION, id);
    CleanIsTrimmed(front + back);
    TrimmedAround(front, token, back);
  }

  lemma WithTokenBehindStaysGood(s: Sidebar, id: string, anchor: string)
    requires Good(s)
    ensures Good(Resolve(InsertAfter(s.order, BuildConnectionToken(id), anchor), s.tags, s.connections))
  {
    WithTokenBehind(s, id, anchor);
    SameTagsStayGood(s, InsertAfter(s.order, BuildConnectionToken(id), anchor), s.tags, s.connections);
  }

  lemma MoveOutOfTagsIs(s: Sidebar, id: string)
    ensures var next := Regrouped(s, id, "");
            MoveConnectionToTag(s, id, "")
            == Resolve(InsertAfter(next.order, BuildConnectionToken(id), SourceToken(s.tags, id)), next.tags,
                       next.connections)
  {
  }

  lemma MoveOutOfTagsStaysGood(s: Sidebar, id: string)
    requires Good(s)
    ensures Good(MoveConnectionToTag(s, id, ""))
  {
    MoveOutOfTagsIs(s, id);
    RegroupedStaysGood(s, OnlyIn(id, ""));
    WithTokenBehindStaysGood(Regrouped(s, id, ""), id, SourceToken(s.tags, id));
  }

  lemma ArrangedNotBlank(order: seq<string>, connections: seq<string>)
    requires forall i :: 0 <= i < |connections| ==> NotBlank(connections[i])
    ensures var arranged := Arrange(order, connections); forall i :: 0 <= i < |arranged| ==> NotBlank(arranged[i])
  {
    NamedSpec(order, connections);
    OutsideSpec(connections, Elements(order));
    var arranged := Arrange(order, connections);
    forall i | 0 <= i < |arranged| ensures NotBlank(arranged[i]) {
      assert arranged[i] in connections;
    }
  }

  lemma ReorderConnectionsStaysGood(
      s: Sidebar, id: string, targetId: string, targetTagId: string, insertBefore: bool)
    requires Good(s)
    ensures Good(ReorderTheConnections(s, id, targetId, targetTagId, insertBefore))
  {
    if targetTagId != "" {
      RegroupedStaysGood(s, NextToIn(id, targetId, targetTagId, insertBefore));
    } else {
      var tags := Grouping(s.tags, WithoutConnection(id));
      var ungrouped := PutNextTo(Ungrouped(Outside(s.connections, {id}), tags), id, targetId, insertBefore);
      SameIdsAreSane(s.tags, tags);
      ArrangedNotBlank(ungrouped, s.connections);
      SameTagsStayGood(s, s.order, tags, Arrange(ungrouped, s.connections));
    }
  }

  lemma ReorderTagsIs(s: Sidebar, tagIds: seq<string>)
    ensures var after := ReorderTags(s, tagIds);
            after == Resolve(TokensFor(tagIds) + NotTags(CurrentOrder(s)), after.tags, s.connections)
  {
  }

  lemma ReorderTagIdsStaysGood(s: Sidebar, tagIds: seq<string>)
    requires Good(s)
    ensures Good(ReorderTags(s, tagIds))
  {
    var order := TokensFor(tagIds) + NotTags(CurrentOrder(s));
    ReorderTagsIsConsistent(s, tagIds);
    ReorderTagsIs(s, tagIds);
    ResolvedIsClean(order, ReorderTags(s, tagIds).tags, s.connections);
  }

  // Moving a root token.

  lemma PermutedTokens(tags: seq<Tag>, permuted: seq<Tag>)
    requires multiset(permuted) == multiset(tags)
    ensures Elements(TagTokens(permuted)) <= Elements(TagTokens(tags))
  {
    forall x | x in TagTokens(permuted) ensures x in TagTokens(tags) {
      var i :| 0 <= i < |permuted| && TagTokens(permuted)[i] == x;
      assert permuted[i] in multiset(permuted);
      assert permuted[i] in tags;
      var j :| 0 <= j < |tags| && tags[j] == permuted[i];
      assert TagTokens(tags)[j] == x;
    }
  }

  lemma GoodByTokens(after: Sidebar, tokens: seq<string>)
    requires IsSane(after) && Distinct(after.order) && AllClean(after.order)
    requires Elements(TagTokens(after.tags)) == Elements(tokens)
    ensures Good(after) <==> Within(after.order, Elements(tokens)) == TagTokens(after.tags)
  {
  }

  lemma ReorderedRoot(s: Sidebar, source: string, target: string, insertBefore: bool)
    requires Good(s)
    ensures var after := ReorderSidebarRoot(s, source, target, insertBefore);
            IsSane(after) && Distinct(after.order) && AllClean(after.order)
            && Elements(TagTokens(after.tags)) == Elements(TagTokens(s.tags))
  {
    var after := ReorderSidebarRoot(s, source, target, insertBefore);
    ReorderSidebarRootPermutes(s, source, target, insertBefore);
    ResolvedIsClean(MoveToken(CurrentOrder(s), source, target, insertBefore), s.tags, s.connections);
    PermutedTokens(s.tags, after.tags);
    PermutedTokens(after.tags, s.tags);
  }

  lemma ReorderRootGoodExactly(s: Sidebar, source: string, target: string, insertBefore: bool)
    requires Good(s)
    ensures Good(ReorderSidebarRoot(s, source, target, insertBefore))
       <==> JsTrim(source) == source || !PassesTags(s, source, target, insertBefore)
  {
    ReorderedRoot(s, source, target, insertBefore);
    GoodByTokens(ReorderSidebarRoot(s, source, target, insertBefore), TagTokens(s.tags));
    if JsTrim(source) == source {
      ReorderSidebarRootIsConsistent(s, source, target, insertBefore);
    } else {
      UntrimmedSourceDisagreesExactly(s, source, target, insertBefore);
    }
  }

  // Adding a tag.

  lemma CurrentIsGood(s: Sidebar)
    requires Good(s)
    ensures Good(s.(order := CurrentOrder(s)))
  {
    CleanIsTrimmed(s.order);
    SameTagsStayGood(s, s.order, s.tags, s.connections);
  }

  /** A tag token of the current order stands behind its first connection. */
  predicate HasTagBehindConnection(s: Sidebar) {
    var r := CurrentOrder(s);
    exists i :: FirstConnection(r) <= i < |r| && r[i] in TagTokens(s.tags)
  }

  lemma NewTokenIsNew(s: Sidebar, tag: Tag)
    requires IsSane(s) && DistinctIds(s.tags + [tag]) && CleanIds([tag])
    ensures IsSane(s.(tags := s.tags + [tag]))
    ensures TagTokens(s.tags + [tag]) == TagTokens(s.tags) + [BuildTagToken(tag.id)]
    ensures BuildTagToken(tag.id) !in TagTokens(s.tags) && BuildTagToken(tag.id) !in CurrentOrder(s)
  {
    var (x, tags) := (BuildTagToken(tag.id), s.tags + [tag]);
    assert CleanIds(tags) by {
      assert forall i :: 0 <= i < |tags| ==> tags[i] == if i < |s.tags| then s.tags[i] else [tag][0];
    }
    TokensMore(s.tags, tag);
    TokensAreDistinct(tags);
    forall i | 0 <= i < |s.tags| ensures TagTokens(s.tags)[i] != x {
      assert TagTokens(tags)[i] != TagTokens(tags)[|s.tags|];
    }
    assert x in TagTokens(tags) by {
      assert TagTokens(tags)[|s.tags|] == x;
    }
    TokenKindsDiffer(tags, s.connections, x);
    TagTokenIsNoConnection(tags, x, s.connections, GroupedConnections(s.tags));
    ResolvedListsDefaultTokens(s.order, s.tags, s.connections);
  }

  lemma TagTokenIsNoConnection(tags: seq<Tag>, x: string, connections: seq<string>, grouped: set<string>)
    requires x in TagTokens(tags)
    ensures x !in UngroupedTokens(connections, grouped)
  {
    TagTokenStart(tags, x);
    if x in UngroupedTokens(connections, grouped) {
      ConnectionTokenStart(connections, grouped, x);
    }
  }

  lemma EndsWith(f: seq<string>, x: string, b: seq<string>)
    requires x !in b
    ensures f + ([x] + b) == (f + b) + [x] <==> b == []
  {
    if b == [] {
      assert f + [] == f && [x] + [] == [x];
    } else {
      assert (f + ([x] + b))[|f|] == x && ((f + b) + [x])[|f|] == b[0];
    }
  }

  lemma WithinInserted(front: seq<string>, x: string, back: seq<string>, keep: set<string>)
    requires x !in front && x !in back
    ensures Within(front + ([x] + back), keep + {x}) == Within(front, keep) + ([x] + Within(back, keep))
  {
    var more := keep + {x};
    WithinOne(x, more);
    WithinJoin(front, [x] + back, more);
    WithinJoin([x], back, more);
    WithinSame(front, keep, more);
    WithinSame(back, keep, more);
  }

  /** Among the tag tokens a new one comes last exactly when none stands behind the place where it is put. */
  lemma InsertedComesLast(front: seq<string>, x: string, back: seq<string>, tokens: seq<string>)
    requires x !in front && x !in back && Within(front + back, Elements(tokens)) == tokens
    ensures Within(front + ([x] + back), Elements(tokens + [x])) == tokens + [x]
       <==> Within(back, Elements(tokens)) == []
  {
    var keep := Elements(tokens);
    ElementsMore(tokens, x);
    WithinInserted(front, x, back, keep);
    WithinJoin(front, back, keep);
    WithinSpec(back, keep);
    EndsWith(Within(front, keep), x, Within(back, keep));
  }

  lemma {:induction false} WithinSame(s: seq<string>, keep: set<string>, other: set<string>)
    requires forall x :: x in s ==> (x in keep <==> x in other)
    ensures Within(s, keep) == Within(s, other)
  {
    if s != [] {
      WithinSame(s[..|s| - 1], keep, other);
    }
  }

  /** The order with the new tag's token. */
  function WithTag(r: seq<string>, x: string): seq<string> {
    r[..FirstConnection(r)] + ([x] + r[FirstConnection(r)..])
  }

  lemma AddTagIs(s: Sidebar, tag: Tag)
    requires BuildTagToken(tag.id) !in CurrentOrder(s)
    ensures AddTheTag(s, tag)
         == Resolve(WithTag(CurrentOrder(s), BuildTagToken(tag.id)), s.tags + [tag], s.connections)
  {
  }

  lemma AddTagGoodExactly(s: Sidebar, tag: Tag)
    requires Good(s) && DistinctIds(s.tags + [tag]) && CleanIds([tag])
    ensures Good(AddTheTag(s, tag)) <==> !HasTagBehindConnection(s)
  {
    var (r, x, tokens) := (CurrentOrder(s), BuildTagToken(tag.id), TagTokens(s.tags));
    NewTokenIsNew(s, tag);
    AddTagIs(s, tag);
    InsertedTag(s, tag);
    ResolvedIsGood(WithTag(r, x), s.tags + [tag], s.connections);
    ArrangedWithTag(s, x);
  }

  lemma NoneBehind(r: seq<string>, k: nat, tokens: seq<string>)
    requires k <= |r|
    ensures Within(r[k..], Elements(tokens)) == [] <==> forall i :: k <= i < |r| ==> r[i] !in tokens
  {
    assert r[k..|r|] == r[k..];
    SomeSeen(r, k, |r|, tokens);
  }

  lemma LastExactly(r: seq<string>, k: nat, x: string, tokens: seq<string>)
    requires k <= |r| && x !in r && Within(r, Elements(tokens)) == tokens
    ensures Within(r[..k] + ([x] + r[k..]), Elements(tokens + [x])) == tokens + [x]
       <==> Within(r[k..], Elements(tokens)) == []
  {
    CutBehind(r, k);
    InsertedComesLast(r[..k], x, r[k..], tokens);
  }

  lemma ArrangedWithToken(r: seq<string>, x: string, tokens: seq<string>)
    requires x !in r && Distinct(WithTag(r, x)) && Within(r, Elements(tokens)) == tokens
    requires forall y :: y in tokens + [x] ==> y in WithTag(r, x)
    ensures Arrange(WithTag(r, x), tokens + [x]) == tokens + [x]
       <==> forall i :: FirstConnection(r) <= i < |r| ==> r[i] !in tokens
  {
    ArrangeByAll(WithTag(r, x), tokens + [x]);
    LastExactly(r, FirstConnection(r), x, tokens);
    NoneBehind(r, FirstConnection(r), tokens);
  }

  lemma CurrentFollows(s: Sidebar)
    requires Good(s)
    ensures Within(CurrentOrder(s), Elements(TagTokens(s.tags))) == TagTokens(s.tags)
  {
    CurrentIsGood(s);
  }

  lemma ArrangedWithTag(s: Sidebar, x: string)
    requires Good(s) && x !in CurrentOrder(s) && Distinct(WithTag(CurrentOrder(s), x))
    ensures Arrange(WithTag(CurrentOrder(s), x), TagTokens(s.tags) + [x]) == TagTokens(s.tags) + [x]
       <==> !HasTagBehindConnection(s)
  {
    CurrentFollows(s);
    AllTokensInserted(s, FirstConnection(CurrentOrder(s)), x);
    ArrangedWithToken(CurrentOrder(s), x, TagTokens(s.tags));
  }

  lemma InsertedTag(s: Sidebar, tag: Tag)
    requires Good(s) && DistinctIds(s.tags + [tag]) && CleanIds([tag])
    ensures var order := WithTag(CurrentOrder(s), BuildTagToken(tag.id)); Distinct(order) && AllTrimmed(order)
  {
    var (r, x) := (CurrentOrder(s), BuildTagToken(tag.id));
    var k := FirstConnection(r);
    NewTokenIsNew(s, tag);
    CurrentOrderIsClean(s);
    InsertInto(r, k, x);
    BuiltTokenIsTrimmed(TAG, tag.id);
    CutBehind(r, k);
    CleanIsTrimmed(r);
    TrimmedAround(r[..k], x, r[k..]);
  }

  lemma AllTokensInserted(s: Sidebar, k: nat, x: string)
    requires IsSane(s) && k <= |CurrentOrder(s)|
    ensures var r := CurrentOrder(s); forall y :: y in TagTokens(s.tags) + [x] ==> y in r[..k] + ([x] + r[k..])
  {
    var r := CurrentOrder(s);
    CurrentOrderIsClean(s);
    assert r == r[..k] + r[k..];
  }

  // Removing a tag.

  lemma {:induction false} FiltersCommute(s: seq<string>, x: string, keep: set<string>)
    ensures Within(Outside(s, {x}), keep) == Outside(Within(s, keep), {x})
  {
    if s != [] {
      var (before, last) := (s[..|s| - 1], s[|s| - 1]);
      FiltersCommute(before, x, keep);
      FilteredOnce(Outside(before, {x}), last, keep);
      FilteredOnce(before, last, keep);
      OutsideMore(Within(before, keep), last, {x});
    }
  }

  lemma FilteredOnce(s: seq<string>, x: string, keep: set<string>)
    ensures Within(s + [x], keep) == if x in keep then Within(s, keep) + [x] else Within(s, keep)
    ensures s + [] == s
  {
    WithinMore(s, x, keep);
  }

  lemma {:induction false} TagsWithoutMembers(tags: seq<Tag>, id: string, t: Tag)
    ensures t in TagsWithout(tags, id) <==> t in tags && t.id != id
  {
    if tags != [] {
      TagsWithoutMembers(tags[..|tags| - 1], id, t);
      assert tags == tags[..|tags| - 1] + [tags[|tags| - 1]];
    }
  }

  lemma {:induction false} TagsWithoutAreDistinct(tags: seq<Tag>, id: string)
    requires DistinctIds(tags)
    ensures DistinctIds(TagsWithout(tags, id))
  {
    if tags != [] {
      var (before, last) := (tags[..|tags| - 1], tags[|tags| - 1]);
      var others := TagsWithout(before, id);
      TagsWithoutAreDistinct(before, id);
      forall i | 0 <= i < |others| ensures others[i].id != last.id {
        TagsWithoutMembers(before, id, others[i]);
      }
    }
  }

  lemma TagsWithoutSpec(tags: seq<Tag>, id: string)
    requires DistinctIds(tags) && CleanIds(tags)
    ensures DistinctIds(TagsWithout(tags, id)) && CleanIds(TagsWithout(tags, id))
  {
    var others := TagsWithout(tags, id);
    TagsWithoutAreDistinct(tags, id);
    forall i | 0 <= i < |others| ensures others[i] in tags {
      TagsWithoutMembers(tags, id, others[i]);
    }
  }

  lemma TokensFront(tags: seq<Tag>)
    requires tags != []
    ensures TagTokens(tags) == TagTokens(tags[..|tags| - 1]) + [BuildTagToken(tags[|tags| - 1].id)]
  {
  }

  lemma {:induction false} TokensWithoutTag(tags: seq<Tag>, id: string)
    requires CleanIds(tags) && JsTrim(id) == id
    ensures TagTokens(TagsWithout(tags, id)) == Outside(TagTokens(tags), {BuildTagToken(id)})
  {
    if tags != [] {
      var (before, last) := (tags[..|tags| - 1], tags[|tags| - 1]);
      TokensWithoutTag(before, id);
      TokensFront(tags);
      OutsideMore(TagTokens(before), BuildTagToken(last.id), {BuildTagToken(id)});
      SameTokenSameId(last.id, id);
      TokensMore(TagsWithout(before, id), last);
      assert TagsWithout(before, id) + [] == TagsWithout(before, id);
    }
  }

  lemma SameTokenSameId(a: string, b: string)
    requires JsTrim(a) == a && JsTrim(b) == b
    ensures BuildTagToken(a) == BuildTagToken(b) <==> a == b
  {
    assert (TAG + a)[|TAG|..] == a && (TAG + b)[|TAG|..] == b;
  }

  lemma {:induction false} NoTagToRemove(tags: seq<Tag>, id: string)
    requires forall i :: 0 <= i < |tags| ==> tags[i].id != id
    ensures TagsWithout(tags, id) == tags
  {
    if tags != [] {
      NoTagToRemove(tags[..|tags| - 1], id);
      assert tags == tags[..|tags| - 1] + [tags[|tags| - 1]];
    }
  }

  /** The id has blanks around it, and without them it is that of a tag that is not the last. */
  predicate IsUntrimmedTagId(s: Sidebar, id: string) {
    JsTrim(id) != id && exists i :: 0 <= i < |s.tags| - 1 && s.tags[i].id == JsTrim(id)
  }

  lemma RemovedFollows(order: seq<string>, tokens: seq<string>, x: string)
    requires Within(order, Elements(tokens)) == tokens
    ensures Within(Outside(order, {x}), Elements(Outside(tokens, {x}))) == Outside(tokens, {x})
  {
    FiltersCommute(order, x, Elements(tokens));
    OutsideSpec(tokens, {x});
    OutsideSpec(order, {x});
    WithinSame(Outside(order, {x}), Elements(tokens), Elements(Outside(tokens, {x})));
  }

  lemma RemoveTrimmedTagStaysGood(s: Sidebar, id: string)
    requires Good(s) && JsTrim(id) == id
    ensures Good(RemoveTheTag(s, id))
  {
    var (x, tags, tokens) := (BuildTagToken(id), TagsWithout(s.tags, id), TagTokens(s.tags));
    var order := Outside(s.order, {x});
    TagsWithoutSpec(s.tags, id);
    TokensWithoutTag(s.tags, id);
    OutsideIsClean(s.order, {x});
    CleanIsTrimmed(order);
    RemovedFollows(s.order, tokens, x);
    FollowedArranges(order, TagTokens(tags));
    ResolvedIsGood(order, tags, s.connections);
  }

  lemma OthersNamed(order: seq<string>, items: seq<string>, x: string)
    requires Distinct(order) && Within(order, Elements(items)) == items
    ensures Within(Unique(Outside(order, {x})), Elements(items)) == Outside(items, {x})
    ensures forall y :: y in items ==> (y in Outside(order, {x}) <==> y != x)
  {
    OutsideSpec(order, {x});
    WithinSpec(order, Elements(items));
    FiltersCommute(order, x, Elements(items));
    UniqueSame(Outside(order, {x}));
  }

  /** Without one of its members, an order puts that one last. */
  lemma ArrangedWithout(order: seq<string>, items: seq<string>, k: nat)
    requires Distinct(order) && Distinct(items) && Within(order, Elements(items)) == items && k < |items|
    ensures Arrange(Outside(order, {items[k]}), items) == items <==> k == |items| - 1
  {
    var x := items[k];
    OthersNamed(order, items, x);
    OutsideAt(items, k);
    CutAt(items, k);
    DistinctSplit(items, k);
    LeftOver(items[..k], x, items[k + 1..], Outside(order, {x}));
    EndsWith(items[..k], x, items[k + 1..]);
  }

  lemma LeftOver(front: seq<string>, x: string, back: seq<string>, order: seq<string>)
    requires x !in order && forall y :: y in front + back ==> y in order
    ensures Outside(front + ([x] + back), Elements(order)) == [x]
  {
    OutsideJoin(front, [x] + back, Elements(order));
    OutsideJoin([x], back, Elements(order));
    AllDropped(front, back, order);
    OutsideAll([x], Elements(order));
  }

  lemma AllDropped(front: seq<string>, back: seq<string>, order: seq<string>)
    requires forall y :: y in front + back ==> y in order
    ensures Outside(front, Elements(order)) == [] && Outside(back, Elements(order)) == []
  {
    forall y | y in front || y in back ensures y in order {
      assert y in front + back;
    }
    OutsideNone(front, Elements(order));
    OutsideNone(back, Elements(order));
  }

  lemma RemoveUntrimmedIs(s: Sidebar, id: string)
    requires CleanIds(s.tags) && JsTrim(id) != id
    ensures RemoveTheTag(s, id) == Resolve(Outside(s.order, {BuildTagToken(id)}), s.tags, s.connections)
  {
    NoTagToRemove(s.tags, id);
  }

  lemma TokenOfUntrimmed(s: Sidebar, id: string, i: nat)
    requires IsSane(s) && i < |s.tags|
    ensures TagTokens(s.tags)[i] == BuildTagToken(id) <==> s.tags[i].id == JsTrim(id)
  {
    TrimTwice(id, JsSpace);
    SameTokenSameId(s.tags[i].id, JsTrim(id));
  }

  lemma RemoveUntrimmedGoodExactly(s: Sidebar, id: string)
    requires Good(s) && JsTrim(id) != id
    ensures Good(RemoveTheTag(s, id)) <==> !IsUntrimmedTagId(s, id)
  {
    var (x, tokens) := (BuildTagToken(id), TagTokens(s.tags));
    var order := Outside(s.order, {x});
    RemoveUntrimmedIs(s, id);
    OutsideIsClean(s.order, {x});
    CleanIsTrimmed(order);
    ResolvedIsGood(order, s.tags, s.connections);
    TokensAreDistinct(s.tags);
    forall i | 0 <= i < |s.tags| ensures tokens[i] == x <==> s.tags[i].id == JsTrim(id) {
      TokenOfUntrimmed(s, id, i);
    }
    if k :| 0 <= k < |tokens| && tokens[k] == x {
      ArrangedWithout(s.order, tokens, k);
    } else {
      OutsideUnseen(s.order, x, Elements(tokens));
      FollowedArranges(order, tokens);
    }
  }

  // Where a dragged connection lands.

  /** Right before or right behind the target, or at the end; the others keep their order. */
  lemma PutNextToSpec(ids: seq<string>, x: string, target: string, insertBefore: bool)
    returns (front: seq<string>, back: seq<string>)
    ensures ids == front + back && PutNextTo(ids, x, target, insertBefore) == front + ([x] + back)
    ensures if target !in ids then back == []
            else if insertBefore then back != [] && back[0] == target
            else front != [] && front[|front| - 1] == target
  {
    var k := IndexOf(ids, target);
    var at := if k == |ids| then k else if insertBefore then k else k + 1;
    front, back := ids[..at], ids[at..];
    CutBehind(ids, at);
  }

  /** Dragged into a tag, a connection lands next to its target there, and leaves all other tags. */
  lemma DraggedIntoTag(
      s: Sidebar, id: string, targetId: string, targetTagId: string, insertBefore: bool, i: nat)
    returns (front: seq<string>, back: seq<string>)
    requires id != "" && targetId != "" && id != targetId && targetTagId != "" && i < |s.tags|
    ensures var after := Apply(s, ReorderConnections(id, targetId, targetTagId, insertBefore));
            |after.tags| == |s.tags| && after.connections == s.connections
            && after.tags[i].(connectionIds := []) == s.tags[i].(connectionIds := [])
            && (s.tags[i].id != targetTagId ==> after.tags[i].connectionIds == Outside(s.tags[i].connectionIds, {id}))
            && (s.tags[i].id == targetTagId ==>
                  Outside(s.tags[i].connectionIds, {id}) == front + back
                  && after.tags[i].connectionIds == front + ([id] + back)
                  && (if targetId !in s.tags[i].connectionIds then back == []
                      else if insertBefore then back != [] && back[0] == targetId
                      else front != [] && front[|front| - 1] == targetId))
  {
    var others := Outside(s.tags[i].connectionIds, {id});
    OutsideSpec(s.tags[i].connectionIds, {id});
    front, back := PutNextToSpec(others, id, targetId, insertBefore);
  }

  /**
   Dragged out of all tags, a connection lands next to its target among those that are in none, and these come first;
   the others keep their order.
   */
  lemma DraggedOut(s: Sidebar, id: string, targetId: string, insertBefore: bool)
    returns (front: seq<string>, back: seq<string>, grouped: seq<string>)
    requires id != "" && targetId != "" && id != targetId && Distinct(s.connections) && id in s.connections
    ensures var after := Apply(s, ReorderConnections(id, targetId, "", insertBefore));
            var others := Ungrouped(Outside(s.connections, {id}), after.tags);
            after.connections == (front + ([id] + back)) + grouped && others == front + back
            && grouped == Outside(s.connections, Elements(others + [id]))
            && (if targetId !in others then back == []
                else if insertBefore then back != [] && back[0] == targetId
                else front != [] && front[|front| - 1] == targetId)
            && forall i :: 0 <= i < |after.tags| ==>
                 after.tags[i].connectionIds == Outside(s.tags[i].connectionIds, {id})
  {
    var tags := Grouping(s.tags, WithoutConnection(id));
    var others := Ungrouped(Outside(s.connections, {id}), tags);
    front, back := PutNextToSpec(others, id, targetId, insertBefore);
    var first := front + ([id] + back);
    grouped := Outside(s.connections, Elements(first));
    UngroupedSpec(s.connections, id, tags);
    OthersFirst(front, id, back, s.connections);
    assert Elements(first) == Elements(others + [id]);
  }

  lemma UngroupedSpec(connections: seq<string>, id: string, tags: seq<Tag>)
    requires Distinct(connections)
    ensures var others := Ungrouped(Outside(connections, {id}), tags);
            Distinct(others) && id !in others && forall x :: x in others ==> x in connections
  {
    OutsideSpec(connections, {id});
    OutsideSpec(Outside(connections, {id}),
                set i, j | 0 <= i < |tags| && 0 <= j < |tags[i].connectionIds| :: tags[i].connectionIds[j]);
  }

  lemma OthersFirst(front: seq<string>, x: string, back: seq<string>, connections: seq<string>)
    requires Distinct(front + back) && x !in front + back && x in connections
    requires forall y :: y in front + back ==> y in connections
    ensures var first := front + ([x] + back);
            Arrange(first, connections) == first + Outside(connections, Elements(first))
  {
    var first := front + ([x] + back);
    assert Distinct(first) by {
      assert (front + back)[..|front|] == front && (front + back)[|front|..] == back;
      InsertInto(front + back, |front|, x);
    }
    forall y | y in first ensures y in connections {
      assert y == x || y in front + back;
    }
    UniqueSame(first);
    WithinAll(first, Elements(connections));
  }

  // Every action, and every run.

  /**
   The actions that put a tag out of the order of its token: adding a tag when a tag stands behind the first
   connection, and removing a tag or moving a token under an id with blanks around it.
   */
  ghost predicate Misplaces(s: Sidebar, a: Action) {
    match a
    case AddTag(_) => HasTagBehindConnection(s)
    case RemoveTag(id) => IsUntrimmedTagId(s, id)
    case ReorderRoot(source, target, insertBefore) =>
      JsTrim(source) != source && PassesTags(s, source, target, insertBefore)
    case _ => false
  }

  lemma ConnectionsChanged(s: Sidebar, connections: seq<string>)
    requires Good(s) && forall i :: 0 <= i < |connections| ==> NotBlank(connections[i])
    ensures Good(s.(connections := connections)) && Good(Resolve(s.order, s.tags, connections))
  {
    CleanIsTrimmed(s.order);
    SameTagsStayGood(s, s.order, s.tags, connections);
  }

  /** Of all actions, exactly these lose the order of the tags. */
  lemma StepGoodExactly(s: Sidebar, a: Action)
    requires Good(s) && Enabled(s, a)
    ensures Good(Apply(s, a)) <==> !Misplaces(s, a)
  {
    match a
    case AddConnection(id) => ConnectionsChanged(s, s.connections + [id]);
    case RemoveConnection(id) => RemoveConnectionStaysGood(s, id);
    case ReplaceConnections(connections) => ConnectionsChanged(s, connections);
    case AddTag(tag) => AddTagGoodExactly(s, tag);
    case UpdateTag(tag) => UpdateTagStaysGood(s, tag);
    case RemoveTag(id) => RemoveTagGoodExactly(s, id);
    case MoveToTag(id, targetTagId) => MoveToTagStaysGood(s, id, targetTagId);
    case ReorderConnections(id, targetId, targetTagId, insertBefore) =>
      ReorderConnectionsStaysGood(s, id, targetId, targetTagId, insertBefore);
    case ReorderTagIds(tagIds) => ReorderTagIdsStaysGood(s, tagIds);
    case ReorderRoot(source, target, insertBefore) => ReorderRootGoodExactly(s, source, target, insertBefore);
  }

  lemma MoveToTagStaysGood(s: Sidebar, id: string, targetTagId: string)
    requires Good(s)
    ensures Good(MoveConnectionToTag(s, id, targetTagId))
  {
    if targetTagId == "" {
      MoveOutOfTagsStaysGood(s, id);
    } else {
      MoveIntoTagStaysGood(s, id, targetTagId);
    }
  }

  lemma RemoveTagGoodExactly(s: Sidebar, id: string)
    requires Good(s)
    ensures Good(RemoveTheTag(s, id)) <==> !IsUntrimmedTagId(s, id)
  {
    if JsTrim(id) == id {
      RemoveTrimmedTagStaysGood(s, id);
    } else {
      RemoveUntrimmedGoodExactly(s, id);
    }
  }

  function After(start: Sidebar, actions: seq<Action>): Sidebar {
    if actions == [] then start else Apply(After(start, actions[..|actions| - 1]), actions[|actions| - 1])
  }

  /** A run without the steps that misplace a tag. */
  ghost predicate IsOrderlyRun(start: Sidebar, actions: seq<Action>) {
    actions == []
    || (IsOrderlyRun(start, actions[..|actions| - 1])
        && Enabled(After(start, actions[..|actions| - 1]), actions[|actions| - 1])
        && !Misplaces(After(start, actions[..|actions| - 1]), actions[|actions| - 1]))
  }

  /** In every such run the tags stand in the order of their tokens, and no token is repeated. */
  lemma {:induction false} AlwaysGood(start: Sidebar, actions: seq<Action>)
    requires Good(start) && IsOrderlyRun(start, actions)
    ensures Good(After(start, actions))
  {
    if actions != [] {
      AlwaysGood(start, actions[..|actions| - 1]);
      StepGoodExactly(After(start, actions[..|actions| - 1]), actions[|actions| - 1]);
    }
  }

  // What the stored order lists.

  /** The stored order lists each tag and each connection that is in no tag, once. */
  ghost predicate ListsAll(s: Sidebar) {
    Distinct(s.order) && forall x :: x in s.order <==> x in DefaultOrder(s.tags, s.connections)
  }

  ghost predicate AreTrimmed(connections: seq<string>) {
    forall i :: 0 <= i < |connections| ==> NotBlank(connections[i]) && JsTrim(connections[i]) == connections[i]
  }

  predicate HasTag(tags: seq<Tag>, id: string) {
    exists i :: 0 <= i < |tags| && tags[i].id == id
  }

  /**
   The actions after which the stored order lacks a connection: adding one that is new and in no tag, and moving one
   into a tag that there is not, or under an id with blanks around it.
   */
  predicate Forgets(s: Sidebar, a: Action) {
    match a
    case AddConnection(id) => id !in GroupedConnections(s.tags) && BuildConnectionToken(id) !in s.order
    case MoveToTag(id, targetTagId) =>
      targetTagId != "" && JsTrim(id) in s.connections
      && if JsTrim(id) == id then !HasTag(s.tags, targetTagId) else JsTrim(id) !in GroupedConnections(s.tags)
    case _ => false
  }

  lemma ResolveListsAll(order: seq<string>, tags: seq<Tag>, connections: seq<string>)
    ensures ListsAll(Resolve(order, tags, connections))
  {
    ResolvedListsDefaultTokens(order, tags, connections);
  }

  lemma AddConnectionListsExactly(s: Sidebar, id: string)
    requires ListsAll(s)
    ensures ListsAll(Apply(s, AddConnection(id))) <==> !Forgets(s, AddConnection(id))
  {
    var (grouped, all) := (GroupedConnections(s.tags), s.connections + [id]);
    assert all[..|all| - 1] == s.connections;
    assert forall x :: x in DefaultOrder(s.tags, all) <==>
        x in DefaultOrder(s.tags, s.connections) || (id !in grouped && x == BuildConnectionToken(id));
  }

  lemma RegroupedHas(tags: seq<Tag>, id: string, targetTagId: string, x: string)
    requires x != ""
    ensures x in GroupedConnections(Grouping(tags, OnlyIn(id, targetTagId)))
       <==> if x == id then HasTag(tags, targetTagId) else x in GroupedConnections(tags)
  {
    var grouped := Grouping(tags, OnlyIn(id, targetTagId));
    forall i | 0 <= i < |tags|
      ensures x in grouped[i].connectionIds
         <==> if x == id then tags[i].id == targetTagId else x in tags[i].connectionIds
    {
      OutsideSpec(tags[i].connectionIds, {id});
    }
    GroupedMeans(tags, x);
    GroupedMeans(grouped, x);
  }

  lemma GroupedMeans(tags: seq<Tag>, x: string)
    requires x != ""
    ensures x in GroupedConnections(tags) <==> exists i :: 0 <= i < |tags| && x in tags[i].connectionIds
  {
    if i :| 0 <= i < |tags| && x in tags[i].connectionIds {
      var j :| 0 <= j < |tags[i].connectionIds| && tags[i].connectionIds[j] == x;
    }
  }

  lemma {:induction false} UngroupedHas(connections: seq<string>, grouped: set<string>, id: string)
    requires AreTrimmed(connections)
    ensures BuildConnectionToken(id) in UngroupedTokens(connections, grouped)
       <==> JsTrim(id) in connections && JsTrim(id) !in grouped
  {
    if connections != [] {
      var (before, last) := (connections[..|connections| - 1], connections[|connections| - 1]);
      UngroupedHas(before, grouped, id);
      assert connections == before + [last];
      SameConnection(last, id);
    }
  }

  lemma SameConnection(a: string, b: string)
    requires JsTrim(a) == a
    ensures BuildConnectionToken(a) == BuildConnectionToken(b) <==> a == JsTrim(b)
  {
    assert (CONNECTION + a)[|CONNECTION|..] == a && (CONNECTION + JsTrim(b))[|CONNECTION|..] == JsTrim(b);
  }

  lemma MoveIntoTagListsExactly(s: Sidebar, id: string, targetTagId: string)
    requires AreTrimmed(s.connections) && targetTagId != ""
    ensures ListsAll(MoveConnectionToTag(s, id, targetTagId)) <==> !Forgets(s, MoveToTag(id, targetTagId))
  {
    var (next, token) := (Regrouped(s, id, targetTagId), BuildConnectionToken(id));
    MoveIntoTagIs(s, id, targetTagId);
    ResolveListsAll(s.order, next.tags, s.connections);
    OutsideSpec(next.order, {token});
    ConnectionIsNoTag(next.tags, id);
    UngroupedHas(s.connections, GroupedConnections(next.tags), id);
    if JsTrim(id) in s.connections {
      RegroupedHas(s.tags, id, targetTagId, JsTrim(id));
    }
  }

  lemma PermutedGroups(tags: seq<Tag>, permuted: seq<Tag>)
    requires multiset(permuted) == multiset(tags)
    ensures GroupedConnections(permuted) <= GroupedConnections(tags)
  {
    forall x | x in GroupedConnections(permuted) ensures x in GroupedConnections(tags) {
      GroupedMeans(permuted, x);
      var i :| 0 <= i < |permuted| && x in permuted[i].connectionIds;
      assert permuted[i] in multiset(permuted);
      var j :| 0 <= j < |tags| && tags[j] == permuted[i];
      GroupedMeans(tags, x);
    }
  }

  lemma ReorderRootListsAll(s: Sidebar, source: string, target: string, insertBefore: bool)
    requires IsSane(s)
    ensures ListsAll(ReorderSidebarRoot(s, source, target, insertBefore))
  {
    var after := ReorderSidebarRoot(s, source, target, insertBefore);
    ReorderSidebarRootPermutes(s, source, target, insertBefore);
    PermutedTokens(s.tags, after.tags);
    PermutedTokens(after.tags, s.tags);
    PermutedGroups(s.tags, after.tags);
    PermutedGroups(after.tags, s.tags);
    ResolveListsAll(MoveToken(CurrentOrder(s), source, target, insertBefore), s.tags, s.connections);
    SameDefault(s.tags, after.tags, s.connections);
  }

  lemma SameDefault(tags: seq<Tag>, other: seq<Tag>, connections: seq<string>)
    requires Elements(TagTokens(other)) == Elements(TagTokens(tags))
    requires GroupedConnections(other) == GroupedConnections(tags)
    ensures forall x :: x in DefaultOrder(other, connections) <==> x in DefaultOrder(tags, connections)
  {
    forall x ensures x in TagTokens(other) <==> x in TagTokens(tags) {
      assert x in Elements(TagTokens(other)) <==> x in Elements(TagTokens(tags));
    }
  }

  /**
   Of all actions, exactly these leave a stored order that lacks something; the next one that resolves the order mends
   it, and so does every reader.
   */
  lemma StepListsExactly(s: Sidebar, a: Action)
    requires IsSane(s) && AreTrimmed(s.connections) && ListsAll(s)
    ensures ListsAll(Apply(s, a)) <==> !Forgets(s, a)
  {
    match a
    case AddConnection(id) => AddConnectionListsExactly(s, id);
    case RemoveConnection(id) =>
      ResolveListsAll(Outside(s.order, {BuildConnectionToken(id)}), Grouping(s.tags, WithoutConnection(id)),
                      Outside(s.connections, {id}));
    case ReplaceConnections(connections) => ResolveListsAll(s.order, s.tags, connections);
    case AddTag(tag) =>
      ResolveListsAll(InsertBeforeUngrouped(CurrentOrder(s), BuildTagToken(tag.id)), s.tags + [tag], s.connections);
    case UpdateTag(tag) => ResolveListsAll(s.order, Updated(s.tags, tag), s.connections);
    case RemoveTag(id) =>
      ResolveListsAll(Outside(s.order, {BuildTagToken(id)}), TagsWithout(s.tags, id), s.connections);
    case MoveToTag(id, targetTagId) => MoveToTagListsExactly(s, id, targetTagId);
    case ReorderConnections(id, targetId, targetTagId, insertBefore) =>
      ReorderConnectionsListsAll(s, id, targetId, targetTagId, insertBefore);
    case ReorderTagIds(tagIds) =>
      ReorderTagsIs(s, tagIds);
      ResolveListsAll(TokensFor(tagIds) + NotTags(CurrentOrder(s)), ReorderTags(s, tagIds).tags, s.connections);
    case ReorderRoot(source, target, insertBefore) => ReorderRootListsAll(s, source, target, insertBefore);
  }

  lemma MoveToTagListsExactly(s: Sidebar, id: string, targetTagId: string)
    requires AreTrimmed(s.connections)
    ensures ListsAll(MoveConnectionToTag(s, id, targetTagId)) <==> !Forgets(s, MoveToTag(id, targetTagId))
  {
    if targetTagId == "" {
      var next := Regrouped(s, id, "");
      MoveOutOfTagsIs(s, id);
      ResolveListsAll(InsertAfter(next.order, BuildConnectionToken(id), SourceToken(s.tags, id)), next.tags,
                      next.connections);
    } else {
      MoveIntoTagListsExactly(s, id, targetTagId);
    }
  }

  lemma ReorderConnectionsListsAll(
      s: Sidebar, id: string, targetId: string, targetTagId: string, insertBefore: bool)
    requires ListsAll(s)
    ensures ListsAll(ReorderTheConnections(s, id, targetId, targetTagId, insertBefore))
  {
    var tags := Grouping(s.tags, WithoutConnection(id));
    var ungrouped := PutNextTo(Ungrouped(Outside(s.connections, {id}), tags), id, targetId, insertBefore);
    ResolveListsAll(s.order, Grouping(s.tags, NextToIn(id, targetId, targetTagId, insertBefore)), s.connections);
    ResolveListsAll(s.order, tags, Arrange(ungrouped, s.connections));
  }

  // A tag that is misplaced.

  /** A connection before a tag, as moving it there leaves them. */
  function ConnectionFirst(): Sidebar {
    Sidebar(["connection:x", "tag:a"], [Tag("a", "", [])], ["x"])
  }

  lemma ConnectionFirstTokens()
    ensures var s := ConnectionFirst();
            TagTokens(s.tags) == ["tag:a"] && DefaultOrder(s.tags, s.connections) == ["tag:a", "connection:x"]
    ensures IsSane(ConnectionFirst()) && AllClean(ConnectionFirst().order) && Distinct(ConnectionFirst().order)
  {
    var s := ConnectionFirst();
    TrimSpec("a", JsSpace);
    TrimSpec("x", JsSpace);
    BuiltTokenIsClean("a");
    BuiltTokenIsClean("x");
    assert BuildTagToken("a") == "tag:" + "a" == "tag:a";
    assert BuildConnectionToken("x") == "connection:" + "x" == "connection:x";
    assert "tag:a"[0] != "connection:x"[0];
    assert GroupedConnections(s.tags) == {};
    assert UngroupedTokens([], {}) == [] && s.connections[..0] == [];
    assert UngroupedTokens(s.connections, {}) == [] + ["connection:x"];
    assert DefaultOrder(s.tags, s.connections) == ["tag:a"] + ["connection:x"];
  }

  lemma ConnectionFirstOrder()
    ensures CurrentOrder(ConnectionFirst()) == ConnectionFirst().order
  {
    var s := ConnectionFirst();
    ConnectionFirstTokens();
    assert "tag:a"[0] != "connection:x"[0];
    SanitizedClean(s.order);
    UniqueSame(DefaultOrder(s.tags, s.connections));
    ArrangeSame(s.order, DefaultOrder(s.tags, s.connections));
  }

  lemma SecondOfTwo(x: string, y: string, keep: set<string>)
    requires x !in keep && y in keep
    ensures Within([x, y], keep) == [y]
  {
    assert [x, y] == [x] + [y];
    WithinJoin([x], [y], keep);
    WithinOne(x, keep);
    WithinOne(y, keep);
  }

  lemma ConnectionFirstIsGood()
    ensures Good(ConnectionFirst())
  {
    var s := ConnectionFirst();
    ConnectionFirstTokens();
    assert "tag:a"[0] != "connection:x"[0];
    assert s.order == ["connection:x", "tag:a"];
    SecondOfTwo("connection:x", "tag:a", Elements(TagTokens(s.tags)));
  }

  lemma ConnectionFirstHasTagBehind()
    ensures HasTagBehindConnection(ConnectionFirst())
  {
    var s := ConnectionFirst();
    ConnectionFirstTokens();
    ConnectionFirstOrder();
    assert IsConnectionToken("connection:x");
    assert FirstConnection(s.order) == 0;
    assert s.order[1] in TagTokens(s.tags);
  }

  lemma TagBIsNew()
    ensures DistinctIds(ConnectionFirst().tags + [Tag("b", "", [])]) && CleanIds([Tag("b", "", [])])
  {
    TrimSpec("b", JsSpace);
    assert "a"[0] != "b"[0];
  }

  /** Adding a tag there puts its token before that of the other tag, but the tag behind it. */
  lemma AddedTagIsMisplaced()
    ensures var (s, add) := (ConnectionFirst(), AddTag(Tag("b", "", [])));
            Good(s) && Enabled(s, add) && !Good(Apply(s, add))
  {
    ConnectionFirstIsGood();
    ConnectionFirstHasTagBehind();
    TagBIsNew();
    AddTagGoodExactly(ConnectionFirst(), Tag("b", "", []));
  }
}
