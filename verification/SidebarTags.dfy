/** Reordering the sidebar: the tag list follows the order of the tag tokens. */
module SidebarTags {
  import opened Text
  import opened Arrangements
  import opened Permutations
  import opened SidebarOrder
  import opened SidebarActions

  /** Where the tag with an id stands, or the length of the list. */
  function FindTag(tags: seq<Tag>, id: string): (k: nat)
    ensures k <= |tags|
    ensures k < |tags| ==> tags[k].id == id
  {
    if tags == [] then 0
    else if tags[0].id == id then 0
    else 1 + FindTag(tags[1..], id)
  }

  /** A map from ids to tags that keeps the order in which ids were first put in. */
  function PutTag(tagMap: seq<Tag>, tag: Tag): seq<Tag> {
    var k := FindTag(tagMap, tag.id);
    if k < |tagMap| then tagMap[k := tag] else tagMap + [tag]
  }

  function TagMap(tags: seq<Tag>, n: nat): seq<Tag>
    requires n <= |tags|
  {
    if n == 0 then [] else PutTag(TagMap(tags, n - 1), tags[n - 1])
  }

  /** The tags picked by the first tokens of an order, and those left. */
  datatype Picked = Picked(ordered: seq<Tag>, left: seq<Tag>)

  function Pick(now: Picked, token: string): Picked {
    if !IsTagToken(token) then now
    else
      var k := FindTag(now.left, token[|TAG|..]);
      if k < |now.left| then Picked(now.ordered + [now.left[k]], now.left[..k] + now.left[k + 1..]) else now
  }

  function PickFirst(tags: seq<Tag>, order: seq<string>, n: nat): Picked
    requires n <= |order|
  {
    if n == 0 then Picked([], TagMap(tags, |tags|)) else Pick(PickFirst(tags, order, n - 1), order[n - 1])
  }

  function TagsInOrder(tags: seq<Tag>, order: seq<string>): seq<Tag> {
    var picked := PickFirst(tags, order, |order|);
    picked.ordered + picked.left
  }

  method OrderConnectionTagsBySidebarRootOrder(tags: seq<Tag>, order: seq<string>) returns (ordered: seq<Tag>)
    ensures ordered == TagsInOrder(tags, order)
  {
    var tagMap := TagMap(tags, |tags|);
    ordered := [];
    for i := 0 to |order|
      invariant Picked(ordered, tagMap) == PickFirst(tags, order, i)
    {
      if !IsTagToken(order[i]) {
        continue;
      }
      var k := FindTag(tagMap, order[i][|TAG|..]);
      if k == |tagMap| {
        continue;
      }
      ordered := ordered + [tagMap[k]];
      tagMap := tagMap[..k] + tagMap[k + 1..];
    }
    ordered := ordered + tagMap;
  }

  ghost predicate DistinctIds(tags: seq<Tag>) {
    forall i, j :: 0 <= i < j < |tags| ==> tags[i].id != tags[j].id
  }

  /** Ids are as the store keeps them: trimmed and not blank. */
  ghost predicate CleanIds(tags: seq<Tag>) {
    forall i :: 0 <= i < |tags| ==> tags[i].id != "" && JsTrim(tags[i].id) == tags[i].id
  }

  lemma {:induction false} TagMapOfDistinct(tags: seq<Tag>, n: nat)
    requires DistinctIds(tags) && n <= |tags|
    ensures TagMap(tags, n) == tags[..n]
  {
    if n > 0 {
      TagMapOfDistinct(tags, n - 1);
      var before := tags[..n - 1];
      forall i | 0 <= i < |before| ensures before[i].id != tags[n - 1].id {
      }
    }
  }

  lemma PickPermutes(p: Picked, token: string)
    ensures multiset(Pick(p, token).ordered) + multiset(Pick(p, token).left) == multiset(p.ordered) + multiset(p.left)
  {
    if IsTagToken(token) && FindTag(p.left, token[|TAG|..]) < |p.left| {
      CutOne(p.left, FindTag(p.left, token[|TAG|..]));
    }
  }

  /** No tag is lost or doubled. */
  lemma {:induction false} PickingPermutes(tags: seq<Tag>, order: seq<string>, n: nat)
    requires DistinctIds(tags) && n <= |order|
    ensures var p := PickFirst(tags, order, n); multiset(p.ordered) + multiset(p.left) == multiset(tags)
  {
    if n == 0 {
      TagMapOfDistinct(tags, |tags|);
      assert tags[..|tags|] == tags;
    } else {
      PickingPermutes(tags, order, n - 1);
      PickPermutes(PickFirst(tags, order, n - 1), order[n - 1]);
    }
  }

  lemma TagsInOrderPermute(tags: seq<Tag>, order: seq<string>)
    requires DistinctIds(tags)
    ensures multiset(TagsInOrder(tags, order)) == multiset(tags)
  {
    PickingPermutes(tags, order, |order|);
  }

  // The tokens of the picked tags.

  lemma {:induction false} FindTagFinds(tags: seq<Tag>, id: string, i: nat)
    requires i < |tags| && tags[i].id == id
    ensures FindTag(tags, id) < |tags|
  {
    if tags[0].id != id {
      FindTagFinds(tags[1..], id, i - 1);
    }
  }

  lemma TokenOfId(tag: Tag, token: string)
    requires tag.id != "" && JsTrim(tag.id) == tag.id
    ensures BuildTagToken(tag.id) == token <==> IsTagToken(token) && token[|TAG|..] == tag.id
  {
    if IsTagToken(token) {
      assert token == TAG + token[|TAG|..];
    }
    assert (TAG + tag.id)[|TAG|..] == tag.id;
  }

  /** A token picks a tag exactly when it is the token of one that is left, and then it picks that one. */
  lemma TokenFindsTag(tags: seq<Tag>, token: string)
    requires CleanIds(tags)
    ensures token in TagTokens(tags) <==> IsTagToken(token) && FindTag(tags, token[|TAG|..]) < |tags|
    ensures token in TagTokens(tags) ==> TagTokens(tags)[FindTag(tags, token[|TAG|..])] == token
  {
    if token in TagTokens(tags) {
      var i :| 0 <= i < |tags| && TagTokens(tags)[i] == token;
      TokenOfId(tags[i], token);
      FindTagFinds(tags, tags[i].id, i);
    }
    if IsTagToken(token) && FindTag(tags, token[|TAG|..]) < |tags| {
      var k := FindTag(tags, token[|TAG|..]);
      TokenOfId(tags[k], token);
      assert TagTokens(tags)[k] == token;
    }
  }

  lemma {:induction false} OutsideMany(s: seq<string>, drop: set<string>, x: string)
    ensures Outside(Outside(s, drop), {x}) == Outside(s, drop + {x})
  {
    if s != [] {
      var (before, last) := (s[..|s| - 1], s[|s| - 1]);
      OutsideMany(before, drop, x);
      if last !in drop {
        OutsideMore(Outside(before, drop), last, {x});
      } else {
        assert Outside(before, drop) + [] == Outside(before, drop);
      }
    }
  }

  lemma OutsideMiddle(front: seq<string>, x: string, back: seq<string>)
    requires x !in front && x !in back
    ensures Outside(front + ([x] + back), {x}) == front + back
  {
    OutsideJoin(front, [x] + back, {x});
    OutsideJoin([x], back, {x});
    OutsideAll(front, {x});
    OutsideAll(back, {x});
    OutsideNone([x], {x});
    assert [] + back == back;
  }

  lemma CutAt(s: seq<string>, k: nat)
    requires k < |s|
    ensures s == s[..k] + ([s[k]] + s[k + 1..])
  {
  }

  lemma DistinctSplit(s: seq<string>, k: nat)
    requires Distinct(s) && k < |s|
    ensures s[k] !in s[..k] && s[k] !in s[k + 1..]
  {
  }

  lemma OutsideAt(s: seq<string>, k: nat)
    requires Distinct(s) && k < |s|
    ensures Outside(s, {s[k]}) == s[..k] + s[k + 1..]
  {
    var (front, back) := (s[..k], s[k + 1..]);
    DistinctSplit(s, k);
    CutAt(s, k);
    OutsideMiddle(front, s[k], back);
  }

  /** What has been picked, and what is left, in terms of the tokens alone. */
  ghost predicate IsPickedBy(p: Picked, tokens: seq<string>, seen: seq<string>) {
    TagTokens(p.ordered) == Within(seen, Elements(tokens)) && TagTokens(p.left) == Outside(tokens, Elements(seen))
    && CleanIds(p.left)
  }

  lemma TokensWithout(tags: seq<Tag>, k: nat)
    requires k < |tags| && Distinct(TagTokens(tags))
    ensures TagTokens(tags[..k] + tags[k + 1..]) == Outside(TagTokens(tags), {TagTokens(tags)[k]})
  {
    OutsideAt(TagTokens(tags), k);
    var tokens := TagTokens(tags);
    assert TagTokens(tags[..k] + tags[k + 1..]) == tokens[..k] + tokens[k + 1..];
  }

  lemma WithinMore(s: seq<string>, x: string, keep: set<string>)
    ensures Within(s + [x], keep) == if x in keep then Within(s, keep) + [x] else Within(s, keep)
  {
    WithinJoin(s, [x], keep);
    WithinOne(x, keep);
    assert Within(s, keep) + [] == Within(s, keep);
  }

  lemma TokensMore(tags: seq<Tag>, tag: Tag)
    ensures TagTokens(tags + [tag]) == TagTokens(tags) + [BuildTagToken(tag.id)]
  {
  }

  lemma ElementsMore(s: seq<string>, x: string)
    ensures Elements(s + [x]) == Elements(s) + {x}
  {
  }

  lemma LeftWithout(left: seq<Tag>, k: nat, tokens: seq<string>, seen: seq<string>, x: string)
    requires TagTokens(left) == Outside(tokens, Elements(seen)) && CleanIds(left)
    requires Distinct(tokens) && k < |left| && TagTokens(left)[k] == x
    ensures TagTokens(left[..k] + left[k + 1..]) == Outside(tokens, Elements(seen + [x]))
    ensures CleanIds(left[..k] + left[k + 1..])
  {
    OutsideSpec(tokens, Elements(seen));
    TokensWithout(left, k);
    OutsideOneMoreSeen(tokens, seen, x);
    CleanWithout(left, k);
  }

  lemma OutsideOneMoreSeen(tokens: seq<string>, seen: seq<string>, x: string)
    ensures Outside(Outside(tokens, Elements(seen)), {x}) == Outside(tokens, Elements(seen + [x]))
  {
    OutsideMany(tokens, Elements(seen), x);
    ElementsMore(seen, x);
  }

  lemma CleanWithout(left: seq<Tag>, k: nat)
    requires CleanIds(left) && k < |left|
    ensures CleanIds(left[..k] + left[k + 1..])
  {
  }

  lemma PickedMore(p: Picked, k: nat, tokens: seq<string>, seen: seq<string>, x: string)
    requires IsPickedBy(p, tokens, seen) && Distinct(tokens) && k < |p.left| && TagTokens(p.left)[k] == x && x in tokens
    ensures IsPickedBy(Picked(p.ordered + [p.left[k]], p.left[..k] + p.left[k + 1..]), tokens, seen + [x])
  {
    WithinMore(seen, x, Elements(tokens));
    TokensMore(p.ordered, p.left[k]);
    LeftWithout(p.left, k, tokens, seen, x);
  }

  lemma {:induction false} OutsideSame(s: seq<string>, drop: set<string>, other: set<string>)
    requires forall x :: x in s ==> (x in drop <==> x in other)
    ensures Outside(s, drop) == Outside(s, other)
  {
    if s != [] {
      OutsideSame(s[..|s| - 1], drop, other);
    }
  }

  lemma PickedNothing(p: Picked, tokens: seq<string>, seen: seq<string>, x: string)
    requires IsPickedBy(p, tokens, seen) && x !in tokens
    ensures IsPickedBy(p, tokens, seen + [x])
  {
    WithinMore(seen, x, Elements(tokens));
    OutsideSame(tokens, Elements(seen), Elements(seen + [x]));
  }

  lemma NothingPicked(tags: seq<Tag>)
    requires DistinctIds(tags) && CleanIds(tags)
    ensures IsPickedBy(Picked([], TagMap(tags, |tags|)), TagTokens(tags), [])
  {
    TagMapOfDistinct(tags, |tags|);
    assert tags[..|tags|] == tags;
    OutsideAll(TagTokens(tags), Elements([]));
  }

  lemma {:induction false} PickingFollowsTokens(tags: seq<Tag>, order: seq<string>, n: nat)
    requires DistinctIds(tags) && CleanIds(tags) && Distinct(TagTokens(tags)) && n <= |order|
    ensures IsPickedBy(PickFirst(tags, order, n), TagTokens(tags), UniqueFirst(order, n))
  {
    var tokens := TagTokens(tags);
    if n == 0 {
      NothingPicked(tags);
    } else {
      PickingFollowsTokens(tags, order, n - 1);
      PickStep(PickFirst(tags, order, n - 1), tokens, UniqueFirst(order, n - 1), order[n - 1]);
    }
  }

  /** One token of the order, seen before or not. */
  lemma PickStep(p: Picked, tokens: seq<string>, seen: seq<string>, x: string)
    requires IsPickedBy(p, tokens, seen) && Distinct(tokens)
    ensures IsPickedBy(Pick(p, x), tokens, if x in seen then seen else seen + [x])
  {
    TokenFindsTag(p.left, x);
    OutsideSpec(tokens, Elements(seen));
    if x in TagTokens(p.left) {
      PickedMore(p, FindTag(p.left, x[|TAG|..]), tokens, seen, x);
    } else if x !in seen {
      PickedNothing(p, tokens, seen, x);
    }
  }

  lemma TokensAreDistinct(tags: seq<Tag>)
    requires DistinctIds(tags) && CleanIds(tags)
    ensures Distinct(TagTokens(tags))
  {
    forall i, j | 0 <= i < j < |tags| ensures TagTokens(tags)[i] != TagTokens(tags)[j] {
      TokenOfId(tags[i], TagTokens(tags)[i]);
      TokenOfId(tags[j], TagTokens(tags)[j]);
    }
  }

  /** The ordered tags have the tokens of the tags, arranged by the order. */
  lemma TagsFollowTokens(tags: seq<Tag>, order: seq<string>)
    requires DistinctIds(tags) && CleanIds(tags)
    ensures TagTokens(TagsInOrder(tags, order)) == Arrange(order, TagTokens(tags))
  {
    TokensAreDistinct(tags);
    PickingFollowsTokens(tags, order, |order|);
    var p := PickFirst(tags, order, |order|);
    assert TagTokens(p.ordered + p.left) == TagTokens(p.ordered) + TagTokens(p.left);
    UniqueSpec(order);
  }
}
