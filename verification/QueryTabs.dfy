/**
 The query tabs that a session starts from: what was persisted, under ids made distinct, and the active one among
 them. The ids are made distinct by a suffix that is not checked again.
 */
module QueryTabs {
  import opened Text
  import opened Permutations
  import opened Tabs

  /** A persisted tab: dropped when it is no query tab or has nothing in it. An id that is missing is empty. */
  datatype Persisted<V> = Dropped | Query(id: string, tab: Tab<V>)

  /** A tab that is kept, with its number in the persisted list. */
  datatype Entry<V> = Entry(id: string, number: nat, tab: Tab<V>)

  const MAX_PERSISTED_QUERY_TABS := 20

  function EntryOf<V>(id: string, number: nat, tab: Tab<V>): (e: Entry<V>)
    ensures e.id != ""
  {
    Entry(if JsTrim(id) != "" then JsTrim(id) else "query-" + Decimal(number), number, tab)
  }

  /** The tabs kept among the first `n`. */
  function Entries<V>(persisted: seq<Persisted<V>>, n: nat): seq<Entry<V>>
    requires n <= |persisted|
  {
    if n == 0 then []
    else
      match persisted[n - 1]
      case Dropped => Entries(persisted, n - 1)
      case Query(id, tab) => Entries(persisted, n - 1) + [EntryOf(id, n, tab)]
  }

  ghost predicate Numbered<V>(entries: seq<Entry<V>>) {
    forall i, j :: 0 <= i < j < |entries| ==> entries[i].number < entries[j].number
  }

  ghost predicate UpTo<V>(entries: seq<Entry<V>>, n: nat) {
    forall i :: 0 <= i < |entries| ==> entries[i].id != "" && entries[i].number <= n
  }

  lemma NumberedMore<V>(entries: seq<Entry<V>>, e: Entry<V>)
    requires Numbered(entries) && e.number > 0 && UpTo(entries, e.number - 1) && e.id != ""
    ensures Numbered(entries + [e]) && UpTo(entries + [e], e.number)
  {
  }

  lemma {:induction false} EntriesAreNumbered<V>(persisted: seq<Persisted<V>>, n: nat)
    requires n <= |persisted|
    ensures Numbered(Entries(persisted, n)) && UpTo(Entries(persisted, n), n)
  {
    if n > 0 {
      EntriesAreNumbered(persisted, n - 1);
      match persisted[n - 1]
      case Dropped =>
      case Query(id, tab) => NumberedMore(Entries(persisted, n - 1), EntryOf(id, n, tab));
    }
  }

  lemma {:induction false} EntriesGrow<V>(persisted: seq<Persisted<V>>, n: nat, m: nat)
    requires n <= m <= |persisted|
    ensures Entries(persisted, n) <= Entries(persisted, m)
  {
    if n < m {
      EntriesGrow(persisted, n, m - 1);
    }
  }

  function Suffixed<V>(e: Entry<V>): string {
    e.id + "-" + Decimal(e.number)
  }

  /** The id that a tab gets behind others. */
  function NewId<V>(before: seq<string>, e: Entry<V>): string {
    if e.id in before then Suffixed(e) else e.id
  }

  /** The ids of the first `n` tabs. */
  function IdsOf<V>(entries: seq<Entry<V>>, n: nat): (ids: seq<string>)
    requires n <= |entries|
    ensures |ids| == n
  {
    if n == 0 then [] else IdsOf(entries, n - 1) + [NewId(IdsOf(entries, n - 1), entries[n - 1])]
  }

  lemma {:induction false} IdsPrefix<V>(entries: seq<Entry<V>>, n: nat, m: nat)
    requires n <= m <= |entries|
    ensures IdsOf(entries, n) == IdsOf(entries, m)[..n]
  {
    if n < m {
      IdsPrefix(entries, n, m - 1);
    }
  }

  lemma IdAt<V>(entries: seq<Entry<V>>, i: nat, n: nat)
    requires i < n <= |entries|
    ensures IdsOf(entries, n)[i] == NewId(IdsOf(entries, i), entries[i])
  {
    IdsPrefix(entries, i + 1, n);
    assert IdsOf(entries, n)[i] == IdsOf(entries, n)[..i + 1][i];
    LastIdOf(entries, i);
  }

  lemma LastIdOf<V>(entries: seq<Entry<V>>, i: nat)
    requires i < |entries|
    ensures IdsOf(entries, i + 1)[i] == NewId(IdsOf(entries, i), entries[i])
  {
  }

  function Named<V>(entries: seq<Entry<V>>, ids: seq<string>): (tabs: seq<Tab<V>>)
    requires |ids| <= |entries|
    ensures |tabs| == |ids| && forall i :: 0 <= i < |ids| ==> tabs[i] == entries[i].tab.(id := ids[i])
  {
    seq(|ids|, i requires 0 <= i < |ids| => entries[i].tab.(id := ids[i]))
  }

  function Min(a: nat, b: nat): nat {
    if a < b then a else b
  }

  function SanitizedQueryTabs<V>(persisted: seq<Persisted<V>>): seq<Tab<V>> {
    var entries := Entries(persisted, |persisted|);
    Named(entries, IdsOf(entries, Min(|entries|, MAX_PERSISTED_QUERY_TABS)))
  }

  lemma NamedMore<V>(entries: seq<Entry<V>>, ids: seq<string>, id: string)
    requires |ids| < |entries|
    ensures Named(entries, ids + [id]) == Named(entries, ids) + [entries[|ids|].tab.(id := id)]
  {
  }

  lemma NamedPrefix<V>(entries: seq<Entry<V>>, n: nat)
    requires n <= |entries|
    ensures Named(entries, IdsOf(entries, |entries|))[..n] == Named(entries, IdsOf(entries, n))
  {
    IdsPrefix(entries, n, |entries|);
  }

  /** The loop's turn for a tab that is kept. */
  lemma KeptTab<V>(persisted: seq<Persisted<V>>, n: nat, entries: seq<Entry<V>>, ids: seq<string>)
    requires n < |persisted| && persisted[n].Query? && entries == Entries(persisted, |persisted|)
    requires |ids| == |Entries(persisted, n)| <= |entries| && ids == IdsOf(entries, |ids|)
    ensures |ids| < |entries| && |Entries(persisted, n + 1)| == |ids| + 1
    ensures entries[|ids|] == EntryOf(persisted[n].id, n + 1, persisted[n].tab)
    ensures IdsOf(entries, |ids| + 1) == ids + [NewId(ids, entries[|ids|])]
  {
    EntriesGrow(persisted, n + 1, |persisted|);
    assert entries[|ids|] == Entries(persisted, n + 1)[|ids|];
    LastIdOf(entries, |ids|);
    NextIds(entries, ids);
  }

  lemma NextIds<V>(entries: seq<Entry<V>>, ids: seq<string>)
    requires |ids| < |entries| && ids == IdsOf(entries, |ids|)
    ensures IdsOf(entries, |ids| + 1) == ids + [NewId(ids, entries[|ids|])]
  {
  }

  method SanitizeQueryTabs<V>(persisted: seq<Persisted<V>>) returns (tabs: seq<Tab<V>>)
    ensures tabs == SanitizedQueryTabs(persisted)
  {
    ghost var entries := Entries(persisted, |persisted|);
    ghost var ids: seq<string> := [];
    var seen: set<string> := {};
    tabs := [];
    for n := 0 to |persisted|
      invariant |ids| == |Entries(persisted, n)| <= |entries| && ids == IdsOf(entries, |ids|)
      invariant tabs == Named(entries, ids) && forall id :: id in seen <==> id in ids
    {
      match persisted[n] {
        case Dropped =>
        case Query(rawId, tab) =>
          KeptTab(persisted, n, entries, ids);
          var id := if JsTrim(rawId) != "" then JsTrim(rawId) else "query-" + Decimal(n + 1);
          if id in seen {
            id := id + "-" + Decimal(n + 1);
          }
          NamedMore(entries, ids, id);
          seen := seen + {id};
          tabs := tabs + [tab.(id := id)];
          ids := ids + [id];
      }
    }
    NamedPrefix(entries, Min(|entries|, MAX_PERSISTED_QUERY_TABS));
    if |tabs| > MAX_PERSISTED_QUERY_TABS {
      tabs := tabs[..MAX_PERSISTED_QUERY_TABS];
    }
  }

  // Exactly when the ids come out distinct.

  /** The id is that of one of the first `n` tabs as persisted, or of one that has to be given a suffix. */
  predicate IsTaken<V>(entries: seq<Entry<V>>, n: nat, id: string)
    requires n <= |entries|
  {
    n > 0
    && (IsTaken(entries, n - 1, id)
        || entries[n - 1].id == id
        || (Suffixed(entries[n - 1]) == id && IsTaken(entries, n - 1, entries[n - 1].id)))
  }

  lemma {:induction false} UsedIsTaken<V>(entries: seq<Entry<V>>, n: nat, id: string)
    requires n <= |entries|
    ensures id in IdsOf(entries, n) <==> IsTaken(entries, n, id)
  {
    if n > 0 {
      UsedIsTaken(entries, n - 1, id);
      UsedIsTaken(entries, n - 1, entries[n - 1].id);
    }
  }

  /** The id of a tab as persisted is used, by that tab or by one before it. */
  lemma {:induction false} PersistedIsUsed<V>(entries: seq<Entry<V>>, j: nat, n: nat)
    requires j < n <= |entries|
    ensures entries[j].id in IdsOf(entries, n)
  {
    if j < n - 1 {
      PersistedIsUsed(entries, j, n - 1);
    }
  }

  lemma LongerNumeral(a: string, m: nat, b: string, n: nat)
    requires |Decimal(m)| < |Decimal(n)|
    ensures a + "-" + Decimal(m) != b + "-" + Decimal(n)
  {
    var (x, y, d) := (a + "-" + Decimal(m), b + "-" + Decimal(n), Decimal(n));
    if |x| == |y| {
      assert x[|a|] == '-' && y[|a|] == d[|a| - |b| - 1];
      assert IsDigit(d[|a| - |b| - 1]);
    }
  }

  /** Ids with suffixes tell their numbers. */
  lemma SuffixTells(a: string, m: nat, b: string, n: nat)
    requires m != n
    ensures a + "-" + Decimal(m) != b + "-" + Decimal(n)
  {
    var (x, y) := (a + "-" + Decimal(m), b + "-" + Decimal(n));
    if |Decimal(m)| < |Decimal(n)| {
      LongerNumeral(a, m, b, n);
    } else if |Decimal(n)| < |Decimal(m)| {
      LongerNumeral(b, n, a, m);
    } else if |a| == |b| {
      assert x[|a| + 1..] == Decimal(m) && y[|b| + 1..] == Decimal(n);
      if Decimal(m) == Decimal(n) {
        DecimalInjective(m, n);
      }
    }
  }

  /** Tab `i` is given a suffix, and with it has the persisted id of the earlier tab `j`. */
  predicate Clashes<V>(entries: seq<Entry<V>>, j: nat, i: nat)
    requires j < i < |entries|
  {
    IsTaken(entries, i, entries[i].id) && entries[j].id == Suffixed(entries[i])
  }

  lemma SameIdClashes<V>(entries: seq<Entry<V>>, j: nat, i: nat, n: nat)
    requires Numbered(entries) && j < i < n <= |entries| && IdsOf(entries, n)[j] == IdsOf(entries, n)[i]
    ensures Clashes(entries, j, i)
  {
    IdAt(entries, j, n);
    IdAt(entries, i, n);
    IdsPrefix(entries, i, n);
    assert IdsOf(entries, n)[j] == IdsOf(entries, i)[j];
    UsedIsTaken(entries, i, entries[i].id);
    SuffixTells(entries[j].id, entries[j].number, entries[i].id, entries[i].number);
  }

  lemma ClashGivesSameId<V>(entries: seq<Entry<V>>, j: nat, i: nat, n: nat) returns (k: nat)
    requires j < i < n <= |entries| && Clashes(entries, j, i)
    ensures k < i && IdsOf(entries, n)[k] == IdsOf(entries, n)[i]
  {
    UsedIsTaken(entries, i, entries[i].id);
    PersistedIsUsed(entries, j, i);
    IdAt(entries, i, n);
    IdsPrefix(entries, i, n);
    k :| 0 <= k < i && IdsOf(entries, i)[k] == entries[j].id;
  }

  ghost predicate NoClash<V>(entries: seq<Entry<V>>, n: nat)
    requires n <= |entries|
  {
    forall j, i :: 0 <= j < i < n ==> !Clashes(entries, j, i)
  }

  lemma NamedApartExactly<V>(entries: seq<Entry<V>>, n: nat)
    requires Numbered(entries) && n <= |entries|
    ensures DistinctIds(Named(entries, IdsOf(entries, n))) <==> NoClash(entries, n)
  {
    var ids := IdsOf(entries, n);
    var tabs := Named(entries, ids);
    if NoClash(entries, n) {
      forall j, i | 0 <= j < i < n ensures tabs[j].id != tabs[i].id {
        if ids[j] == ids[i] {
          SameIdClashes(entries, j, i, n);
        }
      }
    } else {
      var j, i :| 0 <= j < i < n && Clashes(entries, j, i);
      var k := ClashGivesSameId(entries, j, i, n);
      assert tabs[k].id == tabs[i].id;
    }
  }

  /** The active tab of a session's start: the one remembered, if it is there, or the first. */
  function SanitizeActiveTabId<V>(active: string, tabs: seq<Tab<V>>): Option<string> {
    if JsTrim(active) != "" && IsOpen(tabs, JsTrim(active)) then Some(JsTrim(active))
    else if tabs != [] && tabs[0].id != "" then Some(tabs[0].id)
    else None
  }

  function StartOf<V>(persisted: seq<Persisted<V>>, active: string): Store<V> {
    var tabs := SanitizedQueryTabs(persisted);
    Store(tabs, SanitizeActiveTabId(active, tabs))
  }

  /**
   A session starts consistent, whatever was persisted and remembered, if and only if none of the first twenty tabs
   kept both needs a suffix and has with it the persisted id of an earlier one.
   */
  lemma StartIsConsistentExactly<V>(persisted: seq<Persisted<V>>, active: string)
    ensures var entries := Entries(persisted, |persisted|);
            (Consistent(StartOf(persisted, active))
             <==> NoClash(entries, Min(|entries|, MAX_PERSISTED_QUERY_TABS)))
  {
    var entries := Entries(persisted, |persisted|);
    var n := Min(|entries|, MAX_PERSISTED_QUERY_TABS);
    EntriesAreNumbered(persisted, |persisted|);
    NamedApartExactly(entries, n);
    if n > 0 {
      assert entries[0].id != "";
      IdAt(entries, 0, n);
      assert IsOpen(SanitizedQueryTabs(persisted), SanitizedQueryTabs(persisted)[0].id);
    }
  }

  /** The tab remembered is active again if it is there; else the first one is. */
  lemma RememberedIsActive<V>(persisted: seq<Persisted<V>>, active: string)
    ensures var start := StartOf(persisted, active);
            && (JsTrim(active) != "" && IsOpen(start.tabs, JsTrim(active)) ==>
                  start.activeTabId == Some(JsTrim(active)))
            && (!IsOpen(start.tabs, JsTrim(active)) && start.tabs != [] ==>
                  start.activeTabId == Some(start.tabs[0].id))
            && (start.tabs == [] ==> start.activeTabId == None)
  {
    var entries := Entries(persisted, |persisted|);
    var n := Min(|entries|, MAX_PERSISTED_QUERY_TABS);
    EntriesAreNumbered(persisted, |persisted|);
    if n > 0 {
      IdAt(entries, 0, n);
    }
  }

  /** So does a whole session: every run from such a start keeps the ids distinct and the active tab open. */
  lemma SessionsAreConsistent<V>(persisted: seq<Persisted<V>>, active: string, actions: seq<Action<V>>)
    requires var entries := Entries(persisted, |persisted|);
             NoClash(entries, Min(|entries|, MAX_PERSISTED_QUERY_TABS))
    requires IsRun(StartOf(persisted, active), actions)
    ensures Consistent(After(StartOf(persisted, active), actions))
  {
    StartIsConsistentExactly(persisted, active);
    AlwaysConsistent(StartOf(persisted, active), actions);
  }

  lemma {:induction false} DistinctAreNotTaken<V>(entries: seq<Entry<V>>, n: nat, id: string)
    requires n <= |entries| && forall i, j :: 0 <= i < j < n ==> entries[i].id != entries[j].id
    requires forall i :: 0 <= i < n ==> entries[i].id != id
    ensures !IsTaken(entries, n, id)
  {
    if n > 0 {
      DistinctAreNotTaken(entries, n - 1, id);
      DistinctAreNotTaken(entries, n - 1, entries[n - 1].id);
    }
  }

  /** Tabs that were persisted with distinct ids, as those of a consistent session are, come back under these ids. */
  lemma DistinctIdsComeBack<V>(persisted: seq<Persisted<V>>)
    requires forall i, j :: 0 <= i < j < |Entries(persisted, |persisted|)| ==>
               Entries(persisted, |persisted|)[i].id != Entries(persisted, |persisted|)[j].id
    ensures var (entries, tabs) := (Entries(persisted, |persisted|), SanitizedQueryTabs(persisted));
            |tabs| == Min(|entries|, MAX_PERSISTED_QUERY_TABS)
            && DistinctIds(tabs)
            && forall i :: 0 <= i < |tabs| ==> tabs[i] == entries[i].tab.(id := entries[i].id)
  {
    var entries := Entries(persisted, |persisted|);
    var n := Min(|entries|, MAX_PERSISTED_QUERY_TABS);
    forall i | 0 <= i < n ensures IdsOf(entries, n)[i] == entries[i].id {
      IdAt(entries, i, n);
      DistinctAreNotTaken(entries, i, entries[i].id);
      UsedIsTaken(entries, i, entries[i].id);
    }
  }

  // A start that is not consistent.

  lemma TrimmedShort()
    ensures JsTrim("a") == "a" && JsTrim("a-3") == "a-3" && Decimal(3) == "3"
  {
    TrimSpec("a", JsSpace);
    TrimSpec("a-3", JsSpace);
  }

  /** With the ids a-3, a and a, the third tab is given the id of the first. */
  lemma SuffixMayClash<V>(tab: Tab<V>, active: string)
    ensures var persisted := [Query("a-3", tab), Query("a", tab), Query("a", tab)];
            !Consistent(StartOf(persisted, active))
  {
    var persisted := [Query("a-3", tab), Query("a", tab), Query("a", tab)];
    var entries := Entries(persisted, 3);
    TrimmedShort();
    assert Entries(persisted, 1) == [Entry("a-3", 1, tab)];
    assert Entries(persisted, 2) == [Entry("a-3", 1, tab), Entry("a", 2, tab)];
    assert entries == [Entry("a-3", 1, tab), Entry("a", 2, tab), Entry("a", 3, tab)];
    assert entries[1].id == "a" && entries[2].id == "a" && entries[0].id == "a-3";
    assert IsTaken(entries, 2, entries[2].id);
    assert Clashes(entries, 0, 2) by {
      assert Suffixed(entries[2]) == "a" + "-" + "3" == "a-3";
    }
    StartIsConsistentExactly(persisted, active);
  }
}
