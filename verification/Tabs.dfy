/** The open tabs and which of them is active. */
module Tabs {
  import opened Permutations
  import opened Text

  /** A tab; properties that matter to no action here are in `props`, and a missing one is not in the map. */
  datatype Tab<V> = Tab(
    id: string,
    kind: string,
    connectionId: string,
    dbName: Option<string>,
    tableName: Option<string>,
    savedQueryId: Option<string>,
    props: map<string, V>)

  datatype Store<V> = Store(tabs: seq<Tab<V>>, activeTabId: Option<string>)

  function Given<T>(mine: Option<T>, other: Option<T>): Option<T> {
    if other.Some? then other else mine
  }

  /** Object spread: what the incoming tab says, over what the existing one says, under some id. */
  function Overlay<V>(existing: Tab<V>, incoming: Tab<V>, id: string): Tab<V> {
    Tab(id, incoming.kind, incoming.connectionId,
        Given(existing.dbName, incoming.dbName),
        Given(existing.tableName, incoming.tableName),
        Given(existing.savedQueryId, incoming.savedQueryId),
        existing.props + incoming.props)
  }

  function FindFirst<V>(tabs: seq<Tab<V>>, matches: Tab<V> -> bool): (k: nat)
    ensures k <= |tabs|
    ensures k < |tabs| ==> matches(tabs[k])
    ensures forall i :: 0 <= i < k ==> !matches(tabs[i])
  {
    if tabs == [] then 0
    else if matches(tabs[0]) then 0
    else 1 + FindFirst(tabs[1..], matches)
  }

  function IndexOfId<V>(tabs: seq<Tab<V>>, id: string): (k: nat)
    ensures k <= |tabs|
    ensures k < |tabs| ==> tabs[k].id == id
    ensures forall i :: 0 <= i < k ==> tabs[i].id != id
  {
    FindFirst(tabs, (t: Tab<V>) => t.id == id)
  }

  function Filter<V>(tabs: seq<Tab<V>>, keep: Tab<V> -> bool): seq<Tab<V>> {
    if tabs == [] then []
    else Filter(tabs[..|tabs| - 1], keep) + if keep(tabs[|tabs| - 1]) then [tabs[|tabs| - 1]] else []
  }

  function LastId<V>(tabs: seq<Tab<V>>): Option<string> {
    if tabs == [] then None else Some(tabs[|tabs| - 1].id)
  }

  predicate IsText(s: Option<string>) {
    s.Some? && s.value != ""
  }

  /** Tabs about one table are opened once for each kind. */
  predicate IsTableKind(kind: string) {
    kind == "table" || kind == "design" || kind == "table-export"
  }

  predicate SameTable<V>(t: Tab<V>, incoming: Tab<V>) {
    IsTableKind(incoming.kind) && IsText(incoming.tableName) && incoming.connectionId != "" && IsText(incoming.dbName)
    && t.kind == incoming.kind && t.connectionId == incoming.connectionId
    && t.dbName == incoming.dbName && t.tableName == incoming.tableName
  }

  /** So are tabs for one saved query. */
  predicate SameSavedQuery<V>(t: Tab<V>, incoming: Tab<V>) {
    incoming.kind == "query" && IsText(incoming.savedQueryId) && t.kind == "query"
    && (t.savedQueryId == incoming.savedQueryId || Some(t.id) == incoming.savedQueryId)
  }

  /** Where an incoming tab goes: by its id, by its table, by its saved query, or behind all others. */
  function Place<V>(tabs: seq<Tab<V>>, incoming: Tab<V>): (k: nat)
    ensures k <= |tabs|
    ensures k < |tabs| ==>
              tabs[k].id == incoming.id || SameTable(tabs[k], incoming) || SameSavedQuery(tabs[k], incoming)
    ensures k == |tabs| ==> forall i :: 0 <= i < |tabs| ==> tabs[i].id != incoming.id
  {
    var byId := IndexOfId(tabs, incoming.id);
    var byTable := FindFirst(tabs, (t: Tab<V>) => SameTable(t, incoming));
    var byQuery := FindFirst(tabs, (t: Tab<V>) => SameSavedQuery(t, incoming));
    if byId < |tabs| then byId
    else if byTable < |tabs| then byTable
    else byQuery
  }

  /** A query tab comes with the defaults for queries. */
  function Incoming<V>(tab: Tab<V>, queryDefaults: map<string, V>): Tab<V> {
    if tab.kind == "query" then tab.(props := queryDefaults + tab.props) else tab
  }

  function AddTab<V>(s: Store<V>, tab: Tab<V>, queryDefaults: map<string, V>): Store<V> {
    var incoming := Incoming(tab, queryDefaults);
    var k := Place(s.tabs, incoming);
    if k < |s.tabs| then
      Store(s.tabs[k := Overlay(s.tabs[k], incoming, s.tabs[k].id)], Some(s.tabs[k].id))
    else
      Store(s.tabs + [incoming], Some(incoming.id))
  }

  /** Changing a tab without changing its id, as drafts and result flags do. */
  function UpdateTab<V>(s: Store<V>, id: string, change: Tab<V> -> Tab<V>): Store<V> {
    if JsTrim(id) == "" then s
    else
      s.(tabs := seq(|s.tabs|, i requires 0 <= i < |s.tabs| =>
        if s.tabs[i].id == JsTrim(id) then change(s.tabs[i]).(id := s.tabs[i].id) else s.tabs[i]))
  }

  function HasOtherId<V>(id: string): Tab<V> -> bool {
    (t: Tab<V>) => t.id != id
  }

  function OnOtherConnection<V>(target: string): Tab<V> -> bool {
    (t: Tab<V>) => JsTrim(t.connectionId) != target
  }

  function OnOtherDatabase<V>(target: string, db: string): Tab<V> -> bool {
    (t: Tab<V>) => !(JsTrim(t.connectionId) == target && JsTrim(if t.dbName.Some? then t.dbName.value else "") == db)
  }

  function CloseTab<V>(s: Store<V>, id: string): Store<V> {
    var tabs := Filter(s.tabs, HasOtherId(id));
    Store(tabs, if s.activeTabId == Some(id) then LastId(tabs) else s.activeTabId)
  }

  function CloseOtherTabs<V>(s: Store<V>, id: string): Store<V> {
    var k := IndexOfId(s.tabs, id);
    if k == |s.tabs| then s else Store([s.tabs[k]], Some(id))
  }

  /** Whether the active tab is among some tabs; an empty id counts as none. */
  predicate ActiveStillExists<V>(s: Store<V>, tabs: seq<Tab<V>>) {
    IsText(s.activeTabId) && IndexOfId(tabs, s.activeTabId.value) < |tabs|
  }

  function CloseTabsToLeft<V>(s: Store<V>, id: string): Store<V> {
    var k := IndexOfId(s.tabs, id);
    if k == |s.tabs| then s
    else Store(s.tabs[k..], if ActiveStillExists(s, s.tabs[k..]) then s.activeTabId else Some(id))
  }

  function CloseTabsToRight<V>(s: Store<V>, id: string): Store<V> {
    var k := IndexOfId(s.tabs, id);
    if k == |s.tabs| then s
    else Store(s.tabs[..k + 1], if ActiveStillExists(s, s.tabs[..k + 1]) then s.activeTabId else Some(id))
  }

  function KeepTabs<V>(s: Store<V>, tabs: seq<Tab<V>>): Store<V> {
    Store(tabs, if ActiveStillExists(s, tabs) then s.activeTabId else LastId(tabs))
  }

  function CloseTabsByConnection<V>(s: Store<V>, connectionId: string): Store<V> {
    var target := JsTrim(connectionId);
    if target == "" then s
    else KeepTabs(s, Filter(s.tabs, OnOtherConnection(target)))
  }

  function CloseTabsByDatabase<V>(s: Store<V>, connectionId: string, dbName: string): Store<V> {
    var (target, db) := (JsTrim(connectionId), JsTrim(dbName));
    if target == "" || db == "" then s
    else KeepTabs(s, Filter(s.tabs, OnOtherDatabase(target, db)))
  }

  function MoveTab<V>(s: Store<V>, sourceId: string, targetId: string): Store<V> {
    var (fromId, toId) := (JsTrim(sourceId), JsTrim(targetId));
    if fromId == "" || toId == "" || fromId == toId then s
    else
      var (from, to) := (IndexOfId(s.tabs, fromId), IndexOfId(s.tabs, toId));
      if from == |s.tabs| || to == |s.tabs| || from == to then s
      else s.(tabs := Moved(s.tabs, from, to))
  }

  datatype Action<!V> =
    | Add(tab: Tab<V>, queryDefaults: map<string, V>)
    | Update(id: string, change: Tab<V> -> Tab<V>)
    | Close(id: string)
    | CloseOthers(id: string)
    | CloseLeft(id: string)
    | CloseRight(id: string)
    | CloseByConnection(connectionId: string)
    | CloseByDatabase(connectionId: string, dbName: string)
    | Move(sourceId: string, targetId: string)
    | CloseAll
    | SetActive(active: Option<string>)

  function Apply<V>(s: Store<V>, a: Action<V>): Store<V> {
    match a
    case Add(tab, queryDefaults) => AddTab(s, tab, queryDefaults)
    case Update(id, change) => UpdateTab(s, id, change)
    case Close(id) => CloseTab(s, id)
    case CloseOthers(id) => CloseOtherTabs(s, id)
    case CloseLeft(id) => CloseTabsToLeft(s, id)
    case CloseRight(id) => CloseTabsToRight(s, id)
    case CloseByConnection(connectionId) => CloseTabsByConnection(s, connectionId)
    case CloseByDatabase(connectionId, dbName) => CloseTabsByDatabase(s, connectionId, dbName)
    case Move(sourceId, targetId) => MoveTab(s, sourceId, targetId)
    case CloseAll => Store([], None)
    case SetActive(active) => s.(activeTabId := active)
  }

  predicate IsOpen<V>(tabs: seq<Tab<V>>, id: string) {
    exists i :: 0 <= i < |tabs| && tabs[i].id == id
  }

  function IdOf<V>(tab: Tab<V>): string {
    tab.id
  }

  ghost predicate DistinctIds<V>(tabs: seq<Tab<V>>) {
    forall i, j :: 0 <= i < j < |tabs| ==> tabs[i].id != tabs[j].id
  }

  /** No tab is active exactly when none is open; else the active id is that of an open tab. */
  predicate ActiveIsOpen<V>(s: Store<V>) {
    match s.activeTabId
    case None => s.tabs == []
    case Some(id) => IsOpen(s.tabs, id)
  }

  ghost predicate Consistent<V>(s: Store<V>) {
    DistinctIds(s.tabs) && ActiveIsOpen(s)
  }

  lemma {:induction false} FilterMembers<V>(tabs: seq<Tab<V>>, keep: Tab<V> -> bool, t: Tab<V>)
    ensures t in Filter(tabs, keep) <==> t in tabs && keep(t)
  {
    if tabs != [] {
      FilterMembers(tabs[..|tabs| - 1], keep, t);
    }
  }

  lemma {:induction false} FilterKeepsDistinct<V>(tabs: seq<Tab<V>>, keep: Tab<V> -> bool)
    requires DistinctIds(tabs)
    ensures DistinctIds(Filter(tabs, keep))
  {
    if tabs != [] {
      var (before, last) := (tabs[..|tabs| - 1], tabs[|tabs| - 1]);
      FilterKeepsDistinct(before, keep);
      forall i | 0 <= i < |Filter(before, keep)| ensures Filter(before, keep)[i].id != last.id {
        FilterMembers(before, keep, Filter(before, keep)[i]);
      }
    }
  }

  lemma LastIsOpen<V>(tabs: seq<Tab<V>>)
    ensures ActiveIsOpen(Store(tabs, LastId(tabs)))
  {
  }

  lemma FoundIsOpen<V>(tabs: seq<Tab<V>>, id: string)
    ensures IndexOfId(tabs, id) < |tabs| <==> IsOpen(tabs, id)
  {
  }

  lemma AddTabConsistent<V>(s: Store<V>, tab: Tab<V>, queryDefaults: map<string, V>)
    requires DistinctIds(s.tabs)
    ensures Consistent(AddTab(s, tab, queryDefaults))
  {
    var after := AddTab(s, tab, queryDefaults);
    var k := Place(s.tabs, Incoming(tab, queryDefaults));
    assert after.tabs[k].id == after.activeTabId.value;
  }

  lemma UpdateTabConsistent<V>(s: Store<V>, id: string, change: Tab<V> -> Tab<V>)
    requires Consistent(s)
    ensures Consistent(UpdateTab(s, id, change))
  {
    var after := UpdateTab(s, id, change);
    assert |after.tabs| == |s.tabs| && forall i :: 0 <= i < |s.tabs| ==> after.tabs[i].id == s.tabs[i].id;
  }

  lemma CloseTabConsistent<V>(s: Store<V>, id: string)
    requires Consistent(s)
    ensures Consistent(CloseTab(s, id))
  {
    var keep := HasOtherId<V>(id);
    FilterKeepsDistinct(s.tabs, keep);
    LastIsOpen(Filter(s.tabs, keep));
    if s.activeTabId.Some? && s.activeTabId.value != id {
      var i :| 0 <= i < |s.tabs| && s.tabs[i].id == s.activeTabId.value;
      FilterMembers(s.tabs, keep, s.tabs[i]);
      var k :| 0 <= k < |Filter(s.tabs, keep)| && Filter(s.tabs, keep)[k] == s.tabs[i];
    }
  }

  lemma KeepTabsConsistent<V>(s: Store<V>, keep: Tab<V> -> bool)
    requires DistinctIds(s.tabs)
    ensures Consistent(KeepTabs(s, Filter(s.tabs, keep)))
  {
    FilterKeepsDistinct(s.tabs, keep);
    LastIsOpen(Filter(s.tabs, keep));
    if s.activeTabId.Some? {
      FoundIsOpen(Filter(s.tabs, keep), s.activeTabId.value);
    }
  }

  lemma CloseOtherTabsConsistent<V>(s: Store<V>, id: string)
    requires DistinctIds(s.tabs) && (IsOpen(s.tabs, id) || ActiveIsOpen(s))
    ensures Consistent(CloseOtherTabs(s, id))
  {
    var k := IndexOfId(s.tabs, id);
    if k < |s.tabs| {
      assert [s.tabs[k]][0].id == id;
    }
  }

  lemma CloseLeftConsistent<V>(s: Store<V>, id: string)
    requires DistinctIds(s.tabs) && (IsOpen(s.tabs, id) || ActiveIsOpen(s))
    ensures Consistent(CloseTabsToLeft(s, id))
  {
    var k := IndexOfId(s.tabs, id);
    if k < |s.tabs| {
      assert s.tabs[k..][0].id == id;
      if s.activeTabId.Some? {
        FoundIsOpen(s.tabs[k..], s.activeTabId.value);
      }
    }
  }

  lemma CloseRightConsistent<V>(s: Store<V>, id: string)
    requires DistinctIds(s.tabs) && (IsOpen(s.tabs, id) || ActiveIsOpen(s))
    ensures Consistent(CloseTabsToRight(s, id))
  {
    var k := IndexOfId(s.tabs, id);
    if k < |s.tabs| {
      assert s.tabs[..k + 1][k].id == id;
      if s.activeTabId.Some? {
        FoundIsOpen(s.tabs[..k + 1], s.activeTabId.value);
      }
    }
  }

  predicate CanMove<V>(s: Store<V>, sourceId: string, targetId: string) {
    JsTrim(sourceId) != "" && JsTrim(targetId) != ""
    && IndexOfId(s.tabs, JsTrim(sourceId)) < |s.tabs| && IndexOfId(s.tabs, JsTrim(targetId)) < |s.tabs|
  }

  lemma MoveTabMoves<V>(s: Store<V>, sourceId: string, targetId: string)
    ensures MoveTab(s, sourceId, targetId).activeTabId == s.activeTabId
    ensures MoveTab(s, sourceId, targetId).tabs
         == if CanMove(s, sourceId, targetId)
            then Moved(s.tabs, IndexOfId(s.tabs, JsTrim(sourceId)), IndexOfId(s.tabs, JsTrim(targetId)))
            else s.tabs
  {
    if CanMove(s, sourceId, targetId) {
      MovedInPlace(s.tabs, IndexOfId(s.tabs, JsTrim(sourceId)));
    }
  }

  /** Moving a tab is a permutation: the tab takes its target's old place, and all others keep their order. */
  lemma MoveTabSpec<V>(s: Store<V>, sourceId: string, targetId: string)
    ensures var after := MoveTab(s, sourceId, targetId);
            var (from, to) := (IndexOfId(s.tabs, JsTrim(sourceId)), IndexOfId(s.tabs, JsTrim(targetId)));
            after.activeTabId == s.activeTabId
            && if CanMove(s, sourceId, targetId) then IsMoved(s.tabs, after.tabs, from, to) else after.tabs == s.tabs
  {
    MoveTabMoves(s, sourceId, targetId);
    if CanMove(s, sourceId, targetId) {
      MovedIsMoved(s.tabs, IndexOfId(s.tabs, JsTrim(sourceId)), IndexOfId(s.tabs, JsTrim(targetId)));
    }
  }

  lemma PermutedIsConsistent<V>(s: Store<V>, after: Store<V>)
    requires Consistent(s) && multiset(after.tabs) == multiset(s.tabs) && after.activeTabId == s.activeTabId
    ensures Consistent(after)
  {
    forall t ensures t in after.tabs <==> t in s.tabs {
      assert t in multiset(after.tabs) <==> t in multiset(s.tabs);
    }
    if s.activeTabId.Some? {
      var i :| 0 <= i < |s.tabs| && s.tabs[i].id == s.activeTabId.value;
      assert s.tabs[i] in after.tabs;
    } else {
      assert |multiset(after.tabs)| == |after.tabs|;
    }
    PermutedKeysAreDistinct(s.tabs, after.tabs, IdOf);
  }

  // Runs.

  /** Activating is only for tabs that are open now, and for no tab only when none is open. */
  predicate Enabled<V>(s: Store<V>, a: Action<V>) {
    match a
    case SetActive(Some(id)) => IsOpen(s.tabs, id)
    case SetActive(None) => s.tabs == []
    case _ => true
  }

  lemma StepConsistent<V>(s: Store<V>, a: Action<V>)
    requires Consistent(s) && Enabled(s, a)
    ensures Consistent(Apply(s, a))
  {
    match a
    case Add(tab, queryDefaults) => AddTabConsistent(s, tab, queryDefaults);
    case Update(id, change) => UpdateTabConsistent(s, id, change);
    case Close(id) => CloseTabConsistent(s, id);
    case CloseOthers(id) => CloseOtherTabsConsistent(s, id);
    case CloseLeft(id) => CloseLeftConsistent(s, id);
    case CloseRight(id) => CloseRightConsistent(s, id);
    case CloseByConnection(connectionId) => KeepTabsConsistent(s, OnOtherConnection(JsTrim(connectionId)));
    case CloseByDatabase(connectionId, dbName) =>
      KeepTabsConsistent(s, OnOtherDatabase(JsTrim(connectionId), JsTrim(dbName)));
    case Move(sourceId, targetId) =>
      MoveTabSpec(s, sourceId, targetId);
      PermutedIsConsistent(s, MoveTab(s, sourceId, targetId));
    case CloseAll =>
    case SetActive(active) =>
  }

  /** Without that care the invariant is lost: exactly when the id is not that of a tab open before the call. */
  lemma SetActiveNeedsOpenTab<V>(s: Store<V>, active: Option<string>)
    requires Consistent(s)
    ensures Consistent(Apply(s, SetActive(active)))
       <==> (active.None? && s.tabs == [])
            || (active.Some? && exists i :: 0 <= i < |s.tabs| && s.tabs[i].id == active.value)
  {
  }

  function After<V>(start: Store<V>, actions: seq<Action<V>>): Store<V> {
    if actions == [] then start else Apply(After(start, actions[..|actions| - 1]), actions[|actions| - 1])
  }

  ghost predicate IsRun<V>(start: Store<V>, actions: seq<Action<V>>) {
    actions == []
    || (IsRun(start, actions[..|actions| - 1])
        && Enabled(After(start, actions[..|actions| - 1]), actions[|actions| - 1]))
  }

  /**
   In every run from a consistent store, such as the empty one, ids stay distinct and the active tab is an open
   one.
   */
  lemma {:induction false} AlwaysConsistent<V>(start: Store<V>, actions: seq<Action<V>>)
    requires Consistent(start) && IsRun(start, actions)
    ensures Consistent(After(start, actions))
  {
    if actions != [] {
      AlwaysConsistent(start, actions[..|actions| - 1]);
      StepConsistent(After(start, actions[..|actions| - 1]), actions[|actions| - 1]);
    }
  }

  function Blank<V>(id: string): Tab<V> {
    Tab(id, "query", "", None, None, None, map[])
  }

  lemma AfterMore<V>(start: Store<V>, actions: seq<Action<V>>, a: Action<V>)
    ensures After(start, actions + [a]) == Apply(After(start, actions), a)
  {
    assert (actions + [a])[..|actions|] == actions;
  }

  lemma FirstTab<V>(id: string)
    ensures Apply(Store([], None), Add(Blank<V>(id), map[])) == Store([Blank(id)], Some(id))
  {
    assert map[] + Blank<V>(id).props == map[];
  }

  lemma OneTab<V>(id: string, other: string)
    requires id != other
    ensures Consistent(Store([Blank<V>(id)], Some(id))) && !IsOpen([Blank<V>(id)], other)
  {
    assert [Blank<V>(id)][0].id == id;
  }

  /** From the empty store, opening one tab and activating another id leaves an active id without a tab. */
  lemma ActivatingUnknownTab<V>(id: string, other: string)
    requires id != other
    ensures var start := Store<V>.Store([], None);
            Consistent(After(start, [] + [Add(Blank(id), map[])]))
            && !Consistent(After(start, [] + [Add(Blank(id), map[])] + [SetActive(Some(other))]))
  {
    var start := Store<V>.Store([], None);
    var add: Action<V> := Add(Blank(id), map[]);
    AfterMore(start, [], add);
    AfterMore(start, [] + [add], SetActive(Some(other)));
    FirstTab<V>(id);
    OneTab<V>(id, other);
  }

  /** Whatever was activated, these actions repair it: the tab they leave active is open. */
  predicate Repairs<V>(s: Store<V>, a: Action<V>) {
    match a
    case Add(_, _) => true
    case CloseAll => true
    case CloseOthers(id) => IsOpen(s.tabs, id)
    case CloseLeft(id) => IsOpen(s.tabs, id)
    case CloseRight(id) => IsOpen(s.tabs, id)
    case CloseByConnection(connectionId) => JsTrim(connectionId) != ""
    case CloseByDatabase(connectionId, dbName) => JsTrim(connectionId) != "" && JsTrim(dbName) != ""
    case Close(id) => s.activeTabId == Some(id)
    case _ => false
  }

  lemma RepairedIsConsistent<V>(s: Store<V>, a: Action<V>)
    requires DistinctIds(s.tabs) && Repairs(s, a)
    ensures Consistent(Apply(s, a))
  {
    match a
    case Add(tab, queryDefaults) => AddTabConsistent(s, tab, queryDefaults);
    case CloseOthers(id) => CloseOtherTabsConsistent(s, id);
    case CloseLeft(id) => CloseLeftConsistent(s, id);
    case CloseRight(id) => CloseRightConsistent(s, id);
    case CloseByConnection(connectionId) => KeepTabsConsistent(s, OnOtherConnection(JsTrim(connectionId)));
    case CloseByDatabase(connectionId, dbName) =>
      KeepTabsConsistent(s, OnOtherDatabase(JsTrim(connectionId), JsTrim(dbName)));
    case Close(id) =>
      FilterKeepsDistinct(s.tabs, HasOtherId(id));
      LastIsOpen(Filter(s.tabs, HasOtherId(id)));
    case CloseAll =>
  }

  /** What was added is shown: the active tab is of the kind, on the connection and with every property asked for. */
  lemma AddTabShowsIncoming<V>(s: Store<V>, tab: Tab<V>, queryDefaults: map<string, V>)
    requires Consistent(s)
    ensures var after := AddTab(s, tab, queryDefaults);
            |s.tabs| <= |after.tabs| <= |s.tabs| + 1
            && exists k :: 0 <= k < |after.tabs| && Some(after.tabs[k].id) == after.activeTabId
                 && after.tabs[k].kind == tab.kind && after.tabs[k].connectionId == tab.connectionId
                 && (tab.dbName.Some? ==> after.tabs[k].dbName == tab.dbName)
                 && (tab.tableName.Some? ==> after.tabs[k].tableName == tab.tableName)
                 && (tab.savedQueryId.Some? ==> after.tabs[k].savedQueryId == tab.savedQueryId)
                 && forall name :: name in tab.props ==>
                      name in after.tabs[k].props && after.tabs[k].props[name] == tab.props[name]
  {
    var after := AddTab(s, tab, queryDefaults);
    var k := Place(s.tabs, Incoming(tab, queryDefaults));
    assert Some(after.tabs[k].id) == after.activeTabId;
  }

  /** Nothing moves for a blank id, for one and the same, or for a tab that is not open. */
  lemma MoveNeedsTwoTabs<V>(s: Store<V>, sourceId: string, targetId: string)
    requires JsTrim(sourceId) == "" || JsTrim(targetId) == "" || JsTrim(sourceId) == JsTrim(targetId)
             || !IsOpen(s.tabs, JsTrim(sourceId)) || !IsOpen(s.tabs, JsTrim(targetId))
    ensures MoveTab(s, sourceId, targetId) == s
  {
    FoundIsOpen(s.tabs, JsTrim(sourceId));
    FoundIsOpen(s.tabs, JsTrim(targetId));
  }

  /** A tab for the same table: of the same kind, on the same connection and database. */
  predicate IsForTable<V>(t: Tab<V>, tab: Tab<V>) {
    (tab.kind == "table" || tab.kind == "design" || tab.kind == "table-export") && t.kind == tab.kind
    && tab.tableName.Some? && tab.tableName.value != "" && t.tableName == tab.tableName
    && tab.dbName.Some? && tab.dbName.value != "" && t.dbName == tab.dbName
    && tab.connectionId != "" && t.connectionId == tab.connectionId
  }

  /** A query tab for the same saved query, or one that has that query's id. */
  predicate IsForQuery<V>(t: Tab<V>, tab: Tab<V>) {
    tab.kind == "query" && t.kind == "query" && tab.savedQueryId.Some? && tab.savedQueryId.value != ""
    && (t.savedQueryId == tab.savedQueryId || t.id == tab.savedQueryId.value)
  }

  /** The open tab is one in whose place the tab is shown. */
  predicate IsFor<V>(t: Tab<V>, tab: Tab<V>) {
    t.id == tab.id || IsForTable(t, tab) || IsForQuery(t, tab)
  }

  /** The search finds such a tab if there is one, and one with the id if there is. */
  lemma PlaceFindsExactly<V>(tabs: seq<Tab<V>>, tab: Tab<V>, queryDefaults: map<string, V>)
    ensures var k := Place(tabs, Incoming(tab, queryDefaults));
            && (k < |tabs| <==> exists i :: 0 <= i < |tabs| && IsFor(tabs[i], tab))
            && (k < |tabs| ==> IsFor(tabs[k], tab) && (IsOpen(tabs, tab.id) ==> tabs[k].id == tab.id))
  {
    forall i | 0 <= i < |tabs|
      ensures SameTable(tabs[i], Incoming(tab, queryDefaults)) <==> IsForTable(tabs[i], tab)
      ensures SameSavedQuery(tabs[i], Incoming(tab, queryDefaults)) <==> IsForQuery(tabs[i], tab)
    {
      MatchesAlike(tabs[i], tab, Incoming(tab, queryDefaults).props);
    }
  }

  /**
   A tab is added only if none is open with its id, for its table, or for its saved query; otherwise one of these is
   shown, the one with its id if there is one, and no other is touched.
   */
  lemma AddTabReusesExactly<V>(s: Store<V>, tab: Tab<V>, queryDefaults: map<string, V>)
    ensures var after := AddTab(s, tab, queryDefaults);
            if exists k :: 0 <= k < |s.tabs| && IsFor(s.tabs[k], tab) then
              |after.tabs| == |s.tabs|
              && (IsOpen(s.tabs, tab.id) ==> after.activeTabId == Some(tab.id))
              && exists k :: 0 <= k < |s.tabs| && IsFor(s.tabs[k], tab) && after.activeTabId == Some(s.tabs[k].id)
                             && after.tabs[k].id == s.tabs[k].id
                             && forall i :: 0 <= i < |s.tabs| && i != k ==> after.tabs[i] == s.tabs[i]
            else
              |after.tabs| == |s.tabs| + 1 && after.tabs[..|s.tabs|] == s.tabs
              && after.tabs[|s.tabs|].id == tab.id && after.activeTabId == Some(tab.id)
  {
    var k := Place(s.tabs, Incoming(tab, queryDefaults));
    PlaceFindsExactly(s.tabs, tab, queryDefaults);
    if k < |s.tabs| {
      assert IsFor(s.tabs[k], tab);
    }
  }

  /**
   What the tab shown has of a property: what was asked for, else for a query what queries have by default, else what
   it had.
   */
  lemma AddTabProperties<V>(s: Store<V>, tab: Tab<V>, queryDefaults: map<string, V>, name: string)
    ensures var after := AddTab(s, tab, queryDefaults);
            var k := Place(s.tabs, Incoming(tab, queryDefaults));
            k < |after.tabs| && after.activeTabId == Some(after.tabs[k].id)
            && var props := after.tabs[k].props;
               if name in tab.props then name in props && props[name] == tab.props[name]
               else if tab.kind == "query" && name in queryDefaults then
                 name in props && props[name] == queryDefaults[name]
               else if k < |s.tabs| && name in s.tabs[k].props then
                 name in props && props[name] == s.tabs[k].props[name]
               else name !in props
  {
  }

  /** What is not asked for stays as it was in a tab that is shown again; kind and connection are those asked for. */
  lemma AddTabKeepsTheRest<V>(s: Store<V>, tab: Tab<V>, queryDefaults: map<string, V>)
    ensures var k := Place(s.tabs, Incoming(tab, queryDefaults));
            k < |s.tabs| ==>
              var (was, shown) := (s.tabs[k], AddTab(s, tab, queryDefaults).tabs[k]);
              shown.id == was.id && shown.kind == tab.kind && shown.connectionId == tab.connectionId
              && shown.dbName == (if tab.dbName.Some? then tab.dbName else was.dbName)
              && shown.tableName == (if tab.tableName.Some? then tab.tableName else was.tableName)
              && shown.savedQueryId == (if tab.savedQueryId.Some? then tab.savedQueryId else was.savedQueryId)
  {
  }

  /** An update reaches the tab with the trimmed id, keeps its id, and leaves the others and the active tab. */
  lemma UpdateReachesOne<V>(s: Store<V>, id: string, change: Tab<V> -> Tab<V>, i: nat)
    requires i < |s.tabs|
    ensures var after := UpdateTab(s, id, change);
            |after.tabs| == |s.tabs| && after.activeTabId == s.activeTabId
            && after.tabs[i].id == s.tabs[i].id
            && (after.tabs[i] == s.tabs[i]
                || (JsTrim(id) != "" && s.tabs[i].id == JsTrim(id)))
            && (JsTrim(id) != "" && s.tabs[i].id == JsTrim(id) ==>
                  after.tabs[i] == change(s.tabs[i]).(id := s.tabs[i].id))
  {
  }

  lemma MatchesAlike<V>(t: Tab<V>, tab: Tab<V>, props: map<string, V>)
    ensures SameTable(t, tab.(props := props)) <==> IsForTable(t, tab)
    ensures SameSavedQuery(t, tab.(props := props)) <==> IsForQuery(t, tab)
  {
  }

  // What closing does.

  /** Which tabs an action closes. */
  predicate Closes<V>(s: Store<V>, a: Action<V>, i: nat)
    requires i < |s.tabs|
  {
    var t := s.tabs[i];
    match a
    case Close(id) => t.id == id
    case CloseOthers(id) => IsOpen(s.tabs, id) && t.id != id
    case CloseLeft(id) => exists k :: i < k < |s.tabs| && s.tabs[k].id == id
    case CloseRight(id) => exists k :: 0 <= k < i && s.tabs[k].id == id
    case CloseByConnection(connectionId) => JsTrim(connectionId) != "" && JsTrim(t.connectionId) == JsTrim(connectionId)
    case CloseByDatabase(connectionId, dbName) =>
      JsTrim(connectionId) != "" && JsTrim(dbName) != "" && JsTrim(t.connectionId) == JsTrim(connectionId)
      && JsTrim(if t.dbName.Some? then t.dbName.value else "") == JsTrim(dbName)
    case CloseAll => true
    case _ => false
  }

  predicate IsClosing<V>(a: Action<V>) {
    a.Close? || a.CloseOthers? || a.CloseLeft? || a.CloseRight? || a.CloseByConnection? || a.CloseByDatabase?
    || a.CloseAll?
  }

  /** What stays of the first `n` of some items when some places are taken out. */
  function Spared<T>(items: seq<T>, taken: nat -> bool, n: nat): seq<T>
    requires n <= |items|
  {
    if n == 0 then []
    else Spared(items, taken, n - 1) + if taken(n - 1) then [] else [items[n - 1]]
  }

  function ClosedBy<V>(s: Store<V>, a: Action<V>): nat -> bool {
    (i: nat) => i < |s.tabs| && Closes(s, a, i)
  }

  /** The tabs that stay, among the first `n`. */
  function Staying<V>(s: Store<V>, a: Action<V>, n: nat): seq<Tab<V>>
    requires n <= |s.tabs|
  {
    Spared(s.tabs, ClosedBy(s, a), n)
  }

  lemma {:induction false} FilterIsSpared<V>(tabs: seq<Tab<V>>, taken: nat -> bool, keep: Tab<V> -> bool, n: nat)
    requires n <= |tabs| && forall i :: 0 <= i < |tabs| ==> (keep(tabs[i]) <==> !taken(i))
    ensures Filter(tabs[..n], keep) == Spared(tabs, taken, n)
  {
    if n > 0 {
      FilterIsSpared(tabs, taken, keep, n - 1);
      assert tabs[..n][..n - 1] == tabs[..n - 1];
    }
  }

  lemma {:induction false} SparedFrom<T>(items: seq<T>, taken: nat -> bool, k: nat, n: nat)
    requires k <= n <= |items| && forall i :: 0 <= i < |items| ==> (taken(i) <==> i < k)
    ensures Spared(items, taken, n) == items[k..n]
  {
    if k < n {
      SparedFrom(items, taken, k, n - 1);
    } else {
      SparedNone(items, taken, n);
    }
  }

  lemma {:induction false} SparedNone<T>(items: seq<T>, taken: nat -> bool, n: nat)
    requires n <= |items| && forall i :: 0 <= i < n ==> taken(i)
    ensures Spared(items, taken, n) == []
  {
    if n > 0 {
      SparedNone(items, taken, n - 1);
    }
  }

  lemma {:induction false} SparedTo<T>(items: seq<T>, taken: nat -> bool, k: nat, n: nat)
    requires n <= |items| && k <= |items| && forall i :: 0 <= i < |items| ==> (taken(i) <==> i >= k)
    ensures Spared(items, taken, n) == items[..if n < k then n else k]
  {
    if n > 0 {
      SparedTo(items, taken, k, n - 1);
    }
  }

  lemma {:induction false} SparedOne<T>(items: seq<T>, taken: nat -> bool, k: nat, n: nat)
    requires n <= |items| && k < |items| && forall i :: 0 <= i < |items| ==> (taken(i) <==> i != k)
    ensures Spared(items, taken, n) == if n <= k then [] else [items[k]]
  {
    if n > 0 {
      SparedOne(items, taken, k, n - 1);
    }
  }

  lemma FilterCloses<V>(s: Store<V>, a: Action<V>, keep: Tab<V> -> bool)
    requires forall i :: 0 <= i < |s.tabs| ==> (keep(s.tabs[i]) <==> !Closes(s, a, i))
    ensures Filter(s.tabs, keep) == Staying(s, a, |s.tabs|)
  {
    FilterIsSpared(s.tabs, ClosedBy(s, a), keep, |s.tabs|);
    assert s.tabs[..|s.tabs|] == s.tabs;
  }

  lemma LeftCloses<V>(s: Store<V>, id: string)
    requires DistinctIds(s.tabs)
    ensures CloseTabsToLeft(s, id).tabs == Staying(s, CloseLeft(id), |s.tabs|)
  {
    var (k, n) := (IndexOfId(s.tabs, id), |s.tabs|);
    SparedFrom(s.tabs, ClosedBy(s, CloseLeft(id)), if k == n then 0 else k, n);
  }

  lemma RightCloses<V>(s: Store<V>, id: string)
    requires DistinctIds(s.tabs)
    ensures CloseTabsToRight(s, id).tabs == Staying(s, CloseRight(id), |s.tabs|)
  {
    var (k, n) := (IndexOfId(s.tabs, id), |s.tabs|);
    SparedTo(s.tabs, ClosedBy(s, CloseRight(id)), if k == n then n else k + 1, n);
  }

  lemma OthersClose<V>(s: Store<V>, id: string)
    requires DistinctIds(s.tabs)
    ensures CloseOtherTabs(s, id).tabs == Staying(s, CloseOthers(id), |s.tabs|)
  {
    var (k, n) := (IndexOfId(s.tabs, id), |s.tabs|);
    FoundIsOpen(s.tabs, id);
    if k < n {
      SparedOne(s.tabs, ClosedBy(s, CloseOthers(id)), k, n);
    } else {
      SparedFrom(s.tabs, ClosedBy(s, CloseOthers(id)), 0, n);
    }
  }

  /** Closing actions close exactly the tabs they name; the others stay, in their order. */
  lemma ClosesExactly<V>(s: Store<V>, a: Action<V>)
    requires Consistent(s) && IsClosing(a)
    ensures Apply(s, a).tabs == Staying(s, a, |s.tabs|)
  {
    match a
    case Close(id) => FilterCloses(s, a, HasOtherId(id));
    case CloseOthers(id) => OthersClose(s, id);
    case CloseLeft(id) => LeftCloses(s, id);
    case CloseRight(id) => RightCloses(s, id);
    case CloseByConnection(connectionId) =>
      if JsTrim(connectionId) == "" {
        SparedFrom(s.tabs, ClosedBy(s, a), 0, |s.tabs|);
      } else {
        FilterCloses(s, a, OnOtherConnection(JsTrim(connectionId)));
      }
    case CloseByDatabase(connectionId, dbName) =>
      if JsTrim(connectionId) == "" || JsTrim(dbName) == "" {
        SparedFrom(s.tabs, ClosedBy(s, a), 0, |s.tabs|);
      } else {
        FilterCloses(s, a, OnOtherDatabase(JsTrim(connectionId), JsTrim(dbName)));
      }
    case CloseAll => SparedNone(s.tabs, ClosedBy(s, a), |s.tabs|);
  }

  /**
   After closing, an active tab that is still open stays active. If it has been closed, the tab that the call
   named takes its place when that one is kept on purpose, and else the last tab.
   */
  lemma ClosingKeepsActive<V>(s: Store<V>, a: Action<V>)
    requires Consistent(s) && IsClosing(a) && !a.CloseOthers? && IsText(s.activeTabId)
    ensures var after := Apply(s, a);
            if IsOpen(after.tabs, s.activeTabId.value) then after.activeTabId == s.activeTabId
            else if a.CloseLeft? || a.CloseRight? then after.activeTabId == Some(a.id)
            else after.activeTabId == LastId(after.tabs)
  {
    var after := Apply(s, a);
    FoundIsOpen(after.tabs, s.activeTabId.value);
    if a.Close? {
      StepConsistent(s, a);
      FilteredOut(s.tabs, a.id);
    }
  }

  lemma FilteredOut<V>(tabs: seq<Tab<V>>, id: string)
    ensures !IsOpen(Filter(tabs, HasOtherId(id)), id)
  {
    var kept := Filter(tabs, HasOtherId(id));
    forall i | 0 <= i < |kept| ensures kept[i].id != id {
      FilterMembers(tabs, HasOtherId(id), kept[i]);
    }
  }
}
