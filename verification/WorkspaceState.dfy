/**
The tab part of the workspace store (src/stores/workspace.ts) as a value, and every action on
it as a function from the state it finds to the state it leaves: first the patch the action
writes, then the repair its subscriber makes.
*/
module WorkspaceState {
  import opened Prelude
  import opened Panes
  import opened PaneNormalize

  type ConnectionId = nat

  const CLOSED_LIMIT: nat := 25

  datatype TabKind = Table | Query | Erd | Object | OtherKind

  /** `seed` is what only a live tab carries: a query's starting text, a table's first filters. */
  datatype Tab = Tab(id: TabId, kind: TabKind, connection: Option<ConnectionId>, seed: Option<nat>)

  datatype CloseRequest = CloseRequest(ids: set<TabId>, dirty: set<TabId>)

  datatype State = State(
    tabs: seq<Tab>,
    panes: PaneLayout,
    activeTab: Option<TabId>,
    splitTab: Option<TabId>,
    preview: Option<TabId>,
    dirty: set<TabId>,
    closed: seq<Tab>,
    request: Option<CloseRequest>)

  function Initial(): State {
    State([], InitialPanes(), None, None, None, {}, [], None)
  }

  // ------------------------------------------------------------------ lists of tabs

  function Ids(tabs: seq<Tab>): (ids: seq<TabId>)
    ensures |ids| == |tabs| && forall k :: 0 <= k < |tabs| ==> ids[k] == tabs[k].id
  {
    seq(|tabs|, k requires 0 <= k < |tabs| => tabs[k].id)
  }

  /** The tabs whose id is in `keep`, in order. */
  function TabsIn(tabs: seq<Tab>, keep: set<TabId>): seq<Tab> {
    if tabs == [] then []
    else if tabs[0].id in keep then [tabs[0]] + TabsIn(tabs[1..], keep)
    else TabsIn(tabs[1..], keep)
  }

  function Staying(tabs: seq<Tab>, gone: set<TabId>): seq<Tab> {
    TabsIn(tabs, Elems(Ids(tabs)) - gone)
  }

  /** Every tab called `id` replaced by `tab`. */
  function Replaced(tabs: seq<Tab>, id: TabId, tab: Tab): (r: seq<Tab>)
    ensures |r| == |tabs| && forall k :: 0 <= k < |tabs| ==> r[k] == if tabs[k].id == id then tab else tabs[k]
  {
    seq(|tabs|, k requires 0 <= k < |tabs| => if tabs[k].id == id then tab else tabs[k])
  }

  function InsertAt<T>(s: seq<T>, at: nat, x: T): seq<T>
    requires at <= |s|
  {
    s[..at] + [x] + s[at..]
  }

  function Storable(tab: Tab): Tab {
    if tab.kind.Query? || tab.kind.Table? then tab.(seed := None) else tab
  }

  function PushClosed(stack: seq<Tab>, closed: seq<Tab>): (r: seq<Tab>)
    ensures |r| <= CLOSED_LIMIT
  {
    var all := stack + seq(|closed|, k requires 0 <= k < |closed| => Storable(closed[k]));
    if |all| > CLOSED_LIMIT then all[|all| - CLOSED_LIMIT..] else all
  }

  // ------------------------------------------------------------------ patches

  /** The fields `paneState` writes: the repaired layout and the two ids read off it. */
  function PaneState(s: State, tabs: seq<Tab>, panes: PaneLayout, requested: Option<TabId>): State {
    var fixed := Normalized(panes, Ids(tabs), requested);
    s.(tabs := tabs, panes := fixed, activeTab := ActiveOf(fixed), splitTab := SideTabOf(fixed))
  }

  /** The tabs of `connection` that sit in the focused pane. */
  predicate IsKin(panes: PaneLayout, connection: ConnectionId, tab: Tab) {
    tab.connection == Some(connection) && PaneOf(panes, tab.id) == panes.focused
  }

  function Kin(tabs: seq<Tab>, panes: PaneLayout, connection: ConnectionId): set<TabId> {
    set k | 0 <= k < |tabs| && IsKin(panes, connection, tabs[k]) :: tabs[k].id
  }

  /** A new tab joins the focused strip behind its own kin, or the list if it has none there. */
  function WithTab(tabs: seq<Tab>, panes: PaneLayout, tab: Tab): seq<Tab> {
    var at := if tab.connection.None? then |tabs| else AfterLast(Ids(tabs), Kin(tabs, panes, tab.connection.value));
    InsertAt(tabs, at, tab)
  }

  function ShowTab(s: State, tab: Tab, replace: bool): State {
    var tabs :=
      if tab.id !in Ids(s.tabs) then WithTab(s.tabs, s.panes, tab)
      else if replace then Replaced(s.tabs, tab.id, tab)
      else s.tabs;
    PaneState(s, tabs, Activated(s.panes, tab.id), Some(tab.id))
  }

  /** The last member of `s` that is not leaving. */
  function NearestLeft(s: seq<TabId>, leaving: set<TabId>): Option<TabId> {
    if s == [] then None
    else if Last(s) !in leaving then Some(Last(s))
    else NearestLeft(s[..|s| - 1], leaving)
  }

  /** The first member of `s` that is not leaving. */
  function NearestRight(s: seq<TabId>, leaving: set<TabId>): Option<TabId> {
    if s == [] then None
    else if s[0] !in leaving then Some(s[0])
    else NearestRight(s[1..], leaving)
  }

  /** `mine.slice(0, at)`, where a negative `at` counts from the end. */
  function LeftOf(mine: seq<TabId>, at: int): seq<TabId>
    requires -1 <= at < |mine|
  {
    if at >= 0 then mine[..at] else if mine == [] then [] else mine[..|mine| - 1]
  }

  /** Who a strip shows once `current` and everybody else in `leaving` is gone. */
  function Successor(mine: seq<TabId>, current: TabId, leaving: set<TabId>): Option<TabId> {
    var at := IndexOf(mine, current);
    var left := NearestLeft(LeftOf(mine, at), leaving);
    if left.Some? then left else NearestRight(mine[at + 1..], leaving)
  }

  function HandedTo(l: PaneLayout, ids: seq<TabId>, leaving: set<TabId>, pane: PaneId): Option<TabId> {
    var current := ActiveIn(l, pane);
    if HasPane(l, pane) && current.Some? && current.value in leaving
    then Successor(Strip(l, ids, pane), current.value, leaving)
    else current
  }

  /** Wherever a leaving tab was shown, its successor is. */
  function HandedOff(l: PaneLayout, ids: seq<TabId>, leaving: set<TabId>): PaneLayout {
    l.(active := map p | p in l.active :: HandedTo(l, ids, leaving, p))
  }

  function AfterRemoval(s: State, gone: set<TabId>): State {
    PaneState(s, Staying(s.tabs, gone), HandedOff(s.panes, Ids(s.tabs), gone), None).(
      preview := if s.preview.Some? && s.preview.value in gone then None else s.preview,
      dirty := s.dirty - gone)
  }

  /** Removing would take the last query tab of a connection whose user said no. */
  predicate Refused(tabs: seq<Tab>, gone: set<TabId>, declined: set<ConnectionId>) {
    exists k :: 0 <= k < |tabs| && tabs[k].id in gone && tabs[k].kind.Query? && tabs[k].connection.Some?
      && tabs[k].connection.value in declined
      && !exists j ::
        0 <= j < |tabs| && tabs[j].id !in gone && tabs[j].kind.Query? && tabs[j].connection == tabs[k].connection
  }

  /** `declined`: the connections for which the user answers no when asked to leave a transaction. */
  function RemoveTabs(s: State, gone: set<TabId>, declined: set<ConnectionId>): State {
    var closed := TabsIn(s.tabs, gone);
    if closed == [] || Refused(s.tabs, gone, declined) then s
    else AfterRemoval(s, gone).(closed := PushClosed(s.closed, closed))
  }

  /** The flat list once `tab` is dropped on `before`, or on the free end of the strip of `pane`. */
  function Placed(tabs: seq<Tab>, l: PaneLayout, tab: TabId, pane: PaneId, before: Option<TabId>): seq<Tab> {
    var from := IndexOf(Ids(tabs), tab);
    if from < 0 || before == Some(tab) then tabs
    else
      var rest := Staying(tabs, {tab});
      var ids := Ids(rest);
      var found := if before.None? then -1 else IndexOf(ids, before.value);
      var at := if found < 0 then AfterLast(ids, Residents(l, ids, pane)) else found;
      InsertAt(rest, at, tabs[from])
  }

  function MoveTabPatch(s: State, tab: TabId, pane: PaneId, before: Option<TabId>): State {
    if tab !in Ids(s.tabs) || !HasPane(s.panes, pane) then s
    else
      var tabs := Placed(s.tabs, s.panes, tab, pane, before);
      if PaneOf(s.panes, tab) == pane then s.(tabs := tabs)
      else PaneState(s, tabs, MovedToPane(HandedOff(s.panes, Ids(s.tabs), {tab}), tab, pane), None)
  }

  /** Opens `tab` (a table) in the preview tab's place, position and pane. */
  function ReplacePreview(s: State, preview: TabId, tab: Tab): State {
    var pane := PaneOf(s.panes, preview);
    var owner := (s.panes.owner - {preview})[tab.id := pane];
    var shown := if ActiveIn(s.panes, pane) == Some(preview) then Some(tab.id) else ActiveIn(s.panes, pane);
    var active := s.panes.active[pane := shown];
    PaneState(s, Replaced(s.tabs, preview, tab), Activated(s.panes.(owner := owner, active := active), tab.id),
      Some(tab.id)).(preview := Some(tab.id))
  }

  /** Opening a table. `reuse`: tables share one preview tab, and this one is opened without filters. */
  function OpenTablePatch(s: State, tab: Tab, reuse: bool, doubleClick: bool): State {
    if tab.id in Ids(s.tabs) then
      var keep := s.preview == Some(tab.id) && reuse && !doubleClick;
      var kept := if keep then Some(tab.id) else if s.preview == Some(tab.id) then None else s.preview;
      ShowTab(s, tab, true).(preview := kept)
    else if reuse && s.preview.Some? && s.preview.value in Ids(s.tabs) then ReplacePreview(s, s.preview.value, tab)
    else ShowTab(s, tab, false).(preview := if reuse then Some(tab.id) else s.preview)
  }

  function ActivatePatch(s: State, id: TabId): State {
    PaneState(s, s.tabs, Activated(s.panes, id), Some(id))
  }

  /** The first pane in reading order that does not have the focus. */
  function SidePane(l: PaneLayout, order: seq<PaneId>): Option<PaneId> {
    if order == [] then None else if order[0] != l.focused then Some(order[0]) else SidePane(l, order[1..])
  }

  function CloseSplitPatch(s: State): State {
    match SidePane(s.panes, PaneIds(s.panes.root))
    case None => s
    case Some(side) => PaneState(s, s.tabs, Closed(s.panes, side), None)
  }

  function SwapSplitPatch(s: State): State {
    var l := s.panes;
    match (SidePane(l, PaneIds(l.root)), ActiveOf(l))
    case (Some(side), Some(mine)) =>
      (match ActiveIn(l, side)
       case None => s
       case Some(theirs) =>
         PaneState(s, s.tabs, l.(
           owner := l.owner[mine := side][theirs := l.focused],
           active := l.active[l.focused := Some(theirs)][side := Some(mine)]), None))
    case _ => s
  }

  function SplitPanePatch(s: State, pane: PaneId, zone: DropZone, tab: TabId): State {
    var ids := Ids(s.tabs);
    var inPane := Strip(s.panes, ids, pane);
    if |inPane| < 2 || tab !in inPane then s
    else match SplitWithTab(HandedOff(s.panes, ids, {tab}), pane, zone, tab)
      case None => s
      case Some(l) => PaneState(s, s.tabs, l, None)
  }

  function DropTabPatch(s: State, tab: TabId, pane: PaneId, zone: DropZone): State {
    var ids := Ids(s.tabs);
    if tab !in ids || !HasPane(s.panes, pane) then s
    else if zone.Center? then MoveTabPatch(s, tab, pane, None)
    else if PaneOf(s.panes, tab) == pane && |Strip(s.panes, ids, pane)| < 2 then s
    else match SplitWithTab(HandedOff(s.panes, ids, {tab}), pane, zone, tab)
      case None => s
      case Some(l) => PaneState(s, s.tabs, l, None)
  }

  function SetDirtyPatch(s: State, id: TabId, dirty: bool): State {
    if (id in s.dirty) == dirty then s
    else s.(dirty := if dirty then s.dirty + {id} else s.dirty - {id},
            preview := if dirty && s.preview == Some(id) then None else s.preview)
  }

  // ------------------------------------------------------------------ the subscriber

  /** What the subscriber makes of a written state; `wasActive` is the active tab before the write. */
  function Repaired(s: State, wasActive: Option<TabId>): State {
    var ids := Ids(s.tabs);
    PaneState(s, s.tabs, s.panes, if s.activeTab != wasActive then s.activeTab else None).(
      preview := if s.preview.Some? && s.preview.value !in ids then None else s.preview,
      dirty := set d | d in s.dirty && d in ids)
  }

  /** Whether the subscriber writes at all. */
  predicate NeedsRepair(s: State, wasActive: Option<TabId>) {
    var ids := Ids(s.tabs);
    var requested := if s.activeTab != wasActive then s.activeTab else None;
    var fixed := Normalized(s.panes, ids, requested);
    || Rewrites(s.panes, ids, requested)
    || ActiveOf(fixed) != s.activeTab
    || SideTabOf(fixed) != s.splitTab
    || (s.preview.Some? && s.preview.value !in ids)
    || exists d :: d in s.dirty && d !in ids
  }

  // ------------------------------------------------------------------ actions

  datatype Action =
    | Show(incoming: Tab, replace: bool)
    | OpenTable(incoming: Tab, reuse: bool, doubleClick: bool)
    | Promote(id: TabId)
    | Close(gone: set<TabId>, declined: set<ConnectionId>)
    | CloseToRight(id: TabId, declined: set<ConnectionId>)
    | CloseOthers(id: TabId, declined: set<ConnectionId>)
    | RequestClose(ids: set<TabId>, declined: set<ConnectionId>)
    | ResolveClose(close: bool, declined: set<ConnectionId>)
    | DropConnection(connection: ConnectionId, kinds: set<TabKind>)
    | PopClosed
    | OpenToSide(id: TabId)
    | CloseSplit
    | SwapSplit
    | Focus(pane: PaneId)
    | SplitPaneWith(pane: PaneId, zone: DropZone, tab: TabId)
    | ClosePaneOf(pane: PaneId)
    | Drop(tab: TabId, pane: PaneId, zone: DropZone)
    | Move(tab: TabId, pane: PaneId, before: Option<TabId>)
    | Resize(split: PaneId, ratio: Number)
    | Cycle(forward: bool)
    | Activate(id: TabId)
    | SetDirty(id: TabId, dirty: bool)
    | RawWrite(tabs: seq<Tab>, activeTab: Option<TabId>)

  /** A write followed by the subscriber's repair. */
  function Set(s: State, written: State): State {
    Repaired(written, s.activeTab)
  }

  function RightOf(tabs: seq<Tab>, id: TabId): set<TabId> {
    var at := IndexOf(Ids(tabs), id);
    if at < 0 then {} else Elems(Ids(tabs)[at + 1..])
  }

  function OnConnection(tabs: seq<Tab>, connection: ConnectionId, kinds: set<TabKind>): set<TabId> {
    set k | 0 <= k < |tabs| && tabs[k].connection == Some(connection) && tabs[k].kind in kinds :: tabs[k].id
  }

  /** What Ctrl+Tab cycles through. */
  function FocusedStrip(s: State): seq<TabId> {
    Strip(s.panes, Ids(s.tabs), s.panes.focused)
  }

  /** The member of `mine` next to `shown` in cycle order, wrapping. */
  function NextIn(mine: seq<TabId>, shown: Option<TabId>, forward: bool): Option<TabId> {
    if mine == [] then None
    else
      var at := if shown.None? then -1 else IndexOf(mine, shown.value);
      var x := at + (if forward then 1 else -1) + |mine|;
      // Only with one tab and none shown is x negative: -1 % 1 is -0 there, which still finds index 0.
      Some(mine[if x < 0 then 0 else Remainder(x, |mine|)])
  }

  function CycleTarget(s: State, forward: bool): Option<TabId> {
    NextIn(FocusedStrip(s), ActiveOf(s.panes), forward)
  }

  function OpenToSideTarget(l: PaneLayout, from: PaneId): Option<PaneId> {
    var order := PaneIds(l.root);
    var at := IndexOf(order, from);
    if 0 <= at + 1 < |order| then Some(order[at + 1]) else if 0 <= at - 1 < |order| then Some(order[at - 1]) else None
  }

  /** Sends a tab to the next pane in reading order, the previous one at the end, or to one split off for it. */
  function OpenToSidePatch(s: State, id: TabId): State {
    var from := PaneOf(s.panes, id);
    match OpenToSideTarget(s.panes, from)
    case Some(neighbour) => MoveTabPatch(s, id, neighbour, None)
    case None => SplitPanePatch(s, from, Right, id)
  }

  /** The patch of the actions that only rearrange panes; any other action writes nothing here. */
  function PanePatch(s: State, a: Action): State {
    match a
    case CloseSplit => CloseSplitPatch(s)
    case SwapSplit => SwapSplitPatch(s)
    case Focus(pane) => PaneState(s, s.tabs, Focused(s.panes, pane), None)
    case SplitPaneWith(pane, zone, tab) => SplitPanePatch(s, pane, zone, tab)
    case ClosePaneOf(pane) => PaneState(s, s.tabs, Closed(s.panes, pane), None)
    case Drop(tab, pane, zone) => DropTabPatch(s, tab, pane, zone)
    case Move(tab, pane, before) => MoveTabPatch(s, tab, pane, before)
    case Resize(split, ratio) => s.(panes := Resized(s.panes, split, ratio))
    case _ => s
  }

  function DoShow(s: State, tab: Tab, replace: bool): State {
    Set(s, ShowTab(s, tab, replace))
  }

  function DoActivate(s: State, id: TabId): State {
    Set(s, ActivatePatch(s, id))
  }

  function DoCycle(s: State, forward: bool): State {
    match CycleTarget(s, forward)
    case None => s
    case Some(id) => DoActivate(s, id)
  }

  /** Another feature replaces the tab list and the active id, knowing nothing of panes. */
  function DoRawWrite(s: State, tabs: seq<Tab>, activeTab: Option<TabId>): State {
    Set(s, s.(tabs := tabs, activeTab := activeTab))
  }

  function Do(s: State, a: Action): State {
    match a
    case Show(tab, replace) => DoShow(s, tab, replace)
    case OpenTable(tab, reuse, doubleClick) => Set(s, OpenTablePatch(s, tab, reuse, doubleClick))
    case Promote(id) => Set(s, if s.preview == Some(id) then s.(preview := None) else s)
    case Close(gone, declined) => Remove(s, gone, declined)
    case CloseToRight(id, declined) => Remove(s, RightOf(s.tabs, id), declined)
    case CloseOthers(id, declined) => Remove(s, Elems(Ids(s.tabs)) - {id}, declined)
    case RequestClose(ids, declined) =>
      if ids * s.dirty == {} then Remove(s, ids, declined)
      else Set(s, s.(request := Some(CloseRequest(ids, ids * s.dirty))))
    case ResolveClose(close, declined) =>
      var answered := Set(s, s.(request := None));
      if close && s.request.Some? then Remove(answered, s.request.value.ids, declined) else answered
    case DropConnection(connection, kinds) => Set(s, AfterRemoval(s, OnConnection(s.tabs, connection, kinds)))
    case PopClosed => Set(s, s.(closed := if s.closed == [] then [] else s.closed[..|s.closed| - 1]))
    case OpenToSide(id) => if id !in Ids(s.tabs) then s else Set(s, OpenToSidePatch(s, id))
    case Cycle(forward) => DoCycle(s, forward)
    case Activate(id) => DoActivate(s, id)
    case SetDirty(id, dirty) => Set(s, SetDirtyPatch(s, id, dirty))
    case RawWrite(tabs, activeTab) => DoRawWrite(s, tabs, activeTab)
    case _ => Set(s, PanePatch(s, a))
  }

  /** `removeTabs`: nothing is written when nothing closes or the user refuses. */
  function Remove(s: State, gone: set<TabId>, declined: set<ConnectionId>): State {
    if TabsIn(s.tabs, gone) == [] || Refused(s.tabs, gone, declined) then s
    else Set(s, RemoveTabs(s, gone, declined))
  }

  function Run(s: State, actions: seq<Action>): State
    decreases |actions|
  {
    if actions == [] then s else Run(Do(s, actions[0]), actions[1..])
  }
}
