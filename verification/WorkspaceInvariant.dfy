/**
The workspace invariant and its safety over whole runs: starting from the empty workspace,
every sequence of actions and of raw writes by other features keeps the tabs, the panes and
the flags consistent with each other.
*/
module WorkspaceInvariant {
  import opened Prelude
  import opened Panes
  import opened PaneSurgery
  import opened PaneNormalize
  import opened PaneSettling
  import opened WorkspaceState

  /** The layout, the flat list and the two ids derived from them agree. */
  ghost predicate PaneInv(s: State) {
    && Distinct(Ids(s.tabs))
    && Grown(s.panes)
    && Consistent(s.panes, Ids(s.tabs))
    && s.activeTab == ActiveOf(s.panes)
    && s.splitTab == SideTabOf(s.panes)
  }

  /** Unsaved work belongs to open tabs, and the preview is an open tab without any. */
  ghost predicate TabInv(s: State) {
    && (forall d :: d in s.dirty ==> d in Ids(s.tabs))
    && (s.preview.Some? ==> s.preview.value in Ids(s.tabs) && s.preview.value !in s.dirty)
    && |s.closed| <= CLOSED_LIMIT
  }

  ghost predicate Inv(s: State) {
    PaneInv(s) && TabInv(s)
  }

  /** What a write must leave for the subscriber to restore the invariant. */
  ghost predicate Repairable(s: State) {
    && Distinct(Ids(s.tabs))
    && Grown(s.panes)
    && (s.preview.Some? ==> s.preview.value !in s.dirty)
    && |s.closed| <= CLOSED_LIMIT
  }

  // ------------------------------------------------------------------ lists of tabs

  lemma {:induction false} IdsOfTabsIn(tabs: seq<Tab>, keep: set<TabId>)
    ensures Ids(TabsIn(tabs, keep)) == Only(Ids(tabs), keep)
  {
    if tabs == [] {
      assert Ids(tabs) == [];
    } else {
      IdsOfTabsIn(tabs[1..], keep);
      assert Ids(tabs) == [tabs[0].id] + Ids(tabs[1..]);
      assert Ids([tabs[0]] + TabsIn(tabs[1..], keep)) == [tabs[0].id] + Ids(TabsIn(tabs[1..], keep));
    }
  }

  lemma IdsOfStaying(tabs: seq<Tab>, gone: set<TabId>)
    ensures Ids(Staying(tabs, gone)) == Minus(Ids(tabs), gone)
    ensures Distinct(Ids(tabs)) ==> Distinct(Ids(Staying(tabs, gone)))
  {
    IdsOfTabsIn(tabs, Elems(Ids(tabs)) - gone);
    if Distinct(Ids(tabs)) {
      OnlyDistinct(Ids(tabs), Elems(Ids(tabs)) - gone);
    }
  }

  lemma IdsOfInsertAt(tabs: seq<Tab>, at: nat, tab: Tab)
    requires at <= |tabs|
    ensures Ids(InsertAt(tabs, at, tab)) == InsertAt(Ids(tabs), at, tab.id)
  {
  }

  lemma InsertAtElems<T>(s: seq<T>, at: nat, x: T)
    requires at <= |s|
    ensures forall y :: y in InsertAt(s, at, x) <==> y in s || y == x
    ensures Distinct(s) && x !in s ==> Distinct(InsertAt(s, at, x))
  {
    assert s == s[..at] + s[at..];
    DistinctConcat(s[..at], s[at..]);
    DistinctConcat(s[..at] + [x], s[at..]);
    DistinctConcat(s[..at], [x]);
  }

  /** Replacing a tab by another one changes exactly that id, in place. */
  lemma {:induction false} IdsOfReplaced(tabs: seq<Tab>, id: TabId, tab: Tab)
    requires Distinct(Ids(tabs))
    requires tab.id == id || tab.id !in Ids(tabs)
    ensures Distinct(Ids(Replaced(tabs, id, tab)))
    ensures forall t :: t in Ids(Replaced(tabs, id, tab)) <==>
      (t in Ids(tabs) && t != id) || (t == tab.id && id in Ids(tabs))
  {
    if tabs != [] {
      var rest := tabs[1..];
      assert Ids(tabs) == [tabs[0].id] + Ids(rest);
      assert Replaced(tabs, id, tab) == [if tabs[0].id == id then tab else tabs[0]] + Replaced(rest, id, tab);
      assert Ids(Replaced(tabs, id, tab)) ==
        [if tabs[0].id == id then tab.id else tabs[0].id] + Ids(Replaced(rest, id, tab));
      IdsOfReplaced(rest, id, tab);
    }
  }

  /** Moving a tab in the flat list keeps the same tabs. */
  lemma IdsOfPlaced(tabs: seq<Tab>, l: PaneLayout, tab: TabId, pane: PaneId, before: Option<TabId>)
    requires Distinct(Ids(tabs))
    ensures Distinct(Ids(Placed(tabs, l, tab, pane, before)))
    ensures forall t :: t in Ids(Placed(tabs, l, tab, pane, before)) <==> t in Ids(tabs)
  {
    var from := IndexOf(Ids(tabs), tab);
    if from >= 0 && before != Some(tab) {
      var rest := Staying(tabs, {tab});
      var ids := Ids(rest);
      IdsOfStaying(tabs, {tab});
      MinusElems(Ids(tabs), {tab});
      var found := if before.None? then -1 else IndexOf(ids, before.value);
      var at := if found < 0 then AfterLast(ids, Residents(l, ids, pane)) else found;
      IdsOfInsertAt(rest, at, tabs[from]);
      InsertAtElems(ids, at, tab);
    }
  }

  // ------------------------------------------------------------------ the subscriber restores the invariant

  lemma PaneStateInv(s: State, tabs: seq<Tab>, panes: PaneLayout, requested: Option<TabId>)
    requires Distinct(Ids(tabs)) && Grown(panes)
    ensures PaneInv(PaneState(s, tabs, panes, requested))
  {
    NormalizedConsistent(panes, Ids(tabs), requested);
  }

  lemma RepairedInv(s: State, wasActive: Option<TabId>)
    requires Repairable(s)
    ensures Inv(Repaired(s, wasActive))
  {
    PaneStateInv(s, s.tabs, s.panes, if s.activeTab != wasActive then s.activeTab else None);
  }

  /** On a state that already holds the invariant the subscriber writes nothing. */
  lemma RepairedSettled(s: State, wasActive: Option<TabId>)
    requires Inv(s)
    ensures Repaired(s, wasActive) == s
    ensures !NeedsRepair(s, wasActive)
  {
    var requested := if s.activeTab != wasActive then s.activeTab else None;
    NormalizedFixpoint(s.panes, Ids(s.tabs), requested);
    NothingToForget(s);
    FixedStays(s, wasActive, requested);
  }

  lemma FixedStays(s: State, wasActive: Option<TabId>, requested: Option<TabId>)
    requires requested == (if s.activeTab != wasActive then s.activeTab else None)
    requires Normalized(s.panes, Ids(s.tabs), requested) == s.panes && !Rewrites(s.panes, Ids(s.tabs), requested)
    requires s.activeTab == ActiveOf(s.panes) && s.splitTab == SideTabOf(s.panes)
    requires (set d | d in s.dirty && d in Ids(s.tabs)) == s.dirty && forall d :: d in s.dirty ==> d in Ids(s.tabs)
    requires s.preview.Some? ==> s.preview.value in Ids(s.tabs)
    ensures Repaired(s, wasActive) == s && !NeedsRepair(s, wasActive)
  {
  }

  lemma NothingToForget(s: State)
    requires Inv(s)
    ensures (set d | d in s.dirty && d in Ids(s.tabs)) == s.dirty
    ensures s.preview.Some? ==> s.preview.value in Ids(s.tabs)
    ensures forall d :: d in s.dirty ==> d in Ids(s.tabs)
  {
  }

  /** Told of its own repair, the subscriber finds nothing to do. */
  lemma SubscriberSettles(written: State, wasActive: Option<TabId>)
    requires Repairable(written)
    ensures !NeedsRepair(Repaired(written, wasActive), written.activeTab)
  {
    RepairedInv(written, wasActive);
    RepairedSettled(Repaired(written, wasActive), written.activeTab);
  }

  /** Repairing the layout of this state never comes to an end. */
  ghost predicate Restless(s: State) {
    !Settles(s.panes, Ids(s.tabs))
  }

  /** A repaired state needs another repair if and only if it is restless. */
  lemma RepairedNeeds(s: State, wasActive: Option<TabId>)
    requires Live(s.panes)
    ensures var t := Repaired(s, wasActive);
      && t.tabs == s.tabs && Live(t.panes) && (Restless(t) <==> Restless(s))
      && (NeedsRepair(t, s.activeTab) <==> Restless(s))
  {
    var ids, t := Ids(s.tabs), Repaired(s, wasActive);
    var requested := if s.activeTab != wasActive then s.activeTab else None;
    var again := if t.activeTab != s.activeTab then t.activeTab else None;
    RepairedOnce(s.panes, ids, requested, again);
  }

  lemma QuietMeansHomed(s: State, wasActive: Option<TabId>)
    ensures !NeedsRepair(s, wasActive) ==> !OwnerChanged(s.panes, Ids(s.tabs)) && !Restless(s)
  {
  }

  /** A state the subscriber is told of, and the tab that was active before. */
  datatype News = News(state: State, was: Option<TabId>)

  /** What its own repair makes news of. */
  function Told(news: News): News {
    News(Repaired(news.state, news.was), news.state.activeTab)
  }

  /** It finds nothing to write. */
  predicate Quiet(news: News) {
    !NeedsRepair(news.state, news.was)
  }

  function Iterated<T>(f: T -> T, x: T, n: nat): T {
    if n == 0 then x else f(Iterated(f, x, n - 1))
  }

  lemma {:induction false} IteratedKeeps<T(!new)>(f: T -> T, holds: T -> bool, x: T, n: nat)
    requires holds(x) && forall y :: holds(y) ==> holds(f(y))
    ensures holds(Iterated(f, x, n))
  {
    if n > 0 {
      IteratedKeeps(f, holds, x, n - 1);
    }
  }

  /** However often the subscriber is told, the state stays restless, or stays not. */
  lemma ToldIs(news: News, n: nat)
    requires Live(news.state.panes)
    ensures var t := Iterated(Told, news, n).state; Live(t.panes) && (Restless(t) <==> Restless(news.state))
  {
    var restless := Restless(news.state);
    var holds := (x: News) => Live(x.state.panes) && (Restless(x.state) <==> restless);
    forall x | holds(x) ensures holds(Told(x)) {
      RepairedNeeds(x.state, x.was);
    }
    IteratedKeeps(Told, holds, news, n);
  }

  /** Told of that many writes, it falls quiet. */
  predicate QuietAfter(news: News, n: nat) {
    Quiet(Iterated(Told, news, n))
  }

  lemma QuietLater(news: News, n: nat)
    requires Live(news.state.panes)
    ensures QuietAfter(news, n + 1) <==> !Restless(news.state)
  {
    ToldIs(news, n);
    var before := Iterated(Told, news, n);
    assert Iterated(Told, news, n + 1) == Told(before);
    TellOnce(before);
  }

  lemma QuietExactly(news: News, n: nat)
    requires Live(news.state.panes)
    ensures QuietAfter(news, n) ==> !Restless(news.state)
  {
    if n > 0 {
      QuietLater(news, n - 1);
    } else {
      QuietMeansHomed(news.state, news.was);
    }
  }

  lemma TellOnce(news: News)
    requires Live(news.state.panes)
    ensures Quiet(Told(news)) <==> !Restless(news.state)
  {
    RepairedNeeds(news.state, news.was);
  }

  /**
  The subscriber, told of each of its own writes, falls quiet if and only if no tab is listed twice,
  or the listed tabs are recorded where they are and the records are as many as the entries. It is
  then quiet after one write of its own; otherwise it goes on writing for ever.
  */
  lemma SubscriberSettlesExactly(written: State, wasActive: Option<TabId>)
    requires Live(written.panes)
    ensures (exists n: nat :: QuietAfter(News(written, wasActive), n)) <==>
      Distinct(Ids(written.tabs)) || !OwnerChanged(written.panes, Ids(written.tabs))
    ensures (exists n: nat :: QuietAfter(News(written, wasActive), n)) <==> QuietAfter(News(written, wasActive), 1)
  {
    var news := News(written, wasActive);
    forall n: nat | QuietAfter(news, n) ensures !Restless(written) {
      QuietExactly(news, n);
    }
    QuietLater(news, 0);
  }

  // ------------------------------------------------------------------ every patch is repairable

  lemma ActivatedGrown(l: PaneLayout, tab: TabId)
    requires Grown(l)
    ensures Grown(Activated(l, tab))
  {
  }

  lemma ShowTabRepairable(s: State, tab: Tab, replace: bool)
    requires Inv(s)
    ensures Repairable(ShowTab(s, tab, replace))
    ensures tab.id in Ids(ShowTab(s, tab, replace).tabs)
    ensures forall t :: t in Ids(s.tabs) ==> t in Ids(ShowTab(s, tab, replace).tabs)
  {
    var r := ShowTab(s, tab, replace);
    ActivatedGrown(s.panes, tab.id);
    if tab.id !in Ids(s.tabs) {
      var at := if tab.connection.None? then |s.tabs|
        else AfterLast(Ids(s.tabs), Kin(s.tabs, s.panes, tab.connection.value));
      IdsOfInsertAt(s.tabs, at, tab);
      InsertAtElems(Ids(s.tabs), at, tab.id);
    } else if replace {
      IdsOfReplaced(s.tabs, tab.id, tab);
    }
    PaneStateInv(s, r.tabs, Activated(s.panes, tab.id), Some(tab.id));
  }

  lemma ReplacePreviewRepairable(s: State, preview: TabId, tab: Tab)
    requires Inv(s) && preview in Ids(s.tabs) && tab.id !in Ids(s.tabs)
    ensures Repairable(ReplacePreview(s, preview, tab))
    ensures forall t :: t in Ids(ReplacePreview(s, preview, tab).tabs) <==>
      (t in Ids(s.tabs) && t != preview) || t == tab.id
  {
    IdsOfReplaced(s.tabs, preview, tab);
    var pane := PaneOf(s.panes, preview);
    var owner := (s.panes.owner - {preview})[tab.id := pane];
    var shown := if ActiveIn(s.panes, pane) == Some(preview) then Some(tab.id) else ActiveIn(s.panes, pane);
    var active := s.panes.active[pane := shown];
    var l := s.panes.(owner := owner, active := active);
    ActivatedGrown(l, tab.id);
    PaneStateInv(s, Replaced(s.tabs, preview, tab), Activated(l, tab.id), Some(tab.id));
    assert tab.id !in s.dirty;
  }

  lemma OpenTableRepairable(s: State, tab: Tab, reuse: bool, doubleClick: bool)
    requires Inv(s)
    ensures Repairable(OpenTablePatch(s, tab, reuse, doubleClick))
  {
    if tab.id in Ids(s.tabs) {
      ShowTabRepairable(s, tab, true);
    } else if reuse && s.preview.Some? && s.preview.value in Ids(s.tabs) {
      ReplacePreviewRepairable(s, s.preview.value, tab);
    } else {
      ShowTabRepairable(s, tab, false);
      assert tab.id !in s.dirty;
    }
  }

  lemma AfterRemovalRepairable(s: State, gone: set<TabId>)
    requires Inv(s)
    ensures Repairable(AfterRemoval(s, gone))
  {
    IdsOfStaying(s.tabs, gone);
    PaneStateInv(s, Staying(s.tabs, gone), HandedOff(s.panes, Ids(s.tabs), gone), None);
  }

  lemma MoveTabRepairable(s: State, tab: TabId, pane: PaneId, before: Option<TabId>)
    requires Inv(s)
    ensures Repairable(MoveTabPatch(s, tab, pane, before))
  {
    IdsOfPlaced(s.tabs, s.panes, tab, pane, before);
    if tab in Ids(s.tabs) && HasPane(s.panes, pane) && PaneOf(s.panes, tab) != pane {
      PaneStateInv(s, Placed(s.tabs, s.panes, tab, pane, before),
        MovedToPane(HandedOff(s.panes, Ids(s.tabs), {tab}), tab, pane), None);
    }
  }

  lemma SplitRepairable(s: State, pane: PaneId, zone: DropZone, tab: TabId)
    requires Inv(s)
    requires SplitWithTab(HandedOff(s.panes, Ids(s.tabs), {tab}), pane, zone, tab).Some?
    ensures var split := SplitWithTab(HandedOff(s.panes, Ids(s.tabs), {tab}), pane, zone, tab).value;
      Repairable(PaneState(s, s.tabs, split, None))
  {
    SplitGrown(HandedOff(s.panes, Ids(s.tabs), {tab}), pane, zone, tab);
    PaneStateInv(s, s.tabs, SplitWithTab(HandedOff(s.panes, Ids(s.tabs), {tab}), pane, zone, tab).value, None);
  }

  lemma SplitPaneRepairable(s: State, pane: PaneId, zone: DropZone, tab: TabId)
    requires Inv(s)
    ensures Repairable(SplitPanePatch(s, pane, zone, tab))
  {
    if SplitWithTab(HandedOff(s.panes, Ids(s.tabs), {tab}), pane, zone, tab).Some? {
      SplitRepairable(s, pane, zone, tab);
    }
  }

  lemma DropTabRepairable(s: State, tab: TabId, pane: PaneId, zone: DropZone)
    requires Inv(s)
    ensures Repairable(DropTabPatch(s, tab, pane, zone))
  {
    MoveTabRepairable(s, tab, pane, None);
    if SplitWithTab(HandedOff(s.panes, Ids(s.tabs), {tab}), pane, zone, tab).Some? {
      SplitRepairable(s, pane, zone, tab);
    }
  }

  lemma ClosedRepairable(s: State, pane: PaneId)
    requires Inv(s)
    ensures Repairable(PaneState(s, s.tabs, Closed(s.panes, pane), None))
  {
    ClosedGrown(s.panes, pane);
    PaneStateInv(s, s.tabs, Closed(s.panes, pane), None);
  }

  lemma SwapSplitRepairable(s: State)
    requires Inv(s)
    ensures Repairable(SwapSplitPatch(s))
  {
    var l := s.panes;
    var side, mine := SidePane(l, PaneIds(l.root)), ActiveOf(l);
    if side.Some? && mine.Some? && ActiveIn(l, side.value).Some? {
      var theirs := ActiveIn(l, side.value).value;
      PaneStateInv(s, s.tabs, l.(
        owner := l.owner[mine.value := side.value][theirs := l.focused],
        active := l.active[l.focused := Some(theirs)][side.value := mine]), None);
    }
  }

  lemma ActivateRepairable(s: State, id: TabId)
    requires Inv(s)
    ensures Repairable(ActivatePatch(s, id))
  {
    ActivatedGrown(s.panes, id);
    PaneStateInv(s, s.tabs, Activated(s.panes, id), Some(id));
  }

  lemma CloseSplitRepairable(s: State)
    requires Inv(s)
    ensures Repairable(CloseSplitPatch(s))
  {
    var side := SidePane(s.panes, PaneIds(s.panes.root));
    if side.Some? {
      ClosedRepairable(s, side.value);
    }
  }

  lemma OpenToSideRepairable(s: State, id: TabId)
    requires Inv(s)
    ensures Repairable(OpenToSidePatch(s, id))
  {
    var from := PaneOf(s.panes, id);
    var target := OpenToSideTarget(s.panes, from);
    if target.Some? {
      MoveTabRepairable(s, id, target.value, None);
    } else {
      SplitPaneRepairable(s, from, Right, id);
    }
  }

  lemma PanePatchRepairable(s: State, a: Action)
    requires Inv(s)
    ensures Repairable(PanePatch(s, a))
  {
    match a
    case CloseSplit => CloseSplitRepairable(s);
    case SwapSplit => SwapSplitRepairable(s);
    case Focus(pane) => PaneStateInv(s, s.tabs, Focused(s.panes, pane), None);
    case SplitPaneWith(pane, zone, tab) => SplitPaneRepairable(s, pane, zone, tab);
    case ClosePaneOf(pane) => ClosedRepairable(s, pane);
    case Drop(tab, pane, zone) => DropTabRepairable(s, tab, pane, zone);
    case Move(tab, pane, before) => MoveTabRepairable(s, tab, pane, before);
    case Resize(split, ratio) => ResizedGrown(s.panes, split, ratio);
    case _ =>
  }

  lemma RemoveInv(s: State, gone: set<TabId>, declined: set<ConnectionId>)
    requires Inv(s)
    ensures Inv(Remove(s, gone, declined))
  {
    if TabsIn(s.tabs, gone) != [] && !Refused(s.tabs, gone, declined) {
      AfterRemovalRepairable(s, gone);
      RepairedInv(RemoveTabs(s, gone, declined), s.activeTab);
    }
  }

  // ------------------------------------------------------------------ safety over whole runs

  /** A raw write may replace the tabs and the active id by anything, as long as it lists no tab twice. */
  ghost predicate Permitted(a: Action) {
    a.RawWrite? ==> Distinct(Ids(a.tabs))
  }

  /** Closing tabs, asked or not. */
  predicate Closing(a: Action) {
    a.Close? || a.CloseToRight? || a.CloseOthers? || a.RequestClose? || a.ResolveClose? || a.DropConnection? ||
      a.PopClosed?
  }

  /** Opening tabs, or choosing which to show. */
  predicate Opening(a: Action) {
    a.Show? || a.OpenTable? || a.Promote? || a.OpenToSide?
  }

  predicate Choosing(a: Action) {
    a.Activate? || a.Cycle? || a.SetDirty? || a.RawWrite?
  }

  lemma ClosingKeepsInv(s: State, a: Action)
    requires Inv(s) && Closing(a)
    ensures Inv(Do(s, a))
  {
    match a
    case Close(gone, declined) => RemoveInv(s, gone, declined);
    case CloseToRight(id, declined) => RemoveInv(s, RightOf(s.tabs, id), declined);
    case CloseOthers(id, declined) => RemoveInv(s, Elems(Ids(s.tabs)) - {id}, declined);
    case RequestClose(ids, declined) =>
      RemoveInv(s, ids, declined);
      RepairedInv(s.(request := Some(CloseRequest(ids, ids * s.dirty))), s.activeTab);
    case ResolveClose(close, declined) =>
      RepairedInv(s.(request := None), s.activeTab);
      if close && s.request.Some? {
        RemoveInv(Set(s, s.(request := None)), s.request.value.ids, declined);
      }
    case DropConnection(connection, kinds) =>
      AfterRemovalRepairable(s, OnConnection(s.tabs, connection, kinds));
      RepairedInv(AfterRemoval(s, OnConnection(s.tabs, connection, kinds)), s.activeTab);
    case PopClosed => RepairedInv(s.(closed := if s.closed == [] then [] else s.closed[..|s.closed| - 1]), s.activeTab);
  }

  lemma OpeningKeepsInv(s: State, a: Action)
    requires Inv(s) && Opening(a)
    ensures Inv(Do(s, a))
  {
    match a
    case Show(tab, replace) => ShowTabRepairable(s, tab, replace); RepairedInv(ShowTab(s, tab, replace), s.activeTab);
    case OpenTable(tab, reuse, doubleClick) =>
      OpenTableRepairable(s, tab, reuse, doubleClick);
      RepairedInv(OpenTablePatch(s, tab, reuse, doubleClick), s.activeTab);
    case Promote(id) => RepairedInv(if s.preview == Some(id) then s.(preview := None) else s, s.activeTab);
    case OpenToSide(id) =>
      OpenToSideRepairable(s, id);
      RepairedInv(OpenToSidePatch(s, id), s.activeTab);
  }

  lemma ActivateKeepsInv(s: State, id: TabId)
    requires Inv(s)
    ensures Inv(DoActivate(s, id))
  {
    ActivateRepairable(s, id);
    RepairedInv(ActivatePatch(s, id), s.activeTab);
  }

  lemma CycleKeepsInv(s: State, forward: bool)
    requires Inv(s)
    ensures Inv(DoCycle(s, forward))
  {
    var target := CycleTarget(s, forward);
    if target.Some? {
      ActivateKeepsInv(s, target.value);
    }
  }

  lemma ChosenKeepsInv(s: State, a: Action)
    requires Inv(s) && (a.Activate? || a.Cycle?)
    ensures Inv(Do(s, a))
  {
    if a.Cycle? {
      CycleKeepsInv(s, a.forward);
    } else {
      ActivateKeepsInv(s, a.id);
    }
  }

  lemma SetDirtyKeepsInv(s: State, a: Action)
    requires Inv(s) && a.SetDirty?
    ensures Inv(Do(s, a))
  {
    RepairedInv(SetDirtyPatch(s, a.id, a.dirty), s.activeTab);
  }

  /** Whatever another feature writes: the invariant holds after the repair if and only if no tab is listed twice. */
  lemma RawWriteKeepsInv(s: State, tabs: seq<Tab>, activeTab: Option<TabId>)
    requires Inv(s)
    ensures DoRawWrite(s, tabs, activeTab).tabs == tabs
    ensures Inv(DoRawWrite(s, tabs, activeTab)) <==> Distinct(Ids(tabs))
  {
    if Distinct(Ids(tabs)) {
      RepairedInv(s.(tabs := tabs, activeTab := activeTab), s.activeTab);
    }
  }

  lemma PanePatchKeepsInv(s: State, a: Action)
    requires Inv(s) && !Closing(a) && !Opening(a) && !Choosing(a)
    ensures Inv(Do(s, a))
  {
    PanePatchRepairable(s, a);
    RepairedInv(PanePatch(s, a), s.activeTab);
  }

  /** An action keeps the invariant unless it is a raw write that lists a tab twice; such a write always breaks it. */
  lemma DoKeepsInv(s: State, a: Action)
    requires Inv(s)
    ensures Inv(Do(s, a)) <==> Permitted(a)
  {
    if Closing(a) {
      ClosingKeepsInv(s, a);
    } else if Opening(a) {
      OpeningKeepsInv(s, a);
    } else if a.Activate? || a.Cycle? {
      ChosenKeepsInv(s, a);
    } else if a.SetDirty? {
      SetDirtyKeepsInv(s, a);
    } else if a.RawWrite? {
      RawWriteKeepsInv(s, a.tabs, a.activeTab);
    } else {
      PanePatchKeepsInv(s, a);
    }
  }

  lemma InitialInv()
    ensures Inv(Initial())
  {
    InitialGrown();
  }

  lemma {:induction false} RunKeepsInv(s: State, actions: seq<Action>)
    requires Inv(s) && forall k :: 0 <= k < |actions| ==> Permitted(actions[k])
    ensures Inv(Run(s, actions))
    decreases |actions|
  {
    if actions != [] {
      DoKeepsInv(s, actions[0]);
      RunKeepsInv(Do(s, actions[0]), actions[1..]);
    }
  }

  /** One more action at the end of a run. */
  lemma {:induction false} RunSnoc(s: State, actions: seq<Action>, a: Action)
    ensures Run(s, actions + [a]) == Do(Run(s, actions), a)
    decreases |actions|
  {
    if actions == [] {
      assert [a][1..] == [];
    } else {
      assert (actions + [a])[1..] == actions[1..] + [a];
      RunSnoc(Do(s, actions[0]), actions[1..], a);
    }
  }

  /**
  Every state that a new window comes to holds the whole invariant, if and only if none of the raw
  writes on the way lists a tab twice.
  */
  lemma ReachableInv(actions: seq<Action>)
    ensures (forall n :: 0 <= n <= |actions| ==> Inv(Run(Initial(), actions[..n]))) <==>
      forall k :: 0 <= k < |actions| ==> Permitted(actions[k])
  {
    InitialInv();
    if forall k :: 0 <= k < |actions| ==> Permitted(actions[k]) {
      forall n | 0 <= n <= |actions| ensures Inv(Run(Initial(), actions[..n])) {
        RunKeepsInv(Initial(), actions[..n]);
      }
    } else {
      var k :| 0 <= k < |actions| && !Permitted(actions[k]);
      assert actions[..k + 1] == actions[..k] + [actions[k]];
      RunSnoc(Initial(), actions[..k], actions[k]);
      if Inv(Run(Initial(), actions[..k])) {
        DoKeepsInv(Run(Initial(), actions[..k]), actions[k]);
      }
    }
  }
}
