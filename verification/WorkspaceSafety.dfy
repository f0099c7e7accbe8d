/**
Two safety properties of runs: no pane id that is gone ever comes back, and no tab with unsaved
work is closed by an action that does not ask first.
*/
module WorkspaceSafety {
  import opened Prelude
  import opened Panes
  import opened PaneSurgery
  import opened PaneNormalize
  import opened WorkspaceState
  import opened WorkspaceInvariant

  // ------------------------------------------------------------------ pane ids

  /** Every pane of `r` is a pane of `l` or was numbered after `l`. */
  ghost predicate Grows(l: PaneLayout, r: PaneLayout) {
    && l.counter <= r.counter
    && forall p: PaneId :: HasPane(r, p) ==> HasPane(l, p) || p > l.counter
  }

  lemma NormalizedGrows(l: PaneLayout, ids: seq<TabId>, requested: Option<TabId>)
    requires Live(l) && Distinct(ids)
    ensures Grows(l, Normalized(l, ids, requested))
  {
    NormalizedConsistent(l, ids, requested);
    NormalizedKeepsTabs(l, ids, requested);
    OnlyElems(PaneIds(l.root), Elems(PaneIds(Normalized(l, ids, requested).root)));
  }

  lemma PaneStateGrows(s: State, tabs: seq<Tab>, panes: PaneLayout, requested: Option<TabId>)
    requires Live(panes) && Distinct(Ids(tabs)) && Grows(s.panes, panes)
    ensures Grows(s.panes, PaneState(s, tabs, panes, requested).panes)
  {
    NormalizedGrows(panes, Ids(tabs), requested);
  }

  lemma SetGrows(s: State, written: State)
    requires Repairable(written) && Grows(s.panes, written.panes)
    ensures Grows(s.panes, Set(s, written).panes)
  {
    NormalizedGrows(written.panes, Ids(written.tabs),
      if written.activeTab != s.activeTab then written.activeTab else None);
  }

  lemma ShowTabGrows(s: State, tab: Tab, replace: bool)
    requires Inv(s)
    ensures Grows(s.panes, ShowTab(s, tab, replace).panes)
  {
    ShowTabRepairable(s, tab, replace);
    ActivatedGrown(s.panes, tab.id);
    PaneStateGrows(s, ShowTab(s, tab, replace).tabs, Activated(s.panes, tab.id), Some(tab.id));
  }

  lemma ReplacePreviewGrows(s: State, preview: TabId, tab: Tab)
    requires Inv(s) && preview in Ids(s.tabs) && tab.id !in Ids(s.tabs)
    ensures Grows(s.panes, ReplacePreview(s, preview, tab).panes)
  {
    IdsOfReplaced(s.tabs, preview, tab);
    var pane := PaneOf(s.panes, preview);
    var owner := (s.panes.owner - {preview})[tab.id := pane];
    var shown := if ActiveIn(s.panes, pane) == Some(preview) then Some(tab.id) else ActiveIn(s.panes, pane);
    var active := s.panes.active[pane := shown];
    var l := s.panes.(owner := owner, active := active);
    ActivatedGrown(l, tab.id);
    PaneStateGrows(s, Replaced(s.tabs, preview, tab), Activated(l, tab.id), Some(tab.id));
  }

  lemma OpenTableGrows(s: State, tab: Tab, reuse: bool, doubleClick: bool)
    requires Inv(s)
    ensures Grows(s.panes, OpenTablePatch(s, tab, reuse, doubleClick).panes)
  {
    if tab.id in Ids(s.tabs) {
      ShowTabGrows(s, tab, true);
    } else if reuse && s.preview.Some? && s.preview.value in Ids(s.tabs) {
      ReplacePreviewGrows(s, s.preview.value, tab);
    } else {
      ShowTabGrows(s, tab, false);
    }
  }

  lemma AfterRemovalGrows(s: State, gone: set<TabId>)
    requires Inv(s)
    ensures Grows(s.panes, AfterRemoval(s, gone).panes)
  {
    IdsOfStaying(s.tabs, gone);
    PaneStateGrows(s, Staying(s.tabs, gone), HandedOff(s.panes, Ids(s.tabs), gone), None);
  }

  lemma RemoveGrows(s: State, gone: set<TabId>, declined: set<ConnectionId>)
    requires Inv(s)
    ensures Grows(s.panes, Remove(s, gone, declined).panes)
  {
    if TabsIn(s.tabs, gone) != [] && !Refused(s.tabs, gone, declined) {
      AfterRemovalRepairable(s, gone);
      AfterRemovalGrows(s, gone);
      SetGrows(s, RemoveTabs(s, gone, declined));
    }
  }

  lemma MoveTabGrows(s: State, tab: TabId, pane: PaneId, before: Option<TabId>)
    requires Inv(s)
    ensures Grows(s.panes, MoveTabPatch(s, tab, pane, before).panes)
  {
    IdsOfPlaced(s.tabs, s.panes, tab, pane, before);
    if tab in Ids(s.tabs) && HasPane(s.panes, pane) && PaneOf(s.panes, tab) != pane {
      PaneStateGrows(s, Placed(s.tabs, s.panes, tab, pane, before),
        MovedToPane(HandedOff(s.panes, Ids(s.tabs), {tab}), tab, pane), None);
    }
  }

  lemma SplitGrows(s: State, pane: PaneId, zone: DropZone, tab: TabId)
    requires Inv(s)
    requires SplitWithTab(HandedOff(s.panes, Ids(s.tabs), {tab}), pane, zone, tab).Some?
    ensures Grows(s.panes,
      PaneState(s, s.tabs, SplitWithTab(HandedOff(s.panes, Ids(s.tabs), {tab}), pane, zone, tab).value, None).panes)
  {
    var handed := HandedOff(s.panes, Ids(s.tabs), {tab});
    SplitPane(handed, pane, zone, tab);
    SplitGrown(handed, pane, zone, tab);
    PaneStateGrows(s, s.tabs, SplitWithTab(handed, pane, zone, tab).value, None);
  }

  lemma SplitPaneGrows(s: State, pane: PaneId, zone: DropZone, tab: TabId)
    requires Inv(s)
    ensures Grows(s.panes, SplitPanePatch(s, pane, zone, tab).panes)
  {
    if SplitWithTab(HandedOff(s.panes, Ids(s.tabs), {tab}), pane, zone, tab).Some? {
      SplitGrows(s, pane, zone, tab);
    }
  }

  lemma ClosedGrows(s: State, pane: PaneId)
    requires Inv(s)
    ensures Grows(s.panes, PaneState(s, s.tabs, Closed(s.panes, pane), None).panes)
  {
    if PaneCount(s.panes) > 1 && HasPane(s.panes, pane) {
      ClosedPane(s.panes, pane);
      MinusElems(PaneIds(s.panes.root), {pane});
    }
    ClosedGrown(s.panes, pane);
    PaneStateGrows(s, s.tabs, Closed(s.panes, pane), None);
  }

  lemma SwapSplitGrows(s: State)
    requires Inv(s)
    ensures Grows(s.panes, SwapSplitPatch(s).panes)
  {
    var l := s.panes;
    var side, mine := SidePane(l, PaneIds(l.root)), ActiveOf(l);
    if side.Some? && mine.Some? && ActiveIn(l, side.value).Some? {
      var theirs := ActiveIn(l, side.value).value;
      PaneStateGrows(s, s.tabs, l.(
        owner := l.owner[mine.value := side.value][theirs := l.focused],
        active := l.active[l.focused := Some(theirs)][side.value := mine]), None);
    }
  }

  lemma PanePatchGrows(s: State, a: Action)
    requires Inv(s)
    ensures Grows(s.panes, PanePatch(s, a).panes)
  {
    match a
    case CloseSplit =>
      var side := SidePane(s.panes, PaneIds(s.panes.root));
      if side.Some? {
        ClosedGrows(s, side.value);
      }
    case SwapSplit => SwapSplitGrows(s);
    case Focus(pane) => PaneStateGrows(s, s.tabs, Focused(s.panes, pane), None);
    case SplitPaneWith(pane, zone, tab) => SplitPaneGrows(s, pane, zone, tab);
    case ClosePaneOf(pane) => ClosedGrows(s, pane);
    case Drop(tab, pane, zone) =>
      MoveTabGrows(s, tab, pane, None);
      if SplitWithTab(HandedOff(s.panes, Ids(s.tabs), {tab}), pane, zone, tab).Some? {
        SplitGrows(s, pane, zone, tab);
      }
    case Move(tab, pane, before) => MoveTabGrows(s, tab, pane, before);
    case Resize(split, ratio) => ResizedGrown(s.panes, split, ratio);
    case _ =>
  }

  lemma OpenToSideGrows(s: State, id: TabId)
    requires Inv(s)
    ensures Grows(s.panes, OpenToSidePatch(s, id).panes)
  {
    var from := PaneOf(s.panes, id);
    var target := OpenToSideTarget(s.panes, from);
    if target.Some? {
      MoveTabGrows(s, id, target.value, None);
    } else {
      SplitPaneGrows(s, from, Right, id);
    }
  }

  lemma ActivateGrows(s: State, id: TabId)
    requires Inv(s)
    ensures Grows(s.panes, DoActivate(s, id).panes)
  {
    ActivateRepairable(s, id);
    ActivatedGrown(s.panes, id);
    PaneStateGrows(s, s.tabs, Activated(s.panes, id), Some(id));
    SetGrows(s, ActivatePatch(s, id));
  }

  lemma ClosingGrows(s: State, a: Action)
    requires Inv(s) && Closing(a)
    ensures Grows(s.panes, Do(s, a).panes)
  {
    match a
    case Close(gone, declined) => RemoveGrows(s, gone, declined);
    case CloseToRight(id, declined) => RemoveGrows(s, RightOf(s.tabs, id), declined);
    case CloseOthers(id, declined) => RemoveGrows(s, Elems(Ids(s.tabs)) - {id}, declined);
    case RequestClose(ids, declined) =>
      RemoveGrows(s, ids, declined);
      SetGrows(s, s.(request := Some(CloseRequest(ids, ids * s.dirty))));
    case ResolveClose(close, declined) => ResolveGrows(s, close, declined);
    case DropConnection(connection, kinds) =>
      AfterRemovalRepairable(s, OnConnection(s.tabs, connection, kinds));
      AfterRemovalGrows(s, OnConnection(s.tabs, connection, kinds));
      SetGrows(s, AfterRemoval(s, OnConnection(s.tabs, connection, kinds)));
    case PopClosed => SetGrows(s, s.(closed := if s.closed == [] then [] else s.closed[..|s.closed| - 1]));
  }

  lemma ResolveGrows(s: State, close: bool, declined: set<ConnectionId>)
    requires Inv(s)
    ensures Grows(s.panes, Do(s, ResolveClose(close, declined)).panes)
  {
    var answered := Set(s, s.(request := None));
    SetGrows(s, s.(request := None));
    RepairedInv(s.(request := None), s.activeTab);
    if close && s.request.Some? {
      RemoveGrows(answered, s.request.value.ids, declined);
    }
  }

  lemma OpeningGrows(s: State, a: Action)
    requires Inv(s) && Opening(a)
    ensures Grows(s.panes, Do(s, a).panes)
  {
    match a
    case Show(tab, replace) => ShowTabRepairable(s, tab, replace); ShowTabGrows(s, tab, replace);
      SetGrows(s, ShowTab(s, tab, replace));
    case OpenTable(tab, reuse, doubleClick) =>
      OpenTableRepairable(s, tab, reuse, doubleClick);
      OpenTableGrows(s, tab, reuse, doubleClick);
      SetGrows(s, OpenTablePatch(s, tab, reuse, doubleClick));
    case Promote(id) => SetGrows(s, if s.preview == Some(id) then s.(preview := None) else s);
    case OpenToSide(id) => OpenToSideRepairable(s, id); OpenToSideGrows(s, id); SetGrows(s, OpenToSidePatch(s, id));
  }

  lemma CycleGrows(s: State, forward: bool)
    requires Inv(s)
    ensures Grows(s.panes, DoCycle(s, forward).panes)
  {
    var target := CycleTarget(s, forward);
    if target.Some? {
      ActivateGrows(s, target.value);
    }
  }

  lemma ChosenGrows(s: State, a: Action)
    requires Inv(s) && (a.Activate? || a.Cycle?)
    ensures Grows(s.panes, Do(s, a).panes)
  {
    if a.Cycle? {
      CycleGrows(s, a.forward);
    } else {
      ActivateGrows(s, a.id);
    }
  }

  lemma SetDirtyGrows(s: State, a: Action)
    requires Inv(s) && a.SetDirty?
    ensures Grows(s.panes, Do(s, a).panes)
  {
    SetGrows(s, SetDirtyPatch(s, a.id, a.dirty));
  }

  lemma RawWriteGrows(s: State, a: Action)
    requires Inv(s) && a.RawWrite? && Permitted(a)
    ensures Grows(s.panes, Do(s, a).panes)
  {
    SetGrows(s, s.(tabs := a.tabs, activeTab := a.activeTab));
  }

  lemma PaneActionGrows(s: State, a: Action)
    requires Inv(s) && !Closing(a) && !Opening(a) && !Choosing(a)
    ensures Grows(s.panes, Do(s, a).panes)
  {
    PanePatchRepairable(s, a);
    PanePatchGrows(s, a);
    SetGrows(s, PanePatch(s, a));
  }

  lemma DoGrows(s: State, a: Action)
    requires Inv(s) && Permitted(a)
    ensures Grows(s.panes, Do(s, a).panes)
  {
    if Closing(a) {
      ClosingGrows(s, a);
    } else if Opening(a) {
      OpeningGrows(s, a);
    } else if a.Activate? || a.Cycle? {
      ChosenGrows(s, a);
    } else if a.SetDirty? {
      SetDirtyGrows(s, a);
    } else if a.RawWrite? {
      RawWriteGrows(s, a);
    } else {
      PaneActionGrows(s, a);
    }
  }

  /** Pane ids are never reused: a number already given out that names no pane now never names one again. */
  lemma {:induction false} NeverReused(s: State, actions: seq<Action>, pane: PaneId)
    requires Inv(s) && forall k :: 0 <= k < |actions| ==> Permitted(actions[k])
    requires pane <= s.panes.counter && !HasPane(s.panes, pane)
    ensures !HasPane(Run(s, actions).panes, pane)
    decreases |actions|
  {
    if actions != [] {
      DoKeepsInv(s, actions[0]);
      DoGrows(s, actions[0]);
      NeverReused(Do(s, actions[0]), actions[1..], pane);
    }
  }

  // ------------------------------------------------------------------ unsaved work

  /** The actions that close tabs without looking at unsaved work, each after an answer or an event elsewhere. */
  predicate ClosesUnasked(a: Action) {
    || a.Close? || a.CloseToRight? || a.CloseOthers? || a.DropConnection? || a.RawWrite?
    || (a.ResolveClose? && a.close)
  }

  /** `written` still lists every tab with unsaved work, and still marks it unless it is in `saved`. */
  ghost predicate KeepsWorkBut(s: State, written: State, saved: set<TabId>) {
    forall d :: d in s.dirty ==> d in Ids(written.tabs) && (d in written.dirty || d in saved)
  }

  ghost predicate KeepsWork(s: State, written: State) {
    KeepsWorkBut(s, written, {})
  }

  /** The tab its own feature says is clean. */
  function Saved(a: Action): set<TabId> {
    if a.SetDirty? && !a.dirty then {a.id} else {}
  }

  lemma SetKeepsWork(s: State, written: State)
    requires KeepsWork(s, written)
    ensures KeepsWork(s, Set(s, written))
  {
  }

  lemma OpenTableKeepsWork(s: State, tab: Tab, reuse: bool, doubleClick: bool)
    requires Inv(s)
    ensures KeepsWork(s, OpenTablePatch(s, tab, reuse, doubleClick))
  {
    if tab.id in Ids(s.tabs) {
      ShowTabRepairable(s, tab, true);
    } else if reuse && s.preview.Some? && s.preview.value in Ids(s.tabs) {
      ReplacePreviewRepairable(s, s.preview.value, tab);
    } else {
      ShowTabRepairable(s, tab, false);
    }
  }

  lemma MoveTabKeepsWork(s: State, tab: TabId, pane: PaneId, before: Option<TabId>)
    requires Inv(s)
    ensures KeepsWork(s, MoveTabPatch(s, tab, pane, before))
  {
    IdsOfPlaced(s.tabs, s.panes, tab, pane, before);
  }

  lemma PanePatchKeepsWork(s: State, a: Action)
    requires Inv(s)
    ensures KeepsWork(s, PanePatch(s, a))
  {
    match a
    case Drop(tab, pane, zone) => MoveTabKeepsWork(s, tab, pane, None);
    case Move(tab, pane, before) => MoveTabKeepsWork(s, tab, pane, before);
    case _ =>
  }

  lemma RemoveKeepsWork(s: State, gone: set<TabId>, declined: set<ConnectionId>)
    requires Inv(s) && gone * s.dirty == {}
    ensures KeepsWork(s, Remove(s, gone, declined))
  {
    IdsOfStaying(s.tabs, gone);
    MinusElems(Ids(s.tabs), gone);
    forall d | d in s.dirty ensures d !in gone {
      assert d in gone ==> d in gone * s.dirty;
    }
  }

  lemma OpenToSideKeepsWork(s: State, id: TabId)
    requires Inv(s)
    ensures KeepsWork(s, Set(s, OpenToSidePatch(s, id)))
  {
    var target := OpenToSideTarget(s.panes, PaneOf(s.panes, id));
    if target.Some? {
      MoveTabKeepsWork(s, id, target.value, None);
    }
    SetKeepsWork(s, OpenToSidePatch(s, id));
  }

  lemma SetDirtyKeepsOthers(s: State, id: TabId, dirty: bool)
    requires Inv(s)
    ensures KeepsWorkBut(s, Set(s, SetDirtyPatch(s, id, dirty)), if dirty then {} else {id})
  {
  }

  lemma ShowKeepsWork(s: State, tab: Tab, replace: bool)
    requires Inv(s)
    ensures KeepsWork(s, DoShow(s, tab, replace))
  {
    ShowTabRepairable(s, tab, replace);
    SetKeepsWork(s, ShowTab(s, tab, replace));
  }

  lemma CycleKeepsWork(s: State, forward: bool)
    requires Inv(s)
    ensures KeepsWork(s, DoCycle(s, forward))
  {
    if CycleTarget(s, forward).Some? {
      SetKeepsWork(s, ActivatePatch(s, CycleTarget(s, forward).value));
    }
  }

  lemma RequestKeepsWork(s: State, ids: set<TabId>, declined: set<ConnectionId>)
    requires Inv(s)
    ensures KeepsWork(s, if ids * s.dirty == {} then Remove(s, ids, declined)
      else Set(s, s.(request := Some(CloseRequest(ids, ids * s.dirty)))))
  {
    if ids * s.dirty == {} {
      RemoveKeepsWork(s, ids, declined);
    } else {
      SetKeepsWork(s, s.(request := Some(CloseRequest(ids, ids * s.dirty))));
    }
  }

  /**
   No tab with unsaved work is closed, and none loses its mark, by anything but the closing
   actions above and the feature that owns the tab saying it is clean.
   */
  lemma UnsavedWorkSurvives(s: State, a: Action)
    requires Inv(s) && !ClosesUnasked(a)
    ensures KeepsWorkBut(s, Do(s, a), Saved(a))
  {
    if Closing(a) {
      ClosingKeepsWork(s, a);
    } else if Opening(a) {
      OpeningKeepsWork(s, a);
    } else if a.Activate? {
      ActivatedKeepsWork(s, a);
    } else if a.Cycle? {
      CycledKeepsWork(s, a);
    } else if a.SetDirty? {
      SetDirtyKeepsWork(s, a);
    } else {
      PaneActionKeepsWork(s, a);
    }
  }

  lemma ClosingKeepsWork(s: State, a: Action)
    requires Inv(s) && !ClosesUnasked(a) && Closing(a)
    ensures KeepsWorkBut(s, Do(s, a), Saved(a))
  {
    match a
    case RequestClose(ids, declined) => RequestKeepsWork(s, ids, declined);
    case ResolveClose(close, declined) => SetKeepsWork(s, s.(request := None));
    case PopClosed => SetKeepsWork(s, s.(closed := if s.closed == [] then [] else s.closed[..|s.closed| - 1]));
    case _ =>
  }

  lemma OpeningKeepsWork(s: State, a: Action)
    requires Inv(s) && Opening(a)
    ensures KeepsWorkBut(s, Do(s, a), Saved(a))
  {
    match a
    case Show(tab, replace) => ShowKeepsWork(s, tab, replace);
    case OpenTable(tab, reuse, doubleClick) =>
      OpenTableKeepsWork(s, tab, reuse, doubleClick);
      SetKeepsWork(s, OpenTablePatch(s, tab, reuse, doubleClick));
    case Promote(id) => SetKeepsWork(s, if s.preview == Some(id) then s.(preview := None) else s);
    case OpenToSide(id) => OpenToSideKeepsWork(s, id);
  }

  lemma ActivateKeepsWork(s: State, id: TabId)
    requires Inv(s)
    ensures KeepsWork(s, DoActivate(s, id))
  {
    SetKeepsWork(s, ActivatePatch(s, id));
  }

  lemma ActivatedKeepsWork(s: State, a: Action)
    requires Inv(s) && a.Activate?
    ensures KeepsWorkBut(s, Do(s, a), Saved(a))
  {
    ActivateKeepsWork(s, a.id);
    assert Do(s, a) == DoActivate(s, a.id);
  }

  lemma CycledKeepsWork(s: State, a: Action)
    requires Inv(s) && a.Cycle?
    ensures KeepsWorkBut(s, Do(s, a), Saved(a))
  {
    CycleKeepsWork(s, a.forward);
  }

  lemma SetDirtyKeepsWork(s: State, a: Action)
    requires Inv(s) && a.SetDirty?
    ensures KeepsWorkBut(s, Do(s, a), Saved(a))
  {
    SetDirtyKeepsOthers(s, a.id, a.dirty);
  }

  lemma PaneActionKeepsWork(s: State, a: Action)
    requires Inv(s) && !Closing(a) && !Opening(a) && !Choosing(a)
    ensures KeepsWorkBut(s, Do(s, a), Saved(a))
  {
    PanePatchKeepsWork(s, a);
    SetKeepsWork(s, PanePatch(s, a));
  }
}
