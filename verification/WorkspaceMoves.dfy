/**
What is left where a tab went away from: moving, dropping and splitting, each by the patch it
writes. Also where a new tab is put, which pane the side actions mean, and which tabs the
closing actions keep.
*/
module WorkspaceMoves {
  import opened Prelude
  import opened Panes
  import opened PaneSurgery
  import opened PaneNormalize
  import opened WorkspaceState
  import opened WorkspaceInvariant
  import opened WorkspaceEffects
  import opened WorkspaceLaws
  import opened Workspace

  // ------------------------------------------------------------------ the pane a tab leaves

  /**
  Pane `p` after `tab` went elsewhere: it shows what it showed, unless that was the tab itself.
  Then it shows the nearest of the tabs left in its strip, the left one first.
  */
  ghost predicate HandedOn(l: PaneLayout, ids: seq<TabId>, tab: TabId, p: PaneId, shown: Option<TabId>) {
    if ActiveIn(l, p) == Some(tab)
    then forall k :: 0 <= k < |Strip(l, ids, p)| && Strip(l, ids, p)[k] == tab ==>
      Nearest(Strip(l, ids, p), k, {tab}, shown)
    else shown == ActiveIn(l, p)
  }

  /**
  Of the panes of `l`, exactly those with another tab than `tab`, and `into`, are in `r`; each but `into`
  handed on.
  */
  ghost predicate LeftBehind(l: PaneLayout, ids: seq<TabId>, tab: TabId, into: PaneId, r: PaneLayout) {
    && HasPane(r, into)
    && (forall p :: HasPane(r, p) && p != into ==> HasPane(l, p) && Minus(Strip(l, ids, p), {tab}) != [])
    && (forall p :: HasPane(l, p) && p != into && Minus(Strip(l, ids, p), {tab}) != [] ==>
          HasPane(r, p) && HandedOn(l, ids, tab, p, ActiveIn(r, p)))
  }

  lemma StripDistinctAt(l: PaneLayout, ids: seq<TabId>, p: PaneId, tab: TabId, k: nat)
    requires Distinct(ids) && k < |Strip(l, ids, p)| && Strip(l, ids, p)[k] == tab
    ensures IndexOf(Strip(l, ids, p), tab) == k
  {
    OnlyDistinct(ids, Residents(l, ids, p));
    DistinctIndex(Strip(l, ids, p), k);
  }

  /** The hand-over by itself, before any repair. */
  lemma HandedToHandsOn(l: PaneLayout, ids: seq<TabId>, tab: TabId, p: PaneId)
    requires Distinct(ids) && Consistent(l, ids) && HasPane(l, p)
    ensures HandedOn(l, ids, tab, p, HandedTo(l, ids, {tab}, p))
  {
    var mine := Strip(l, ids, p);
    if ActiveIn(l, p) == Some(tab) {
      forall k | 0 <= k < |mine| && mine[k] == tab ensures Nearest(mine, k, {tab}, HandedTo(l, ids, {tab}, p)) {
        StripDistinctAt(l, ids, p, tab, k);
        SuccessorIsNearest(mine, tab, {tab});
      }
    }
  }

  /**
  A pane with another tab lives through the repair of a layout `m` that moved `tab` alone, and shows its own
  choice.
  */
  lemma OthersStay(l: PaneLayout, m: PaneLayout, ids: seq<TabId>, now: seq<TabId>, tab: TabId, p: PaneId)
    requires Distinct(ids) && Consistent(l, ids) && HasPane(l, p) && Minus(Strip(l, ids, p), {tab}) != []
    requires Live(m) && Distinct(now) && (forall t :: t in now <==> t in ids) && HasPane(m, p)
    requires forall t :: t in ids && t != tab ==> PaneOf(m, t) == PaneOf(l, t)
    requires ActiveIn(m, p) == HandedTo(l, ids, {tab}, p)
    ensures HasPane(Normalized(m, now, None), p)
    ensures HandedOn(l, ids, tab, p, ActiveIn(Normalized(m, now, None), p))
  {
    HandedToHandsOn(l, ids, tab, p);
    HandedToStays(l, ids, {tab}, p);
    StripElems(l, ids, p);
    MinusElems(Strip(l, ids, p), {tab});
    NormalizedKeepsShown(m, now, None, p);
  }

  lemma TwoPanes(order: seq<PaneId>, a: PaneId, b: PaneId)
    requires a in order && b in order && a != b
    ensures |order| > 1
  {
  }

  /** A pane left after the repair, other than the tab's own, had another tab. */
  lemma OnlyOccupiedStay(l: PaneLayout, m: PaneLayout, ids: seq<TabId>, now: seq<TabId>, tab: TabId, p: PaneId)
    requires Consistent(l, ids) && Live(m) && Distinct(now) && (forall t :: t in now <==> t in ids) && tab in ids
    requires forall t :: t in ids && t != tab ==> PaneOf(m, t) == PaneOf(l, t)
    requires HasPane(Normalized(m, now, None), p) && HasPane(Normalized(m, now, None), PaneOf(m, tab))
    requires p != PaneOf(m, tab)
    ensures Minus(Strip(l, ids, p), {tab}) != []
  {
    var r := Normalized(m, now, None);
    NormalizedKeepsTabs(m, now, None);
    assert PaneCount(r) > 1 by {
      TwoPanes(PaneIds(r.root), p, PaneOf(m, tab));
    }
    StripElems(m, now, p);
    var t := Strip(m, now, p)[0];
    assert t in Strip(m, now, p) && PaneOf(m, t) == p && t != tab;
    StripElems(l, ids, p);
    MinusElems(Strip(l, ids, p), {tab});
    assert t in Minus(Strip(l, ids, p), {tab});
  }

  lemma RepairLeavesBehind(l: PaneLayout, m: PaneLayout, ids: seq<TabId>, now: seq<TabId>, tab: TabId)
    requires Distinct(ids) && Consistent(l, ids) && tab in ids
    requires Live(m) && Distinct(now) && (forall t :: t in now <==> t in ids)
    requires forall t :: t in ids && t != tab ==> PaneOf(m, t) == PaneOf(l, t)
    requires PaneOf(m, tab) == m.focused && ActiveOf(m) == Some(tab)
    requires forall p :: HasPane(l, p) ==> HasPane(m, p)
    requires forall p :: HasPane(l, p) && p != m.focused ==> ActiveIn(m, p) == HandedTo(l, ids, {tab}, p)
    requires forall p :: HasPane(m, p) && p != m.focused ==> HasPane(l, p)
    ensures LeftBehind(l, ids, tab, m.focused, Normalized(m, now, None))
  {
    var r := Normalized(m, now, None);
    FocusedTabStays(m, now, tab);
    NormalizedKeepsTabs(m, now, None);
    OnlyElems(PaneIds(m.root), Elems(PaneIds(r.root)));
    forall p | HasPane(r, p) && p != m.focused ensures HasPane(l, p) && Minus(Strip(l, ids, p), {tab}) != [] {
      OnlyOccupiedStay(l, m, ids, now, tab, p);
    }
    forall p | HasPane(l, p) && p != m.focused && Minus(Strip(l, ids, p), {tab}) != []
      ensures HasPane(r, p) && HandedOn(l, ids, tab, p, ActiveIn(r, p)) {
      OthersStay(l, m, ids, now, tab, p);
    }
  }

  // ------------------------------------------------------------------ moving

  /** The layout of a move before its repair. */
  lemma MovedLayout(l: PaneLayout, ids: seq<TabId>, tab: TabId, pane: PaneId)
    requires Consistent(l, ids) && HasPane(l, pane)
    ensures var m := MovedToPane(HandedOff(l, ids, {tab}), tab, pane);
      && Live(m) && m.root == l.root && m.focused == pane && PaneOf(m, tab) == pane && ActiveOf(m) == Some(tab)
      && (forall t :: t in ids && t != tab ==> PaneOf(m, t) == PaneOf(l, t))
      && (forall p :: HasPane(l, p) && p != pane ==> ActiveIn(m, p) == HandedTo(l, ids, {tab}, p))
  {
    HandedOffKeepsTabs(l, ids, {tab});
  }

  /**
  A tab moved into another pane. The panes left are the target and those with another tab, and
  each of them but the target hands on.
  */
  lemma MovingHandsOn(s: State, tab: TabId, pane: PaneId, before: Option<TabId>)
    requires Inv(s) && tab in Ids(s.tabs) && HasPane(s.panes, pane) && PaneOf(s.panes, tab) != pane
    ensures LeftBehind(s.panes, Ids(s.tabs), tab, pane, MoveTabPatch(s, tab, pane, before).panes)
  {
    var l, ids := s.panes, Ids(s.tabs);
    IdsOfPlaced(s.tabs, l, tab, pane, before);
    MovedLayout(l, ids, tab, pane);
    var now := Ids(Placed(s.tabs, l, tab, pane, before));
    RepairLeavesBehind(l, MovedToPane(HandedOff(l, ids, {tab}), tab, pane), ids, now, tab);
  }

  /** Whether a layout agrees with the open tabs does not depend on their order. */
  lemma ReorderedConsistent(l: PaneLayout, ids: seq<TabId>, now: seq<TabId>)
    requires Consistent(l, ids) && forall t :: t in now <==> t in ids
    ensures Consistent(l, now)
  {
    forall p ensures Occupied(l, now, p) <==> Occupied(l, ids, p) {
      StripElems(l, ids, p);
      StripElems(l, now, p);
      if Strip(l, ids, p) != [] {
        assert Strip(l, ids, p)[0] in Strip(l, now, p);
      }
      if Strip(l, now, p) != [] {
        assert Strip(l, now, p)[0] in Strip(l, ids, p);
      }
    }
    forall p | HasPane(l, p) ensures ShowsOwn(l, now, p) {
      assert ShowsOwn(l, ids, p);
    }
  }

  /** What a move writes needs no repair. */
  lemma MovingSettled(s: State, tab: TabId, pane: PaneId, before: Option<TabId>)
    requires Inv(s)
    ensures Set(s, MoveTabPatch(s, tab, pane, before)) == MoveTabPatch(s, tab, pane, before)
  {
    var l, ids, r := s.panes, Ids(s.tabs), MoveTabPatch(s, tab, pane, before);
    IdsOfPlaced(s.tabs, l, tab, pane, before);
    if tab in ids && HasPane(l, pane) {
      if PaneOf(l, tab) == pane {
        ReorderedConsistent(l, ids, Ids(r.tabs));
      } else {
        PaneStateInv(s, r.tabs, MovedToPane(HandedOff(l, ids, {tab}), tab, pane), None);
      }
    }
    RepairedSettled(r, s.activeTab);
  }

  // ------------------------------------------------------------------ splitting

  /** The panes of `r`, in reading order, are panes of `l` and `added`, which stands beside `pane`. */
  ghost predicate StandsBeside(l: PaneLayout, pane: PaneId, zone: DropZone, added: PaneId, r: PaneLayout)
    requires HasPane(l, pane)
  {
    PaneIds(r.root) == Only(Inserted(PaneIds(l.root), SplitCut(l, pane, zone), added), Elems(PaneIds(r.root)))
  }

  /** `tab` stands alone in pane `added`, and every other strip only loses it. */
  ghost predicate StripsBut(l: PaneLayout, ids: seq<TabId>, tab: TabId, added: PaneId, r: PaneLayout) {
    forall p :: Strip(r, ids, p) == Only(ids, if p == added then {tab} else Residents(l, ids, p) - {tab})
  }

  /**
  `tab` stands alone in a new pane `added` beside `pane`, on the side of `zone`; every other
  strip only loses it, and every pane with another tab is still there and hands on.
  */
  ghost predicate SplitLayout(l: PaneLayout, ids: seq<TabId>, pane: PaneId, zone: DropZone, tab: TabId, added: PaneId,
    r: PaneLayout)
    requires HasPane(l, pane)
  {
    && StandsBeside(l, pane, zone, added, r)
    && StripsBut(l, ids, tab, added, r)
    && LeftBehind(l, ids, tab, added, r)
  }

  lemma SplitStripsBut(s: State, pane: PaneId, zone: DropZone, tab: TabId)
    requires Inv(s) && tab in Ids(s.tabs)
    requires PaneCount(s.panes) < MAX_PANES && HasPane(s.panes, pane)
    ensures SplitWithTab(HandedOff(s.panes, Ids(s.tabs), {tab}), pane, zone, tab).Some?
    ensures var l, ids := s.panes, Ids(s.tabs);
      var r := Normalized(SplitWithTab(HandedOff(l, ids, {tab}), pane, zone, tab).value, ids, None);
      && r.focused == l.counter + 1 && !HasPane(l, r.focused) && ActiveOf(r) == Some(tab)
      && StripsBut(l, ids, tab, r.focused, r)
  {
    SplittingOff(s, pane, zone, tab);
  }

  /** Only the layout changed, by splitting off `tab`, and `tab` is active in the new pane. */
  ghost predicate SplitOff(s: State, pane: PaneId, zone: DropZone, tab: TabId, r: State)
    requires HasPane(s.panes, pane)
  {
    && !HasPane(s.panes, r.panes.focused) && r.activeTab == Some(tab)
    && r == s.(panes := r.panes, activeTab := r.activeTab, splitTab := r.splitTab)
    && SplitLayout(s.panes, Ids(s.tabs), pane, zone, tab, r.panes.focused, r.panes)
  }

  lemma SplitHandsOn(s: State, pane: PaneId, zone: DropZone, tab: TabId)
    requires Inv(s) && tab in Ids(s.tabs)
    requires PaneCount(s.panes) < MAX_PANES && HasPane(s.panes, pane)
    ensures SplitWithTab(HandedOff(s.panes, Ids(s.tabs), {tab}), pane, zone, tab).Some?
    ensures var split := SplitWithTab(HandedOff(s.panes, Ids(s.tabs), {tab}), pane, zone, tab).value;
      LeftBehind(s.panes, Ids(s.tabs), tab, s.panes.counter + 1, Normalized(split, Ids(s.tabs), None))
  {
    var l, ids := s.panes, Ids(s.tabs);
    var handed := HandedOff(l, ids, {tab});
    SplitPlaces(l, ids, pane, zone, tab);
    HandedOffKeepsTabs(l, ids, {tab});
    SplitPane(handed, pane, zone, tab);
    SplitKeepsTabs(handed, pane, zone, tab);
    RepairLeavesBehind(l, SplitWithTab(handed, pane, zone, tab).value, ids, ids, tab);
  }

  /** The handed-over layout split: the new pane beside `pane`. */
  lemma SplitStandsBeside(l: PaneLayout, handed: PaneLayout, pane: PaneId, zone: DropZone, tab: TabId)
    requires Grown(handed) && handed.root == l.root && handed.counter == l.counter
    requires PaneCount(l) < MAX_PANES && HasPane(l, pane)
    ensures SplitWithTab(handed, pane, zone, tab).Some? && Live(SplitWithTab(handed, pane, zone, tab).value)
    ensures PaneIds(SplitWithTab(handed, pane, zone, tab).value.root) ==
      Inserted(PaneIds(l.root), SplitCut(l, pane, zone), l.counter + 1)
  {
    assert SplitWithTab(handed, pane, zone, tab).Some?;
    assert SplitCut(handed, pane, zone) == SplitCut(l, pane, zone);
    SplitOrder(handed, pane, zone, tab);
    SplitGrown(handed, pane, zone, tab);
  }

  lemma RepairKeepsOrder(m: PaneLayout, ids: seq<TabId>)
    requires Live(m) && Distinct(ids)
    ensures PaneIds(Normalized(m, ids, None).root) ==
      Only(PaneIds(m.root), Elems(PaneIds(Normalized(m, ids, None).root)))
  {
    NormalizedKeepsTabs(m, ids, None);
  }

  lemma SplitKeepsOrder(l: PaneLayout, ids: seq<TabId>, pane: PaneId, zone: DropZone, tab: TabId)
    requires Grown(HandedOff(l, ids, {tab})) && Distinct(ids) && PaneCount(l) < MAX_PANES && HasPane(l, pane)
    ensures SplitWithTab(HandedOff(l, ids, {tab}), pane, zone, tab).Some?
    ensures var r := Normalized(SplitWithTab(HandedOff(l, ids, {tab}), pane, zone, tab).value, ids, None);
      StandsBeside(l, pane, zone, l.counter + 1, r)
  {
    var handed := HandedOff(l, ids, {tab});
    SplitStandsBeside(l, handed, pane, zone, tab);
    RepairKeepsOrder(SplitWithTab(handed, pane, zone, tab).value, ids);
  }

  lemma SplitBeside(s: State, pane: PaneId, zone: DropZone, tab: TabId)
    requires Inv(s) && PaneCount(s.panes) < MAX_PANES && HasPane(s.panes, pane)
    ensures SplitWithTab(HandedOff(s.panes, Ids(s.tabs), {tab}), pane, zone, tab).Some?
    ensures var split := SplitWithTab(HandedOff(s.panes, Ids(s.tabs), {tab}), pane, zone, tab).value;
      StandsBeside(s.panes, pane, zone, s.panes.counter + 1, Normalized(split, Ids(s.tabs), None))
  {
    SplitKeepsOrder(s.panes, Ids(s.tabs), pane, zone, tab);
  }

  lemma SplitOffIs(s: State, pane: PaneId, zone: DropZone, tab: TabId, split: PaneLayout)
    requires HasPane(s.panes, pane)
    requires var l, ids, r, added := s.panes, Ids(s.tabs), Normalized(split, Ids(s.tabs), None), s.panes.counter + 1;
      && r.focused == added && !HasPane(l, r.focused) && ActiveOf(r) == Some(tab)
      && StandsBeside(l, pane, zone, added, r)
      && StripsBut(l, ids, tab, added, r)
      && LeftBehind(l, ids, tab, added, r)
    ensures SplitOff(s, pane, zone, tab, PaneState(s, s.tabs, split, None))
  {
  }

  lemma SplitIsOff(s: State, pane: PaneId, zone: DropZone, tab: TabId)
    requires Inv(s) && tab in Ids(s.tabs)
    requires PaneCount(s.panes) < MAX_PANES && HasPane(s.panes, pane)
    ensures SplitWithTab(HandedOff(s.panes, Ids(s.tabs), {tab}), pane, zone, tab).Some?
    ensures var split := SplitWithTab(HandedOff(s.panes, Ids(s.tabs), {tab}), pane, zone, tab).value;
      SplitOff(s, pane, zone, tab, PaneState(s, s.tabs, split, None))
  {
    SplitStripsBut(s, pane, zone, tab);
    SplitHandsOn(s, pane, zone, tab);
    SplitBeside(s, pane, zone, tab);
    SplitOffIs(s, pane, zone, tab, SplitWithTab(HandedOff(s.panes, Ids(s.tabs), {tab}), pane, zone, tab).value);
  }

  lemma SplitRefused(s: State, pane: PaneId, zone: DropZone, tab: TabId)
    requires Inv(s) && !(PaneCount(s.panes) < MAX_PANES && HasPane(s.panes, pane))
    ensures SplitWithTab(HandedOff(s.panes, Ids(s.tabs), {tab}), pane, zone, tab).None?
  {
  }

  /** The split action: off goes a tab of a pane that keeps another one, as long as there is room for a pane. */
  lemma SplittingPane(s: State, pane: PaneId, zone: DropZone, tab: TabId)
    requires Inv(s)
    ensures var r := SplitPanePatch(s, pane, zone, tab);
      if HasPane(s.panes, pane) && tab in Strip(s.panes, Ids(s.tabs), pane)
        && |Strip(s.panes, Ids(s.tabs), pane)| > 1 && PaneCount(s.panes) < MAX_PANES
      then SplitOff(s, pane, zone, tab, r)
      else r == s
  {
    StripElems(s.panes, Ids(s.tabs), pane);
    if PaneCount(s.panes) < MAX_PANES && HasPane(s.panes, pane) {
      if tab in Strip(s.panes, Ids(s.tabs), pane) {
        SplitIsOff(s, pane, zone, tab);
      }
    } else {
      SplitRefused(s, pane, zone, tab);
    }
  }

  lemma AloneInStrip(l: PaneLayout, ids: seq<TabId>, pane: PaneId, tab: TabId)
    requires tab in ids
    ensures PaneOf(l, tab) == pane && |Strip(l, ids, pane)| < 2 <==> Strip(l, ids, pane) == [tab]
  {
    StripElems(l, ids, pane);
    if Strip(l, ids, pane) == [tab] {
      assert tab in Strip(l, ids, pane);
    }
  }

  /** A drop in the middle moves, one on an edge splits; a pane's only tab dropped on its own edge stays. */
  lemma DroppingTab(s: State, tab: TabId, pane: PaneId, zone: DropZone)
    requires Inv(s)
    ensures var r := DropTabPatch(s, tab, pane, zone);
      if tab !in Ids(s.tabs) || !HasPane(s.panes, pane) then r == s
      else if zone == Center then r == MoveTabPatch(s, tab, pane, None)
      else if PaneCount(s.panes) == MAX_PANES || Strip(s.panes, Ids(s.tabs), pane) == [tab] then r == s
      else SplitOff(s, pane, zone, tab, r)
  {
    var l, ids := s.panes, Ids(s.tabs);
    if tab in ids && HasPane(l, pane) && zone != Center {
      StripElems(l, ids, pane);
      AloneInStrip(l, ids, pane, tab);
      if PaneCount(l) < MAX_PANES {
        SplitIsOff(s, pane, zone, tab);
      } else {
        SplitRefused(s, pane, zone, tab);
      }
    }
  }

  // ------------------------------------------------------------------ to the side

  /** The side pane is the first in reading order that does not have the focus. */
  lemma SidePaneIsFirst(l: PaneLayout)
    requires Live(l)
    ensures var order := PaneIds(l.root);
      SidePane(l, order) ==
        if |order| == 1 then None else if order[0] != l.focused then Some(order[0]) else Some(order[1])
  {
    var order := PaneIds(l.root);
    if |order| > 1 {
      DistinctAt(order, 0, 1);
      assert SidePane(l, order[1..]) == Some(order[1]) || order[1] == l.focused;
    } else {
      assert order == [l.focused];
    }
  }

  /** Closing the split closes the first pane in reading order that does not have the focus, and no tab. */
  lemma ClosingSplit(s: State)
    requires Inv(s)
    ensures var order := PaneIds(s.panes.root);
      if |order| == 1 then CloseSplitPatch(s) == s
      else
        var side := if order[0] != s.panes.focused then order[0] else order[1];
        CloseSplitPatch(s) == WithPanes(s, Closed(s.panes, side))
  {
    var order := PaneIds(s.panes.root);
    SidePaneIsFirst(s.panes);
    if |order| > 1 {
      var side := if order[0] != s.panes.focused then order[0] else order[1];
      ClosedConsistent(s.panes, Ids(s.tabs), side);
      ClosedGrown(s.panes, side);
      WrittenAsIs(s, Closed(s.panes, side), None);
    }
  }

  lemma WholeStrip(l: PaneLayout, ids: seq<TabId>)
    requires Live(l) && PaneCount(l) == 1
    ensures Strip(l, ids, PaneIds(l.root)[0]) == ids
  {
    OnlyAll(ids, Residents(l, ids, PaneIds(l.root)[0]));
  }

  lemma NotInStrip(l: PaneLayout, ids: seq<TabId>, pane: PaneId, tab: TabId)
    requires PaneOf(l, tab) != pane
    ensures var mine := Minus(Strip(l, ids, pane), {tab});
      InsertAt(mine, LandsAt(mine, None), tab) == Strip(l, ids, pane) + [tab]
  {
    var mine := Strip(l, ids, pane);
    StripElems(l, ids, pane);
    OnlyAll(mine, Elems(mine) - {tab});
  }

  /**
  Opening to the side: the tab goes to the end of the next pane's strip in reading order, of the
  one before when its own is the last, or into a new pane on the right of the only one.
  */
  lemma OpeningToSide(s: State, id: TabId, k: nat)
    requires Inv(s) && id in Ids(s.tabs)
    requires k < PaneCount(s.panes) && PaneIds(s.panes.root)[k] == PaneOf(s.panes, id)
    ensures var order, l, ids, r := PaneIds(s.panes.root), s.panes, Ids(s.tabs), OpenToSidePatch(s, id);
      if |order| == 1 then if ids == [id] then r == s else SplitOff(s, order[0], Right, id, r)
      else
        var pane := if k + 1 < |order| then order[k + 1] else order[k - 1];
        && r.activeTab == Some(id) && r.panes.focused == pane
        && Strip(r.panes, Ids(r.tabs), pane) == Strip(l, ids, pane) + [id]
        && LeftBehind(l, ids, id, pane, r.panes)
  {
    var order, l, ids := PaneIds(s.panes.root), s.panes, Ids(s.tabs);
    DistinctIndex(order, k);
    if |order| == 1 {
      SplittingPane(s, order[0], Right, id);
      WholeStrip(l, ids);
      AloneInStrip(l, ids, order[0], id);
    } else {
      var pane := if k + 1 < |order| then order[k + 1] else order[k - 1];
      if k + 1 < |order| {
        DistinctAt(order, k, k + 1);
      } else {
        DistinctAt(order, k - 1, k);
      }
      MovingTab(s, id, pane, None);
      MovingHandsOn(s, id, pane, None);
      NotInStrip(l, ids, pane, id);
    }
  }

  // ------------------------------------------------------------------ a new tab's place

  ghost predicate PlacedBehindKin(s: State, tab: Tab, at: nat)
    requires at <= |s.tabs|
  {
    && (forall j :: at <= j < |s.tabs| ==> !Related(s, tab, s.tabs[j]))
    && (at < |s.tabs| ==> at > 0 && Related(s, tab, s.tabs[at - 1]))
  }

  lemma BehindKin(tabs: seq<Tab>, panes: PaneLayout, connection: ConnectionId)
    requires Distinct(Ids(tabs))
    ensures var at := AfterLast(Ids(tabs), Kin(tabs, panes, connection));
      && (forall j :: at <= j < |tabs| ==> !IsKin(panes, connection, tabs[j]))
      && (at < |tabs| ==> at > 0 && IsKin(panes, connection, tabs[at - 1]))
  {
    var at := AfterLast(Ids(tabs), Kin(tabs, panes, connection));
    if at < |tabs| {
      KinAt(tabs, panes, connection, at - 1);
    }
    forall j | at <= j < |tabs| ensures !IsKin(panes, connection, tabs[j]) {
      assert Ids(tabs)[j] !in Kin(tabs, panes, connection);
    }
  }

  /**
  A tab that was not open goes right behind the last tab of its own connection in the focused
  pane, or to the end when that pane has none; the others keep their order.
  */
  lemma OpeningPlaces(s: State, tab: Tab, replace: bool)
    requires Inv(s) && tab.id !in Ids(s.tabs)
    ensures var r := ShowTab(s, tab, replace);
      exists at :: 0 <= at <= |s.tabs| && r.tabs == InsertAt(s.tabs, at, tab) && PlacedBehindKin(s, tab, at)
  {
    var at := if tab.connection.None? then |s.tabs|
      else AfterLast(Ids(s.tabs), Kin(s.tabs, s.panes, tab.connection.value));
    if tab.connection.Some? {
      BehindKin(s.tabs, s.panes, tab.connection.value);
    }
    assert PlacedBehindKin(s, tab, at);
  }

  ghost predicate Related(s: State, tab: Tab, other: Tab) {
    tab.connection.Some? && other.connection == tab.connection && PaneOf(s.panes, other.id) == s.panes.focused
  }

  // ------------------------------------------------------------------ which tabs the closing actions keep

  lemma RightOfIs(tabs: seq<Tab>, k: nat)
    requires Distinct(Ids(tabs)) && k < |tabs|
    ensures RightOf(tabs, tabs[k].id) == Elems(Ids(tabs)[k + 1..])
  {
    DistinctIndex(Ids(tabs), k);
  }

  lemma {:induction false} OnlyNone(s: seq<TabId>, keep: set<TabId>)
    requires forall x :: x in s ==> x !in keep
    ensures Only(s, keep) == []
  {
    if s != [] {
      OnlyNone(s[1..], keep);
    }
  }

  lemma MinusTail(ids: seq<TabId>, n: nat)
    requires Distinct(ids) && n <= |ids|
    ensures Minus(ids, Elems(ids[n..])) == ids[..n]
  {
    var u, v, keep := ids[..n], ids[n..], Elems(ids) - Elems(ids[n..]);
    assert ids == u + v;
    OnlyConcat(u, v, keep);
    forall x | x in u ensures x in keep {
      var i :| 0 <= i < |u| && u[i] == x;
      if x in v {
        var j :| 0 <= j < |v| && v[j] == x;
        DistinctAt(ids, i, j + n);
      }
    }
    OnlyAll(u, keep);
    OnlyNone(v, keep);
  }

  lemma RightKept(tabs: seq<Tab>, k: nat)
    requires Distinct(Ids(tabs)) && k < |tabs|
    ensures Ids(Staying(tabs, RightOf(tabs, tabs[k].id))) == Ids(tabs)[..k + 1]
  {
    RightOfIs(tabs, k);
    IdsOfStaying(tabs, RightOf(tabs, tabs[k].id));
    MinusTail(Ids(tabs), k + 1);
  }

  /** Closing the tabs to the right of the k-th keeps exactly the first k + 1. */
  lemma ClosingToRight(s: State, k: nat)
    requires Inv(s) && k < |s.tabs|
    ensures Ids(AfterRemoval(s, RightOf(s.tabs, s.tabs[k].id)).tabs) == Ids(s.tabs)[..k + 1]
  {
    RightKept(s.tabs, k);
  }

  lemma {:induction false} OnlyOne(s: seq<TabId>, x: TabId, keep: set<TabId>)
    requires Distinct(s) && x in s && forall y :: y in s ==> (y in keep <==> y == x)
    ensures Only(s, keep) == [x]
  {
    if s[0] == x {
      OnlyNone(s[1..], keep);
    } else {
      OnlyOne(s[1..], x, keep);
    }
  }

  /** Closing the other tabs keeps exactly the one. */
  lemma ClosingOthers(s: State, id: TabId)
    requires Inv(s) && id in Ids(s.tabs)
    ensures Ids(AfterRemoval(s, Elems(Ids(s.tabs)) - {id}).tabs) == [id]
  {
    var ids := Ids(s.tabs);
    IdsOfStaying(s.tabs, Elems(ids) - {id});
    OnlyOne(ids, id, Elems(ids) - (Elems(ids) - {id}));
  }

  predicate HasQuery(tabs: seq<Tab>, connection: ConnectionId) {
    exists k :: 0 <= k < |tabs| && tabs[k].kind.Query? && tabs[k].connection == Some(connection)
  }

  predicate KeepsQuery(tabs: seq<Tab>, gone: set<TabId>, connection: ConnectionId) {
    exists k :: 0 <= k < |tabs| && tabs[k].id !in gone && tabs[k].kind.Query? && tabs[k].connection == Some(connection)
  }

  lemma {:induction false} TabsInHas(tabs: seq<Tab>, keep: set<TabId>, tab: Tab)
    ensures tab in TabsIn(tabs, keep) <==> tab in tabs && tab.id in keep
  {
    if tabs != [] {
      TabsInHas(tabs[1..], keep, tab);
      assert tab in tabs <==> tab == tabs[0] || tab in tabs[1..];
    }
  }

  lemma StayingQuery(tabs: seq<Tab>, gone: set<TabId>, connection: ConnectionId)
    ensures HasQuery(Staying(tabs, gone), connection) <==> KeepsQuery(tabs, gone, connection)
  {
    var rest, keep := Staying(tabs, gone), Elems(Ids(tabs)) - gone;
    if HasQuery(rest, connection) {
      var k :| 0 <= k < |rest| && rest[k].kind.Query? && rest[k].connection == Some(connection);
      TabsInHas(tabs, keep, rest[k]);
      var j :| 0 <= j < |tabs| && tabs[j] == rest[k];
    }
    if j :| 0 <= j < |tabs| && tabs[j].id !in gone && tabs[j].kind.Query? && tabs[j].connection == Some(connection) {
      assert Ids(tabs)[j] in keep;
      TabsInHas(tabs, keep, tabs[j]);
      var k :| 0 <= k < |rest| && rest[k] == tabs[j];
    }
  }

  /**
  Closing is refused exactly when it would take the last query tab of a connection whose user
  said no; so such a connection never loses its last one.
  */
  lemma RefusedExactly(tabs: seq<Tab>, gone: set<TabId>, declined: set<ConnectionId>)
    ensures Refused(tabs, gone, declined) <==>
      exists c :: c in declined && HasQuery(tabs, c) && !HasQuery(Staying(tabs, gone), c)
  {
    forall c: ConnectionId ensures HasQuery(Staying(tabs, gone), c) <==> KeepsQuery(tabs, gone, c) {
      StayingQuery(tabs, gone, c);
    }
    if c :| c in declined && HasQuery(tabs, c) && !HasQuery(Staying(tabs, gone), c) {
      var k :| 0 <= k < |tabs| && tabs[k].kind.Query? && tabs[k].connection == Some(c);
      assert tabs[k].id in gone;
    }
    if Refused(tabs, gone, declined) {
      var k :| 0 <= k < |tabs| && tabs[k].id in gone && tabs[k].kind.Query? && tabs[k].connection.Some?
        && tabs[k].connection.value in declined
        && !exists j ::
          0 <= j < |tabs| && tabs[j].id !in gone && tabs[j].kind.Query? && tabs[j].connection == tabs[k].connection;
      assert HasQuery(tabs, tabs[k].connection.value);
    }
  }

  lemma FromTheEnd(a: seq<Tab>, b: seq<Tab>, m: nat, j: nat)
    requires j < m <= |a + b|
    ensures (a + b)[|a + b| - m..][m - 1 - j] == if j < |b| then b[|b| - 1 - j] else a[|a| + |b| - 1 - j]
  {
  }

  /** A tab as it is stored: a query or a table without its seed. */
  function AtRest(tab: Tab): Tab {
    Tab(tab.id, tab.kind, tab.connection, if tab.kind in {TabKind.Query, TabKind.Table} then None else tab.seed)
  }

  /** The stack of closed tabs keeps the newest 25, the one closed last on top, without what only a live tab carries. */
  lemma ClosedStack(stack: seq<Tab>, closed: seq<Tab>, j: nat)
    ensures |PushClosed(stack, closed)| == (if |stack| + |closed| < 25 then |stack| + |closed| else 25)
    ensures var r := PushClosed(stack, closed);
      j < |r| ==>
        r[|r| - 1 - j] == (if j < |closed| then AtRest(closed[|closed| - 1 - j]) else stack[|stack| + |closed| - 1 - j])
  {
    var stored := seq(|closed|, k requires 0 <= k < |closed| => Storable(closed[k]));
    var r := PushClosed(stack, closed);
    if j < |r| {
      FromTheEnd(stack, stored, |r|, j);
    }
  }

  lemma SameTab(tabs: seq<Tab>, j: nat, k: nat)
    requires Distinct(Ids(tabs)) && j < |tabs| && k < |tabs| && tabs[j].id == tabs[k].id
    ensures j == k
  {
    DistinctIndex(Ids(tabs), j);
    DistinctIndex(Ids(tabs), k);
  }

  lemma KeptOnConnection(tabs: seq<Tab>, connection: ConnectionId, kinds: set<TabKind>, k: nat)
    requires Distinct(Ids(tabs)) && k < |tabs|
    ensures tabs[k].id in OnConnection(tabs, connection, kinds) <==>
      tabs[k].connection == Some(connection) && tabs[k].kind in kinds
  {
    if tabs[k].id in OnConnection(tabs, connection, kinds) {
      var j :| 0 <= j < |tabs| && tabs[j].connection == Some(connection) && tabs[j].kind in kinds
        && tabs[j].id == tabs[k].id;
      SameTab(tabs, j, k);
    }
  }

  /** What goes with a connection: exactly its tabs of the kinds asked for. */
  lemma DroppingConnection(s: State, connection: ConnectionId, kinds: set<TabKind>, k: nat)
    requires Inv(s) && k < |s.tabs|
    ensures s.tabs[k].id in Ids(AfterRemoval(s, OnConnection(s.tabs, connection, kinds)).tabs) <==>
      s.tabs[k].connection != Some(connection) || s.tabs[k].kind !in kinds
  {
    var gone := OnConnection(s.tabs, connection, kinds);
    KeptOnConnection(s.tabs, connection, kinds, k);
    IdsOfStaying(s.tabs, gone);
    MinusElems(Ids(s.tabs), gone);
    assert Ids(s.tabs)[k] in Ids(s.tabs);
  }

  // ------------------------------------------------------------------ focusing a pane, opening a table

  lemma RefocusedConsistent(l: PaneLayout, ids: seq<TabId>, pane: PaneId)
    requires Consistent(l, ids) && HasPane(l, pane)
    ensures Consistent(l.(focused := pane), ids)
  {
    var r := l.(focused := pane);
    forall p ensures Occupied(r, ids, p) <==> Occupied(l, ids, p) {
      SameStrip(r, l, ids, p);
    }
    forall p | HasPane(r, p) ensures ShowsOwn(r, ids, p) {
      assert ShowsOwn(l, ids, p);
    }
  }

  /** Focusing a pane moves the keyboard there and changes nothing else; an unknown pane changes nothing at all. */
  lemma FocusingPane(s: State, pane: PaneId)
    requires Inv(s)
    ensures PaneState(s, s.tabs, Focused(s.panes, pane), None) ==
      if HasPane(s.panes, pane) then WithPanes(s, s.panes.(focused := pane)) else s
  {
    var l, ids := s.panes, Ids(s.tabs);
    if HasPane(l, pane) {
      var r := l.(focused := pane);
      RefocusedConsistent(l, ids, pane);
      WrittenAsIs(s, r, None);
    } else {
      WrittenAsIs(s, l, None);
    }
  }

  lemma ReplacedById(tabs: seq<Tab>, tab: Tab)
    ensures Ids(Replaced(tabs, tab.id, tab)) == Ids(tabs)
  {
  }

  /**
  A table opened is the active tab. One that was open keeps its place, and stays the preview only if it is opened
  for a preview again and not by a double click; one that was not becomes the preview if previews are shared, and
  closes no tab but the preview whose place it takes.
  */
  lemma OpeningTable(s: State, tab: Tab, reuse: bool, doubleClick: bool)
    requires Inv(s)
    ensures var r, ids := OpenTablePatch(s, tab, reuse, doubleClick), Ids(s.tabs);
      && r.activeTab == Some(tab.id)
      && (tab.id in ids ==> Ids(r.tabs) == ids)
      && (tab.id in ids ==>
            r.preview == if s.preview == Some(tab.id) && (!reuse || doubleClick) then None else s.preview)
      && (tab.id !in ids ==> r.preview == if reuse then Some(tab.id) else s.preview)
      && (forall t :: t in ids && !(tab.id !in ids && reuse && s.preview == Some(t)) ==> t in Ids(r.tabs))
  {
    if tab.id !in Ids(s.tabs) && reuse && s.preview.Some? {
      ReplacingPreview(s, tab, doubleClick);
      IdsOfReplaced(s.tabs, s.preview.value, tab);
    } else {
      ShowingTab(s, tab, tab.id in Ids(s.tabs));
      if tab.id in Ids(s.tabs) {
        IdsOfReplaced(s.tabs, tab.id, tab);
        ReplacedById(s.tabs, tab);
      }
    }
  }
}
