/**
Laws of the workspace that relate several actions: what activating, cycling, swapping, closing
and splitting panes do to a state that holds the invariant, what undoes what, that unsaved work
survives, and that pane ids are never reused in a run.
*/
module WorkspaceLaws {
  import opened Prelude
  import opened Panes
  import opened PaneSurgery
  import opened PaneNormalize
  import opened WorkspaceState
  import opened WorkspaceInvariant
  import opened WorkspaceEffects

  /** `s` with a consistent layout put in: what the store holds after writing it. */
  function WithPanes(s: State, panes: PaneLayout): State {
    s.(panes := panes, activeTab := ActiveOf(panes), splitTab := SideTabOf(panes))
  }

  /** Writing a layout that is already consistent stores exactly that layout. */
  lemma WrittenAsIs(s: State, panes: PaneLayout, requested: Option<TabId>)
    requires Inv(s) && Grown(panes) && Consistent(panes, Ids(s.tabs))
    requires requested.None? || requested == ActiveOf(panes)
    ensures PaneState(s, s.tabs, panes, requested) == WithPanes(s, panes)
    ensures Set(s, PaneState(s, s.tabs, panes, requested)) == WithPanes(s, panes)
    ensures Inv(WithPanes(s, panes))
  {
    NormalizedFixpoint(panes, Ids(s.tabs), requested);
    RepairedSettled(WithPanes(s, panes), s.activeTab);
  }

  // ------------------------------------------------------------------ activating

  lemma ActivatedConsistent(l: PaneLayout, ids: seq<TabId>, id: TabId)
    requires Consistent(l, ids) && id in ids
    ensures Consistent(Activated(l, id), ids)
    ensures Activated(l, id) == l.(active := l.active[l.owner[id] := Some(id)], focused := l.owner[id])
  {
    var r := Activated(l, id);
    assert r.owner == l.owner;
    forall p ensures Occupied(r, ids, p) <==> Occupied(l, ids, p) {
      SameStrip(r, l, ids, p);
    }
    forall p | HasPane(r, p) ensures ShowsOwn(r, ids, p) {
      assert ShowsOwn(l, ids, p);
    }
  }

  /** Activating an open tab shows it in its own pane, gives that pane the focus, and changes nothing else. */
  lemma ActivatingOpenTab(s: State, id: TabId)
    requires Inv(s) && id in Ids(s.tabs)
    ensures DoActivate(s, id) ==
      WithPanes(s, s.panes.(active := s.panes.active[s.panes.owner[id] := Some(id)], focused := s.panes.owner[id]))
    ensures DoActivate(s, id).activeTab == Some(id)
  {
    ActivatedConsistent(s.panes, Ids(s.tabs), id);
    ActivatedGrown(s.panes, id);
    WrittenAsIs(s, Activated(s.panes, id), Some(id));
  }

  /** Once the unknown id is forgotten, the layout is the old one but for what the focused pane shows. */
  lemma UnknownReowned(l: PaneLayout, ids: seq<TabId>, id: TabId)
    requires Consistent(l, ids) && Distinct(ids) && id !in ids
    ensures Reowned(Activated(l, id), ids) == l.(active := l.active[l.focused := Some(id)])
  {
    var a := Activated(l, id);
    assert a.owner == l.owner[id := l.focused] && a.active == l.active[l.focused := Some(id)];
    UnknownOwners(l, ids, id);
  }

  lemma UnknownOwners(l: PaneLayout, ids: seq<TabId>, id: TabId)
    requires Consistent(l, ids) && Distinct(ids) && id !in ids
    ensures OwnerChanged(Activated(l, id), ids) && OwnersOf(Activated(l, id), ids) == l.owner
  {
    var a := Activated(l, id);
    assert |a.owner| != |ids| by {
      DistinctCount(ids);
      assert a.owner.Keys == Elems(ids) + {id};
    }
  }

  lemma UnknownNormalized(l: PaneLayout, ids: seq<TabId>, id: TabId)
    requires Consistent(l, ids) && Distinct(ids) && id !in ids
    ensures var m := l.(active := l.active[l.focused := Some(id)]);
      Normalized(Activated(l, id), ids, Some(id)) == Reshown(m, ids)
  {
    var m := l.(active := l.active[l.focused := Some(id)]);
    UnknownReowned(l, ids, id);
    forall p ensures Occupied(m, ids, p) <==> Occupied(l, ids, p) {
      SameStrip(m, l, ids, p);
    }
    NothingToDrop(m, PaneIds(m.root), ids);
  }

  /**
   Activating an id that is not open is not a no-op: the focused pane forgets which tab it
   showed and falls back to the last tab of its strip.
   */
  lemma ActivatingUnknownTab(s: State, id: TabId)
    requires Inv(s) && id !in Ids(s.tabs)
    ensures DoActivate(s, id).activeTab == if FocusedStrip(s) == [] then None else Some(Last(FocusedStrip(s)))
  {
    var l, ids := s.panes, Ids(s.tabs);
    var m := l.(active := l.active[l.focused := Some(id)]);
    ActivateRepairable(s, id);
    assert Inv(ActivatePatch(s, id)) by {
      PaneStateInv(s, s.tabs, Activated(l, id), Some(id));
    }
    RepairedSettled(ActivatePatch(s, id), s.activeTab);
    UnknownNormalized(l, ids, id);
    SameStrip(m, l, ids, l.focused);
    StripElems(l, ids, l.focused);
  }

  // ------------------------------------------------------------------ cycling

  /** `s` with the focused pane showing `id`. */
  function Showing(s: State, id: TabId): State {
    WithPanes(s, s.panes.(active := s.panes.active[s.panes.focused := Some(id)]))
  }

  lemma ShowingKeeps(s: State, id: TabId)
    requires Inv(s) && id in FocusedStrip(s)
    ensures Inv(Showing(s, id)) && FocusedStrip(Showing(s, id)) == FocusedStrip(s)
    ensures DoActivate(s, id) == Showing(s, id)
  {
    StripElems(s.panes, Ids(s.tabs), s.panes.focused);
    ActivatingOpenTab(s, id);
    ActivatedConsistent(s.panes, Ids(s.tabs), id);
    ActivatedGrown(s.panes, id);
    WrittenAsIs(s, Activated(s.panes, id), Some(id));
    SameStrip(Showing(s, id).panes, s.panes, Ids(s.tabs), s.panes.focused);
  }

  /** Of two tabs shown one after the other in the focused pane only the second one is left to see. */
  lemma ShowingTwice(s: State, id: TabId, other: TabId)
    ensures Showing(Showing(s, id), other) == Showing(s, other)
  {
    var f := s.panes.focused;
    assert s.panes.active[f := Some(id)][f := Some(other)] == s.panes.active[f := Some(other)];
  }

  lemma StripDistinct(s: State)
    requires Inv(s)
    ensures Distinct(FocusedStrip(s))
    ensures FocusedStrip(s) != [] ==>
      s.activeTab.Some? && s.activeTab.value in FocusedStrip(s) && Showing(s, s.activeTab.value) == s
  {
    OnlyDistinct(Ids(s.tabs), Residents(s.panes, Ids(s.tabs), s.panes.focused));
    StripElems(s.panes, Ids(s.tabs), s.panes.focused);
    assert ShowsOwn(s.panes, Ids(s.tabs), s.panes.focused);
    if FocusedStrip(s) != [] {
      assert s.panes.active[s.panes.focused := s.activeTab] == s.panes.active;
    }
  }

  /** The index one step on from `i` in a ring of `n`. */
  function Wrap(i: nat, n: nat, forward: bool): (j: nat)
    requires i < n
    ensures j < n
  {
    if forward then (if i + 1 < n then i + 1 else 0) else (if i > 0 then i - 1 else n - 1)
  }

  lemma NextInIs(mine: seq<TabId>, i: nat, forward: bool)
    requires Distinct(mine) && i < |mine|
    ensures NextIn(mine, Some(mine[i]), forward) == Some(mine[Wrap(i, |mine|, forward)])
  {
    DistinctIndex(mine, i);
    var n := |mine|;
    var x := i + (if forward then 1 else -1) + n;
    if n <= x {
      assert Remainder(x, n) == Remainder(x - n, n);
      if n <= x - n {
        assert Remainder(x - n, n) == Remainder(x - 2 * n, n);
      }
    }
  }

  /**
  One step of Ctrl+Tab from the i-th tab of the strip shows the next one, wrapping round, and changes nothing
  else.
  */
  lemma CycleStep(s: State, i: nat, forward: bool)
    requires Inv(s) && i < |FocusedStrip(s)|
    ensures DoCycle(Showing(s, FocusedStrip(s)[i]), forward) ==
      Showing(s, FocusedStrip(s)[Wrap(i, |FocusedStrip(s)|, forward)])
  {
    var mine := FocusedStrip(s);
    var next := mine[Wrap(i, |mine|, forward)];
    assert mine[i] in mine && next in mine;
    StripDistinct(s);
    ShowingKeeps(s, mine[i]);
    NextInIs(mine, i, forward);
    ShowingKeeps(Showing(s, mine[i]), next);
    ShowingTwice(s, mine[i], next);
  }

  /** Ctrl+Shift+Tab undoes Ctrl+Tab, and the other way round. */
  lemma CyclingBack(s: State, forward: bool)
    requires Inv(s)
    ensures DoCycle(DoCycle(s, forward), !forward) == s
  {
    var mine := FocusedStrip(s);
    if mine != [] {
      StripDistinct(s);
      var i := IndexOf(mine, s.activeTab.value);
      CycleStep(s, i, forward);
      CycleStep(s, Wrap(i, |mine|, forward), !forward);
    }
  }

  // ------------------------------------------------------------------ swapping the two sides

  lemma {:induction false} SidePaneIs(l: PaneLayout, order: seq<PaneId>)
    ensures SidePane(l, order).Some? ==> SidePane(l, order).value in order && SidePane(l, order).value != l.focused
    ensures SideTab(l, order) == (if SidePane(l, order).None? then None else ActiveIn(l, SidePane(l, order).value))
  {
    if order != [] && order[0] == l.focused {
      SidePaneIs(l, order[1..]);
    }
  }

  lemma {:induction false} SidePaneSame(l: PaneLayout, r: PaneLayout, order: seq<PaneId>)
    requires l.focused == r.focused
    ensures SidePane(l, order) == SidePane(r, order)
  {
    if order != [] {
      SidePaneSame(l, r, order[1..]);
    }
  }

  function SwappedPanes(l: PaneLayout, mine: TabId, theirs: TabId, side: PaneId): PaneLayout {
    l.(owner := l.owner[mine := side][theirs := l.focused],
       active := l.active[l.focused := Some(theirs)][side := Some(mine)])
  }

  lemma SwappedConsistent(l: PaneLayout, ids: seq<TabId>, mine: TabId, theirs: TabId, side: PaneId)
    requires Consistent(l, ids) && HasPane(l, side) && side != l.focused
    requires ActiveOf(l) == Some(mine) && ActiveIn(l, side) == Some(theirs)
    ensures mine in ids && theirs in ids && mine != theirs && l.owner[mine] == l.focused && l.owner[theirs] == side
    ensures Consistent(SwappedPanes(l, mine, theirs, side), ids)
  {
    assert ShowsOwn(l, ids, l.focused) && ShowsOwn(l, ids, side);
    var r := SwappedPanes(l, mine, theirs, side);
    forall p ensures Occupied(r, ids, p) <==> Occupied(l, ids, p) {
      SwappedOccupied(l, ids, mine, theirs, side, p);
    }
    forall p | HasPane(r, p) ensures ShowsOwn(r, ids, p) {
      SwappedShows(l, ids, mine, theirs, side, p);
    }
  }

  lemma SwappedShows(l: PaneLayout, ids: seq<TabId>, mine: TabId, theirs: TabId, side: PaneId, p: PaneId)
    requires Consistent(l, ids) && HasPane(l, side) && side != l.focused && HasPane(l, p)
    requires mine in ids && theirs in ids && l.owner[mine] == l.focused && l.owner[theirs] == side
    ensures ShowsOwn(SwappedPanes(l, mine, theirs, side), ids, p)
  {
    assert ShowsOwn(l, ids, p);
    SwappedOccupied(l, ids, mine, theirs, side, p);
  }

  /** Swapped twice, the layout is the one before. */
  lemma SwappedBack(l: PaneLayout, ids: seq<TabId>, mine: TabId, theirs: TabId, side: PaneId)
    requires Consistent(l, ids) && HasPane(l, side) && side != l.focused
    requires ActiveOf(l) == Some(mine) && ActiveIn(l, side) == Some(theirs)
    ensures SwappedPanes(SwappedPanes(l, mine, theirs, side), theirs, mine, side) == l
  {
    SwappedConsistent(l, ids, mine, theirs, side);
    var r := SwappedPanes(l, mine, theirs, side);
    assert SwappedPanes(r, theirs, mine, side).owner == l.owner;
    assert SwappedPanes(r, theirs, mine, side).active == l.active;
  }

  lemma SwappedOccupied(l: PaneLayout, ids: seq<TabId>, mine: TabId, theirs: TabId, side: PaneId, p: PaneId)
    requires Consistent(l, ids) && HasPane(l, side) && side != l.focused
    requires mine in ids && theirs in ids && l.owner[mine] == l.focused && l.owner[theirs] == side
    ensures Occupied(SwappedPanes(l, mine, theirs, side), ids, p) <==> Occupied(l, ids, p)
  {
    var r := SwappedPanes(l, mine, theirs, side);
    assert Owned(r, ids) by {
      assert r.owner.Keys == l.owner.Keys;
    }
    OwnedOccupied(l, ids, p);
    OwnedOccupied(r, ids, p);
    if p == l.focused {
      assert r.owner[theirs] == p;
    } else if p == side {
      assert r.owner[mine] == p;
    } else {
      assert forall t :: t in ids ==> (r.owner[t] == p <==> l.owner[t] == p);
    }
  }

  /** What a swap writes when both sides show a tab. */
  lemma SwapWrites(s: State, mine: TabId, theirs: TabId, side: PaneId)
    requires Inv(s) && SidePane(s.panes, PaneIds(s.panes.root)) == Some(side)
    requires ActiveOf(s.panes) == Some(mine) && ActiveIn(s.panes, side) == Some(theirs)
    ensures var r := SwappedPanes(s.panes, mine, theirs, side);
      && Set(s, SwapSplitPatch(s)) == WithPanes(s, r)
      && Inv(WithPanes(s, r))
      && SidePane(r, PaneIds(r.root)) == Some(side)
      && ActiveOf(r) == Some(theirs) && ActiveIn(r, side) == Some(mine)
      && SwappedPanes(r, theirs, mine, side) == s.panes
  {
    var r := SwappedPanes(s.panes, mine, theirs, side);
    SidePaneIs(s.panes, PaneIds(s.panes.root));
    SwappedConsistent(s.panes, Ids(s.tabs), mine, theirs, side);
    SwappedBack(s.panes, Ids(s.tabs), mine, theirs, side);
    SidePaneSame(s.panes, r, PaneIds(s.panes.root));
    WrittenAsIs(s, r, None);
  }

  /** With two panes or more both sides show a tab. */
  lemma BothSidesShow(s: State, side: PaneId)
    requires Inv(s) && SidePane(s.panes, PaneIds(s.panes.root)) == Some(side)
    ensures ActiveOf(s.panes).Some? && ActiveIn(s.panes, side).Some? && s.splitTab == ActiveIn(s.panes, side)
  {
    var l, order := s.panes, PaneIds(s.panes.root);
    SidePaneIs(l, order);
    DistinctCount(order);
    assert {side, l.focused} <= Elems(order);
    TwoMembers(Elems(order), side, l.focused);
    assert ShowsOwn(l, Ids(s.tabs), side) && ShowsOwn(l, Ids(s.tabs), l.focused);
  }

  lemma TwoMembers(s: set<PaneId>, a: PaneId, b: PaneId)
    requires {a, b} <= s && a != b
    ensures |s| > 1
  {
    assert s == {a} + (s - {a}) && b in s - {a};
  }

  /** Swapping exchanges the shown tabs of the focused and the side pane, and swapping again restores everything. */
  lemma SwappingTwice(s: State)
    requires Inv(s)
    ensures var t := Set(s, SwapSplitPatch(s));
      && Set(t, SwapSplitPatch(t)) == s
      && (PaneCount(s.panes) > 1 ==> t.activeTab == s.splitTab && t.splitTab == s.activeTab)
  {
    var l := s.panes;
    var side := SidePane(l, PaneIds(l.root));
    if side.None? {
      RepairedSettled(s, s.activeTab);
      NoSidePane(l, PaneIds(l.root));
    } else {
      BothSidesShow(s, side.value);
      var mine, theirs := ActiveOf(l).value, ActiveIn(l, side.value).value;
      SwapWrites(s, mine, theirs, side.value);
      var t := WithPanes(s, SwappedPanes(l, mine, theirs, side.value));
      BothSidesShow(t, side.value);
      SwapWrites(t, theirs, mine, side.value);
    }
  }

  lemma {:induction false} NoSidePane(l: PaneLayout, order: seq<PaneId>)
    requires SidePane(l, order).None? && Distinct(order)
    ensures |order| <= 1
  {
    if order != [] {
      NoSidePane(l, order[1..]);
    }
  }

  // ------------------------------------------------------------------ closing and splitting panes

  lemma ClosedOwned(l: PaneLayout, ids: seq<TabId>, pane: PaneId)
    requires Consistent(l, ids) && PaneCount(l) > 1 && HasPane(l, pane)
    ensures Live(Closed(l, pane)) && Owned(Closed(l, pane), ids)
  {
    ClosedGrown(l, pane);
    ClosedOwners(l, ids, pane);
  }

  lemma ClosedOwners(l: PaneLayout, ids: seq<TabId>, pane: PaneId)
    requires Consistent(l, ids) && PaneCount(l) > 1 && HasPane(l, pane)
    ensures Owned(Closed(l, pane), ids)
  {
    var r := Closed(l, pane);
    ClosedPane(l, pane);
    assert r.owner.Keys == l.owner.Keys;
    forall t | t in ids ensures HasPane(r, r.owner[t]) {
      if l.owner[t] != pane {
        OtherPaneStays(l, pane, l.owner[t]);
      }
    }
  }

  lemma OtherPaneStays(l: PaneLayout, pane: PaneId, other: PaneId)
    requires Live(l) && PaneCount(l) > 1 && HasPane(l, pane) && HasPane(l, other) && other != pane
    ensures HasPane(Closed(l, pane), other)
  {
    ClosedPane(l, pane);
    MinusElems(PaneIds(l.root), {pane});
  }

  /** Every pane that is left shows what it showed. */
  lemma ClosedShows(l: PaneLayout, ids: seq<TabId>, pane: PaneId, p: PaneId)
    requires Consistent(l, ids) && PaneCount(l) > 1 && HasPane(l, pane) && HasPane(Closed(l, pane), p)
    ensures HasPane(l, p) && p != pane && ActiveIn(Closed(l, pane), p) == ActiveIn(l, p) && ActiveIn(l, p).Some?
  {
    ClosedPane(l, pane);
    MinusElems(PaneIds(l.root), {pane});
    assert ShowsOwn(l, ids, p) && Occupied(l, ids, p);
  }

  lemma ClosedConsistent(l: PaneLayout, ids: seq<TabId>, pane: PaneId)
    requires Consistent(l, ids) && PaneCount(l) > 1 && HasPane(l, pane)
    ensures Consistent(Closed(l, pane), ids)
  {
    var r := Closed(l, pane);
    ClosedOwned(l, ids, pane);
    assert r.active.Keys == Elems(PaneIds(r.root)) by {
      ClosedPane(l, pane);
    }
    forall p | HasPane(r, p) ensures ShowsOwn(r, ids, p) && Occupied(r, ids, p) {
      ClosedShows(l, ids, pane, p);
      assert ShowsOwn(l, ids, p);
      var t := l.active[p].value;
      var i :| 0 <= i < |ids| && ids[i] == t;
      assert PaneOf(r, ids[i]) == p;
    }
  }

  /** The closed pane's tabs join the strip next door in flat-list order; every other strip stays as it was. */
  lemma ClosedStrips(l: PaneLayout, ids: seq<TabId>, pane: PaneId, p: PaneId)
    requires Consistent(l, ids) && PaneCount(l) > 1 && HasPane(l, pane) && HasPane(Closed(l, pane), p)
    ensures Strip(Closed(l, pane), ids, p) ==
      if p == Neighbour(PaneIds(l.root), pane) then Only(ids, Residents(l, ids, p) + Residents(l, ids, pane))
        else Strip(l, ids, p)
  {
    assert p != pane by {
      ClosedShows(l, ids, pane, p);
    }
    forall t | t in ids ensures PaneOf(Closed(l, pane), t) == if PaneOf(l, t) == pane
      then Neighbour(PaneIds(l.root), pane) else PaneOf(l, t) {
      ClosedKeepsTabs(l, pane, t);
    }
    assert Residents(Closed(l, pane), ids, p) ==
      if p == Neighbour(PaneIds(l.root), pane) then Residents(l, ids, p) + Residents(l, ids, pane)
        else Residents(l, ids, p);
  }

  /**
   Closing a pane closes no tab: its leaf goes, its tabs join the strip next door in flat-list
   order, and every other strip and every other pane's shown tab stay as they were.
   */
  lemma ClosingPane(s: State, pane: PaneId)
    requires Inv(s) && PaneCount(s.panes) > 1 && HasPane(s.panes, pane)
    ensures Set(s, PaneState(s, s.tabs, Closed(s.panes, pane), None)) == WithPanes(s, Closed(s.panes, pane))
    ensures var l, r, ids := s.panes, Closed(s.panes, pane), Ids(s.tabs);
      var heir := Neighbour(PaneIds(l.root), pane);
      && PaneIds(r.root) == Minus(PaneIds(l.root), {pane})
      && r.focused == (if l.focused == pane then heir else l.focused)
      && forall p :: HasPane(r, p) ==>
           && ActiveIn(r, p) == ActiveIn(l, p)
           && Strip(r, ids, p) == if p == heir then Only(ids, Residents(l, ids, p) + Residents(l, ids, pane))
             else Strip(l, ids, p)
  {
    var l, ids := s.panes, Ids(s.tabs);
    ClosedConsistent(l, ids, pane);
    ClosedGrown(l, pane);
    WrittenAsIs(s, Closed(l, pane), None);
    ClosedPane(l, pane);
    forall p | HasPane(Closed(l, pane), p)
      ensures ActiveIn(Closed(l, pane), p) == ActiveIn(l, p)
      ensures Strip(Closed(l, pane), ids, p) ==
        if p == Neighbour(PaneIds(l.root), pane) then Only(ids, Residents(l, ids, p) + Residents(l, ids, pane))
          else Strip(l, ids, p) {
      ClosedShows(l, ids, pane, p);
      ClosedStrips(l, ids, pane, p);
    }
  }

  /** Where the tabs are once `tab` was dropped on an edge of `pane`. */
  lemma SplitPlaces(l: PaneLayout, ids: seq<TabId>, pane: PaneId, zone: DropZone, tab: TabId)
    requires Grown(l) && Owned(l, ids) && tab in ids
    requires PaneCount(l) < MAX_PANES && HasPane(l, pane)
    ensures SplitWithTab(HandedOff(l, ids, {tab}), pane, zone, tab).Some?
    ensures var r := SplitWithTab(HandedOff(l, ids, {tab}), pane, zone, tab).value;
      && Live(r) && r.focused == l.counter + 1 && !HasPane(l, r.focused) && HasPane(r, r.focused)
      && ActiveOf(r) == Some(tab) && PaneOf(r, tab) == r.focused
      && forall t :: t in ids && t != tab ==> PaneOf(r, t) == PaneOf(l, t)
  {
    var handed := HandedOff(l, ids, {tab});
    HandedOffKeepsTabs(l, ids, {tab});
    SplitPane(handed, pane, zone, tab);
    SplitKeepsTabs(handed, pane, zone, tab);
    SplitGrown(handed, pane, zone, tab);
  }

  lemma SplitStrip(l: PaneLayout, r: PaneLayout, ids: seq<TabId>, tab: TabId, p: PaneId)
    requires tab in ids && forall t :: t in ids && t != tab ==> PaneOf(r, t) == PaneOf(l, t)
    requires forall t :: t in ids ==> PaneOf(l, t) != PaneOf(r, tab)
    ensures Strip(r, ids, p) == Only(ids, if p == PaneOf(r, tab) then {tab} else Residents(l, ids, p) - {tab})
  {
    assert Residents(r, ids, p) == if p == PaneOf(r, tab) then {tab} else Residents(l, ids, p) - {tab};
  }

  lemma SplitStrips(l: PaneLayout, r: PaneLayout, ids: seq<TabId>, tab: TabId)
    requires Live(l) && Owned(l, ids) && tab in ids && !HasPane(l, PaneOf(r, tab))
    requires forall t :: t in ids && t != tab ==> PaneOf(r, t) == PaneOf(l, t)
    ensures forall p ::
      Strip(r, ids, p) == Only(ids, if p == PaneOf(r, tab) then {tab} else Residents(l, ids, p) - {tab})
  {
    forall p ensures Strip(r, ids, p) ==
      Only(ids, if p == PaneOf(r, tab) then {tab} else Residents(l, ids, p) - {tab}) {
      SplitStrip(l, r, ids, tab, p);
    }
  }

  /**
   Splitting a tab off into a new pane: the new strip is that tab alone, every other strip only
   loses it, no tab closes, and the tab is the active one.
   */
  lemma SplittingOff(s: State, pane: PaneId, zone: DropZone, tab: TabId)
    requires Inv(s) && tab in Ids(s.tabs)
    requires PaneCount(s.panes) < MAX_PANES && HasPane(s.panes, pane)
    ensures SplitWithTab(HandedOff(s.panes, Ids(s.tabs), {tab}), pane, zone, tab).Some?
    ensures var l, ids := s.panes, Ids(s.tabs);
      var r := Normalized(SplitWithTab(HandedOff(l, ids, {tab}), pane, zone, tab).value, ids, None);
      && r.focused == l.counter + 1 && !HasPane(l, r.focused) && ActiveOf(r) == Some(tab)
      && forall p :: Strip(r, ids, p) == Only(ids, if p == r.focused then {tab} else Residents(l, ids, p) - {tab})
  {
    var l, ids := s.panes, Ids(s.tabs);
    SplitPlaces(l, ids, pane, zone, tab);
    var split := SplitWithTab(HandedOff(l, ids, {tab}), pane, zone, tab).value;
    var r := Normalized(split, ids, None);
    FocusedTabStays(split, ids, tab);
    assert PaneOf(r, tab) == r.focused;
    SplitStrips(l, r, ids, tab);
  }

  // ------------------------------------------------------------------ the preview tab

  /** The next table takes the preview's position in the flat list and its pane; every other tab stays where it is. */
  lemma ReplacingPreview(s: State, tab: Tab, doubleClick: bool)
    requires Inv(s) && s.preview.Some? && tab.id !in Ids(s.tabs)
    ensures var r := OpenTablePatch(s, tab, true, doubleClick);
      && r.tabs == Replaced(s.tabs, s.preview.value, tab)
      && s.preview.value !in s.dirty
      && PaneOf(r.panes, tab.id) == PaneOf(s.panes, s.preview.value)
      && (forall t :: t in Ids(s.tabs) && t != s.preview.value ==> PaneOf(r.panes, t) == PaneOf(s.panes, t))
      && r.activeTab == Some(tab.id) && r.preview == Some(tab.id)
  {
    var l, ids, was := s.panes, Ids(s.tabs), s.preview.value;
    var tabs := Replaced(s.tabs, was, tab);
    var pane := PaneOf(l, was);
    var owner := (l.owner - {was})[tab.id := pane];
    var active := l.active[pane := if ActiveIn(l, pane) == Some(was) then Some(tab.id) else ActiveIn(l, pane)];
    var a := Activated(l.(owner := owner, active := active), tab.id);
    IdsOfReplaced(s.tabs, was, tab);
    ActivatedGrown(l.(owner := owner, active := active), tab.id);
    assert PaneOf(a, tab.id) == pane && a.focused == pane && ActiveOf(a) == Some(tab.id);
    TakenOver(l, owner, active, was, tab.id);
    NormalizedKeepsTabs(a, Ids(tabs), Some(tab.id));
    RequestedStaysActive(a, Ids(tabs), tab.id);
  }

  lemma TakenOver(
    l: PaneLayout, owner: map<TabId, PaneId>, active: map<PaneId, Option<TabId>>, was: TabId, id: TabId)
    requires was in l.owner && owner == (l.owner - {was})[id := PaneOf(l, was)]
    ensures var a := Activated(l.(owner := owner, active := active), id);
      forall t :: t != was && t != id && t in l.owner && HasPane(l, l.owner[t]) ==> PaneOf(a, t) == PaneOf(l, t)
  {
  }

  /** A tab that its focused pane shows and holds is still the active one after the repair. */
  lemma RequestedStaysActive(l: PaneLayout, ids: seq<TabId>, tab: TabId)
    requires Live(l) && Distinct(ids) && tab in ids && PaneOf(l, tab) == l.focused
    ensures ActiveOf(Normalized(l, ids, Some(tab))) == Some(tab)
  {
    RequestedEndsActive(l, ids, tab);
    PrunedReowned(l, ids);
    ReownedOwned(l, ids);
    var m := Reowned(l, ids);
    var k :| 0 <= k < |ids| && ids[k] == tab;
    assert PaneOf(m, ids[k]) == l.focused;
    assert Occupied(m, ids, m.focused);
  }

  lemma ActivatedNormalized(l: PaneLayout, ids: seq<TabId>, id: TabId)
    requires Live(l) && Distinct(ids) && id in ids
    ensures var r := Normalized(Activated(l, id), ids, Some(id));
      && ActiveOf(r) == Some(id)
      && forall t :: t in ids && t in l.owner && HasPane(l, l.owner[t]) ==> PaneOf(r, t) == PaneOf(l, t)
  {
    var a := Activated(l, id);
    assert Live(a) && PaneOf(a, id) == a.focused;
    RequestedStaysActive(a, ids, id);
    assert forall t :: t in ids ==> PaneOf(Normalized(a, ids, Some(id)), t) == PaneOf(a, t) by {
      NormalizedKeepsTabs(a, ids, Some(id));
    }
    assert forall t :: t in l.owner && HasPane(l, l.owner[t]) ==> PaneOf(a, t) == PaneOf(l, t);
  }

  /** Opening or showing a tab leaves it open and active, and closes nothing. */
  lemma ShowingTab(s: State, tab: Tab, replace: bool)
    requires Inv(s)
    ensures DoShow(s, tab, replace) == ShowTab(s, tab, replace)
    ensures tab.id in Ids(ShowTab(s, tab, replace).tabs) && ShowTab(s, tab, replace).activeTab == Some(tab.id)
    ensures forall t :: t in Ids(s.tabs) ==>
      t in Ids(ShowTab(s, tab, replace).tabs) && PaneOf(ShowTab(s, tab, replace).panes, t) == PaneOf(s.panes, t)
  {
    var patched := ShowTab(s, tab, replace);
    ShowTabRepairable(s, tab, replace);
    assert Inv(patched) by {
      ActivatedGrown(s.panes, tab.id);
      PaneStateInv(s, patched.tabs, Activated(s.panes, tab.id), Some(tab.id));
    }
    RepairedSettled(patched, s.activeTab);
    ActivatedNormalized(s.panes, Ids(patched.tabs), tab.id);
  }

  /** A feature that appends a tab and sets the flat active id gets that tab shown, in the focused pane. */
  lemma RawOpenShows(s: State, tabs: seq<Tab>, tab: TabId)
    requires Inv(s) && Distinct(Ids(tabs)) && tab in Ids(tabs) && s.activeTab != Some(tab)
    ensures DoRawWrite(s, tabs, Some(tab)).activeTab == Some(tab)
    ensures tab !in Ids(s.tabs) ==> PaneOf(DoRawWrite(s, tabs, Some(tab)).panes, tab) == s.panes.focused
  {
    forall p | HasPane(s.panes, p) && ActiveIn(s.panes, p) == Some(tab) ensures PaneOf(s.panes, tab) == p {
      assert ShowsOwn(s.panes, Ids(s.tabs), p);
    }
    RequestedEndsActiveWhenOwnShown(s.panes, Ids(tabs), tab);
    NormalizedKeepsTabs(s.panes, Ids(tabs), Some(tab));
  }
}
