/**
What the workspace actions do to the user's tabs: who is shown after tabs close, where a moved
tab lands, what cycling and swapping undo, and that unsaved work is never dropped unasked.
*/
module WorkspaceEffects {
  import opened Prelude
  import opened Panes
  import opened PaneSurgery
  import opened PaneNormalize
  import opened WorkspaceState
  import opened WorkspaceInvariant

  // ------------------------------------------------------------------ closing tabs

  /** Where `Successor` looks: left of `k` for the nearest tab that stays, else right of it. */
  ghost predicate Nearest(mine: seq<TabId>, k: nat, leaving: set<TabId>, r: Option<TabId>)
    requires k < |mine|
  {
    match r
    case None => forall j :: 0 <= j < |mine| && j != k ==> mine[j] in leaving
    case Some(x) =>
      || (exists j :: 0 <= j < k && mine[j] == x && x !in leaving && forall i :: j < i < k ==> mine[i] in leaving)
      || ((forall i :: 0 <= i < k ==> mine[i] in leaving)
          && exists j :: k < j < |mine| && mine[j] == x && x !in leaving && forall i ::
            k < i < j ==> mine[i] in leaving)
  }

  lemma {:induction false} NearestLeftIs(s: seq<TabId>, leaving: set<TabId>)
    ensures NearestLeft(s, leaving).None? ==> forall j :: 0 <= j < |s| ==> s[j] in leaving
    ensures NearestLeft(s, leaving).Some? ==>
      exists j :: 0 <= j < |s| && s[j] == NearestLeft(s, leaving).value && s[j] !in leaving && forall i ::
        j < i < |s| ==> s[i] in leaving
  {
    if s != [] && Last(s) in leaving {
      NearestLeftIs(s[..|s| - 1], leaving);
    }
  }

  lemma {:induction false} NearestRightIs(s: seq<TabId>, leaving: set<TabId>)
    ensures NearestRight(s, leaving).None? ==> forall j :: 0 <= j < |s| ==> s[j] in leaving
    ensures NearestRight(s, leaving).Some? ==>
      exists j :: 0 <= j < |s| && s[j] == NearestRight(s, leaving).value && s[j] !in leaving && forall i ::
        0 <= i < j ==> s[i] in leaving
  {
    if s != [] && s[0] in leaving {
      NearestRightIs(s[1..], leaving);
      var rest := NearestRight(s[1..], leaving);
      if rest.Some? {
        var j :| 0 <= j < |s| - 1 && s[1..][j] == rest.value && s[1..][j] !in leaving && forall i ::
          0 <= i < j ==> s[1..][i] in leaving;
        forall i | 0 <= i < j + 1 ensures s[i] in leaving {
          if i > 0 {
            assert s[i] == s[1..][i - 1];
          }
        }
        assert s[j + 1] == rest.value;
      }
    }
  }

  /** The strip hands over to the nearest tab that stays: on the left if there is one, else on the right. */
  lemma SuccessorIsNearest(mine: seq<TabId>, current: TabId, leaving: set<TabId>)
    requires current in mine
    ensures Nearest(mine, IndexOf(mine, current), leaving, Successor(mine, current, leaving))
  {
    var k := IndexOf(mine, current);
    var u, v := mine[..k], mine[k + 1..];
    NearestLeftIs(u, leaving);
    NearestRightIs(v, leaving);
    assert forall j :: 0 <= j < k ==> mine[j] == u[j];
    assert forall j :: k < j < |mine| ==> mine[j] == v[j - k - 1];
    var r := Successor(mine, current, leaving);
    if r.Some? && NearestLeft(u, leaving).None? {
      var j :| 0 <= j < |v| && v[j] == r.value && v[j] !in leaving && forall i :: 0 <= i < j ==> v[i] in leaving;
      assert mine[j + k + 1] == r.value;
    }
  }

  lemma SuccessorStays(mine: seq<TabId>, current: TabId, leaving: set<TabId>)
    requires current in mine && current in leaving
    ensures Successor(mine, current, leaving).Some? ==>
      Successor(mine, current, leaving).value in mine && Successor(mine, current, leaving).value !in leaving
    ensures Successor(mine, current, leaving).None? ==> forall t :: t in mine ==> t in leaving
  {
    SuccessorIsNearest(mine, current, leaving);
  }

  /** A strip after tabs went and nobody else moved: the old strip without them. */
  lemma StripWithout(l: PaneLayout, r: PaneLayout, ids: seq<TabId>, gone: set<TabId>, pane: PaneId)
    requires forall t :: t in ids && t !in gone ==> PaneOf(r, t) == PaneOf(l, t)
    ensures Strip(r, Minus(ids, gone), pane) == Minus(Strip(l, ids, pane), gone)
  {
    var rest := Minus(ids, gone);
    var a, b := Residents(l, ids, pane), Residents(r, rest, pane);
    MinusElems(ids, gone);
    StripElems(l, ids, pane);
    var keep := Elems(Only(ids, a)) - gone;
    OnlyOnly(ids, Elems(ids) - gone, b);
    OnlyOnly(ids, a, keep);
    OnlyCongruent(ids, (Elems(ids) - gone) * b, a * keep);
  }

  lemma HandedOffKeepsTabs(l: PaneLayout, ids: seq<TabId>, leaving: set<TabId>)
    ensures forall t :: PaneOf(HandedOff(l, ids, leaving), t) == PaneOf(l, t)
    ensures forall p ::
      HasPane(l, p) && p in l.active ==> ActiveIn(HandedOff(l, ids, leaving), p) == HandedTo(l, ids, leaving, p)
  {
  }

  /** What the pane shows once the tabs of `gone` are closed, when some of its own tabs stay. */
  lemma HandedToStays(l: PaneLayout, ids: seq<TabId>, gone: set<TabId>, pane: PaneId)
    requires Consistent(l, ids) && HasPane(l, pane)
    ensures Minus(Strip(l, ids, pane), gone) != [] ==>
      HandedTo(l, ids, gone, pane).Some? && HandedTo(l, ids, gone, pane).value in Minus(Strip(l, ids, pane), gone)
    ensures Minus(Strip(l, ids, pane), gone) == [] ==> HandedTo(l, ids, gone, pane).None?
  {
    var mine := Strip(l, ids, pane);
    StripElems(l, ids, pane);
    MinusElems(mine, gone);
    var current := l.active[pane];
    assert ShowsOwn(l, ids, pane);
    if current.Some? {
      if current.value in gone {
        SuccessorStays(mine, current.value, gone);
        if Minus(mine, gone) != [] {
          assert Minus(mine, gone)[0] in Minus(mine, gone);
        }
      }
    } else {
      assert mine == [];
    }
  }

  /**
   Closing tabs. The survivors keep their order and their panes, so each strip is the old one
   without the closed tabs; a pane that keeps a tab stays and shows what it showed if that
   survives, else the nearest survivor of its own strip.
   */
  lemma ClosingTabs(s: State, gone: set<TabId>)
    requires Inv(s)
    ensures var r := AfterRemoval(s, gone);
      && Ids(r.tabs) == Minus(Ids(s.tabs), gone)
      && (forall t :: t in Ids(r.tabs) ==> PaneOf(r.panes, t) == PaneOf(s.panes, t))
      && (forall p :: Strip(r.panes, Ids(r.tabs), p) == Minus(Strip(s.panes, Ids(s.tabs), p), gone))
      && PaneIds(r.panes.root) == Only(PaneIds(s.panes.root), Elems(PaneIds(r.panes.root)))
      && (forall p :: HasPane(s.panes, p) && Minus(Strip(s.panes, Ids(s.tabs), p), gone) != [] ==>
            HasPane(r.panes, p) && ActiveIn(r.panes, p) == HandedTo(s.panes, Ids(s.tabs), gone, p))
      && (forall p ::
        HasPane(r.panes, p) ==> PaneCount(r.panes) == 1 || Minus(Strip(s.panes, Ids(s.tabs), p), gone) != [])
  {
    var l, ids := s.panes, Ids(s.tabs);
    var rest := Ids(Staying(s.tabs, gone));
    var handed := HandedOff(l, ids, gone);
    var r := AfterRemoval(s, gone);
    IdsOfStaying(s.tabs, gone);
    HandedOffKeepsTabs(l, ids, gone);
    NormalizedKeepsTabs(handed, rest, None);
    MinusElems(ids, gone);
    forall p ensures Strip(r.panes, rest, p) == Minus(Strip(l, ids, p), gone) {
      StripWithout(l, r.panes, ids, gone, p);
    }
    forall p ensures Occupied(handed, rest, p) <==> Minus(Strip(l, ids, p), gone) != [] {
      StripWithout(l, handed, ids, gone, p);
      StripElems(handed, rest, p);
    }
    forall p | HasPane(l, p) && Minus(Strip(l, ids, p), gone) != []
      ensures HasPane(r.panes, p) && ActiveIn(r.panes, p) == HandedTo(l, ids, gone, p) {
      HandedToStays(l, ids, gone, p);
      StripWithout(l, handed, ids, gone, p);
      StripElems(handed, rest, p);
      NormalizedKeepsShown(handed, rest, None, p);
    }
  }

  /** The store's own removal leaves nothing for the subscriber to repair. */
  lemma ClosingTabsSettled(s: State, gone: set<TabId>, declined: set<ConnectionId>)
    requires Inv(s)
    ensures Remove(s, gone, declined) == RemoveTabs(s, gone, declined)
  {
    if TabsIn(s.tabs, gone) != [] && !Refused(s.tabs, gone, declined) {
      IdsOfStaying(s.tabs, gone);
      MinusElems(Ids(s.tabs), gone);
      PaneStateInv(s, Staying(s.tabs, gone), HandedOff(s.panes, Ids(s.tabs), gone), None);
      RepairedSettled(RemoveTabs(s, gone, declined), s.activeTab);
    }
  }

  // ------------------------------------------------------------------ moving a tab

  /** The id list `placeTab` leaves, read off the list without the moved tab. */
  lemma PlacedIds(tabs: seq<Tab>, l: PaneLayout, tab: TabId, pane: PaneId, before: Option<TabId>)
    requires Distinct(Ids(tabs)) && tab in Ids(tabs) && before != Some(tab)
    requires before.Some? ==> before.value in Ids(tabs)
    ensures var rest := Minus(Ids(tabs), {tab});
      var at := if before.None? then AfterLast(rest, Residents(l, rest, pane)) else IndexOf(rest, before.value);
      0 <= at <= |rest| && Ids(Placed(tabs, l, tab, pane, before)) == InsertAt(rest, at, tab)
  {
    var rest := Staying(tabs, {tab});
    IdsOfStaying(tabs, {tab});
    MinusElems(Ids(tabs), {tab});
    var from := IndexOf(Ids(tabs), tab);
    var ids := Ids(rest);
    var at := if before.None? then AfterLast(ids, Residents(l, ids, pane)) else IndexOf(ids, before.value);
    IdsOfInsertAt(rest, at, tabs[from]);
  }

  lemma OnlyInsertAt(rest: seq<TabId>, at: nat, tab: TabId, keep: set<TabId>)
    requires at <= |rest|
    ensures Only(InsertAt(rest, at, tab), keep) ==
      Only(rest[..at], keep) + (if tab in keep then [tab] else []) + Only(rest[at..], keep)
  {
    OnlyConcat(rest[..at] + [tab], rest[at..], keep);
    OnlyConcat(rest[..at], [tab], keep);
    assert [tab][1..] == [];
    assert Only([tab][1..], keep) == [];
  }

  lemma {:induction false} OnlyIndex(rest: seq<TabId>, x: TabId, keep: set<TabId>)
    requires x in rest && x in keep
    ensures IndexOf(Only(rest, keep), x) == |Only(rest[..IndexOf(rest, x)], keep)|
  {
    if rest[0] != x {
      var at := IndexOf(rest[1..], x);
      OnlyIndex(rest[1..], x, keep);
      var head := rest[..at + 1];
      assert head[0] == rest[0] && head[1..] == rest[1..][..at];
    } else {
      assert rest[..0] == [];
    }
  }

  /** Where in a strip a tab dropped before `before` goes: before it, or at the end. */
  function LandsAt(strip: seq<TabId>, before: Option<TabId>): (at: nat)
    ensures at <= |strip|
  {
    if before.None? || IndexOf(strip, before.value) < 0 then |strip| else IndexOf(strip, before.value)
  }

  /** A strip after one tab was taken out of the flat list and put back at `at`. */
  lemma InsertedStrip(l: PaneLayout, r: PaneLayout, ids: seq<TabId>, tab: TabId, at: nat, pane: PaneId)
    requires at <= |Minus(ids, {tab})|
    requires forall t :: t in ids && t != tab ==> PaneOf(r, t) == PaneOf(l, t)
    ensures var rest := Minus(ids, {tab});
      var keep := Residents(r, rest, pane);
      && Strip(r, InsertAt(rest, at, tab), pane) ==
           Only(rest[..at], keep) + (if PaneOf(r, tab) == pane then [tab] else []) + Only(rest[at..], keep)
      && Minus(Strip(l, ids, pane), {tab}) == Only(rest[..at], keep) + Only(rest[at..], keep) == Only(rest, keep)
  {
    var rest := Minus(ids, {tab});
    var keep, wide := Residents(r, rest, pane), Residents(r, InsertAt(rest, at, tab), pane);
    MinusElems(ids, {tab});
    InsertAtElems(rest, at, tab);
    OnlyInsertAt(rest, at, tab, wide);
    assert rest == rest[..at] + rest[at..];
    assert forall x :: x in rest <==> x in rest[..at] || x in rest[at..];
    OnlyConcat(rest[..at], rest[at..], keep);
    OnlyCongruent(rest[..at], wide, keep);
    OnlyCongruent(rest[at..], wide, keep);
    StripWithout(l, r, ids, {tab}, pane);
  }

  /** No resident stands past the last resident. */
  lemma NoneAfterLast(rest: seq<TabId>, group: set<TabId>)
    ensures Only(rest[AfterLast(rest, group)..], group) == []
  {
    var at := AfterLast(rest, group);
    OnlyElems(rest[at..], group);
    if Only(rest[at..], group) != [] {
      assert Only(rest[at..], group)[0] in rest[at..];
    }
  }

  /** The target strip is the old strip without the tab, with the tab put in before `before` or at the end. */
  lemma PlacedStrip(tabs: seq<Tab>, l: PaneLayout, r: PaneLayout, tab: TabId, pane: PaneId, before: Option<TabId>)
    requires Distinct(Ids(tabs)) && tab in Ids(tabs) && before != Some(tab)
    requires before.Some? ==> before.value in Strip(l, Ids(tabs), pane)
    requires PaneOf(r, tab) == pane
    requires forall t :: t in Ids(tabs) && t != tab ==> PaneOf(r, t) == PaneOf(l, t)
    ensures var left := Minus(Strip(l, Ids(tabs), pane), {tab});
      Strip(r, Ids(Placed(tabs, l, tab, pane, before)), pane) == InsertAt(left, LandsAt(left, before), tab)
  {
    var ids := Ids(tabs);
    var rest := Minus(ids, {tab});
    StripElems(l, ids, pane);
    PlacedIds(tabs, l, tab, pane, before);
    MinusElems(ids, {tab});
    var at := if before.None? then AfterLast(rest, Residents(l, rest, pane)) else IndexOf(rest, before.value);
    InsertedStrip(l, r, ids, tab, at, pane);
    var keep := Residents(r, rest, pane);
    var u, v := Only(rest[..at], keep), Only(rest[at..], keep);
    if before.None? {
      assert keep == Residents(l, rest, pane);
      NoneAfterLast(rest, keep);
      LandsAtEnd(u, v, tab);
    } else {
      OnlyIndex(rest, before.value, keep);
      LandsBetween(u, v, tab);
    }
  }

  lemma LandsAtEnd(u: seq<TabId>, v: seq<TabId>, tab: TabId)
    requires v == []
    ensures u + [tab] + v == InsertAt(u + v, |u + v|, tab)
  {
  }

  lemma LandsBetween(u: seq<TabId>, v: seq<TabId>, tab: TabId)
    ensures u + [tab] + v == InsertAt(u + v, |u|, tab)
  {
  }

  /** Every other strip only loses the tab. */
  lemma PlacedOtherStrip(tabs: seq<Tab>, l: PaneLayout, r: PaneLayout, tab: TabId, pane: PaneId, before: Option<TabId>,
    other: PaneId)
    requires Distinct(Ids(tabs)) && tab in Ids(tabs) && before != Some(tab)
    requires before.Some? ==> before.value in Ids(tabs)
    requires PaneOf(r, tab) == pane && other != pane
    requires forall t :: t in Ids(tabs) && t != tab ==> PaneOf(r, t) == PaneOf(l, t)
    ensures Strip(r, Ids(Placed(tabs, l, tab, pane, before)), other) == Minus(Strip(l, Ids(tabs), other), {tab})
  {
    var rest := Minus(Ids(tabs), {tab});
    PlacedIds(tabs, l, tab, pane, before);
    var at := if before.None? then AfterLast(rest, Residents(l, rest, pane)) else IndexOf(rest, before.value);
    InsertedStrip(l, r, Ids(tabs), tab, at, other);
  }

  /**
   Moving a tab into a strip before `before`: the target strip gets it exactly there and shows
   it if it came from elsewhere, every other strip only loses it, and the other tabs stay put.
   */
  lemma MovingTab(s: State, tab: TabId, pane: PaneId, before: Option<TabId>)
    requires Inv(s) && tab in Ids(s.tabs) && HasPane(s.panes, pane) && before != Some(tab)
    requires before.Some? ==> before.value in Strip(s.panes, Ids(s.tabs), pane)
    ensures var r := MoveTabPatch(s, tab, pane, before);
      var left := Minus(Strip(s.panes, Ids(s.tabs), pane), {tab});
      && Strip(r.panes, Ids(r.tabs), pane) == InsertAt(left, LandsAt(left, before), tab)
      && (forall p :: p != pane ==> Strip(r.panes, Ids(r.tabs), p) == Minus(Strip(s.panes, Ids(s.tabs), p), {tab}))
      && HasPane(r.panes, pane)
      && (PaneOf(s.panes, tab) == pane ==> r.panes == s.panes)
      && (PaneOf(s.panes, tab) != pane ==> r.activeTab == Some(tab) && r.panes.focused == pane)
  {
    var l, ids := s.panes, Ids(s.tabs);
    var r := MoveTabPatch(s, tab, pane, before);
    StripElems(l, ids, pane);
    IdsOfPlaced(s.tabs, l, tab, pane, before);
    if PaneOf(l, tab) != pane {
      MovingAcross(s, tab, pane, before);
    }
    PlacedStrip(s.tabs, l, r.panes, tab, pane, before);
    forall p | p != pane ensures Strip(r.panes, Ids(r.tabs), p) == Minus(Strip(l, ids, p), {tab}) {
      PlacedOtherStrip(s.tabs, l, r.panes, tab, pane, before, p);
    }
  }

  lemma MovingAcross(s: State, tab: TabId, pane: PaneId, before: Option<TabId>)
    requires Inv(s) && tab in Ids(s.tabs) && HasPane(s.panes, pane) && PaneOf(s.panes, tab) != pane
    ensures var r := MoveTabPatch(s, tab, pane, before);
      && PaneOf(r.panes, tab) == pane && HasPane(r.panes, pane)
      && (forall t :: t in Ids(s.tabs) && t != tab ==> PaneOf(r.panes, t) == PaneOf(s.panes, t))
      && r.activeTab == Some(tab) && r.panes.focused == pane
  {
    var l, ids := s.panes, Ids(s.tabs);
    var placed := Ids(Placed(s.tabs, l, tab, pane, before));
    var moved := MovedToPane(HandedOff(l, ids, {tab}), tab, pane);
    IdsOfPlaced(s.tabs, l, tab, pane, before);
    assert PaneOf(moved, tab) == pane && moved.focused == pane && ActiveIn(moved, pane) == Some(tab) && Live(moved);
    assert forall t :: t in ids && t != tab ==> PaneOf(moved, t) == PaneOf(l, t) by {
      HandedOffKeepsTabs(l, ids, {tab});
    }
    FocusedTabStays(moved, placed, tab);
  }

  /**
  A layout whose focused pane shows and holds a tab: a repair that asks for nothing keeps the focus, what it
  shows, and every tab's pane.
  */
  lemma FocusedTabStays(l: PaneLayout, ids: seq<TabId>, tab: TabId)
    requires Live(l) && Distinct(ids) && tab in ids && PaneOf(l, tab) == l.focused &&
      ActiveIn(l, l.focused) == Some(tab)
    ensures var r := Normalized(l, ids, None);
      && r.focused == l.focused && HasPane(r, l.focused) && ActiveOf(r) == Some(tab)
      && forall t :: t in ids ==> PaneOf(r, t) == PaneOf(l, t)
  {
    assert Occupied(l, ids, l.focused) by {
      var k :| 0 <= k < |ids| && ids[k] == tab;
      assert PaneOf(l, ids[k]) == l.focused;
    }
    NormalizedKeepsFocus(l, ids);
    NormalizedKeepsShown(l, ids, None, l.focused);
    NormalizedKeepsTabs(l, ids, None);
  }

  /** A focused pane that holds a tab keeps the focus through a repair that asks for nothing. */
  lemma NormalizedKeepsFocus(l: PaneLayout, ids: seq<TabId>)
    requires Live(l) && Distinct(ids) && Occupied(l, ids, l.focused)
    ensures Normalized(l, ids, None).focused == l.focused
  {
    PrunedReowned(l, ids);
    ReownedOwned(l, ids);
    SameStrip(l, Reowned(l, ids), ids, l.focused);
  }
}
