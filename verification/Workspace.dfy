/**
The workspace store itself: an object whose actions write its fields and whose subscriber
repairs them. Every method is tied to the state functions, so what is proved about those holds
of the object.
*/
module Workspace {
  import opened Prelude
  import opened Panes
  import opened PaneSurgery
  import opened PaneNormalize
  import opened PaneSettling
  import opened WorkspaceState
  import opened WorkspaceInvariant

  // ------------------------------------------------------------------ the loops behind the patches

  /** `handOffActive`: one pass over the panes, rewriting what the affected ones show. */
  method HandOffActive(l: PaneLayout, ids: seq<TabId>, leaving: set<TabId>) returns (r: PaneLayout)
    ensures r == HandedOff(l, ids, leaving)
  {
    var active := l.active;
    var changed := false;
    var order := PaneIds(l.root);
    for i := 0 to |order|
      invariant active.Keys == l.active.Keys
      invariant forall p ::
        p in l.active ==> active[p] == if p in order[..i] then HandedTo(l, ids, leaving, p) else l.active[p]
      invariant !changed ==> active == l.active
    {
      var pane := order[i];
      var current := ActiveIn(l, pane);
      assert order[..i + 1] == order[..i] + [pane];
      if current.Some? && current.value in leaving {
        active := active[pane := Successor(Strip(l, ids, pane), current.value, leaving)];
        changed := true;
      }
    }
    assert order[..|order|] == order;
    r := if changed then l.(active := active) else l;
    assert active == HandedOff(l, ids, leaving).active;
  }

  /** The place of a new tab in the flat list, found by one pass over it. */
  method InsertionPoint(tabs: seq<Tab>, panes: PaneLayout, tab: Tab) returns (at: nat)
    requires Distinct(Ids(tabs))
    ensures at <= |tabs| && WithTab(tabs, panes, tab) == InsertAt(tabs, at, tab)
  {
    var last := -1;
    if tab.connection.Some? {
      var connection := tab.connection.value;
      for i := 0 to |tabs|
        invariant -1 <= last < i
        invariant last >= 0 ==> IsKin(panes, connection, tabs[last])
        invariant forall k :: last < k < i ==> !IsKin(panes, connection, tabs[k])
      {
        if IsKin(panes, connection, tabs[i]) {
          last := i;
        }
      }
      LastKinIs(tabs, panes, connection, last);
    }
    at := if last < 0 then |tabs| else last + 1;
  }

  /** The last member of a list is the one nothing in the group follows. */
  lemma {:induction false} LastInIs(s: seq<TabId>, group: set<TabId>, last: int)
    requires -1 <= last < |s|
    requires last >= 0 ==> s[last] in group
    requires forall k :: last < k < |s| ==> s[k] !in group
    ensures LastIn(s, group) == last
  {
    var at := LastIn(s, group);
  }

  lemma KinAt(tabs: seq<Tab>, panes: PaneLayout, connection: ConnectionId, k: nat)
    requires Distinct(Ids(tabs)) && k < |tabs|
    ensures Ids(tabs)[k] in Kin(tabs, panes, connection) <==> IsKin(panes, connection, tabs[k])
  {
    if Ids(tabs)[k] in Kin(tabs, panes, connection) {
      var j :| 0 <= j < |tabs| && IsKin(panes, connection, tabs[j]) && tabs[j].id == tabs[k].id;
      if j < k {
        DistinctAt(Ids(tabs), j, k);
      } else if k < j {
        DistinctAt(Ids(tabs), k, j);
      }
    }
  }

  lemma LastKinIs(tabs: seq<Tab>, panes: PaneLayout, connection: ConnectionId, last: int)
    requires Distinct(Ids(tabs)) && -1 <= last < |tabs|
    requires last >= 0 ==> IsKin(panes, connection, tabs[last])
    requires forall k :: last < k < |tabs| ==> !IsKin(panes, connection, tabs[k])
    ensures LastIn(Ids(tabs), Kin(tabs, panes, connection)) == last
  {
    forall k | last <= k < |tabs| && 0 <= k
      ensures Ids(tabs)[k] in Kin(tabs, panes, connection) <==> IsKin(panes, connection, tabs[k])
    {
      KinAt(tabs, panes, connection, k);
    }
    LastInIs(Ids(tabs), Kin(tabs, panes, connection), last);
  }

  /** `paneState`: the layout repaired for a tab list, with the two ids read off it. */
  method PaneStateOf(s: State, tabs: seq<Tab>, panes: PaneLayout, requested: Option<TabId>) returns (r: State)
    ensures r == PaneState(s, tabs, panes, requested)
  {
    var fixed, _ := Normalize(panes, Ids(tabs), requested);
    r := s.(tabs := tabs, panes := fixed, activeTab := ActiveOf(fixed), splitTab := SideTabOf(fixed));
  }

  /** What the subscriber would write, and whether it writes at all. */
  method Repair(s: State, wasActive: Option<TabId>) returns (r: State, needed: bool)
    ensures r == Repaired(s, wasActive)
    ensures needed <==> NeedsRepair(s, wasActive)
    ensures !needed ==> r == s
  {
    var ids := Ids(s.tabs);
    var requested := if s.activeTab != wasActive then s.activeTab else None;
    var fixed, changed := Normalize(s.panes, ids, requested);
    var previewGone := s.preview.Some? && s.preview.value !in ids;
    var dirtyGone := exists d :: d in s.dirty && d !in ids;
    var kept := set d | d in s.dirty && d in ids;
    assert !dirtyGone ==> kept == s.dirty;
    needed := changed || ActiveOf(fixed) != s.activeTab || SideTabOf(fixed) != s.splitTab || previewGone || dirtyGone;
    r := s.(panes := fixed, activeTab := ActiveOf(fixed), splitTab := SideTabOf(fixed),
            preview := if previewGone then None else s.preview, dirty := kept);
  }

  lemma QuietIsSame(s: State, wasActive: Option<TabId>)
    ensures !NeedsRepair(s, wasActive) ==> Repaired(s, wasActive) == s
  {
    var ids := Ids(s.tabs);
    if !NeedsRepair(s, wasActive) {
      var requested := if s.activeTab != wasActive then s.activeTab else None;
      KeptIsSame(s.panes, ids, requested);
      assert (set d | d in s.dirty && d in ids) == s.dirty;
    }
  }

  // ------------------------------------------------------------------ the store

  class Store {
    var tabs: seq<Tab>
    var panes: PaneLayout
    var activeTab: Option<TabId>
    var splitTab: Option<TabId>
    var preview: Option<TabId>
    var dirty: set<TabId>
    var closed: seq<Tab>
    var request: Option<CloseRequest>

    function Snapshot(): State
      reads this
    {
      State(tabs, panes, activeTab, splitTab, preview, dirty, closed, request)
    }

    ghost predicate Valid()
      reads this
    {
      Inv(Snapshot())
    }

    constructor ()
      ensures Valid() && Snapshot() == Initial()
    {
      tabs, panes, activeTab, splitTab := [], InitialPanes(), None, None;
      preview, dirty, closed, request := None, {}, [], None;
      new;
      InitialInv();
    }

    method Assign(s: State)
      modifies this
      ensures Snapshot() == s
    {
      tabs, panes, activeTab, splitTab := s.tabs, s.panes, s.activeTab, s.splitTab;
      preview, dirty, closed, request := s.preview, s.dirty, s.closed, s.request;
    }

    /** The subscriber, told which tab was active before the write. It writes only when something needs it. */
    method Notify(wasActive: Option<TabId>) returns (wrote: bool)
      modifies this
      ensures Snapshot() == Repaired(old(Snapshot()), wasActive)
      ensures wrote <==> NeedsRepair(old(Snapshot()), wasActive)
    {
      var fixed, needed := Repair(Snapshot(), wasActive);
      if needed {
        Assign(fixed);
      }
      wrote := needed;
    }

    /** One `set`: the write, the subscriber, and the subscriber told of its own write, which finds nothing to do. */
    method Write(next: State)
      requires Repairable(next)
      modifies this
      ensures Valid() && Snapshot() == Set(old(Snapshot()), next)
    {
      var wasActive := activeTab;
      Assign(next);
      RepairedInv(next, wasActive);
      var wrote := Notify(wasActive);
      if wrote {
        SubscriberSettles(next, wasActive);
        RepairedSettled(Repaired(next, wasActive), next.activeTab);
        var again := Notify(next.activeTab);
        assert !again;
      }
    }

    // -------------------------------------------------------------- opening and showing

    /** Every "open" action but the table's: the tab is added or brought to the front. */
    method Open(tab: Tab, replace: bool)
      requires Valid()
      modifies this
      ensures Valid() && Snapshot() == DoShow(old(Snapshot()), tab, replace)
    {
      var s := Snapshot();
      var list := s.tabs;
      if tab.id !in Ids(s.tabs) {
        var at := InsertionPoint(s.tabs, s.panes, tab);
        list := InsertAt(s.tabs, at, tab);
      } else if replace {
        list := Replaced(s.tabs, tab.id, tab);
      }
      var patch := PaneStateOf(s, list, Activated(s.panes, tab.id), Some(tab.id));
      ShowTabRepairable(s, tab, replace);
      Write(patch);
    }

    method OpenTable(tab: Tab, reuse: bool, doubleClick: bool)
      requires Valid()
      modifies this
      ensures Valid() && Snapshot() == Set(old(Snapshot()), OpenTablePatch(old(Snapshot()), tab, reuse, doubleClick))
    {
      OpenTableRepairable(Snapshot(), tab, reuse, doubleClick);
      Write(OpenTablePatch(Snapshot(), tab, reuse, doubleClick));
    }

    method ActivateTab(id: TabId)
      requires Valid()
      modifies this
      ensures Valid() && Snapshot() == DoActivate(old(Snapshot()), id)
    {
      var s := Snapshot();
      var patch := PaneStateOf(s, s.tabs, Activated(s.panes, id), Some(id));
      ActivateRepairable(s, id);
      Write(patch);
    }

    method CycleTab(forward: bool)
      requires Valid()
      modifies this
      ensures Valid() && Snapshot() == DoCycle(old(Snapshot()), forward)
    {
      var target := CycleTarget(Snapshot(), forward);
      if target.Some? {
        ActivateTab(target.value);
      }
    }

    // -------------------------------------------------------------- closing

    method RemoveTabs(gone: set<TabId>, declined: set<ConnectionId>)
      requires Valid()
      modifies this
      ensures Valid() && Snapshot() == Remove(old(Snapshot()), gone, declined)
    {
      var s := Snapshot();
      var leaving := TabsIn(s.tabs, gone);
      if leaving == [] || Refused(s.tabs, gone, declined) {
        return;
      }
      var handed := HandOffActive(s.panes, Ids(s.tabs), gone);
      var patch := PaneStateOf(s, Staying(s.tabs, gone), handed, None);
      AfterRemovalRepairable(s, gone);
      Write(patch.(
        preview := if s.preview.Some? && s.preview.value in gone then None else s.preview,
        dirty := s.dirty - gone,
        closed := PushClosed(s.closed, leaving)));
    }

    /** Closing from the interface asks first when unsaved work is among the tabs. */
    method RequestCloseTabs(ids: set<TabId>, declined: set<ConnectionId>)
      requires Valid()
      modifies this
      ensures Valid()
      ensures ids * old(dirty) == {} ==> Snapshot() == Remove(old(Snapshot()), ids, declined)
      ensures ids * old(dirty) != {} ==>
        Snapshot() == old(Snapshot()).(request := Some(CloseRequest(ids, ids * old(dirty))))
    {
      if ids * dirty == {} {
        RemoveTabs(ids, declined);
      } else {
        var next := Snapshot().(request := Some(CloseRequest(ids, ids * dirty)));
        RepairedSettled(next, activeTab);
        Write(next);
      }
    }

    method ResolveCloseRequest(close: bool, declined: set<ConnectionId>)
      requires Valid()
      modifies this
      ensures Valid()
      ensures var answered := old(Snapshot()).(request := None);
        Snapshot() == if close && old(request).Some? then Remove(answered, old(request).value.ids, declined)
          else answered
    {
      var asked := request;
      var next := Snapshot().(request := None);
      RepairedSettled(next, activeTab);
      Write(next);
      if close && asked.Some? {
        RemoveTabs(asked.value.ids, declined);
      }
    }

    // -------------------------------------------------------------- panes

    method MoveTab(tab: TabId, pane: PaneId, before: Option<TabId>)
      requires Valid()
      modifies this
      ensures Valid() && Snapshot() == Set(old(Snapshot()), MoveTabPatch(old(Snapshot()), tab, pane, before))
    {
      var s := Snapshot();
      MoveTabRepairable(s, tab, pane, before);
      if tab !in Ids(s.tabs) || !HasPane(s.panes, pane) {
        Write(s);
      } else {
        var list := Placed(s.tabs, s.panes, tab, pane, before);
        if PaneOf(s.panes, tab) == pane {
          Write(s.(tabs := list));
        } else {
          var handed := HandOffActive(s.panes, Ids(s.tabs), {tab});
          var patch := PaneStateOf(s, list, MovedToPane(handed, tab, pane), None);
          Write(patch);
        }
      }
    }

    method SplitPane(pane: PaneId, zone: DropZone, tab: TabId)
      requires Valid()
      modifies this
      ensures Valid() && Snapshot() == Set(old(Snapshot()), SplitPanePatch(old(Snapshot()), pane, zone, tab))
    {
      SplitPaneRepairable(Snapshot(), pane, zone, tab);
      Write(SplitPanePatch(Snapshot(), pane, zone, tab));
    }

    method DropTab(tab: TabId, pane: PaneId, zone: DropZone)
      requires Valid()
      modifies this
      ensures Valid() && Snapshot() == Set(old(Snapshot()), DropTabPatch(old(Snapshot()), tab, pane, zone))
    {
      DropTabRepairable(Snapshot(), tab, pane, zone);
      Write(DropTabPatch(Snapshot(), tab, pane, zone));
    }

    method ClosePane(pane: PaneId)
      requires Valid()
      modifies this
      ensures Valid() &&
        Snapshot() == Set(old(Snapshot()), PaneState(old(Snapshot()), old(tabs), Closed(old(panes), pane), None))
    {
      var s := Snapshot();
      var rest := Panes.ClosePane(s.panes, pane);
      var patch := PaneStateOf(s, s.tabs, rest, None);
      ClosedRepairable(s, pane);
      Write(patch);
    }

    method CloseSplit()
      requires Valid()
      modifies this
      ensures Valid() && Snapshot() == Set(old(Snapshot()), CloseSplitPatch(old(Snapshot())))
    {
      CloseSplitRepairable(Snapshot());
      Write(CloseSplitPatch(Snapshot()));
    }

    method SwapSplit()
      requires Valid()
      modifies this
      ensures Valid() && Snapshot() == Set(old(Snapshot()), SwapSplitPatch(old(Snapshot())))
    {
      SwapSplitRepairable(Snapshot());
      Write(SwapSplitPatch(Snapshot()));
    }

    method OpenToSide(id: TabId)
      requires Valid()
      modifies this
      ensures Valid()
      ensures Snapshot() == if id !in Ids(old(tabs)) then old(Snapshot())
        else Set(old(Snapshot()), OpenToSidePatch(old(Snapshot()), id))
    {
      if id !in Ids(tabs) {
        return;
      }
      var from := PaneOf(panes, id);
      var neighbour := OpenToSideTarget(panes, from);
      if neighbour.Some? {
        MoveTab(id, neighbour.value, None);
      } else {
        SplitPane(from, Right, id);
      }
    }

    method FocusPane(pane: PaneId)
      requires Valid()
      modifies this
      ensures Valid() &&
        Snapshot() == Set(old(Snapshot()), PaneState(old(Snapshot()), old(tabs), Focused(old(panes), pane), None))
    {
      var s := Snapshot();
      var patch := PaneStateOf(s, s.tabs, Focused(s.panes, pane), None);
      PaneStateInv(s, s.tabs, Focused(s.panes, pane), None);
      Write(patch);
    }

    method ResizeSplit(split: PaneId, ratio: Number)
      requires Valid()
      modifies this
      ensures Valid() &&
        Snapshot() == Set(old(Snapshot()), old(Snapshot()).(panes := Resized(old(panes), split, ratio)))
    {
      ResizedGrown(panes, split, ratio);
      Write(Snapshot().(panes := Resized(panes, split, ratio)));
    }

    // -------------------------------------------------------------- flags and other features

    method PromoteTab(id: TabId)
      requires Valid()
      modifies this
      ensures Valid() &&
        Snapshot() == old(Snapshot()).(preview := if old(preview) == Some(id) then None else old(preview))
    {
      var next := Snapshot().(preview := if preview == Some(id) then None else preview);
      RepairedSettled(next, activeTab);
      Write(next);
    }

    method SetTabDirty(id: TabId, unsaved: bool)
      requires Valid()
      modifies this
      ensures Valid() && Snapshot() == Set(old(Snapshot()), SetDirtyPatch(old(Snapshot()), id, unsaved))
    {
      Write(SetDirtyPatch(Snapshot(), id, unsaved));
    }

    /** A connection goes away, or changes database: its tabs of these kinds go too. */
    method DropConnection(connection: ConnectionId, kinds: set<TabKind>)
      requires Valid()
      modifies this
      ensures Valid()
      ensures Snapshot() ==
        Set(old(Snapshot()), AfterRemoval(old(Snapshot()), OnConnection(old(tabs), connection, kinds)))
    {
      var s := Snapshot();
      var gone := OnConnection(s.tabs, connection, kinds);
      AfterRemovalRepairable(s, gone);
      Write(AfterRemoval(s, gone));
    }

    /**
    Another feature writes any tab list and active id, and the subscriber does the rest, told of its
    own write once. `settled`: it found nothing more to do; in the program it goes on until it does.
    */
    method RawWrite(list: seq<Tab>, active: Option<TabId>) returns (settled: bool)
      requires Valid()
      modifies this
      ensures settled <==> Settles(old(panes), Ids(list))
      ensures settled ==> Snapshot() == DoRawWrite(old(Snapshot()), list, active)
      ensures Distinct(Ids(list)) ==> Valid()
      ensures tabs == list
    {
      var wasActive := activeTab;
      ghost var next := Snapshot().(tabs := list, activeTab := active);
      RawWritten(Snapshot(), list, active);
      tabs, activeTab := list, active;
      var wrote := Notify(wasActive);
      settled := true;
      if wrote {
        var again := Notify(active);
        settled := !again;
        QuietIsSame(Repaired(next, wasActive), active);
      }
    }
  }

  /** What a raw write and the subscriber's two looks at it come to. */
  lemma RawWritten(s: State, list: seq<Tab>, active: Option<TabId>)
    requires Inv(s)
    ensures var next := s.(tabs := list, activeTab := active);
      var t := Repaired(next, s.activeTab);
      && t.tabs == list && Repaired(t, active).tabs == list
      && (NeedsRepair(t, active) <==> !Settles(s.panes, Ids(list)))
      && (!NeedsRepair(next, s.activeTab) ==> Settles(s.panes, Ids(list)))
      && (Distinct(Ids(list)) ==> Inv(t) && Settles(s.panes, Ids(list)))
  {
    var next := s.(tabs := list, activeTab := active);
    RepairedNeeds(next, s.activeTab);
    QuietMeansHomed(next, s.activeTab);
    RawWriteKeepsInv(s, list, active);
  }
}
