/**
`normalize`, the one repair step of the pane layout: whatever other features wrote to the tab
list, the layout it returns is consistent with the open tabs.
*/
module PaneNormalize {
  import opened Prelude
  import opened Panes
  import opened PaneSurgery

  // ------------------------------------------------------------------ the five steps

  predicate Occupied(l: PaneLayout, ids: seq<TabId>, pane: PaneId) {
    exists i :: 0 <= i < |ids| && PaneOf(l, ids[i]) == pane
  }

  predicate RecordedElsewhere(l: PaneLayout, id: TabId) {
    id !in l.owner || l.owner[id] != PaneOf(l, id)
  }

  predicate OwnerChanged(l: PaneLayout, ids: seq<TabId>) {
    || (exists i :: 0 <= i < |ids| && RecordedElsewhere(l, ids[i]))
    || |l.owner| != |ids|
  }

  function OwnersOf(l: PaneLayout, ids: seq<TabId>): map<TabId, PaneId> {
    map t | t in ids :: PaneOf(l, t)
  }

  /** The first step brings the records up to date with the tab list. */
  function Reowned(l: PaneLayout, ids: seq<TabId>): PaneLayout {
    if OwnerChanged(l, ids) then l.(owner := OwnersOf(l, ids)) else l
  }

  predicate Droppable(l: PaneLayout, ids: seq<TabId>, pane: PaneId) {
    PaneCount(l) > 1 && !Occupied(l, ids, pane)
  }

  /** The second step walks the panes and closes the empty ones it meets while there are several. */
  function DropEmpty(l: PaneLayout, order: seq<PaneId>, ids: seq<TabId>): PaneLayout
    decreases |order|
  {
    if order == [] then l
    else DropEmpty(if Droppable(l, ids, order[0]) then Closed(l, order[0]) else l, order[1..], ids)
  }

  function Pruned(l: PaneLayout, ids: seq<TabId>): PaneLayout {
    DropEmpty(l, PaneIds(l.root), ids)
  }

  predicate Pending(l: PaneLayout, ids: seq<TabId>, requested: Option<TabId>) {
    requested.Some? && requested.value in ids && ActiveOf(l) != requested
  }

  /** The third step follows a request for a tab to where that tab sits. */
  function Honoured(l: PaneLayout, ids: seq<TabId>, requested: Option<TabId>): PaneLayout {
    if Pending(l, ids, requested) then Activated(l, requested.value) else l
  }

  /** What a pane shows once repaired: what it showed if that is its own, else its last tab. */
  function Shown(l: PaneLayout, ids: seq<TabId>, pane: PaneId): Option<TabId> {
    var mine := Strip(l, ids, pane);
    var current := ActiveIn(l, pane);
    if current.Some? && current.value in mine then current
    else if mine == [] then None
    else Some(Last(mine))
  }

  predicate ShowsOther(l: PaneLayout, ids: seq<TabId>, pane: PaneId) {
    Shown(l, ids, pane) != ActiveIn(l, pane) || pane !in l.active
  }

  predicate ActiveChanged(l: PaneLayout, ids: seq<TabId>) {
    var order := PaneIds(l.root);
    || (exists i :: 0 <= i < |order| && ShowsOther(l, ids, order[i]))
    || |l.active| != |ShownMap(l, ids)|
  }

  function ShownMap(l: PaneLayout, ids: seq<TabId>): map<PaneId, Option<TabId>> {
    map p | p in PaneIds(l.root) :: Shown(l, ids, p)
  }

  /** The fourth step settles what every pane shows. */
  function Reshown(l: PaneLayout, ids: seq<TabId>): PaneLayout {
    l.(active := ShownMap(l, ids))
  }

  /** The last step moves a focus that points nowhere to the first pane. */
  function Refocused(l: PaneLayout): PaneLayout {
    if HasPane(l, l.focused) then l else l.(focused := PaneIds(l.root)[0])
  }

  function Normalized(l: PaneLayout, ids: seq<TabId>, requested: Option<TabId>): PaneLayout {
    Refocused(Reshown(Honoured(Pruned(Reowned(l, ids), ids), ids, requested), ids))
  }

  /** Whether `normalize` answers with a new object rather than the one it was given. */
  predicate Rewrites(l: PaneLayout, ids: seq<TabId>, requested: Option<TabId>) {
    var owned := Reowned(l, ids);
    var pruned := Pruned(owned, ids);
    var asked := Honoured(pruned, ids, requested);
    || OwnerChanged(l, ids)
    || PaneCount(pruned) != PaneCount(owned)
    || Pending(pruned, ids, requested)
    || ActiveChanged(asked, ids)
    || !HasPane(asked, asked.focused)
  }

  // ------------------------------------------------------------------ what consistent means

  /** Exactly the open tabs have an owner, and it is a pane that exists. */
  ghost predicate Owned(l: PaneLayout, ids: seq<TabId>) {
    l.owner.Keys == Elems(ids) && forall t :: t in ids ==> HasPane(l, l.owner[t])
  }

  ghost predicate ShowsOwn(l: PaneLayout, ids: seq<TabId>, pane: PaneId) {
    && pane in l.active
    && (l.active[pane].Some? ==> l.active[pane].value in ids && PaneOf(l, l.active[pane].value) == pane)
    && (l.active[pane].None? ==> !Occupied(l, ids, pane))
  }

  /** The layout agrees with the open tabs. */
  ghost predicate Consistent(l: PaneLayout, ids: seq<TabId>) {
    && Live(l)
    && Owned(l, ids)
    && l.active.Keys == Elems(PaneIds(l.root))
    && (forall p :: HasPane(l, p) ==> ShowsOwn(l, ids, p))
    && (PaneCount(l) > 1 ==> forall p :: HasPane(l, p) ==> Occupied(l, ids, p))
  }

  // ------------------------------------------------------------------ step by step

  lemma SubsetOfSameSize<T>(a: set<T>, b: set<T>)
    requires a <= b && |a| == |b|
    ensures a == b
  {
    assert b == a + (b - a);
    assert |b - a| == 0;
  }

  lemma ReownedOwned(l: PaneLayout, ids: seq<TabId>)
    requires Live(l) && Distinct(ids)
    ensures Owned(Reowned(l, ids), ids)
    ensures forall t ::
      t in ids ==> Reowned(l, ids).owner[t] == PaneOf(l, t) && PaneOf(Reowned(l, ids), t) == PaneOf(l, t)
  {
    if !OwnerChanged(l, ids) {
      forall t | t in ids ensures !RecordedElsewhere(l, t) {
      }
      DistinctCount(ids);
      SubsetOfSameSize(Elems(ids), l.owner.Keys);
    }
  }

  lemma OwnedOccupied(l: PaneLayout, ids: seq<TabId>, pane: PaneId)
    requires Owned(l, ids)
    ensures Occupied(l, ids, pane) <==> exists t :: t in ids && l.owner[t] == pane
  {
    if t :| t in ids && l.owner[t] == pane {
      var i :| 0 <= i < |ids| && ids[i] == t;
      assert PaneOf(l, ids[i]) == pane;
    }
  }

  /** Closing a pane with no tabs re-homes nobody. */
  lemma DropOne(l: PaneLayout, ids: seq<TabId>, pane: PaneId)
    requires Live(l) && Owned(l, ids) && Droppable(l, ids, pane) && HasPane(l, pane)
    ensures var r := Closed(l, pane);
      && Live(r) && Owned(r, ids) && r.owner == l.owner
      && (forall p :: Occupied(r, ids, p) <==> Occupied(l, ids, p))
  {
    ClosedPane(l, pane);
    ClosedGrown(l, pane);
    MinusElems(PaneIds(l.root), {pane});
    OwnedOccupied(l, ids, pane);
    var r := Closed(l, pane);
    assert r.owner == l.owner;
    forall p ensures Occupied(r, ids, p) <==> Occupied(l, ids, p) {
      OwnedOccupied(l, ids, p);
      OwnedOccupied(r, ids, p);
    }
  }

  /** Some pane without tabs was showing `shown`. */
  ghost predicate Inherited(l: PaneLayout, ids: seq<TabId>, shown: Option<TabId>) {
    exists q :: HasPane(l, q) && !Occupied(l, ids, q) && ActiveIn(l, q) == shown
  }

  /** What survives step 2, and how little it changes. */
  ghost predicate PrunedFrom(r: PaneLayout, l: PaneLayout, ids: seq<TabId>) {
    && Live(r) && Owned(r, ids) && r.owner == l.owner && r.counter == l.counter
    && (forall p :: Occupied(r, ids, p) <==> Occupied(l, ids, p))
    && PaneIds(r.root) == Only(PaneIds(l.root), Elems(PaneIds(r.root)))
    && (forall p :: HasPane(l, p) && Occupied(l, ids, p) ==> HasPane(r, p))
    && (Occupied(l, ids, l.focused) ==> r.focused == l.focused)
    && (forall p :: HasPane(r, p) && ActiveIn(l, p).Some? ==> ActiveIn(r, p) == ActiveIn(l, p))
    && (forall p :: HasPane(r, p) ==> ActiveIn(r, p) == ActiveIn(l, p) || Inherited(l, ids, ActiveIn(r, p)))
  }

  lemma PrunedFromSelf(l: PaneLayout, ids: seq<TabId>)
    requires Live(l) && Owned(l, ids)
    ensures PrunedFrom(l, l, ids)
  {
    OnlyAll(PaneIds(l.root), Elems(PaneIds(l.root)));
  }

  lemma PrunedFromOne(l: PaneLayout, ids: seq<TabId>, pane: PaneId)
    requires Live(l) && Owned(l, ids) && Droppable(l, ids, pane) && HasPane(l, pane)
    ensures PrunedFrom(Closed(l, pane), l, ids)
  {
    var order := PaneIds(l.root);
    ClosedPane(l, pane);
    DropOne(l, ids, pane);
    MinusElems(order, {pane});
    assert Elems(Minus(order, {pane})) == Elems(order) - {pane};
    assert HasPane(l, pane) && !Occupied(l, ids, pane);
  }

  lemma PrunedFromTrans(a: PaneLayout, b: PaneLayout, c: PaneLayout, ids: seq<TabId>)
    requires PrunedFrom(b, a, ids) && PrunedFrom(c, b, ids)
    ensures PrunedFrom(c, a, ids)
  {
    var keep := Elems(PaneIds(c.root));
    OnlyOnly(PaneIds(a.root), Elems(PaneIds(b.root)), keep);
    OnlyElems(PaneIds(b.root), keep);
    OnlyElems(PaneIds(a.root), Elems(PaneIds(b.root)));
    assert Elems(PaneIds(b.root)) * keep == keep;
  }

  lemma {:induction false} DropEmptyPrunes(l: PaneLayout, order: seq<PaneId>, ids: seq<TabId>)
    requires Live(l) && Owned(l, ids)
    requires Distinct(order) && forall p :: p in order ==> HasPane(l, p)
    ensures PrunedFrom(DropEmpty(l, order, ids), l, ids)
    ensures Grown(l) ==> Grown(DropEmpty(l, order, ids))
    ensures PaneCount(DropEmpty(l, order, ids)) <= PaneCount(l)
    ensures PaneCount(DropEmpty(l, order, ids)) == PaneCount(l) ==> DropEmpty(l, order, ids) == l
    ensures forall p :: p in order && HasPane(DropEmpty(l, order, ids), p) ==>
      PaneCount(DropEmpty(l, order, ids)) == 1 || Occupied(l, ids, p)
    decreases |order|
  {
    if order == [] {
      PrunedFromSelf(l, ids);
    } else {
      var pane, rest := order[0], order[1..];
      var m := if Droppable(l, ids, pane) then Closed(l, pane) else l;
      var r := DropEmpty(m, rest, ids);
      assert order == [pane] + rest;
      DistinctConcat([pane], rest);
      assert pane in [pane];
      if Droppable(l, ids, pane) {
        ClosedPane(l, pane);
        ClosedGrown(l, pane);
        DropOne(l, ids, pane);
        PrunedFromOne(l, ids, pane);
        MinusElems(PaneIds(l.root), {pane});
      } else {
        PrunedFromSelf(l, ids);
      }
      forall p | p in rest ensures HasPane(m, p) {
        assert p in order;
      }
      DropEmptyPrunes(m, rest, ids);
      PrunedFromTrans(l, m, r, ids);
      OnlyElems(PaneIds(m.root), Elems(PaneIds(r.root)));
      forall p | p in order && HasPane(r, p) ensures PaneCount(r) == 1 || Occupied(l, ids, p) {
        if p == pane {
          assert HasPane(m, pane);
        } else {
          assert p in rest;
        }
      }
    }
  }

  lemma StripElems(l: PaneLayout, ids: seq<TabId>, pane: PaneId)
    ensures forall t :: t in Strip(l, ids, pane) <==> t in ids && PaneOf(l, t) == pane
    ensures Strip(l, ids, pane) == [] <==> !Occupied(l, ids, pane)
  {
    OnlyElems(ids, Residents(l, ids, pane));
    if Occupied(l, ids, pane) {
      var i :| 0 <= i < |ids| && PaneOf(l, ids[i]) == pane;
      assert ids[i] in Strip(l, ids, pane);
    }
    if Strip(l, ids, pane) != [] {
      var t := Strip(l, ids, pane)[0];
      assert t in Strip(l, ids, pane);
      var i :| 0 <= i < |ids| && ids[i] == t;
    }
  }

  /** The strips of a layout depend only on where its tabs are. */
  lemma SameStrip(a: PaneLayout, b: PaneLayout, ids: seq<TabId>, pane: PaneId)
    requires forall t :: t in ids ==> PaneOf(a, t) == PaneOf(b, t)
    ensures Strip(a, ids, pane) == Strip(b, ids, pane)
    ensures Occupied(a, ids, pane) <==> Occupied(b, ids, pane)
  {
    assert Residents(a, ids, pane) == Residents(b, ids, pane);
    StripElems(a, ids, pane);
    StripElems(b, ids, pane);
  }

  /** Steps 1 and 2 leave every tab where it was and no pane empty beside another. */
  lemma PrunedReowned(l: PaneLayout, ids: seq<TabId>)
    requires Live(l) && Distinct(ids)
    ensures var r := Pruned(Reowned(l, ids), ids);
      && PrunedFrom(r, Reowned(l, ids), ids)
      && (Grown(l) ==> Grown(r))
      && (forall t :: t in ids ==> PaneOf(r, t) == PaneOf(l, t))
      && (PaneCount(r) > 1 ==> forall p :: HasPane(r, p) ==> Occupied(r, ids, p))
      && (PaneCount(r) == PaneCount(l) ==> r == Reowned(l, ids))
      && PaneCount(r) <= PaneCount(l)
  {
    var m := Reowned(l, ids);
    ReownedOwned(l, ids);
    DropEmptyPrunes(m, PaneIds(m.root), ids);
    var r := Pruned(m, ids);
    OnlyElems(PaneIds(m.root), Elems(PaneIds(r.root)));
  }

  /** Step 3 moves the focus and what one pane shows, nothing else. */
  lemma HonouredMoves(l: PaneLayout, ids: seq<TabId>, requested: Option<TabId>)
    requires Live(l) && Owned(l, ids)
    ensures var r := Honoured(l, ids, requested);
      && Live(r) && Owned(r, ids) && r.owner == l.owner && r.root == l.root && r.counter == l.counter
      && (forall t :: t in ids ==> PaneOf(r, t) == PaneOf(l, t))
      && (Pending(l, ids, requested) ==> ActiveOf(r) == requested && r.focused == PaneOf(l, requested.value))
      && (forall p :: ActiveIn(r, p) != ActiveIn(l, p) ==> Pending(l, ids, requested) && p == r.focused)
  {
    if Pending(l, ids, requested) {
      var t := requested.value;
      assert l.owner[t := PaneOf(l, t)] == l.owner;
    }
  }

  lemma ReshownConsistent(l: PaneLayout, ids: seq<TabId>)
    requires Live(l) && Owned(l, ids)
    requires PaneCount(l) > 1 ==> forall p :: HasPane(l, p) ==> Occupied(l, ids, p)
    ensures Consistent(Reshown(l, ids), ids)
    ensures forall t :: PaneOf(Reshown(l, ids), t) == PaneOf(l, t)
  {
    var r := Reshown(l, ids);
    forall p ensures Occupied(r, ids, p) <==> Occupied(l, ids, p) {
      SameStrip(l, r, ids, p);
    }
    forall p | HasPane(l, p) ensures ShowsOwn(r, ids, p) {
      StripElems(l, ids, p);
      assert r.active[p] == Shown(l, ids, p);
    }
    assert r.active.Keys == Elems(PaneIds(l.root));
  }

  // ------------------------------------------------------------------ the theorems

  /** `normalize` repairs any layout with distinct panes and a live focus, whatever its records hold. */
  lemma NormalizedConsistent(l: PaneLayout, ids: seq<TabId>, requested: Option<TabId>)
    requires Live(l) && Distinct(ids)
    ensures Consistent(Normalized(l, ids, requested), ids)
    ensures Grown(l) ==> Grown(Normalized(l, ids, requested))
    ensures Normalized(l, ids, requested).counter == l.counter
  {
    PrunedReowned(l, ids);
    var pruned := Pruned(Reowned(l, ids), ids);
    HonouredMoves(pruned, ids, requested);
    var asked := Honoured(pruned, ids, requested);
    forall p ensures Occupied(asked, ids, p) <==> Occupied(pruned, ids, p) {
      SameStrip(asked, pruned, ids, p);
    }
    ReshownConsistent(asked, ids);
  }

  /** Up to the last two steps: what the repair makes of owners and panes. */
  lemma AskedKeepsTabs(l: PaneLayout, ids: seq<TabId>, requested: Option<TabId>)
    requires Live(l) && Distinct(ids)
    ensures var r := Honoured(Pruned(Reowned(l, ids), ids), ids, requested);
      && Live(r) && Owned(r, ids)
      && (forall t :: t in ids ==> PaneOf(r, t) == PaneOf(l, t))
      && (forall p :: HasPane(l, p) && Occupied(l, ids, p) ==> HasPane(r, p))
      && PaneIds(r.root) == Only(PaneIds(l.root), Elems(PaneIds(r.root)))
      && (forall p :: HasPane(r, p) ==> PaneCount(r) == 1 || Occupied(l, ids, p))
  {
    PrunedReowned(l, ids);
    ReownedOwned(l, ids);
    var pruned := Pruned(Reowned(l, ids), ids);
    HonouredMoves(pruned, ids, requested);
    forall p ensures Occupied(Reowned(l, ids), ids, p) <==> Occupied(l, ids, p) {
      SameStrip(Reowned(l, ids), l, ids, p);
    }
    forall p ensures Occupied(pruned, ids, p) <==> Occupied(l, ids, p) {
      SameStrip(pruned, l, ids, p);
    }
  }

  /** It moves no tab: an open tab is in the pane it was in, and panes that hold a tab stay, in order. */
  lemma NormalizedKeepsTabs(l: PaneLayout, ids: seq<TabId>, requested: Option<TabId>)
    requires Live(l) && Distinct(ids)
    ensures var r := Normalized(l, ids, requested);
      && (forall t :: t in ids ==> t in r.owner && r.owner[t] == PaneOf(r, t) == PaneOf(l, t))
      && (forall p :: HasPane(l, p) && Occupied(l, ids, p) ==> HasPane(r, p))
      && PaneIds(r.root) == Only(PaneIds(l.root), Elems(PaneIds(r.root)))
      && (forall p :: HasPane(r, p) ==> PaneCount(r) == 1 || Occupied(l, ids, p))
  {
    AskedKeepsTabs(l, ids, requested);
    var asked := Honoured(Pruned(Reowned(l, ids), ids), ids, requested);
    forall t | t in ids ensures asked.owner[t] == PaneOf(asked, t) {
      assert t in asked.owner && HasPane(asked, asked.owner[t]);
    }
  }

  /** A pane that shows one of its own tabs goes on showing it, unless a tab of that pane was asked for. */
  lemma NormalizedKeepsShown(l: PaneLayout, ids: seq<TabId>, requested: Option<TabId>, pane: PaneId)
    requires Live(l) && Distinct(ids)
    requires HasPane(l, pane) && ActiveIn(l, pane).Some?
    requires ActiveIn(l, pane).value in ids && PaneOf(l, ActiveIn(l, pane).value) == pane
    requires requested.Some? && requested.value in ids ==>
      PaneOf(l, requested.value) != pane || requested == ActiveIn(l, pane)
    ensures HasPane(Normalized(l, ids, requested), pane)
    ensures ActiveIn(Normalized(l, ids, requested), pane) == ActiveIn(l, pane)
  {
    var x := ActiveIn(l, pane).value;
    var i :| 0 <= i < |ids| && ids[i] == x;
    assert Occupied(l, ids, pane);
    NormalizedKeepsTabs(l, ids, requested);
    PrunedReowned(l, ids);
    var m := Reowned(l, ids);
    assert PaneOf(m, x) == pane by { ReownedOwned(l, ids); }
    assert Occupied(m, ids, pane);
    var pruned := Pruned(m, ids);
    HonouredMoves(pruned, ids, requested);
    var asked := Honoured(pruned, ids, requested);
    StripElems(asked, ids, pane);
    assert ActiveIn(asked, pane) == ActiveIn(l, pane);
  }

  /**
   A tab asked for through the flat id ends up active exactly when the focused pane, once empty
   panes are gone, is not already showing that tab while the tab sits in another pane.
   */
  lemma RequestedEndsActive(l: PaneLayout, ids: seq<TabId>, tab: TabId)
    requires Live(l) && Distinct(ids) && tab in ids
    ensures ActiveOf(Normalized(l, ids, Some(tab))) == Some(tab) <==>
      var pruned := Pruned(Reowned(l, ids), ids);
      !(ActiveOf(pruned) == Some(tab) && PaneOf(l, tab) != pruned.focused)
  {
    PrunedReowned(l, ids);
    var pruned := Pruned(Reowned(l, ids), ids);
    HonouredMoves(pruned, ids, Some(tab));
    var asked := Honoured(pruned, ids, Some(tab));
    StripElems(asked, ids, asked.focused);
  }

  /** No pane shows `tab` unless the tab is in it. */
  ghost predicate OnlyOwnerShows(l: PaneLayout, tab: TabId) {
    forall p :: HasPane(l, p) && ActiveIn(l, p) == Some(tab) ==> PaneOf(l, tab) == p
  }

  /** Step 2 never makes a pane show a tab that is in another pane. */
  lemma PrunedOnlyOwnerShows(r: PaneLayout, l: PaneLayout, ids: seq<TabId>, tab: TabId)
    requires PrunedFrom(r, l, ids) && tab in ids && Owned(l, ids) && OnlyOwnerShows(l, tab)
    ensures OnlyOwnerShows(r, tab)
  {
    OnlyElems(PaneIds(l.root), Elems(PaneIds(r.root)));
    forall q ensures Occupied(l, ids, q) <==> exists t :: t in ids && l.owner[t] == q {
      OwnedOccupied(l, ids, q);
    }
  }

  /** If no pane was showing another pane's tab, a requested open tab always ends up active. */
  lemma RequestedEndsActiveWhenOwnShown(l: PaneLayout, ids: seq<TabId>, tab: TabId)
    requires Live(l) && Distinct(ids) && tab in ids && OnlyOwnerShows(l, tab)
    ensures ActiveOf(Normalized(l, ids, Some(tab))) == Some(tab)
  {
    RequestedEndsActive(l, ids, tab);
    var m := Reowned(l, ids);
    assert OnlyOwnerShows(m, tab) && Owned(m, ids) by {
      ReownedOwned(l, ids);
      forall p ensures HasPane(m, p) == HasPane(l, p) && ActiveIn(m, p) == ActiveIn(l, p) {
      }
    }
    var pruned := Pruned(m, ids);
    assert PrunedFrom(pruned, m, ids) && PaneOf(pruned, tab) == PaneOf(l, tab) by { PrunedReowned(l, ids); }
    PrunedOnlyOwnerShows(pruned, m, ids, tab);
  }

  // ------------------------------------------------------------------ the fixpoint

  /** A consistent layout is its own repair, provided nothing new is asked for. */
  lemma NormalizedFixpoint(l: PaneLayout, ids: seq<TabId>, requested: Option<TabId>)
    requires Consistent(l, ids) && Distinct(ids)
    requires !Pending(l, ids, requested)
    ensures Normalized(l, ids, requested) == l
    ensures !Rewrites(l, ids, requested)
  {
    DistinctCount(ids);
    forall i | 0 <= i < |ids| ensures !RecordedElsewhere(l, ids[i]) {
      assert ids[i] in l.owner;
    }
    assert !OwnerChanged(l, ids);
    PrunedReowned(l, ids);
    NothingToDrop(l, PaneIds(l.root), ids);
    ShownAlready(l, ids);
  }

  /** In a consistent layout every pane already shows what step 4 would make it show. */
  lemma ShownAlready(l: PaneLayout, ids: seq<TabId>)
    requires Consistent(l, ids)
    ensures ShownMap(l, ids) == l.active
    ensures !ActiveChanged(l, ids)
  {
    forall p | HasPane(l, p) ensures Shown(l, ids, p) == l.active[p] {
      StripElems(l, ids, p);
      assert ShowsOwn(l, ids, p);
    }
    var shown := ShownMap(l, ids);
    assert shown.Keys == Elems(PaneIds(l.root));
    assert forall p :: p in shown ==> shown[p] == l.active[p];
    assert shown == l.active;
  }

  lemma {:induction false} NothingToDrop(l: PaneLayout, order: seq<PaneId>, ids: seq<TabId>)
    requires forall p :: p in order ==> !Droppable(l, ids, p)
    ensures DropEmpty(l, order, ids) == l
  {
    if order != [] {
      assert order[0] in order;
      NothingToDrop(l, order[1..], ids);
    }
  }

  /** The repaired layout needs no second repair: subscribers settle after one extra write. */
  lemma NormalizedIdempotent(l: PaneLayout, ids: seq<TabId>, requested: Option<TabId>, again: Option<TabId>)
    requires Live(l) && Distinct(ids)
    requires again.None? || again == ActiveOf(Normalized(l, ids, requested))
    ensures Normalized(Normalized(l, ids, requested), ids, again) == Normalized(l, ids, requested)
    ensures !Rewrites(Normalized(l, ids, requested), ids, again)
  {
    NormalizedConsistent(l, ids, requested);
    NormalizedFixpoint(Normalized(l, ids, requested), ids, again);
  }

  // ------------------------------------------------------------------ as the source computes it

  lemma DropEmptySnoc(l: PaneLayout, order: seq<PaneId>, ids: seq<TabId>, i: nat)
    requires i < |order|
    ensures DropEmpty(l, order[i..], ids) ==
      DropEmpty(if Droppable(l, ids, order[i]) then Closed(l, order[i]) else l, order[i + 1..], ids)
  {
    assert order[i..][0] == order[i] && order[i..][1..] == order[i + 1..];
  }

  method NormalizeOwners(l: PaneLayout, ids: seq<TabId>) returns (next: PaneLayout, changed: bool)
    ensures next == Reowned(l, ids)
    ensures changed <==> OwnerChanged(l, ids)
  {
    var owner: map<TabId, PaneId> := map[];
    changed := false;
    for i := 0 to |ids|
      invariant owner.Keys == Elems(ids[..i])
      invariant forall t :: t in owner ==> owner[t] == PaneOf(l, t)
      invariant changed <==> exists k :: 0 <= k < i && RecordedElsewhere(l, ids[k])
    {
      var pane := PaneOf(l, ids[i]);
      owner := owner[ids[i] := pane];
      if ids[i] !in l.owner || l.owner[ids[i]] != pane {
        changed := true;
      }
      assert ids[..i + 1] == ids[..i] + [ids[i]];
    }
    assert ids[..|ids|] == ids;
    if !changed && |l.owner| != |ids| {
      changed := true;
    }
    assert owner == OwnersOf(l, ids);
    next := if changed then l.(owner := owner) else l;
  }

  method PruneEmpty(l: PaneLayout, ids: seq<TabId>) returns (next: PaneLayout)
    ensures next == Pruned(l, ids)
  {
    next := l;
    var order := PaneIds(l.root);
    for i := 0 to |order|
      invariant DropEmpty(next, order[i..], ids) == Pruned(l, ids)
    {
      DropEmptySnoc(next, order, ids, i);
      if PaneCount(next) > 1 && !(exists k :: 0 <= k < |ids| && PaneOf(next, ids[k]) == order[i]) {
        next := ClosePane(next, order[i]);
      }
    }
    assert order[|order|..] == [];
  }

  method ShowOwn(l: PaneLayout, ids: seq<TabId>) returns (next: PaneLayout, changed: bool)
    ensures next == Reshown(l, ids)
    ensures changed <==> ActiveChanged(l, ids)
    ensures !changed ==> next == l
  {
    var panes := PaneIds(l.root);
    var active: map<PaneId, Option<TabId>> := map[];
    changed := false;
    for i := 0 to |panes|
      invariant active.Keys == Elems(panes[..i])
      invariant forall p :: p in active ==> active[p] == Shown(l, ids, p)
      invariant changed <==> exists k :: 0 <= k < i && ShowsOther(l, ids, panes[k])
    {
      var shown := Shown(l, ids, panes[i]);
      active := active[panes[i] := shown];
      if shown != ActiveIn(l, panes[i]) || panes[i] !in l.active {
        changed := true;
      }
      assert panes[..i + 1] == panes[..i] + [panes[i]];
    }
    assert panes[..|panes|] == panes;
    assert active == ShownMap(l, ids);
    if |l.active| != |active| {
      changed := true;
    }
    if changed {
      next := l.(active := active);
    } else {
      SameActive(l, ids);
      next := l;
    }
  }

  lemma CloseShrinks(l: PaneLayout, pane: PaneId)
    ensures PaneCount(Closed(l, pane)) <= PaneCount(l)
    ensures PaneCount(Closed(l, pane)) == PaneCount(l) ==> Closed(l, pane) == l
  {
    RemoveLeafOrder(l.root, pane);
    OnlyShorter(PaneIds(l.root), Elems(PaneIds(l.root)) - {pane});
    MinusElems(PaneIds(l.root), {pane});
  }

  lemma {:induction false} DropEmptyShrinks(l: PaneLayout, order: seq<PaneId>, ids: seq<TabId>)
    ensures PaneCount(DropEmpty(l, order, ids)) <= PaneCount(l)
    ensures PaneCount(DropEmpty(l, order, ids)) == PaneCount(l) ==> DropEmpty(l, order, ids) == l
    decreases |order|
  {
    if order != [] {
      CloseShrinks(l, order[0]);
      DropEmptyShrinks(if Droppable(l, ids, order[0]) then Closed(l, order[0]) else l, order[1..], ids);
    }
  }

  /** `normalize`; `changed` says whether the source would answer with a new object. */
  method Normalize(l: PaneLayout, ids: seq<TabId>, requested: Option<TabId>) returns (next: PaneLayout, changed: bool)
    ensures next == Normalized(l, ids, requested)
    ensures changed <==> Rewrites(l, ids, requested)
    ensures !changed ==> next == l
  {
    next, changed := NormalizeOwners(l, ids);
    DropEmptyShrinks(next, PaneIds(next.root), ids);
    var before := PaneCount(next);
    next := PruneEmpty(next, ids);
    if PaneCount(next) != before {
      changed := true;
    }
    if requested.Some? && requested.value in ids && ActiveOf(next) != requested {
      next, changed := Activated(next, requested.value), true;
    }
    var reshown, activeChanged := ShowOwn(next, ids);
    next, changed := reshown, changed || activeChanged;
    if !HasPane(next, next.focused) {
      next, changed := next.(focused := PaneIds(next.root)[0]), true;
    }
  }

  lemma SameActive(l: PaneLayout, ids: seq<TabId>)
    requires !ActiveChanged(l, ids)
    ensures ShownMap(l, ids) == l.active
  {
    var shown := ShownMap(l, ids);
    var order := PaneIds(l.root);
    forall p | p in order ensures p in l.active && l.active[p] == shown[p] {
      var i :| 0 <= i < |order| && order[i] == p;
      assert !ShowsOther(l, ids, order[i]);
    }
    assert shown.Keys == Elems(order);
    SubsetOfSameSize(shown.Keys, l.active.Keys);
  }
}
