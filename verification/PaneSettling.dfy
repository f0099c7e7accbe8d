/**
When repairing settles. The repair is asked for again after each of its own writes, so it has to
come to a layout that it leaves alone. It does so at once, or never.
*/
module PaneSettling {
  import opened Prelude
  import opened Panes
  import opened PaneSurgery
  import opened PaneNormalize

  /** Each listed tab is recorded in a pane that exists; other tabs may be recorded too. */
  ghost predicate Homed(l: PaneLayout, ids: seq<TabId>) {
    forall t :: t in ids ==> t in l.owner && HasPane(l, l.owner[t])
  }

  lemma HomedExactly(l: PaneLayout, ids: seq<TabId>)
    requires Live(l)
    ensures Homed(l, ids) <==> forall i :: 0 <= i < |ids| ==> !RecordedElsewhere(l, ids[i])
    ensures OwnerChanged(l, ids) <==> !Homed(l, ids) || |l.owner| != |ids|
  {
    if forall i :: 0 <= i < |ids| ==> !RecordedElsewhere(l, ids[i]) {
      forall t | t in ids ensures t in l.owner && HasPane(l, l.owner[t]) {
        var i :| 0 <= i < |ids| && ids[i] == t;
        assert !RecordedElsewhere(l, ids[i]);
      }
    }
  }

  /** What the steps after the first keep: where listed tabs are, and how many tabs are recorded. */
  ghost predicate SameHomes(r: PaneLayout, l: PaneLayout, ids: seq<TabId>) {
    && Live(r) && Homed(r, ids) && |r.owner| == |l.owner|
    && forall t :: t in ids ==> PaneOf(r, t) == PaneOf(l, t)
  }

  lemma ReownedHomes(l: PaneLayout, ids: seq<TabId>)
    requires Live(l)
    ensures var r := Reowned(l, ids);
      && Live(r) && Homed(r, ids) && (forall t :: t in ids ==> PaneOf(r, t) == PaneOf(l, t))
      && |r.owner| == if OwnerChanged(l, ids) then |Elems(ids)| else |ids|
  {
    HomedExactly(l, ids);
    if OwnerChanged(l, ids) {
      assert OwnersOf(l, ids).Keys == Elems(ids);
    }
  }

  lemma SameOccupied(r: PaneLayout, l: PaneLayout, ids: seq<TabId>, pane: PaneId)
    requires SameHomes(r, l, ids)
    ensures Occupied(r, ids, pane) <==> Occupied(l, ids, pane)
  {
    SameStrip(r, l, ids, pane);
  }

  lemma DropOneHomes(l: PaneLayout, ids: seq<TabId>, pane: PaneId)
    requires Live(l) && Homed(l, ids) && Droppable(l, ids, pane) && HasPane(l, pane)
    ensures SameHomes(Closed(l, pane), l, ids)
  {
    ClosedPane(l, pane);
    ClosedGrown(l, pane);
    MinusElems(PaneIds(l.root), {pane});
    var r := Closed(l, pane);
    assert r.owner.Keys == l.owner.Keys;
    forall t | t in ids ensures r.owner[t] == l.owner[t] && HasPane(r, r.owner[t]) {
      var i :| 0 <= i < |ids| && ids[i] == t;
      assert PaneOf(l, ids[i]) != pane;
    }
  }

  lemma {:induction false} DropEmptyHomes(l: PaneLayout, order: seq<PaneId>, ids: seq<TabId>)
    requires Live(l) && Homed(l, ids)
    requires Distinct(order) && forall p :: p in order ==> HasPane(l, p)
    ensures var r := DropEmpty(l, order, ids);
      && SameHomes(r, l, ids) && Elems(PaneIds(r.root)) <= Elems(PaneIds(l.root))
      && forall p :: p in order && HasPane(r, p) ==> PaneCount(r) == 1 || Occupied(l, ids, p)
    decreases |order|
  {
    if order != [] {
      var pane, rest := order[0], order[1..];
      var m := if Droppable(l, ids, pane) then Closed(l, pane) else l;
      assert order == [pane] + rest;
      DistinctConcat([pane], rest);
      assert pane in [pane];
      if Droppable(l, ids, pane) {
        DropOneHomes(l, ids, pane);
        ClosedPane(l, pane);
        MinusElems(PaneIds(l.root), {pane});
      }
      forall p | p in rest ensures HasPane(m, p) {
        assert p in order;
      }
      DropEmptyHomes(m, rest, ids);
      DropEmptyShrinks(m, rest, ids);
      OneLeft(l, m, order, ids);
    }
  }

  /** Each pane met on the way that is left has tabs, or is the only one. */
  lemma OneLeft(l: PaneLayout, m: PaneLayout, order: seq<PaneId>, ids: seq<TabId>)
    requires Live(l) && Homed(l, ids) && order != [] && HasPane(l, order[0])
    requires m == if Droppable(l, ids, order[0]) then Closed(l, order[0]) else l
    requires SameHomes(m, l, ids)
    requires var r := DropEmpty(m, order[1..], ids);
      && Elems(PaneIds(r.root)) <= Elems(PaneIds(m.root)) && PaneCount(r) <= PaneCount(m)
      && forall p :: p in order[1..] && HasPane(r, p) ==> PaneCount(r) == 1 || Occupied(m, ids, p)
    ensures var r := DropEmpty(l, order, ids);
      forall p :: p in order && HasPane(r, p) ==> PaneCount(r) == 1 || Occupied(l, ids, p)
  {
    var r := DropEmpty(l, order, ids);
    forall p | p in order && HasPane(r, p) ensures PaneCount(r) == 1 || Occupied(l, ids, p) {
      SameOccupied(m, l, ids, p);
      if p == order[0] {
        assert p in Elems(PaneIds(m.root));
        if Droppable(l, ids, p) {
          ClosedPane(l, p);
          MinusElems(PaneIds(l.root), {p});
        }
      } else {
        assert p in order[1..];
      }
    }
  }

  /** Every pane has tabs, or is the only one. */
  ghost predicate NoneEmpty(l: PaneLayout, ids: seq<TabId>) {
    PaneCount(l) > 1 ==> forall p :: HasPane(l, p) ==> Occupied(l, ids, p)
  }

  /** The first three steps, whatever is listed, once or twice. */
  lemma AskedHomes(l: PaneLayout, ids: seq<TabId>, requested: Option<TabId>)
    requires Live(l)
    ensures var m := Reowned(l, ids);
      var r := Honoured(Pruned(m, ids), ids, requested);
      && SameHomes(r, m, ids) && NoneEmpty(r, ids)
      && (requested.Some? && requested.value in ids && ActiveOf(Pruned(m, ids)) != requested ==>
        ActiveOf(r) == requested)
  {
    var m := Reowned(l, ids);
    ReownedHomes(l, ids);
    DropEmptyHomes(m, PaneIds(m.root), ids);
    var pruned := Pruned(m, ids);
    forall p | PaneCount(pruned) > 1 && HasPane(pruned, p) ensures Occupied(pruned, ids, p) {
      SameOccupied(pruned, m, ids, p);
      assert p in Elems(PaneIds(pruned.root));
    }
    ActivatedHomes(pruned, ids, requested);
  }

  lemma ActivatedHomes(l: PaneLayout, ids: seq<TabId>, requested: Option<TabId>)
    requires Live(l) && Homed(l, ids) && NoneEmpty(l, ids)
    ensures var r := Honoured(l, ids, requested); SameHomes(r, l, ids) && NoneEmpty(r, ids)
  {
    var r := Honoured(l, ids, requested);
    if Pending(l, ids, requested) {
      assert l.owner[requested.value := PaneOf(l, requested.value)] == l.owner;
    }
    forall p ensures Occupied(r, ids, p) <==> Occupied(l, ids, p) {
      SameOccupied(r, l, ids, p);
    }
  }

  /** The repaired layout: its tabs are recorded where they are, and each pane shows what it should. */
  ghost predicate Tidy(l: PaneLayout, ids: seq<TabId>) {
    && Live(l) && Homed(l, ids) && NoneEmpty(l, ids)
    && l.active == ShownMap(l, ids)
  }

  lemma ReshownTidy(l: PaneLayout, ids: seq<TabId>)
    requires Live(l) && Homed(l, ids) && NoneEmpty(l, ids)
    ensures Tidy(Reshown(l, ids), ids)
  {
    var r := Reshown(l, ids);
    forall p ensures Strip(r, ids, p) == Strip(l, ids, p) && (Occupied(r, ids, p) <==> Occupied(l, ids, p)) {
      SameStrip(r, l, ids, p);
    }
    forall p | HasPane(r, p) ensures Shown(r, ids, p) == r.active[p] {
      StripElems(l, ids, p);
    }
    assert ShownMap(r, ids).Keys == r.active.Keys;
  }

  lemma NormalizedTidy(l: PaneLayout, ids: seq<TabId>, requested: Option<TabId>)
    requires Live(l)
    ensures var r := Normalized(l, ids, requested);
      && Tidy(r, ids)
      && |r.owner| == if OwnerChanged(l, ids) then |Elems(ids)| else |ids|
  {
    AskedHomes(l, ids, requested);
    ReownedHomes(l, ids);
    ReshownTidy(Honoured(Pruned(Reowned(l, ids), ids), ids, requested), ids);
  }

  /** A tidy layout is rewritten only for the number of its records. */
  lemma TidyStays(l: PaneLayout, ids: seq<TabId>, again: Option<TabId>)
    requires Tidy(l, ids) && (again.None? || again == ActiveOf(l))
    ensures Rewrites(l, ids, again) <==> |l.owner| != |ids|
    ensures |l.owner| == |ids| ==> Normalized(l, ids, again) == l
  {
    HomedExactly(l, ids);
    if |l.owner| == |ids| {
      NothingToDrop(l, PaneIds(l.root), ids);
      forall p | HasPane(l, p) ensures !ShowsOther(l, ids, p) {
        assert l.active[p] == Shown(l, ids, p);
      }
      assert !ActiveChanged(l, ids);
    }
  }

  /**
  After one repair the next one leaves the layout alone if and only if no tab is listed twice, or the
  records were as many as the tabs and all in place to begin with. Otherwise they are again not as many.
  */
  lemma RepairedOnce(l: PaneLayout, ids: seq<TabId>, requested: Option<TabId>, again: Option<TabId>)
    requires Live(l)
    requires again.None? || again == ActiveOf(Normalized(l, ids, requested))
    ensures var r := Normalized(l, ids, requested);
      && Live(r)
      && (OwnerChanged(r, ids) <==> OwnerChanged(l, ids) && !Distinct(ids))
      && (Rewrites(r, ids, again) <==> OwnerChanged(l, ids) && !Distinct(ids))
      && (!Rewrites(r, ids, again) ==> Normalized(r, ids, again) == r)
  {
    NormalizedTidy(l, ids, requested);
    DistinctCount(ids);
    TidyStays(Normalized(l, ids, requested), ids, again);
    HomedExactly(Normalized(l, ids, requested), ids);
  }

  /** What repeated repairs of a layout come down to. */
  ghost predicate Settles(l: PaneLayout, ids: seq<TabId>) {
    Distinct(ids) || !OwnerChanged(l, ids)
  }

  /** A repair that rewrites nothing answers with the layout it was given. */
  lemma KeptIsSame(l: PaneLayout, ids: seq<TabId>, requested: Option<TabId>)
    requires !Rewrites(l, ids, requested)
    ensures Normalized(l, ids, requested) == l
  {
    DropEmptyShrinks(l, PaneIds(l.root), ids);
    SameActive(l, ids);
  }

  /** The layout after `n` repairs in a row. */
  function Again(l: PaneLayout, ids: seq<TabId>, n: nat): PaneLayout {
    if n == 0 then l else Normalized(Again(l, ids, n - 1), ids, None)
  }

  /** After `n` repairs nothing is left to rewrite. */
  predicate AtRestAfter(l: PaneLayout, ids: seq<TabId>, n: nat) {
    !Rewrites(Again(l, ids, n), ids, None)
  }

  lemma {:induction false} NeverSettles(l: PaneLayout, ids: seq<TabId>, n: nat)
    requires Live(l) && OwnerChanged(l, ids) && !Distinct(ids)
    ensures Live(Again(l, ids, n)) && OwnerChanged(Again(l, ids, n), ids) && !AtRestAfter(l, ids, n)
  {
    if n > 0 {
      NeverSettles(l, ids, n - 1);
      RepairedOnce(Again(l, ids, n - 1), ids, None, None);
    }
  }

  /**
  Repeated repairs come to an end if and only if no tab is listed twice, or every listed tab is
  recorded where it is and the records are as many as the list has entries. They then end after the
  first one; otherwise each leaves the records too few, and so asks for another, for ever.
  */
  lemma SettlesExactly(l: PaneLayout, ids: seq<TabId>)
    requires Live(l)
    ensures (exists n: nat :: AtRestAfter(l, ids, n)) <==> Settles(l, ids)
    ensures Settles(l, ids) ==> forall n: nat :: n > 0 ==> Again(l, ids, n) == Again(l, ids, 1)
    ensures !Settles(l, ids) ==> forall n: nat :: OwnerChanged(Again(l, ids, n), ids)
  {
    if Settles(l, ids) {
      RepairedOnce(l, ids, None, None);
      var one: nat := 1;
      assert Again(l, ids, one) == Normalized(Again(l, ids, one - 1), ids, None);
      assert AtRestAfter(l, ids, one);
      forall n: nat | n > 0 ensures Again(l, ids, n) == Again(l, ids, 1) {
        StaysSettled(l, ids, n);
      }
    } else {
      forall n: nat ensures OwnerChanged(Again(l, ids, n), ids) && !AtRestAfter(l, ids, n) {
        NeverSettles(l, ids, n);
      }
    }
  }

  lemma {:induction false} StaysSettled(l: PaneLayout, ids: seq<TabId>, n: nat)
    requires n > 0 && Normalized(Normalized(l, ids, None), ids, None) == Normalized(l, ids, None)
    ensures Again(l, ids, n) == Again(l, ids, 1)
  {
    if n > 1 {
      StaysSettled(l, ids, n - 1);
      assert Again(l, ids, 1) == Normalized(Again(l, ids, 0), ids, None);
    } else {
      assert n == 1;
    }
  }
}
