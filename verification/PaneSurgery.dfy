/**
What the tree operations do to the panes and to the tabs in them: a close takes out exactly
one leaf, a split puts in exactly one fresh leaf beside its target, a resize moves exactly one
divider, and the ids drawn from the counter never come back.
*/
module PaneSurgery {
  import opened Prelude
  import opened Panes

  /** Divider ids, outermost first. */
  function SplitIds(node: PaneNode): seq<PaneId> {
    match node
    case Leaf(_) => []
    case Split(id, _, _, first, second) => [id] + (SplitIds(first) + SplitIds(second))
  }

  function Ratios(node: PaneNode): map<PaneId, real> {
    match node
    case Leaf(_) => map[]
    case Split(id, _, ratio, first, second) => (Ratios(first) + Ratios(second))[id := ratio]
  }

  ghost predicate RatiosUsable(node: PaneNode) {
    match node
    case Leaf(_) => true
    case Split(_, _, ratio, first, second) =>
      MIN_RATIO <= ratio <= 1.0 - MIN_RATIO && RatiosUsable(first) && RatiosUsable(second)
  }

  /** Panes are told apart by their ids and the focus is on one of them. */
  ghost predicate Live(l: PaneLayout) {
    Distinct(PaneIds(l.root)) && l.focused in PaneIds(l.root)
  }

  /** The part of the layout invariant that does not mention tabs. */
  ghost predicate Grown(l: PaneLayout) {
    && Live(l)
    && PaneCount(l) <= MAX_PANES
    && Distinct(SplitIds(l.root))
    && RatiosUsable(l.root)
    && (forall id :: id in PaneIds(l.root) ==> id <= l.counter)
    && (forall id :: id in SplitIds(l.root) ==> id <= l.counter)
  }

  lemma InitialGrown()
    ensures Grown(InitialPanes())
  {
  }

  // ------------------------------------------------------------------ closing a pane

  /** Removing a leaf takes exactly that id out of the reading order. */
  lemma {:induction false} RemoveLeafOrder(node: PaneNode, pane: PaneId)
    ensures RemoveLeaf(node, pane).None? <==> Minus(PaneIds(node), {pane}) == []
    ensures RemoveLeaf(node, pane).Some? ==> PaneIds(RemoveLeaf(node, pane).value) == Minus(PaneIds(node), {pane})
  {
    match node
    case Leaf(id) =>
      MinusSingle(id, {pane});
    case Split(id, _, _, first, second) =>
      RemoveLeafOrder(first, pane);
      RemoveLeafOrder(second, pane);
      MinusConcat(PaneIds(first), PaneIds(second), {pane});
  }

  lemma DistinctDividers(id: PaneId, first: seq<PaneId>, second: seq<PaneId>)
    ensures Distinct([id] + (first + second)) <==>
      Distinct(first) && Distinct(second) && id !in first && id !in second && forall s :: s in first ==> s !in second
  {
    DistinctConcat([id], first + second);
    DistinctConcat(first, second);
    assert id in [id] && forall x :: x in [id] ==> x == id;
  }

  /** What is left of the dividers when a leaf goes: a subset, still usable. */
  lemma {:induction false} RemoveLeafDividers(node: PaneNode, pane: PaneId)
    requires RemoveLeaf(node, pane).Some?
    ensures RatiosUsable(node) ==> RatiosUsable(RemoveLeaf(node, pane).value)
    ensures Distinct(SplitIds(node)) ==> Distinct(SplitIds(RemoveLeaf(node, pane).value))
    ensures forall s :: s in SplitIds(RemoveLeaf(node, pane).value) ==> s in SplitIds(node)
  {
    if node.Split? {
      var a, b := RemoveLeaf(node.first, pane), RemoveLeaf(node.second, pane);
      DistinctDividers(node.id, SplitIds(node.first), SplitIds(node.second));
      if a.Some? {
        RemoveLeafDividers(node.first, pane);
      }
      if b.Some? {
        RemoveLeafDividers(node.second, pane);
      }
      if a.Some? && b.Some? {
        DistinctDividers(node.id, SplitIds(a.value), SplitIds(b.value));
      }
    }
  }

  /** The pane that follows the closing one, or precedes it where none follows. */
  function Neighbour(order: seq<PaneId>, pane: PaneId): PaneId
    requires |order| > 1 && pane in order
  {
    var at := IndexOf(order, pane);
    if at + 1 < |order| then order[at + 1] else order[at - 1]
  }

  /** Closing one of several panes: exactly that leaf goes, and its tabs and focus go next door. */
  lemma ClosedPane(l: PaneLayout, pane: PaneId)
    requires Live(l) && PaneCount(l) > 1 && HasPane(l, pane)
    ensures PaneIds(Closed(l, pane).root) == Minus(PaneIds(l.root), {pane})
    ensures PaneCount(Closed(l, pane)) == PaneCount(l) - 1
    ensures var heir := Neighbour(PaneIds(l.root), pane);
      && heir != pane && HasPane(l, heir) && HasPane(Closed(l, pane), heir)
      && Closed(l, pane).focused == (if l.focused == pane then heir else l.focused)
      && Closed(l, pane).owner == HandedDown(l.owner, pane, heir)
      && Closed(l, pane).active.Keys == Elems(PaneIds(Closed(l, pane).root))
      && forall p :: HasPane(Closed(l, pane), p) ==>
           ActiveIn(Closed(l, pane), p) ==
             if p == heir && ActiveIn(l, p).None? then ActiveIn(l, pane) else ActiveIn(l, p)
  {
    var order := PaneIds(l.root);
    RemoveLeafOrder(l.root, pane);
    var heir := HeirIsNeighbour(order, pane, l.focused);
    DistinctCount(order);
    OnlyDistinct(order, Elems(order) - {pane});
    DistinctCount(Minus(order, {pane}));
    MinusElems(order, {pane});
    assert Elems(Minus(order, {pane})) == Elems(order) - {pane};
  }

  lemma HeirIsNeighbour(order: seq<PaneId>, pane: PaneId, focused: PaneId) returns (heir: PaneId)
    requires Distinct(order) && |order| > 1 && pane in order
    ensures heir == Neighbour(order, pane) && heir in order && heir != pane
    ensures heir in Minus(order, {pane}) && Heir(order, pane, Minus(order, {pane}), focused) == heir
  {
    MinusElems(order, {pane});
    heir := Neighbour(order, pane);
    var at := IndexOf(order, pane);
    if at + 1 < |order| {
      DistinctAt(order, at, at + 1);
    } else {
      DistinctAt(order, at - 1, at);
    }
  }

  lemma ClosedGrown(l: PaneLayout, pane: PaneId)
    requires Live(l)
    ensures Live(Closed(l, pane))
    ensures Grown(l) ==> Grown(Closed(l, pane))
  {
    if PaneCount(l) > 1 && HasPane(l, pane) {
      var order := PaneIds(l.root);
      ClosedPane(l, pane);
      OnlyDistinct(order, Elems(order) - {pane});
      MinusElems(order, {pane});
      RemoveLeafOrder(l.root, pane);
      RemoveLeafDividers(l.root, pane);
    }
  }

  /** Every tab keeps its pane, except that the closed pane's tabs are next door afterwards. */
  lemma ClosedKeepsTabs(l: PaneLayout, pane: PaneId, tab: TabId)
    requires Live(l) && PaneCount(l) > 1 && HasPane(l, pane)
    ensures PaneOf(Closed(l, pane), tab) ==
      if PaneOf(l, tab) == pane then Neighbour(PaneIds(l.root), pane) else PaneOf(l, tab)
  {
    ClosedPane(l, pane);
    MinusElems(PaneIds(l.root), {pane});
  }

  // ------------------------------------------------------------------ splitting a pane

  function Inserted(order: seq<PaneId>, at: nat, added: PaneId): seq<PaneId>
    requires at <= |order|
  {
    order[..at] + [added] + order[at..]
  }

  /** Every `pane` in `order` with `added` put right before or right after it. */
  function Beside(order: seq<PaneId>, pane: PaneId, added: PaneId, before: bool): seq<PaneId> {
    if order == [] then []
    else
      (if order[0] != pane then [order[0]] else if before then [added, pane] else [pane, added]) +
      Beside(order[1..], pane, added, before)
  }

  lemma {:induction false} BesideConcat(a: seq<PaneId>, b: seq<PaneId>, pane: PaneId, added: PaneId, before: bool)
    ensures Beside(a + b, pane, added, before) == Beside(a, pane, added, before) + Beside(b, pane, added, before)
  {
    if a == [] {
      assert a + b == b;
    } else {
      assert (a + b)[1..] == a[1..] + b;
      BesideConcat(a[1..], b, pane, added, before);
    }
  }

  lemma {:induction false} BesideAbsent(order: seq<PaneId>, pane: PaneId, added: PaneId, before: bool)
    requires pane !in order
    ensures Beside(order, pane, added, before) == order
  {
    if order != [] {
      BesideAbsent(order[1..], pane, added, before);
    }
  }

  lemma InsertedAfter(head: PaneId, rest: seq<PaneId>, at: nat, added: PaneId)
    requires at <= |rest|
    ensures Inserted([head] + rest, at + 1, added) == [head] + Inserted(rest, at, added)
  {
    assert ([head] + rest)[..at + 1] == [head] + rest[..at];
    assert ([head] + rest)[at + 1..] == rest[at..];
  }

  lemma {:induction false} BesideIsInserted(order: seq<PaneId>, pane: PaneId, added: PaneId, before: bool)
    requires Distinct(order) && pane in order
    ensures Beside(order, pane, added, before) ==
      Inserted(order, if before then IndexOf(order, pane) else IndexOf(order, pane) + 1, added)
  {
    if order[0] == pane {
      BesideAbsent(order[1..], pane, added, before);
    } else {
      var rest := order[1..];
      BesideIsInserted(rest, pane, added, before);
      InsertedAfter(order[0], rest, if before then IndexOf(rest, pane) else IndexOf(rest, pane) + 1, added);
      assert order == [order[0]] + rest;
    }
  }

  lemma {:induction false} SplitLeafAbsent(node: PaneNode, pane: PaneId, added: PaneNode, splitId: PaneId, d: Direction,
    before: bool)
    requires pane !in PaneIds(node)
    ensures SplitLeaf(node, pane, added, splitId, d, before) == node
  {
    if node.Split? {
      SplitLeafAbsent(node.first, pane, added, splitId, d, before);
      SplitLeafAbsent(node.second, pane, added, splitId, d, before);
    }
  }

  /** A split puts one leaf right before or right after its target. */
  lemma {:induction false} SplitLeafOrder(node: PaneNode, pane: PaneId, added: PaneId, splitId: PaneId, d: Direction,
    before: bool)
    ensures PaneIds(SplitLeaf(node, pane, Leaf(added), splitId, d, before)) ==
      Beside(PaneIds(node), pane, added, before)
  {
    if node.Split? {
      SplitLeafOrder(node.first, pane, added, splitId, d, before);
      SplitLeafOrder(node.second, pane, added, splitId, d, before);
      BesideConcat(PaneIds(node.first), PaneIds(node.second), pane, added, before);
    } else {
      assert PaneIds(node)[1..] == [];
      assert Beside(PaneIds(node)[1..], pane, added, before) == [];
    }
  }

  lemma {:induction false} SplitLeafSplitIds(node: PaneNode, pane: PaneId, added: PaneId, splitId: PaneId, d: Direction,
    before: bool)
    requires Distinct(PaneIds(node)) && pane in PaneIds(node)
    ensures forall s :: s in SplitIds(SplitLeaf(node, pane, Leaf(added), splitId, d, before)) <==>
      s in SplitIds(node) || s == splitId
  {
    if node.Split? {
      DistinctConcat(PaneIds(node.first), PaneIds(node.second));
      if pane in PaneIds(node.first) {
        SplitLeafSplitIds(node.first, pane, added, splitId, d, before);
        SplitLeafAbsent(node.second, pane, Leaf(added), splitId, d, before);
      } else {
        SplitLeafAbsent(node.first, pane, Leaf(added), splitId, d, before);
        SplitLeafSplitIds(node.second, pane, added, splitId, d, before);
      }
    } else {
      assert SplitIds(SplitLeaf(node, pane, Leaf(added), splitId, d, before)) == [splitId];
    }
  }

  /** A split adds one divider, in the middle. */
  lemma {:induction false} SplitLeafDividers(node: PaneNode, pane: PaneId, added: PaneId, splitId: PaneId, d: Direction,
    before: bool)
    requires Distinct(PaneIds(node)) && pane in PaneIds(node)
    ensures var r := SplitLeaf(node, pane, Leaf(added), splitId, d, before);
      && (RatiosUsable(node) ==> RatiosUsable(r))
      && (Distinct(SplitIds(node)) && splitId !in SplitIds(node) ==> Distinct(SplitIds(r)))
  {
    SplitLeafSplitIds(node, pane, added, splitId, d, before);
    if node.Split? {
      var first, second := node.first, node.second;
      DistinctConcat(PaneIds(first), PaneIds(second));
      DistinctDividers(node.id, SplitIds(first), SplitIds(second));
      if pane in PaneIds(first) {
        SplitLeafDividers(first, pane, added, splitId, d, before);
        SplitLeafSplitIds(first, pane, added, splitId, d, before);
        SplitLeafAbsent(second, pane, Leaf(added), splitId, d, before);
        DistinctDividers(node.id, SplitIds(SplitLeaf(first, pane, Leaf(added), splitId, d, before)), SplitIds(second));
      } else {
        SplitLeafAbsent(first, pane, Leaf(added), splitId, d, before);
        SplitLeafDividers(second, pane, added, splitId, d, before);
        SplitLeafSplitIds(second, pane, added, splitId, d, before);
        DistinctDividers(node.id, SplitIds(first), SplitIds(SplitLeaf(second, pane, Leaf(added), splitId, d, before)));
      }
    } else {
      var r := SplitLeaf(node, pane, Leaf(added), splitId, d, before);
      assert SplitIds(r) == [splitId];
    }
  }

  /** Where a split puts the new pane. */
  function SplitCut(l: PaneLayout, pane: PaneId, zone: DropZone): (at: nat)
    requires HasPane(l, pane)
    ensures at <= PaneCount(l)
  {
    var at := IndexOf(PaneIds(l.root), pane);
    if IsBefore(zone) then at else at + 1
  }

  lemma SplitOrder(l: PaneLayout, pane: PaneId, zone: DropZone, tab: TabId)
    requires Live(l) && SplitWithTab(l, pane, zone, tab).Some?
    ensures var r := SplitWithTab(l, pane, zone, tab).value;
      PaneIds(r.root) == Inserted(PaneIds(l.root), SplitCut(l, pane, zone), r.counter)
  {
    var added := l.counter + 1;
    BesideIsInserted(PaneIds(l.root), pane, added, IsBefore(zone));
    SplitLeafOrder(l.root, pane, added, added, DirectionOf(zone), IsBefore(zone));
  }

  /** Splitting a pane that exists, below the limit: one fresh pane beside it, holding the tab and the focus. */
  lemma SplitPane(l: PaneLayout, pane: PaneId, zone: DropZone, tab: TabId)
    requires Grown(l)
    ensures SplitWithTab(l, pane, zone, tab).Some? <==> PaneCount(l) < MAX_PANES && HasPane(l, pane)
    ensures SplitWithTab(l, pane, zone, tab).Some? ==>
      var r := SplitWithTab(l, pane, zone, tab).value;
      && r.counter !in PaneIds(l.root)
      && PaneIds(r.root) == Inserted(PaneIds(l.root), SplitCut(l, pane, zone), r.counter)
      && (forall p :: HasPane(r, p) <==> HasPane(l, p) || p == r.counter)
      && r.focused == r.counter && ActiveOf(r) == Some(tab)
  {
    if PaneCount(l) < MAX_PANES && HasPane(l, pane) {
      SplitOrder(l, pane, zone, tab);
      InsertedIds(PaneIds(l.root), SplitCut(l, pane, zone), l.counter + 1);
    }
  }

  /**
  A split moves the dragged tab into the new pane and leaves every other tab, and what every other pane shows,
  alone.
  */
  lemma SplitKeepsTabs(l: PaneLayout, pane: PaneId, zone: DropZone, tab: TabId)
    requires Grown(l) && SplitWithTab(l, pane, zone, tab).Some?
    ensures var r := SplitWithTab(l, pane, zone, tab).value;
      && PaneOf(r, tab) == r.counter
      && (forall t :: t != tab && t in l.owner && HasPane(l, l.owner[t]) ==> PaneOf(r, t) == PaneOf(l, t))
      && (forall p :: HasPane(l, p) ==> ActiveIn(r, p) == ActiveIn(l, p))
  {
    SplitPane(l, pane, zone, tab);
  }

  lemma SplitGrown(l: PaneLayout, pane: PaneId, zone: DropZone, tab: TabId)
    requires Grown(l) && SplitWithTab(l, pane, zone, tab).Some?
    ensures var r := SplitWithTab(l, pane, zone, tab).value; Grown(r) && r.counter == l.counter + 1
  {
    var r := SplitWithTab(l, pane, zone, tab).value;
    SplitOrder(l, pane, zone, tab);
    InsertedIds(PaneIds(l.root), SplitCut(l, pane, zone), r.counter);
    SplitLeafSplitIds(l.root, pane, r.counter, r.counter, DirectionOf(zone), IsBefore(zone));
    SplitLeafDividers(l.root, pane, r.counter, r.counter, DirectionOf(zone), IsBefore(zone));
  }

  lemma InsertedIds(order: seq<PaneId>, at: nat, added: PaneId)
    requires at <= |order|
    ensures forall x :: x in Inserted(order, at, added) <==> x in order || x == added
    ensures Distinct(order) && added !in order ==> Distinct(Inserted(order, at, added))
    ensures |Inserted(order, at, added)| == |order| + 1
  {
    assert order == order[..at] + order[at..];
    DistinctConcat(order[..at], order[at..]);
    DistinctConcat(order[..at] + [added], order[at..]);
    DistinctConcat(order[..at], [added]);
  }

  // ------------------------------------------------------------------ dragging a divider

  lemma RatiosKeys(node: PaneNode)
    ensures Ratios(node).Keys == Elems(SplitIds(node))
  {
    if node.Split? {
      RatiosKeys(node.first);
      RatiosKeys(node.second);
    }
  }

  lemma {:induction false} WithRatioKeepsIds(node: PaneNode, splitId: PaneId, ratio: real)
    requires MIN_RATIO <= ratio <= 1.0 - MIN_RATIO
    ensures PaneIds(WithRatio(node, splitId, ratio)) == PaneIds(node)
    ensures SplitIds(WithRatio(node, splitId, ratio)) == SplitIds(node)
    ensures RatiosUsable(node) ==> RatiosUsable(WithRatio(node, splitId, ratio))
  {
    if node.Split? {
      WithRatioKeepsIds(node.first, splitId, ratio);
      WithRatioKeepsIds(node.second, splitId, ratio);
    }
  }

  lemma OverrideOne(m: map<PaneId, real>, n: map<PaneId, real>, id: PaneId, was: real, splitId: PaneId, ratio: real)
    requires m.Keys !! n.Keys && id != splitId
    ensures splitId in m ==> (m[splitId := ratio] + n)[id := was] == (m + n)[id := was][splitId := ratio]
    ensures splitId in n ==> (m + n[splitId := ratio])[id := was] == (m + n)[id := was][splitId := ratio]
  {
  }

  /** Dragging a divider changes that divider's share and no other. */
  lemma {:induction false} WithRatioMovesOne(node: PaneNode, splitId: PaneId, ratio: real)
    requires Distinct(SplitIds(node))
    ensures Ratios(WithRatio(node, splitId, ratio)) ==
      if splitId in SplitIds(node) then Ratios(node)[splitId := ratio] else Ratios(node)
  {
    if node.Split? {
      var m, n := Ratios(node.first), Ratios(node.second);
      DistinctDividers(node.id, SplitIds(node.first), SplitIds(node.second));
      RatiosKeys(node.first);
      RatiosKeys(node.second);
      if node.id != splitId {
        OverrideOne(m, n, node.id, node.ratio, splitId, ratio);
        WithRatioMovesOne(node.first, splitId, ratio);
        WithRatioMovesOne(node.second, splitId, ratio);
        assert splitId in SplitIds(node) <==> splitId in m || splitId in n;
      }
    }
  }

  lemma ResizedGrown(l: PaneLayout, splitId: PaneId, ratio: Number)
    requires Grown(l)
    ensures Grown(Resized(l, splitId, ratio))
    ensures PaneIds(Resized(l, splitId, ratio).root) == PaneIds(l.root)
    ensures Ratios(Resized(l, splitId, ratio).root) ==
      if splitId in SplitIds(l.root) then Ratios(l.root)[splitId := ClampRatio(ratio)] else Ratios(l.root)
  {
    WithRatioKeepsIds(l.root, splitId, ClampRatio(ratio));
    WithRatioMovesOne(l.root, splitId, ClampRatio(ratio));
  }
}
