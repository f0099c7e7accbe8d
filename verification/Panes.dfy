/**
The editor area: a binary tree of panes, the layout that says which pane every tab sits in,
and the operations on both (src/lib/panes.ts). A JavaScript record is a map here, a missing
key and `undefined` are the same thing, and `null` is None.
*/
module Panes {
  import opened Prelude

  /** A pane id `p<n>` or a divider id `s<n>`, by its number. */
  type PaneId = nat

  /** A tab id. Ids are only ever compared, so which string one is does not matter. */
  type TabId = nat

  const MAX_PANES: nat := 4
  const MIN_RATIO: real := 0.15

  datatype Direction = Row | Column

  datatype PaneNode =
    | Leaf(id: PaneId)
    | Split(id: PaneId, direction: Direction, ratio: real, first: PaneNode, second: PaneNode)

  datatype PaneLayout = PaneLayout(
    root: PaneNode,
    focused: PaneId,
    active: map<PaneId, Option<TabId>>,
    owner: map<TabId, PaneId>,
    counter: nat)

  datatype DropZone = Left | Right | Top | Bottom | Center

  /** A JavaScript number, as far as a divider position can tell numbers apart. */
  datatype Number = Finite(value: real) | NotFinite

  // ------------------------------------------------------------------ reading a layout

  /** The layout before any tab is open: one pane, `p1`. */
  function InitialPanes(): PaneLayout {
    PaneLayout(Leaf(1), 1, map[1 := None], map[], 1)
  }

  /** The panes of a tree from left to right, top to bottom. */
  function PaneIds(node: PaneNode): (ids: seq<PaneId>)
    ensures ids != []
  {
    match node
    case Leaf(id) => [id]
    case Split(_, _, _, first, second) => PaneIds(first) + PaneIds(second)
  }

  function PaneCount(l: PaneLayout): nat { |PaneIds(l.root)| }

  predicate HasPane(l: PaneLayout, pane: PaneId) { pane in PaneIds(l.root) }

  /** Where a tab sits. A tab without a record, or whose pane was closed, counts as sitting where the focus is. */
  function PaneOf(l: PaneLayout, tab: TabId): PaneId {
    if tab in l.owner && HasPane(l, l.owner[tab]) then l.owner[tab] else l.focused
  }

  /** What a pane shows; a pane with no entry shows nothing. */
  function ActiveIn(l: PaneLayout, pane: PaneId): Option<TabId> {
    if pane in l.active then l.active[pane] else None
  }

  function ActiveOf(l: PaneLayout): Option<TabId> { ActiveIn(l, l.focused) }

  /** The tabs that sit in `pane`, as a set. */
  function Residents(l: PaneLayout, ids: seq<TabId>, pane: PaneId): set<TabId> {
    set t | t in ids && PaneOf(l, t) == pane
  }

  /** What a pane's strip lists: those tabs of the flat list that sit in it. */
  function Strip(l: PaneLayout, ids: seq<TabId>, pane: PaneId): seq<TabId> {
    Only(ids, Residents(l, ids, pane))
  }

  /** What the first pane that does not have the focus shows. */
  function SideTab(l: PaneLayout, order: seq<PaneId>): Option<TabId> {
    if order == [] then None
    else if order[0] != l.focused then ActiveIn(l, order[0])
    else SideTab(l, order[1..])
  }

  function SideTabOf(l: PaneLayout): Option<TabId> { SideTab(l, PaneIds(l.root)) }

  // ------------------------------------------------------------------ the tree

  function RemoveLeaf(node: PaneNode, pane: PaneId): Option<PaneNode> {
    match node
    case Leaf(id) => if id == pane then None else Some(node)
    case Split(id, direction, ratio, first, second) =>
      var a := RemoveLeaf(first, pane);
      var b := RemoveLeaf(second, pane);
      if a.None? then b else if b.None? then a else Some(Split(id, direction, ratio, a.value, b.value))
  }

  function SplitLeaf(node: PaneNode, pane: PaneId, added: PaneNode, splitId: PaneId, direction: Direction,
    before: bool): PaneNode {
    match node
    case Leaf(id) =>
      if id != pane then node
      else Split(splitId, direction, 0.5, if before then added else node, if before then node else added)
    case Split(id, d, ratio, first, second) =>
      Split(id, d, ratio,
            SplitLeaf(first, pane, added, splitId, direction, before),
            SplitLeaf(second, pane, added, splitId, direction, before))
  }

  function WithRatio(node: PaneNode, splitId: PaneId, ratio: real): PaneNode {
    match node
    case Leaf(_) => node
    case Split(id, d, r, first, second) =>
      if id == splitId then Split(id, d, ratio, first, second)
      else Split(id, d, r, WithRatio(first, splitId, ratio), WithRatio(second, splitId, ratio))
  }

  /** The nearest usable divider ratio; what is no number at all becomes the middle. */
  function ClampRatio(ratio: Number): (r: real)
    ensures MIN_RATIO <= r <= 1.0 - MIN_RATIO
    ensures ratio.Finite? && MIN_RATIO <= ratio.value <= 1.0 - MIN_RATIO ==> r == ratio.value
  {
    match ratio
    case NotFinite => 0.5
    case Finite(v) => if v < MIN_RATIO then MIN_RATIO else if v > 1.0 - MIN_RATIO then 1.0 - MIN_RATIO else v
  }

  function Resized(l: PaneLayout, splitId: PaneId, ratio: Number): PaneLayout {
    l.(root := WithRatio(l.root, splitId, ClampRatio(ratio)))
  }

  // ------------------------------------------------------------------ split and close

  function DirectionOf(zone: DropZone): Direction { if zone == Left || zone == Right then Row else Column }

  predicate IsBefore(zone: DropZone) { zone == Left || zone == Top }

  /** A fresh pane beside `pane`, showing `tab`. None if there is no such pane, or there are panes enough. */
  function SplitWithTab(l: PaneLayout, pane: PaneId, zone: DropZone, tab: TabId): Option<PaneLayout> {
    if PaneCount(l) >= MAX_PANES || !HasPane(l, pane) then None
    else
      var added := l.counter + 1;
      Some(PaneLayout(
        SplitLeaf(l.root, pane, Leaf(added), added, DirectionOf(zone), IsBefore(zone)),
        added,
        l.active[added := Some(tab)],
        l.owner[tab := added],
        added))
  }

  /**
  Which of the `remaining` panes inherits from `pane`: its successor in `order` if that remains, or its
  predecessor.
  */
  function Heir(order: seq<PaneId>, pane: PaneId, remaining: seq<PaneId>, focused: PaneId): PaneId {
    var at := IndexOf(order, pane);
    if 0 <= at + 1 < |order| && order[at + 1] in remaining then order[at + 1]
    else if 0 <= at - 1 < |order| && order[at - 1] in remaining then order[at - 1]
    else if remaining != [] then remaining[0]
    else focused
  }

  function HandedDown(owner: map<TabId, PaneId>, pane: PaneId, target: PaneId): map<TabId, PaneId> {
    map t | t in owner :: if owner[t] == pane then target else owner[t]
  }

  function ShownBy(l: PaneLayout, panes: seq<PaneId>): map<PaneId, Option<TabId>> {
    map id | id in panes :: ActiveIn(l, id)
  }

  /** The layout without `pane`. Its heir gets its tabs, its focus, and what it showed if the heir showed nothing. */
  function Closed(l: PaneLayout, pane: PaneId): PaneLayout {
    if PaneCount(l) <= 1 || !HasPane(l, pane) then l
    else match RemoveLeaf(l.root, pane)
      case None => l
      case Some(root) =>
        var remaining := PaneIds(root);
        var target := Heir(PaneIds(l.root), pane, remaining, l.focused);
        var shown := ShownBy(l, remaining);
        var active :=
          if target in shown && shown[target].None? && pane in l.active then shown[target := l.active[pane]] else shown;
        PaneLayout(root, if l.focused == pane then target else l.focused, active, HandedDown(l.owner, pane, target),
          l.counter)
  }

  /** `Closed`, as the source computes it: the two records are rebuilt entry by entry. */
  method ClosePane(l: PaneLayout, pane: PaneId) returns (r: PaneLayout)
    ensures r == Closed(l, pane)
  {
    if PaneCount(l) <= 1 || !HasPane(l, pane) {
      return l;
    }
    var pruned := RemoveLeaf(l.root, pane);
    if pruned.None? {
      return l;
    }
    var root := pruned.value;
    var remaining := PaneIds(root);
    var target := Heir(PaneIds(l.root), pane, remaining, l.focused);

    var owner: map<TabId, PaneId> := map[];
    var todo := l.owner.Keys;
    while todo != {}
      invariant todo <= l.owner.Keys
      invariant owner.Keys == l.owner.Keys - todo
      invariant forall t :: t in owner ==> owner[t] == HandedDown(l.owner, pane, target)[t]
    {
      var t :| t in todo;
      owner := owner[t := if l.owner[t] == pane then target else l.owner[t]];
      todo := todo - {t};
    }
    assert owner == HandedDown(l.owner, pane, target);

    var active: map<PaneId, Option<TabId>> := map[];
    for i := 0 to |remaining|
      invariant active.Keys == Elems(remaining[..i])
      invariant forall id :: id in active ==> active[id] == ActiveIn(l, id)
    {
      active := active[remaining[i] := ActiveIn(l, remaining[i])];
      assert remaining[..i + 1] == remaining[..i] + [remaining[i]];
    }
    assert remaining[..|remaining|] == remaining;
    assert active == ShownBy(l, remaining);

    if target in active && active[target].None? && pane in l.active {
      active := active[target := l.active[pane]];
    }
    r := PaneLayout(root, if l.focused == pane then target else l.focused, active, owner, l.counter);
  }

  // ------------------------------------------------------------------ focus and tabs

  function Focused(l: PaneLayout, pane: PaneId): PaneLayout {
    if l.focused == pane || !HasPane(l, pane) then l else l.(focused := pane)
  }

  /** Makes `tab` what its own pane shows, and gives that pane the focus. */
  function Activated(l: PaneLayout, tab: TabId): PaneLayout {
    var pane := PaneOf(l, tab);
    l.(active := l.active[pane := Some(tab)], owner := l.owner[tab := pane], focused := pane)
  }

  function MovedToPane(l: PaneLayout, tab: TabId, pane: PaneId): PaneLayout {
    if !HasPane(l, pane) then l
    else l.(owner := l.owner[tab := pane], active := l.active[pane := Some(tab)], focused := pane)
  }
}
