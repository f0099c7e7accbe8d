/**
When a requested tab ends up active, said of the layout as it is passed in: where the focus goes once
empty panes are closed, and what that pane then shows, are read off the reading order.
*/
module PaneRequest {
  import opened Prelude
  import opened Panes
  import opened PaneSurgery
  import opened PaneNormalize

  // ------------------------------------------------------------------ reading it off

  /** The panes that have tabs. */
  ghost function Full(l: PaneLayout, ids: seq<TabId>): set<PaneId> {
    set p | p in PaneIds(l.root) && Occupied(l, ids, p)
  }

  predicate AllEmpty(full: set<PaneId>, order: seq<PaneId>) {
    forall p :: p in order ==> p !in full
  }

  /** The panes without tabs at the end, the last one first. */
  function EmptyTail(full: set<PaneId>, order: seq<PaneId>): seq<PaneId> {
    if order == [] || Last(order) in full then []
    else [Last(order)] + EmptyTail(full, order[..|order| - 1])
  }

  function FirstFull(full: set<PaneId>, order: seq<PaneId>): Option<PaneId> {
    if order == [] then None else if order[0] in full then Some(order[0]) else FirstFull(full, order[1..])
  }

  function LastFull(full: set<PaneId>, order: seq<PaneId>): Option<PaneId> {
    if order == [] then None
    else if Last(order) in full then Some(Last(order))
    else LastFull(full, order[..|order| - 1])
  }

  function Before(order: seq<PaneId>, pane: PaneId): seq<PaneId>
    requires pane in order
  {
    order[..IndexOf(order, pane)]
  }

  function After(order: seq<PaneId>, pane: PaneId): seq<PaneId>
    requires pane in order
  {
    order[IndexOf(order, pane) + 1..]
  }

  /** Where the focus is left: where it was, or on the next pane with tabs, or on the last one. */
  function FocusLeft(full: set<PaneId>, order: seq<PaneId>, focused: PaneId): PaneId
    requires focused in order
  {
    if focused in full then focused
    else
      match FirstFull(full, After(order, focused))
      case Some(p) => p
      case None => match LastFull(full, order) case Some(p) => p case None => focused
  }

  function Behind(full: set<PaneId>, order: seq<PaneId>): seq<PaneId> {
    if AllEmpty(full, order) then EmptyTail(full, order) else []
  }

  /**
  Whose shown tab a pane may take over, first come first: its own, that of the panes without tabs
  right before it, and, when it is the last one with tabs, that of the panes behind it.
  */
  function Lenders(full: set<PaneId>, order: seq<PaneId>, pane: PaneId): seq<PaneId>
    requires pane in order
  {
    [pane] + (EmptyTail(full, Before(order, pane)) + Behind(full, After(order, pane)))
  }

  function FirstShown(l: PaneLayout, panes: seq<PaneId>): Option<TabId> {
    if panes == [] then None
    else if ActiveIn(l, panes[0]).Some? then ActiveIn(l, panes[0])
    else FirstShown(l, panes[1..])
  }

  // ------------------------------------------------------------------ lists of panes

  lemma EmptyTailSnoc(full: set<PaneId>, order: seq<PaneId>, p: PaneId)
    ensures EmptyTail(full, order + [p]) == if p in full then [] else [p] + EmptyTail(full, order)
    ensures AllEmpty(full, order + [p]) <==> AllEmpty(full, order) && p !in full
  {
    assert (order + [p])[..|order|] == order;
    assert p in order + [p] && forall q :: q in order ==> q in order + [p];
  }

  lemma {:induction false} EmptyTailConcat(full: set<PaneId>, a: seq<PaneId>, b: seq<PaneId>)
    ensures EmptyTail(full, a + b) ==
      if AllEmpty(full, b) then EmptyTail(full, b) + EmptyTail(full, a) else EmptyTail(full, b)
    decreases |b|
  {
    if b == [] {
      assert a + b == a;
    } else {
      var c, p := b[..|b| - 1], Last(b);
      assert b == c + [p];
      AppendAssoc(a, c, [p]);
      EmptyTailConcat(full, a, c);
      EmptyTailSnoc(full, c, p);
      EmptyTailSnoc(full, a + c, p);
      AppendAssoc([p], EmptyTail(full, c), EmptyTail(full, a));
    }
  }

  lemma {:induction false} EmptyTailMembers(full: set<PaneId>, order: seq<PaneId>)
    ensures forall p :: p in EmptyTail(full, order) ==> p in order && p !in full
  {
    if order != [] {
      EmptyTailMembers(full, order[..|order| - 1]);
    }
  }

  lemma {:induction false} EmptyTailOf(full: set<PaneId>, p: PaneId, order: seq<PaneId>)
    requires p !in full && AllEmpty(full, order)
    ensures EmptyTail(full, [p] + order) == EmptyTail(full, order) + [p]
  {
    EmptyTailConcat(full, [p], order);
    assert [p][..0] == [];
  }

  lemma {:induction false} FirstShownSame(l: PaneLayout, r: PaneLayout, panes: seq<PaneId>)
    requires forall p :: p in panes ==> ActiveIn(r, p) == ActiveIn(l, p)
    ensures FirstShown(r, panes) == FirstShown(l, panes)
  {
    if panes != [] {
      assert panes[0] in panes;
      FirstShownSame(l, r, panes[1..]);
    }
  }

  lemma FirstShownCons(l: PaneLayout, p: PaneId, rest: seq<PaneId>)
    ensures FirstShown(l, [p] + rest) == if ActiveIn(l, p).Some? then ActiveIn(l, p) else FirstShown(l, rest)
  {
    assert ([p] + rest)[1..] == rest;
  }

  /** `q` has taken over what `p` showed, if it showed nothing itself. */
  ghost predicate Handed(l: PaneLayout, r: PaneLayout, q: PaneId, p: PaneId) {
    ActiveIn(r, q) == if ActiveIn(l, q).None? then ActiveIn(l, p) else ActiveIn(l, q)
  }

  lemma {:induction false} FirstShownHanded(l: PaneLayout, r: PaneLayout, x: seq<PaneId>, q: PaneId, p: PaneId,
    y: seq<PaneId>)
    requires Handed(l, r, q, p) && forall z :: z in x || z in y ==> ActiveIn(r, z) == ActiveIn(l, z)
    ensures FirstShown(r, x + ([q] + y)) == FirstShown(l, x + ([q] + ([p] + y)))
  {
    if x == [] {
      FirstShownSame(l, r, y);
      FirstShownCons(r, q, y);
      FirstShownCons(l, q, [p] + y);
      FirstShownCons(l, p, y);
      assert x + ([q] + y) == [q] + y && x + ([q] + ([p] + y)) == [q] + ([p] + y);
    } else {
      assert x[0] in x;
      FirstShownHanded(l, r, x[1..], q, p, y);
      FirstShownCons(r, x[0], x[1..] + ([q] + y));
      FirstShownCons(l, x[0], x[1..] + ([q] + ([p] + y)));
      assert x + ([q] + y) == [x[0]] + (x[1..] + ([q] + y));
      assert x + ([q] + ([p] + y)) == [x[0]] + (x[1..] + ([q] + ([p] + y)));
    }
  }

  lemma {:induction false} LastFullWithout(full: set<PaneId>, a: seq<PaneId>, p: PaneId, b: seq<PaneId>)
    requires p !in full
    ensures LastFull(full, a + [p] + b) == LastFull(full, a + b)
    decreases |b|
  {
    if b == [] {
      assert a + [p] + b == a + [p] && a + b == a && (a + [p])[..|a|] == a;
    } else {
      var c := b[..|b| - 1];
      assert (a + [p] + b)[..|a + [p] + b| - 1] == a + [p] + c && (a + b)[..|a + b| - 1] == a + c;
      LastFullWithout(full, a, p, c);
    }
  }

  /** The reading order around one pane. */
  ghost predicate Around(order: seq<PaneId>, before: seq<PaneId>, pane: PaneId, behind: seq<PaneId>) {
    order == before + [pane] + behind && Distinct(order)
  }

  lemma AroundIs(order: seq<PaneId>, before: seq<PaneId>, pane: PaneId, behind: seq<PaneId>)
    requires Around(order, before, pane, behind)
    ensures pane in order && Before(order, pane) == before && After(order, pane) == behind
  {
    assert order[|before|] == pane;
    DistinctIndex(order, |before|);
  }

  lemma AroundOf(order: seq<PaneId>, pane: PaneId)
    requires Distinct(order) && pane in order
    ensures Around(order, Before(order, pane), pane, After(order, pane))
  {
    var at := IndexOf(order, pane);
    assert order == order[..at] + [order[at]] + order[at + 1..];
  }

  // ------------------------------------------------------------------ closing one empty pane

  /** `p` is empty, all before it are not, and some pane is not. */
  ghost predicate Steps(full: set<PaneId>, kept: seq<PaneId>, p: PaneId, rest: seq<PaneId>) {
    p !in full && (forall q :: q in kept ==> q in full) && LastFull(full, kept + rest).Some?
  }

  /** In this layout the panes before `p` all have tabs, and `p` has none and is not the only pane. */
  ghost predicate Next(l: PaneLayout, full: set<PaneId>, kept: seq<PaneId>, p: PaneId, rest: seq<PaneId>) {
    && Live(l) && PaneCount(l) > 1 && Around(PaneIds(l.root), kept, p, rest)
    && Steps(full, kept, p, rest)
  }

  function HeirOf(kept: seq<PaneId>, rest: seq<PaneId>): PaneId
    requires kept != [] || rest != []
  {
    if rest != [] then rest[0] else Last(kept)
  }

  lemma NotIn(s: seq<PaneId>, p: PaneId)
    requires p !in s
    ensures Minus(s, {p}) == s
  {
    OnlyAll(s, Elems(s) - {p});
  }

  lemma WithoutDistinct(kept: seq<PaneId>, p: PaneId, rest: seq<PaneId>)
    requires Distinct(kept + [p] + rest)
    ensures Distinct(kept + rest) && p !in kept && p !in rest
  {
    DistinctConcat(kept + [p], rest);
    DistinctConcat(kept, [p]);
    DistinctConcat(kept, rest);
  }

  lemma MinusOne(kept: seq<PaneId>, p: PaneId, rest: seq<PaneId>)
    requires Distinct(kept + [p] + rest)
    ensures Minus(kept + [p] + rest, {p}) == kept + rest
  {
    WithoutDistinct(kept, p, rest);
    MinusConcat(kept + [p], rest, {p});
    MinusConcat(kept, [p], {p});
    MinusSingle(p, {p});
    NotIn(kept, p);
    NotIn(rest, p);
    assert kept + [] == kept;
  }

  lemma NextCloses(l: PaneLayout, full: set<PaneId>, kept: seq<PaneId>, p: PaneId, rest: seq<PaneId>)
    requires Next(l, full, kept, p, rest)
    ensures kept != [] || rest != []
    ensures var r, heir := Closed(l, p), HeirOf(kept, rest);
      && PaneIds(r.root) == kept + rest && Live(r) && Handed(l, r, heir, p)
      && r.focused == (if l.focused == p then heir else l.focused)
      && forall q :: q in kept + rest && q != heir ==> ActiveIn(r, q) == ActiveIn(l, q)
  {
    var order := PaneIds(l.root);
    AroundIs(order, kept, p, rest);
    ClosedPane(l, p);
    ClosedGrown(l, p);
    MinusOne(kept, p, rest);
    assert IndexOf(order, p) == |kept| by {
      DistinctIndex(order, |kept|);
    }
    assert Neighbour(order, p) == HeirOf(kept, rest);
  }

  lemma FirstBehind(kept: seq<PaneId>, c: PaneId, more: seq<PaneId>)
    requires Distinct(kept + ([c] + more))
    ensures c in kept + ([c] + more) && After(kept + ([c] + more), c) == more
  {
    AppendAssoc(kept, [c], more);
    AroundIs(kept + ([c] + more), kept, c, more);
  }

  /** The focus of `p` goes where it would have ended anyway. */
  lemma HeirFocus(full: set<PaneId>, kept: seq<PaneId>, p: PaneId, rest: seq<PaneId>)
    requires Around(kept + [p] + rest, kept, p, rest) && Steps(full, kept, p, rest)
    ensures (kept != [] || rest != []) && HeirOf(kept, rest) in kept + rest
    ensures p in kept + [p] + rest
    ensures FocusLeft(full, kept + rest, HeirOf(kept, rest)) == FocusLeft(full, kept + [p] + rest, p)
  {
    AroundIs(kept + [p] + rest, kept, p, rest);
    LastFullWithout(full, kept, p, rest);
    if rest != [] {
      WithoutDistinct(kept, p, rest);
      assert rest == [rest[0]] + rest[1..];
      FirstBehind(kept, rest[0], rest[1..]);
    } else {
      assert kept + rest == kept && Last(kept) in kept;
    }
  }

  lemma FrontAssoc(x: seq<PaneId>, a: seq<PaneId>, q: PaneId, b: seq<PaneId>)
    ensures x + (a + [q] + b) == x + a + [q] + b
  {
  }

  /** Around a pane behind `p`, with `p` and without. */
  lemma RestAround(kept: seq<PaneId>, p: PaneId, rest: seq<PaneId>, a: seq<PaneId>, q: PaneId, b: seq<PaneId>)
    requires Distinct(kept + [p] + rest) && rest == a + [q] + b
    ensures q in kept + [p] + rest && Before(kept + [p] + rest, q) == kept + [p] + a && After(kept + [p] + rest, q) == b
    ensures q in kept + rest && Before(kept + rest, q) == kept + a && After(kept + rest, q) == b
  {
    WithoutDistinct(kept, p, rest);
    FrontAssoc(kept + [p], a, q, b);
    FrontAssoc(kept, a, q, b);
    AroundIs(kept + [p] + rest, kept + [p] + a, q, b);
    AroundIs(kept + rest, kept + a, q, b);
  }

  lemma BackAssoc(a: seq<PaneId>, q: PaneId, b: seq<PaneId>, x: seq<PaneId>)
    ensures a + [q] + b + x == a + [q] + (b + x)
  {
  }

  /** Around a pane before `p`, with `p` and without. */
  lemma KeptAround(kept: seq<PaneId>, p: PaneId, rest: seq<PaneId>, a: seq<PaneId>, q: PaneId, b: seq<PaneId>)
    requires Distinct(kept + [p] + rest) && kept == a + [q] + b
    ensures q in kept + [p] + rest && Before(kept + [p] + rest, q) == a && After(kept + [p] + rest, q) == b + [p] + rest
    ensures q in kept + rest && Before(kept + rest, q) == a && After(kept + rest, q) == b + rest
  {
    WithoutDistinct(kept, p, rest);
    BackAssoc(a, q, b, [p]);
    BackAssoc(a, q, b + [p], rest);
    BackAssoc(a, q, b, rest);
    AroundIs(kept + [p] + rest, a, q, b + [p] + rest);
    AroundIs(kept + rest, a, q, b + rest);
  }

  /** The focus ends where it would have ended. */
  lemma NextFocus(l: PaneLayout, full: set<PaneId>, kept: seq<PaneId>, p: PaneId, rest: seq<PaneId>)
    requires Next(l, full, kept, p, rest)
    ensures var r := Closed(l, p);
      && l.focused in PaneIds(l.root) && r.focused in PaneIds(r.root)
      && FocusLeft(full, PaneIds(r.root), r.focused) == FocusLeft(full, PaneIds(l.root), l.focused)
  {
    var order, f := PaneIds(l.root), l.focused;
    NextCloses(l, full, kept, p, rest);
    if f == p {
      HeirFocus(full, kept, p, rest);
    } else if f !in full {
      LastFullWithout(full, kept, p, rest);
      DistinctConcat(kept + [p], rest);
      AroundOf(rest, f);
      RestAround(kept, p, rest, Before(rest, f), f, After(rest, f));
    }
  }

  lemma AllFullHasNoTail(full: set<PaneId>, order: seq<PaneId>)
    requires forall q :: q in order ==> q in full
    ensures EmptyTail(full, order) == []
  {
    if order != [] {
      assert Last(order) in order;
    }
  }

  lemma LastTwo(x: seq<PaneId>, tail: seq<PaneId>, c: PaneId, p: PaneId)
    ensures x + tail + ([c] + []) == x + (tail + [c])
    ensures x + tail + ([c] + ([p] + [])) == x + (tail + [c] + [p])
  {
  }

  lemma LendersFar(l: PaneLayout, r: PaneLayout, full: set<PaneId>, h: PaneId, p: PaneId, c: PaneId, more: seq<PaneId>)
    requires AllEmpty(full, [c] + more) && h in full && Distinct([c] + more) && Handed(l, r, c, p)
    requires forall q :: q in [h] + ([c] + more) && q != c ==> ActiveIn(r, q) == ActiveIn(l, q)
    ensures FirstShown(r, [h] + EmptyTail(full, [c] + more)) == FirstShown(l, [h] + (EmptyTail(full, [c] + more) + [p]))
  {
    assert c in [c] + more && forall q :: q in more ==> q in [c] + more;
    EmptyTailOf(full, c, more);
    EmptyTailMembers(full, more);
    DistinctConcat([c], more);
    assert c in [c];
    var tail := EmptyTail(full, more);
    FirstShownHanded(l, r, [h] + tail, c, p, []);
    LastTwo([h], tail, c, p);
  }

  /** The last pane with tabs takes over what the panes behind it showed. */
  lemma LendersBehind(l: PaneLayout, r: PaneLayout, full: set<PaneId>, h: PaneId, p: PaneId, rest: seq<PaneId>)
    requires p !in full && h in full && AllEmpty(full, rest) && Distinct([h] + ([p] + rest))
    requires Handed(l, r, if rest == [] then h else rest[0], p)
    requires forall q ::
      q in [h] + rest && q != (if rest == [] then h else rest[0]) ==> ActiveIn(r, q) == ActiveIn(l, q)
    ensures FirstShown(r, [h] + EmptyTail(full, rest)) == FirstShown(l, [h] + EmptyTail(full, [p] + rest))
  {
    EmptyTailOf(full, p, rest);
    if rest == [] {
      FirstShownHanded(l, r, [], h, p, []);
      assert [] + ([h] + []) == [h] + [] && [] + ([h] + ([p] + [])) == [h] + ([] + [p]);
    } else {
      DistinctConcat([h], [p] + rest);
      DistinctConcat([p], rest);
      assert rest == [rest[0]] + rest[1..];
      LendersFar(l, r, full, h, p, rest[0], rest[1..]);
    }
  }

  /** Who lends to a pane before the closed one: only those behind the last pane with tabs. */
  lemma KeptLenders(full: set<PaneId>, kept: seq<PaneId>, p: PaneId, rest: seq<PaneId>, h: PaneId)
    requires Distinct(kept + [p] + rest) && (forall q :: q in kept ==> q in full) && h in kept
    ensures h in kept + rest && Lenders(full, kept + rest, h) == [h] + Behind(full, After(kept, h) + rest)
    ensures h in kept + [p] + rest
    ensures Lenders(full, kept + [p] + rest, h) == [h] + Behind(full, After(kept, h) + [p] + rest)
  {
    WithoutDistinct(kept, p, rest);
    DistinctConcat(kept, rest);
    AroundOf(kept, h);
    var a, b := Before(kept, h), After(kept, h);
    KeptAround(kept, p, rest, a, h, b);
    assert EmptyTail(full, a) == [] by {
      assert forall q :: q in a ==> q in kept;
      AllFullHasNoTail(full, a);
    }
    assert [] + Behind(full, b + rest) == Behind(full, b + rest);
    assert [] + Behind(full, b + [p] + rest) == Behind(full, b + [p] + rest);
  }

  lemma LastOfKept(kept: seq<PaneId>, p: PaneId, rest: seq<PaneId>, h: PaneId)
    requires Distinct(kept + [p] + rest) && h in kept && After(kept, h) == []
    ensures After(kept, h) + [p] + rest == [p] + rest && After(kept, h) + rest == rest && Last(kept) == h
    ensures h in kept + rest && forall q :: q in rest ==> q in kept + rest
  {
  }

  lemma NotLast(a: seq<PaneId>, h: PaneId, b: seq<PaneId>)
    requires Distinct(a + [h] + b) && b != []
    ensures Last(a + [h] + b) == Last(b) != h
  {
    DistinctConcat(a + [h], b);
    assert h in a + [h] && Last(b) in b;
  }

  lemma SomeBehind(full: set<PaneId>, kept: seq<PaneId>, p: PaneId, rest: seq<PaneId>, h: PaneId)
    requires Distinct(kept + [p] + rest) && (forall q :: q in kept ==> q in full) && h in kept && After(kept, h) != []
    ensures Behind(full, After(kept, h) + rest) == [] && Behind(full, After(kept, h) + [p] + rest) == []
    ensures h != HeirOf(kept, rest)
  {
    var a, b := Before(kept, h), After(kept, h);
    WithoutDistinct(kept, p, rest);
    DistinctConcat(kept, rest);
    AroundOf(kept, h);
    assert b[0] in b + rest && b[0] in b + [p] + rest && b[0] in kept;
    NotLast(a, h, b);
  }

  lemma OneThenRest(kept: seq<PaneId>, p: PaneId, rest: seq<PaneId>, h: PaneId)
    requires Distinct(kept + [p] + rest) && h in kept
    ensures Distinct([h] + ([p] + rest)) && h !in rest
  {
    WithoutDistinct(kept, p, rest);
    DistinctConcat(kept, rest);
    DistinctConcat([p], rest);
    DistinctConcat([h], [p] + rest);
  }

  /** The last pane before the closed one. */
  lemma LastKeptShows(l: PaneLayout, r: PaneLayout, full: set<PaneId>, h: PaneId, p: PaneId, rest: seq<PaneId>)
    requires p !in full && h in full && Distinct([h] + ([p] + rest))
    requires Handed(l, r, if rest == [] then h else rest[0], p)
    requires forall q ::
      q in [h] + rest && q != (if rest == [] then h else rest[0]) ==> ActiveIn(r, q) == ActiveIn(l, q)
    ensures FirstShown(r, [h] + Behind(full, rest)) == FirstShown(l, [h] + Behind(full, [p] + rest))
  {
    assert [h] + [] == [h];
    if AllEmpty(full, rest) {
      LendersBehind(l, r, full, h, p, rest);
    } else {
      var q :| q in rest && q in full;
      assert q in [p] + rest;
      DistinctConcat([h], [p] + rest);
      assert rest[0] in [p] + rest && h in [h];
      FirstShownSame(l, r, [h]);
    }
  }

  /** A pane before the closed one, with another one between them. */
  lemma InnerKeptShows(l: PaneLayout, r: PaneLayout, full: set<PaneId>, kept: seq<PaneId>, p: PaneId,
    rest: seq<PaneId>, h: PaneId)
    requires Distinct(kept + [p] + rest) && (forall q :: q in kept ==> q in full) && h in kept && After(kept, h) != []
    requires forall q :: q in kept + rest && q != HeirOf(kept, rest) ==> ActiveIn(r, q) == ActiveIn(l, q)
    ensures FirstShown(r, [h] + Behind(full, After(kept, h) + rest)) ==
      FirstShown(l, [h] + Behind(full, After(kept, h) + [p] + rest))
  {
    SomeBehind(full, kept, p, rest, h);
    FirstShownSame(l, r, [h] + []);
  }

  /** A pane before the closed one. */
  lemma KeptShows(l: PaneLayout, r: PaneLayout, full: set<PaneId>, kept: seq<PaneId>, p: PaneId, rest: seq<PaneId>,
    h: PaneId)
    requires Distinct(kept + [p] + rest) && Steps(full, kept, p, rest) && h in kept && h in full
    requires Handed(l, r, HeirOf(kept, rest), p)
    requires forall q :: q in kept + rest && q != HeirOf(kept, rest) ==> ActiveIn(r, q) == ActiveIn(l, q)
    ensures h in kept + rest && h in kept + [p] + rest
    ensures FirstShown(r, Lenders(full, kept + rest, h)) == FirstShown(l, Lenders(full, kept + [p] + rest, h))
  {
    KeptLenders(full, kept, p, rest, h);
    if After(kept, h) != [] {
      InnerKeptShows(l, r, full, kept, p, rest, h);
    } else {
      LastOfKept(kept, p, rest, h);
      OneThenRest(kept, p, rest, h);
      LastKeptShows(l, r, full, h, p, rest);
    }
  }

  /** Who lends to a pane behind the closed one: that one too, if only empty panes stand between. */
  lemma RestLenders(full: set<PaneId>, kept: seq<PaneId>, p: PaneId, rest: seq<PaneId>, h: PaneId)
    requires Distinct(kept + [p] + rest) && Steps(full, kept, p, rest) && h in rest
    ensures var a, u := Before(rest, h), Behind(full, After(rest, h));
      var tail := EmptyTail(full, a);
      && h in kept + rest && h in kept + [p] + rest
      && Lenders(full, kept + rest, h) == [h] + ((if AllEmpty(full, a) then tail + [] else tail) + u)
      && Lenders(full, kept + [p] + rest, h) == [h] + ((if AllEmpty(full, a) then tail + ([p] + []) else tail) + u)
  {
    WithoutDistinct(kept, p, rest);
    DistinctConcat(kept, rest);
    AroundOf(rest, h);
    var a := Before(rest, h);
    RestAround(kept, p, rest, a, h, After(rest, h));
    AllFullHasNoTail(full, kept);
    EmptyTailConcat(full, kept, a);
    EmptyTailConcat(full, kept + [p], a);
    EmptyTailConcat(full, kept, [p]);
    assert EmptyTail(full, [p]) == [p] by {
      assert [p][..0] == [];
    }
  }

  lemma FirstOf(a: seq<PaneId>, h: PaneId, b: seq<PaneId>)
    ensures (a + [h] + b)[0] == if a == [] then h else a[0]
    ensures (a + [h] + b)[0] in a + [h]
  {
  }

  lemma ChainList(h: PaneId, tail: seq<PaneId>, c: PaneId, p: PaneId, u: seq<PaneId>)
    ensures [h] + tail + ([c] + u) == [h] + (tail + [c] + [] + u)
    ensures [h] + tail + ([c] + ([p] + u)) == [h] + (tail + [c] + ([p] + []) + u)
  {
  }

  /** All before `h` is empty: the first of it is the heir. */
  lemma ChainShows(l: PaneLayout, r: PaneLayout, full: set<PaneId>, p: PaneId, c: PaneId, more: seq<PaneId>, h: PaneId,
    u: seq<PaneId>)
    requires Handed(l, r, c, p) && AllEmpty(full, [c] + more) && Distinct([c] + more) && h != c
    requires forall q :: q in more + [h] ==> ActiveIn(r, q) == ActiveIn(l, q)
    requires forall q :: q in u ==> ActiveIn(r, q) == ActiveIn(l, q)
    ensures var tail := EmptyTail(full, [c] + more);
      FirstShown(r, [h] + (tail + [] + u)) == FirstShown(l, [h] + (tail + ([p] + []) + u))
  {
    assert c in [c] + more && forall q :: q in more ==> q in [c] + more;
    EmptyTailOf(full, c, more);
    EmptyTailMembers(full, more);
    var tail := EmptyTail(full, more);
    assert forall q :: q in [h] + tail ==> q in more + [h];
    FirstShownHanded(l, r, [h] + tail, c, p, u);
    ChainList(h, tail, c, p, u);
  }

  /** With a pane with tabs behind it, the first one is not among those that lend. */
  lemma FullBetween(full: set<PaneId>, c: PaneId, more: seq<PaneId>)
    requires Distinct([c] + more) && !AllEmpty(full, [c] + more)
    ensures c !in EmptyTail(full, [c] + more)
  {
    EmptyTailConcat(full, [c], more);
    EmptyTailMembers(full, more);
    DistinctConcat([c], more);
    assert c in [c];
    if AllEmpty(full, more) {
      assert c in full;
    }
  }

  lemma SameTail(l: PaneLayout, r: PaneLayout, h: PaneId, tail: seq<PaneId>, u: seq<PaneId>)
    requires ActiveIn(r, h) == ActiveIn(l, h)
    requires forall q :: q in tail || q in u ==> ActiveIn(r, q) == ActiveIn(l, q)
    ensures FirstShown(r, [h] + (tail + u)) == FirstShown(l, [h] + (tail + u))
  {
    FirstShownSame(l, r, [h] + (tail + u));
  }

  /** What the panes before `h` lend it, with the closed one among them and without. */
  lemma BeforeShows(l: PaneLayout, r: PaneLayout, full: set<PaneId>, p: PaneId, a: seq<PaneId>, h: PaneId,
    u: seq<PaneId>,
      heir: PaneId)
    requires heir == (if a == [] then h else a[0]) && Handed(l, r, heir, p) && h in full && Distinct(a + [h])
    requires forall q :: q in a + [h] && q != heir ==> ActiveIn(r, q) == ActiveIn(l, q)
    requires forall q :: q in u ==> q != heir && ActiveIn(r, q) == ActiveIn(l, q)
    ensures var tail := EmptyTail(full, a);
      FirstShown(r, [h] + ((if AllEmpty(full, a) then tail + [] else tail) + u)) ==
        FirstShown(l, [h] + ((if AllEmpty(full, a) then tail + ([p] + []) else tail) + u))
  {
    var tail := EmptyTail(full, a);
    EmptyTailMembers(full, a);
    if a == [] {
      FirstShownHanded(l, r, [], h, p, u);
      assert [h] + (tail + [] + u) == [] + ([h] + u);
      assert [h] + (tail + ([p] + []) + u) == [] + ([h] + ([p] + u));
    } else {
      DistinctConcat(a, [h]);
      assert a[0] in a && a == [a[0]] + a[1..];
      DistinctConcat([a[0]], a[1..]);
      if AllEmpty(full, a) {
        ChainShows(l, r, full, p, a[0], a[1..], h, u);
      } else {
        FullBetween(full, a[0], a[1..]);
        SameTail(l, r, h, tail, u);
      }
    }
  }

  /** A pane behind the closed one. */
  lemma RestShows(l: PaneLayout, r: PaneLayout, full: set<PaneId>, kept: seq<PaneId>, p: PaneId, rest: seq<PaneId>,
    h: PaneId)
    requires Distinct(kept + [p] + rest) && Steps(full, kept, p, rest) && h in rest && h in full
    requires Handed(l, r, rest[0], p)
    requires forall q :: q in kept + rest && q != rest[0] ==> ActiveIn(r, q) == ActiveIn(l, q)
    ensures h in kept + rest && h in kept + [p] + rest
    ensures FirstShown(r, Lenders(full, kept + rest, h)) == FirstShown(l, Lenders(full, kept + [p] + rest, h))
  {
    RestLenders(full, kept, p, rest, h);
    WithoutDistinct(kept, p, rest);
    DistinctConcat(kept, rest);
    AroundOf(rest, h);
    var a, b := Before(rest, h), After(rest, h);
    FirstOf(a, h, b);
    EmptyTailMembers(full, b);
    DistinctConcat(a + [h], b);
    assert forall q :: q in rest ==> q in kept + rest;
    BeforeShows(l, r, full, p, a, h, Behind(full, b), rest[0]);
  }

  // ------------------------------------------------------------------ closing all of them

  /** Closing the next empty pane changes nothing about where the focus ends and what is shown there. */
  lemma NextShows(l: PaneLayout, full: set<PaneId>, kept: seq<PaneId>, p: PaneId, rest: seq<PaneId>, h: PaneId)
    requires Next(l, full, kept, p, rest) && h in kept + rest && h in full
    ensures var r := Closed(l, p);
      && h in PaneIds(r.root) && h in PaneIds(l.root)
      && FirstShown(r, Lenders(full, PaneIds(r.root), h)) == FirstShown(l, Lenders(full, PaneIds(l.root), h))
  {
    NextCloses(l, full, kept, p, rest);
    if h in kept {
      KeptShows(l, Closed(l, p), full, kept, p, rest, h);
    } else {
      RestShows(l, Closed(l, p), full, kept, p, rest, h);
    }
  }

  /** What closing the empty panes in `rest` leaves. */
  ghost predicate Leaves(l: PaneLayout, full: set<PaneId>, r: PaneLayout) {
    && HasPane(l, l.focused) && r.focused == FocusLeft(full, PaneIds(l.root), l.focused)
    && forall h :: h in full && HasPane(l, h) ==> ActiveIn(r, h) == FirstShown(l, Lenders(full, PaneIds(l.root), h))
  }

  lemma NothingLeaves(l: PaneLayout, full: set<PaneId>)
    requires Live(l) && forall p :: HasPane(l, p) ==> p in full
    ensures Leaves(l, full, l)
  {
    forall h | HasPane(l, h) ensures FirstShown(l, Lenders(full, PaneIds(l.root), h)) == ActiveIn(l, h) {
      AllFullHasNoTail(full, Before(PaneIds(l.root), h));
      AllFullHasNoTail(full, After(PaneIds(l.root), h));
      assert [h] + ([] + []) == [h];
    }
  }

  lemma OtherIsFull(full: set<PaneId>, kept: seq<PaneId>, p: PaneId, more: seq<PaneId>)
    requires p !in full && LastFull(full, kept + [p] + more).Some?
    ensures LastFull(full, kept + more).Some? && |kept + [p] + more| > 1
  {
    LastFullWithout(full, kept, p, more);
    assert kept + more != [];
  }

  lemma {:induction false} DropNext(l: PaneLayout, full: set<PaneId>, kept: seq<PaneId>, p: PaneId, more: seq<PaneId>,
    ids: seq<TabId>)
    requires Next(l, full, kept, p, more) && Owned(l, ids)
    requires forall q :: HasPane(l, q) ==> (q in full <==> Occupied(l, ids, q))
    ensures Leaves(l, full, DropEmpty(l, [p] + more, ids))
    decreases |more| + 1, 0
  {
    var m := Closed(l, p);
    assert HasPane(l, p);
    NextCloses(l, full, kept, p, more);
    NextFocus(l, full, kept, p, more);
    DropOne(l, ids, p);
    assert ([p] + more)[1..] == more;
    forall q | HasPane(m, q) ensures q in full <==> Occupied(m, ids, q) {
      assert q in kept + [p] + more;
    }
    DropEmptyLeaves(m, full, kept, more, ids);
    forall h | h in full && HasPane(l, h)
      ensures ActiveIn(DropEmpty(m, more, ids), h) == FirstShown(l, Lenders(full, PaneIds(l.root), h))
    {
      assert h in kept + more;
      NextShows(l, full, kept, p, more, h);
    }
  }

  lemma {:induction false} DropEmptyLeaves(l: PaneLayout, full: set<PaneId>, kept: seq<PaneId>, rest: seq<PaneId>,
    ids: seq<TabId>)
    requires Live(l) && Owned(l, ids) && PaneIds(l.root) == kept + rest && LastFull(full, kept + rest).Some?
    requires forall p :: HasPane(l, p) ==> (p in full <==> Occupied(l, ids, p))
    requires forall p :: p in kept ==> p in full
    ensures Leaves(l, full, DropEmpty(l, rest, ids))
    decreases |rest|, 1
  {
    if rest == [] {
      assert kept + rest == kept;
      NothingLeaves(l, full);
    } else {
      var p, more := rest[0], rest[1..];
      assert kept + rest == kept + [p] + more;
      assert p in kept + rest;
      if p in full {
        DropEmptyLeaves(l, full, kept + [p], more, ids);
      } else {
        OtherIsFull(full, kept, p, more);
        DropNext(l, full, kept, p, more, ids);
      }
    }
  }

  // ------------------------------------------------------------------ the requested tab

  lemma {:induction false} SomeFull(full: set<PaneId>, order: seq<PaneId>, p: PaneId)
    requires p in order && p in full
    ensures LastFull(full, order).Some?
  {
    if Last(order) !in full {
      assert order == order[..|order| - 1] + [Last(order)];
      SomeFull(full, order[..|order| - 1], p);
    }
  }

  lemma SomePaneIsFull(l: PaneLayout, ids: seq<TabId>, tab: TabId)
    requires Live(l) && tab in ids
    ensures LastFull(Full(l, ids), PaneIds(l.root)).Some?
  {
    var i :| 0 <= i < |ids| && ids[i] == tab;
    assert Occupied(l, ids, PaneOf(l, tab));
    SomeFull(Full(l, ids), PaneIds(l.root), PaneOf(l, tab));
  }

  lemma SameFull(l: PaneLayout, ids: seq<TabId>)
    requires Live(l) && Distinct(ids)
    ensures Full(Reowned(l, ids), ids) == Full(l, ids)
  {
    ReownedOwned(l, ids);
    forall p ensures Occupied(Reowned(l, ids), ids, p) <==> Occupied(l, ids, p) {
      SameStrip(Reowned(l, ids), l, ids, p);
    }
  }

  lemma {:induction false} FirstFullIs(full: set<PaneId>, order: seq<PaneId>)
    ensures FirstFull(full, order).Some? ==>
      FirstFull(full, order).value in order && FirstFull(full, order).value in full
  {
    if order != [] {
      FirstFullIs(full, order[1..]);
    }
  }

  lemma {:induction false} LastFullIs(full: set<PaneId>, order: seq<PaneId>)
    ensures LastFull(full, order).Some? ==> LastFull(full, order).value in order && LastFull(full, order).value in full
  {
    if order != [] {
      LastFullIs(full, order[..|order| - 1]);
    }
  }

  lemma FocusIsFull(full: set<PaneId>, order: seq<PaneId>, focused: PaneId)
    requires focused in order && LastFull(full, order).Some?
    ensures var focus := FocusLeft(full, order, focused); focus in full && focus in order
  {
    FirstFullIs(full, After(order, focused));
    LastFullIs(full, order);
  }

  /** What is left once panes without tabs are closed. */
  lemma PrunedLeaves(l: PaneLayout, ids: seq<TabId>)
    requires Live(l) && Owned(l, ids) && LastFull(Full(l, ids), PaneIds(l.root)).Some?
    ensures HasPane(l, FocusLeft(Full(l, ids), PaneIds(l.root), l.focused))
    ensures var full, order := Full(l, ids), PaneIds(l.root);
      var focus := FocusLeft(full, order, l.focused);
      Pruned(l, ids).focused == focus && ActiveOf(Pruned(l, ids)) == FirstShown(l, Lenders(full, order, focus))
  {
    assert [] + PaneIds(l.root) == PaneIds(l.root);
    DropEmptyLeaves(l, Full(l, ids), [], PaneIds(l.root), ids);
    FocusIsFull(Full(l, ids), PaneIds(l.root), l.focused);
  }

  /**
  A requested open tab ends up active unless the pane the focus is left on shows that tab already,
  by what it showed itself or took over, and is not the pane the tab is in.
  */
  lemma RequestedEndsActiveExactly(l: PaneLayout, ids: seq<TabId>, tab: TabId)
    requires Live(l) && Distinct(ids) && tab in ids
    ensures HasPane(l, FocusLeft(Full(l, ids), PaneIds(l.root), l.focused))
    ensures ActiveOf(Normalized(l, ids, Some(tab))) == Some(tab) <==>
      var full, order := Full(l, ids), PaneIds(l.root);
      var focus := FocusLeft(full, order, l.focused);
      PaneOf(l, tab) == focus || FirstShown(l, Lenders(full, order, focus)) != Some(tab)
  {
    var m := Reowned(l, ids);
    RequestedEndsActive(l, ids, tab);
    ReownedOwned(l, ids);
    SameFull(l, ids);
    SomePaneIsFull(l, ids, tab);
    PrunedLeaves(m, ids);
    FirstShownSame(l, m, Lenders(Full(l, ids), PaneIds(l.root), FocusLeft(Full(l, ids), PaneIds(l.root), l.focused)));
  }
}
