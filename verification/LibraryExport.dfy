/**
Everything filed in a folder or beneath it (`itemsInFolder` of src/lib/libraryTree.ts): the loop
finds the least closed set of folders, and it exports just what the unfiltered tree shows there.
*/
module LibraryExport {
  import opened Prelude
  import opened LibraryFolders
  import opened LibraryBuild
  import opened LibraryTree

  // ------------------------------------------------------------------ the loop

  /** `inside` holds the folder, and every folder of the scope whose parent it holds. */
  ghost predicate Closed(scope: Scope, root: FolderId, folders: seq<Folder>, inside: set<FolderId>) {
    root in inside && forall f ::
      f in folders && f.scope == scope && f.parent.Some? && f.parent.value in inside ==> f.id in inside
  }

  /** The least closed set. */
  ghost predicate Least(scope: Scope, root: FolderId, folders: seq<Folder>, inside: set<FolderId>) {
    Closed(scope, root, folders, inside) && forall s :: Closed(scope, root, folders, s) ==> inside <= s
  }

  method GrowInside(scope: Scope, root: FolderId, folders: seq<Folder>) returns (inside: set<FolderId>)
    ensures Least(scope, root, folders, inside)
  {
    inside := {root};
    var grew := true;
    while grew
      invariant root in inside
      invariant forall s :: Closed(scope, root, folders, s) ==> inside <= s
      invariant !grew ==> Closed(scope, root, folders, inside)
      decreases Known(folders) - inside, grew
    {
      grew := false;
      ghost var before := inside;
      for k := 0 to |folders|
        invariant root in inside && before <= inside && (grew <==> before != inside)
        invariant grew ==> Known(folders) - inside < Known(folders) - before
        invariant forall s :: Closed(scope, root, folders, s) ==> inside <= s
        invariant !grew ==> forall j ::
          0 <= j < k && folders[j].scope == scope && folders[j].parent.Some? && folders[j].parent.value in inside ==>
          folders[j].id in inside
      {
        var f := folders[k];
        if f.scope == scope && f.parent.Some? && f.parent.value in inside && f.id !in inside {
          assert f in folders && f.id in Known(folders);
          inside := inside + {f.id};
          grew := true;
        }
      }
    }
  }

  predicate FiledInside(scope: Scope, inside: set<FolderId>, placements: seq<Placement>, item: ItemId) {
    exists p :: p in placements && p.scope == scope && p.folder in inside && p.item == item
  }

  function Exported(scope: Scope, inside: set<FolderId>, placements: seq<Placement>, items: seq<Item>): seq<Item> {
    if items == [] then []
    else
      (if FiledInside(scope, inside, placements, items[0].id) then [items[0]] else []) +
      Exported(scope, inside, placements, items[1..])
  }

  method ItemsInFolder(scope: Scope, root: FolderId, folders: seq<Folder>, placements: seq<Placement>, items: seq<Item>)
    returns (r: seq<Item>)
    ensures exists inside :: Least(scope, root, folders, inside) && r == Exported(scope, inside, placements, items)
  {
    var inside := GrowInside(scope, root, folders);
    var filed := set p | p in placements && p.scope == scope && p.folder in inside :: p.item;
    r := [];
    for k := 0 to |items|
      invariant r + Exported(scope, inside, placements, items[k..]) == Exported(scope, inside, placements, items)
    {
      assert items[k..][0] == items[k] && items[k..][1..] == items[k + 1..];
      assert items[k].id in filed <==> FiledInside(scope, inside, placements, items[k].id);
      if items[k].id in filed {
        assert r + ([items[k]] + Exported(scope, inside, placements, items[k + 1..])) ==
          r + [items[k]] + Exported(scope, inside, placements, items[k + 1..]);
        r := r + [items[k]];
      }
    }
    assert r + [] == r;
  }

  // ------------------------------------------------------------------ the folders a node stands for

  function Subtree(mine: seq<Folder>, f: Folder): seq<Folder>
    requires f in mine
  {
    Walk(mine, LISTED, [f], {}, None)
  }

  lemma {:induction false} WalkSeen(mine: seq<Folder>, list: seq<Folder>, a: set<FolderId>, b: set<FolderId>, d: nat)
    requires Unique(mine) && AllAtLevel(mine, list, d) && AllAbove(mine, a, d) && AllAbove(mine, b, d)
    ensures Walk(mine, LISTED, list, a, None) == Walk(mine, LISTED, list, b, None)
    decreases Known(mine) - a, |list|
  {
    if list != [] {
      var f := list[0];
      NotSeen(mine, f, a, d);
      NotSeen(mine, f, b, d);
      UniqueById(mine, f);
      BelowLevel(mine, LISTED, f, d);
      assert Known(mine) - (a + {f.id}) < Known(mine) - a;
      WalkSeen(mine, Below(mine, LISTED, f), a + {f.id}, b + {f.id}, d + 1);
      WalkSeen(mine, list[1..], a, b, d);
    }
  }

  lemma MetIsSubtree(view: View, f: Folder, seen: set<FolderId>, d: nat)
    requires Unique(view.mine) && f in view.mine && AtLevel(view.mine, f, d) && AllAbove(view.mine, seen, d)
    ensures f.id !in seen && Met(view, f, seen) == Subtree(view.mine, f)
  {
    NotSeen(view.mine, f, seen, d);
    WalkSeen(view.mine, [f], seen, {}, d);
    assert [f][1..] == [];
    assert Walk(view.mine, LISTED, [f], seen, None) == Met(view, f, seen) + [];
  }

  lemma SubtreeAt(mine: seq<Folder>, f: Folder, d: nat, g: Folder, n: nat)
    requires Unique(mine) && f in mine && AtLevel(mine, f, d) && g in mine && AtLevel(mine, g, n) && d <= n
    ensures g in Subtree(mine, f) <==> Up(mine, g, n - d) == f
    ensures multiset(Subtree(mine, f))[g] <= 1
  {
    WalkTimes(mine, LISTED, [f], {}, None, d, g, n);
    ClearOfNothing(mine, g, n - d);
    assert g in Subtree(mine, f) <==> multiset(Subtree(mine, f))[g] > 0;
    assert multiset([f])[Up(mine, g, n - d)] == if Up(mine, g, n - d) == f then 1 else 0;
  }

  lemma SubtreeUnique(mine: seq<Folder>, f: Folder, d: nat)
    requires Unique(mine) && f in mine && AtLevel(mine, f, d)
    ensures Unique(Subtree(mine, f))
  {
    var walk := Subtree(mine, f);
    forall i, j | 0 <= i < j < |walk| ensures walk[i].id != walk[j].id {
      WalkLevels(mine, LISTED, [f], {}, None, d, walk[i]);
      var n: nat :| n >= d && AtLevel(mine, walk[i], n);
      SubtreeAt(mine, f, d, walk[i], n);
      OnceDistinct(walk, i, j);
      WalkLevels(mine, LISTED, [f], {}, None, d, walk[j]);
      UniqueById(mine, walk[i]);
      UniqueById(mine, walk[j]);
    }
    UniqueFrom(walk);
  }

  lemma {:induction false} WalkInside(scope: Scope, root: FolderId, folders: seq<Folder>, list: seq<Folder>,
    seen: set<FolderId>, inside: set<FolderId>, g: Folder)
    requires Closed(scope, root, folders, inside)
    requires forall f :: f in list ==> f in Mine(scope, folders) && f.id in inside
    requires g in Walk(Mine(scope, folders), LISTED, list, seen, None)
    ensures g.id in inside
    decreases Known(Mine(scope, folders)) - seen, |list|
  {
    var mine := Mine(scope, folders);
    var f := list[0];
    if f.id !in seen && g != f && g in Walk(mine, LISTED, Below(mine, LISTED, f), seen + {f.id}, None) {
      forall h | h in Below(mine, LISTED, f) ensures h.id in inside {
        MineAre(scope, folders, h);
      }
      WalkInside(scope, root, folders, Below(mine, LISTED, f), seen + {f.id}, inside, g);
    } else if g != f || f.id in seen {
      WalkInside(scope, root, folders, list[1..], seen, inside, g);
    }
  }

  lemma {:induction false} MineAre(scope: Scope, folders: seq<Folder>, f: Folder)
    ensures f in Mine(scope, folders) <==> f in folders && f.scope == scope
  {
    if folders != [] {
      MineAre(scope, folders[1..], f);
    }
  }

  /** Some steps up from `g` is the folder `f`, which is at level `d`. */
  ghost predicate Beneath(mine: seq<Folder>, f: Folder, d: nat, g: Folder) {
    g in mine && exists k: nat :: AtLevel(mine, g, d + k) && Up(mine, g, k) == f
  }

  lemma BeneathLevel(mine: seq<Folder>, f: Folder, d: nat, g: Folder, n: nat)
    requires g in mine && AtLevel(mine, g, n) && d <= n
    ensures Beneath(mine, f, d, g) <==> Up(mine, g, n - d) == f
  {
    var j := n - d;
    assert AtLevel(mine, g, d + j);
    if Beneath(mine, f, d, g) {
      var k: nat :| AtLevel(mine, g, d + k) && Up(mine, g, k) == f;
      LevelUnique(mine, g, d + k, n);
      assert k == j;
    }
  }

  lemma SubtreeLevel(mine: seq<Folder>, f: Folder, d: nat, g: Folder) returns (n: nat)
    requires Unique(mine) && f in mine && AtLevel(mine, f, d) && g in Subtree(mine, f)
    ensures n >= d && g in mine && AtLevel(mine, g, n)
  {
    WalkLevels(mine, LISTED, [f], {}, None, d, g);
    n :| n >= d && AtLevel(mine, g, n);
  }

  lemma BeneathInSubtree(mine: seq<Folder>, f: Folder, d: nat, g: Folder)
    requires Unique(mine) && f in mine && AtLevel(mine, f, d) && Beneath(mine, f, d, g)
    ensures g in Subtree(mine, f)
  {
    var k: nat :| AtLevel(mine, g, d + k) && Up(mine, g, k) == f;
    SubtreeAt(mine, f, d, g, d + k);
    assert (d + k) - d == k;
  }

  lemma SubtreeBeneath(mine: seq<Folder>, f: Folder, d: nat, g: Folder)
    requires Unique(mine) && f in mine && AtLevel(mine, f, d) && g in Subtree(mine, f)
    ensures Beneath(mine, f, d, g)
  {
    var n := SubtreeLevel(mine, f, d, g);
    SubtreeAt(mine, f, d, g, n);
    BeneathLevel(mine, f, d, g, n);
  }

  lemma ChildBeneath(mine: seq<Folder>, f: Folder, d: nat, g: Folder, h: Folder)
    requires Unique(mine) && h in mine && Parent(mine, h) == Some(g.id) && Beneath(mine, f, d, g)
    ensures Beneath(mine, f, d, h)
  {
    var k: nat :| AtLevel(mine, g, d + k) && Up(mine, g, k) == f;
    UniqueById(mine, g);
    assert AtLevel(mine, h, d + (k + 1)) && Up(mine, h, k + 1) == f;
  }

  lemma SubtreeClosed(scope: Scope, folders: seq<Folder>, f: Folder, d: nat)
    requires var mine := Mine(scope, folders); Unique(mine) && f in mine && AtLevel(mine, f, d)
    ensures Closed(scope, f.id, folders, Known(Subtree(Mine(scope, folders), f)))
  {
    var mine := Mine(scope, folders);
    var inside := Known(Subtree(mine, f));
    assert AtLevel(mine, f, d + 0) && Up(mine, f, 0) == f;
    BeneathInSubtree(mine, f, d, f);
    SubtreeKnown(mine, f, d);
    forall h | h in folders && h.scope == scope && h.parent.Some? && h.parent.value in inside ensures h.id in inside {
      MineAre(scope, folders, h);
      var g :| g in Subtree(mine, f) && g.id == h.parent.value;
      SubtreeBeneath(mine, f, d, g);
      ChildBeneath(mine, f, d, g, h);
      BeneathInSubtree(mine, f, d, h);
    }
  }

  /** The least closed set is the subtree of the folder. */
  lemma LeastIsSubtree(scope: Scope, folders: seq<Folder>, f: Folder, d: nat, inside: set<FolderId>)
    requires var mine := Mine(scope, folders); Unique(mine) && f in mine && AtLevel(mine, f, d)
    requires Least(scope, f.id, folders, inside)
    ensures inside == Known(Subtree(Mine(scope, folders), f))
  {
    var walk := Subtree(Mine(scope, folders), f);
    SubtreeClosed(scope, folders, f, d);
    forall id | id in Known(walk) ensures id in inside {
      var g :| g in walk && g.id == id;
      WalkInside(scope, f.id, folders, [f], {}, inside, g);
    }
  }

  // ------------------------------------------------------------------ the node of the unfiltered tree

  ghost predicate Unfiltered(opt: Options) { !opt.hideEmpty && forall item :: opt.visible(item) }

  /** The node holds the items and the folders of its subtree, and so do the nodes below it. */
  ghost predicate Faithful(view: View, opt: Options, node: Node) {
    && node.folder in view.mine
    && multiset(Under(node)) == ShownAll(view, opt.visible, Subtree(view.mine, node.folder))
    && DescendantIds(node) == Known(Subtree(view.mine, node.folder))
    && forall k :: 0 <= k < |node.folders| ==> Faithful(view, opt, node.folders[k])
  }

  ghost predicate AllFaithful(view: View, opt: Options, nodes: seq<Node>) {
    forall node :: node in nodes ==> Faithful(view, opt, node)
  }

  lemma KnownConcat(a: seq<Folder>, b: seq<Folder>)
    ensures Known(a + b) == Known(a) + Known(b)
  {
    assert forall f :: f in a + b <==> f in a || f in b;
  }

  lemma {:induction false} AlwaysWorthwhile(view: View, opt: Options, f: Folder, seen: set<FolderId>, d: nat)
    requires Unfiltered(opt) && Unique(view.mine) && f in view.mine && AtLevel(view.mine, f, d) &&
      AllAbove(view.mine, seen, d)
    ensures AnyWorthwhile(view, opt, Met(view, f, seen))
    decreases Known(view.mine) - seen
  {
    var children := Below(view.mine, LISTED, f);
    var walk := Walk(view.mine, LISTED, children, seen + {f.id}, None);
    NotSeen(view.mine, f, seen, d);
    UniqueById(view.mine, f);
    assert ([f] + walk)[1..] == walk;
    if children == [] {
      SameFiled(view.items, view.home, opt.visible, Some(f.id));
    } else {
      BelowLevel(view.mine, LISTED, f, d);
      assert children[0] in children;
      assert Known(view.mine) - (seen + {f.id}) < Known(view.mine) - seen;
      AlwaysWorthwhile(view, opt, children[0], seen + {f.id}, d + 1);
      AnyConcat(view, opt, Met(view, children[0], seen + {f.id}),
        Walk(view.mine, LISTED, children[1..], seen + {f.id}, None));
    }
  }

  lemma {:induction false} SameFiled(items: seq<Item>, home: map<ItemId, FolderId>, visible: Item -> bool,
    key: Option<FolderId>)
    requires forall item :: visible(item)
    ensures Filed(items, home, visible, {key}) == Filed(items, home, EVERYTHING, {key})
  {
    if items != [] {
      SameFiled(items[1..], home, visible, key);
    }
  }

  lemma {:induction false} ListFaithful(view: View, opt: Options, list: seq<Folder>, seen: set<FolderId>, d: nat)
    requires Unfiltered(opt) && Unique(view.mine) && AllAtLevel(view.mine, list, d) && AllAbove(view.mine, seen, d)
    ensures AllFaithful(view, opt, BuildList(view, opt, list, seen))
    ensures IdsAll(BuildList(view, opt, list, seen)) == Known(Walk(view.mine, LISTED, list, seen, None))
    decreases Known(view.mine) - seen, |list| + 1
  {
    if list != [] {
      NodeFaithful(view, opt, list[0], seen, d);
      ListFaithful(view, opt, list[1..], seen, d);
      var a, b := Built(view, opt, list[0], seen), BuildList(view, opt, list[1..], seen);
      TotalConcat(a, b);
      KnownConcat(Met(view, list[0], seen), Walk(view.mine, LISTED, list[1..], seen, None));
    }
  }

  lemma {:induction false} NodeFaithful(view: View, opt: Options, f: Folder, seen: set<FolderId>, d: nat)
    requires Unfiltered(opt) && Unique(view.mine) && f in view.mine && AtLevel(view.mine, f, d) &&
      AllAbove(view.mine, seen, d)
    ensures AllFaithful(view, opt, Built(view, opt, f, seen))
    ensures IdsAll(Built(view, opt, f, seen)) == Known(Met(view, f, seen))
    decreases Known(view.mine) - seen, 1
  {
    var children := Below(view.mine, LISTED, f);
    NotSeen(view.mine, f, seen, d);
    UniqueById(view.mine, f);
    BelowLevel(view.mine, LISTED, f, d);
    assert Known(view.mine) - (seen + {f.id}) < Known(view.mine) - seen;
    ListFaithful(view, opt, children, seen + {f.id}, d + 1);
    AlwaysWorthwhile(view, opt, f, seen, d);
    KeptExactly(view, opt, f, seen);
    BuildNodeHolds(view, opt, f, seen);
    MetIsSubtree(view, f, seen, d);
    var node := BuildNode(view, opt, f, seen).value;
    SortedNodes(opt.sortNodes, BuildList(view, opt, children, seen + {f.id}));
    NodeIsFaithful(view, opt, node, Walk(view.mine, LISTED, children, seen + {f.id}, None));
  }

  lemma NodeIsFaithful(view: View, opt: Options, node: Node, walk: seq<Folder>)
    requires node.folder in view.mine && AllFaithful(view, opt, node.folders)
    requires Subtree(view.mine, node.folder) == [node.folder] + walk && IdsAll(node.folders) == Known(walk)
    requires multiset(UnderAll([node])) == ShownAll(view, opt.visible, [node.folder] + walk)
    ensures AllFaithful(view, opt, [node]) && IdsAll([node]) == Known([node.folder] + walk)
  {
    assert [node][1..] == [] && UnderAll([node]) == Under(node) + [] == Under(node);
    KnownConcat([node.folder], walk);
    assert Known([node.folder]) == {node.folder.id};
    assert IdsAll([node]) == DescendantIds(node) + {};
    forall k | 0 <= k < |node.folders| ensures Faithful(view, opt, node.folders[k]) {
      assert node.folders[k] in node.folders;
    }
  }

  /** A node is found exactly when a folder with that id is in the tree, and it is a node of the tree. */
  lemma {:induction false} FindNodeIs(view: View, opt: Options, nodes: seq<Node>, id: FolderId)
    requires AllFaithful(view, opt, nodes)
    ensures FindNode(nodes, id).Some? <==> id in IdsAll(nodes)
    ensures FindNode(nodes, id).Some? ==>
      FindNode(nodes, id).value.folder.id == id && Faithful(view, opt, FindNode(nodes, id).value)
  {
    if nodes != [] {
      assert nodes[0] in nodes;
      forall node | node in nodes[0].folders ensures Faithful(view, opt, node) {
        var k :| 0 <= k < |nodes[0].folders| && nodes[0].folders[k] == node;
      }
      FindNodeIs(view, opt, nodes[0].folders, id);
      FindNodeIs(view, opt, nodes[1..], id);
    }
  }

  // ------------------------------------------------------------------ export and tree agree

  /** No item is placed twice in the scope. */
  ghost predicate PlacedOnce(scope: Scope, placements: seq<Placement>) {
    forall p, q :: p in placements && q in placements && p.scope == scope && q.scope == scope && p.item == q.item ==>
      p.folder == q.folder
  }

  lemma {:induction false} HomesAre(scope: Scope, known: set<FolderId>, placements: seq<Placement>, item: ItemId,
    id: FolderId)
    requires PlacedOnce(scope, placements)
    ensures var home := Homes(scope, known, placements);
      item in home && home[item] == id <==> id in known && exists p ::
        p in placements && p.scope == scope && p.folder == id && p.item == item
  {
    if placements != [] {
      var before, p := placements[..|placements| - 1], Last(placements);
      assert placements == before + [p];
      HomesAre(scope, known, before, item, id);
    }
  }

  lemma {:induction false} ExportedIsFiled(scope: Scope, known: set<FolderId>, inside: set<FolderId>,
    placements: seq<Placement>, items: seq<Item>, keys: set<Option<FolderId>>)
    requires PlacedOnce(scope, placements) && inside <= known
    requires forall key :: key in keys <==> key.Some? && key.value in inside
    ensures Exported(scope, inside, placements, items) ==
      Filed(items, Homes(scope, known, placements), EVERYTHING, keys)
  {
    if items != [] {
      var home, item := Homes(scope, known, placements), items[0].id;
      ExportedIsFiled(scope, known, inside, placements, items[1..], keys);
      if FiledInside(scope, inside, placements, item) {
        var p :| p in placements && p.scope == scope && p.folder in inside && p.item == item;
        HomesAre(scope, known, placements, item, p.folder);
      }
      if item in home {
        HomesAre(scope, known, placements, item, home[item]);
      }
    }
  }

  lemma {:induction false} ShownEverything(view: View, visible: Item -> bool, folders: seq<Folder>)
    requires forall item :: visible(item)
    ensures ShownAll(view, visible, folders) == ShownAll(view, EVERYTHING, folders)
  {
    if folders != [] {
      SameFiled(view.items, view.home, visible, Some(folders[0].id));
      ShownEverything(view, visible, folders[1..]);
    }
  }

  /**
  Exporting a folder that the tree shows gives exactly the items under its node in the unfiltered
  tree, and the folders it covers are the ids beneath that node.
  */
  lemma ExportMatchesTree(scope: Scope, folders: seq<Folder>, placements: seq<Placement>, items: seq<Item>,
    opt: Options, f: Folder, inside: set<FolderId>)
    requires var mine := Mine(scope, folders); Unique(mine) && f in mine && Rooted(mine, f)
    requires PlacedOnce(scope, placements) && Unfiltered(opt) && Least(scope, f.id, folders, inside)
    ensures var node := FindNode(BuildTree(ViewOf(scope, folders, placements, items), opt).folders, f.id);
      node.Some? && multiset(Under(node.value)) == multiset(Exported(scope, inside, placements, items)) &&
        DescendantIds(node.value) == inside
  {
    var view := ViewOf(scope, folders, placements, items);
    var mine, walk := view.mine, Subtree(view.mine, f);
    var d: nat :| AtLevel(mine, f, d);
    var nodes := BuildList(view, opt, Top(mine, LISTED), {});
    ListFaithful(view, opt, Top(mine, LISTED), {}, 0);
    SortedNodes(opt.sortNodes, nodes);
    FindNodeIs(view, opt, opt.sortNodes(nodes), f.id);
    WalkAllOnce(mine, LISTED, None, f);
    ReachedIsRooted(mine, f);
    assert f in WalkAll(mine, LISTED, None);
    UniqueById(mine, f);
    UniqueById(mine, FindNode(opt.sortNodes(nodes), f.id).value.folder);
    LeastIsSubtree(scope, folders, f, d, inside);
    SubtreeUnique(mine, f, d);
    ShownEverything(view, opt.visible, walk);
    ShownSum(view, EVERYTHING, walk);
    SubtreeKnown(mine, f, d);
    ExportedIsFiled(scope, Known(mine), inside, placements, items, KeysOf(walk));
  }

  lemma SubtreeKnown(mine: seq<Folder>, f: Folder, d: nat)
    requires Unique(mine) && f in mine && AtLevel(mine, f, d)
    ensures Known(Subtree(mine, f)) <= Known(mine)
    ensures forall key :: key in KeysOf(Subtree(mine, f)) <==> key.Some? && key.value in Known(Subtree(mine, f))
  {
    forall g | g in Subtree(mine, f) ensures g in mine {
      WalkLevels(mine, LISTED, [f], {}, None, d, g);
    }
  }
}
