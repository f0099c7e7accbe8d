/**
The folder tree of a sidebar (`buildTree`, `itemsUnder`, `findNode`, `descendantIds` of
src/lib/libraryTree.ts), and exactly which items it holds: those at the top level or in a folder
from which the parent links lead to the top level.
*/
module LibraryBuild {
  import opened Prelude
  import opened LibraryFolders

  type ItemId = nat

  datatype Item = Item(id: ItemId, name: string)

  datatype Placement = Placement(scope: Scope, folder: FolderId, item: ItemId)

  datatype Node = Node(folder: Folder, folders: seq<Node>, items: seq<Item>, count: nat)

  datatype Tree = Tree(folders: seq<Node>, items: seq<Item>, count: nat)

  type ItemSort = f: seq<Item> -> seq<Item> | Permutes(f) witness (s: seq<Item>) => s

  type NodeSort = f: seq<Node> -> seq<Node> | Permutes(f) witness (s: seq<Node>) => s

  datatype Options = Options(visible: Item -> bool, hideEmpty: bool, sortItems: ItemSort, sortNodes: NodeSort)

  /** The folders of the scope, where each placed item is, and the items. */
  datatype View = View(mine: seq<Folder>, home: map<ItemId, FolderId>, items: seq<Item>)

  const LISTED: Order := (s: seq<Folder>) => s

  /** Where the placements put each item: into a known folder, the last one winning. */
  function Homes(scope: Scope, known: set<FolderId>, placements: seq<Placement>): map<ItemId, FolderId> {
    if placements == [] then map[]
    else
      var p, before := Last(placements), Homes(scope, known, placements[..|placements| - 1]);
      if p.scope == scope && p.folder in known then before[p.item := p.folder] else before
  }

  function ViewOf(scope: Scope, folders: seq<Folder>, placements: seq<Placement>, items: seq<Item>): View {
    var mine := Mine(scope, folders);
    View(mine, Homes(scope, Known(mine), placements), items)
  }

  function Key(home: map<ItemId, FolderId>, item: Item): Option<FolderId> {
    if item.id in home then Some(home[item.id]) else None
  }

  /** The items that pass `visible` and are in one of the folders `keys`; None stands for the top level. */
  function Filed(items: seq<Item>, home: map<ItemId, FolderId>, visible: Item -> bool,
    keys: set<Option<FolderId>>): seq<Item> {
    if items == [] then []
    else
      (if visible(items[0]) && Key(home, items[0]) in keys then [items[0]] else []) +
      Filed(items[1..], home, visible, keys)
  }

  const EVERYTHING: Item -> bool := item => true

  function ItemsIn(view: View, key: Option<FolderId>): seq<Item> {
    Filed(view.items, view.home, EVERYTHING, {key})
  }

  function ShownIn(view: View, visible: Item -> bool, key: Option<FolderId>): seq<Item> {
    Filed(view.items, view.home, visible, {key})
  }

  // ------------------------------------------------------------------ building

  function Total(nodes: seq<Node>): nat {
    if nodes == [] then 0 else nodes[0].count + Total(nodes[1..])
  }

  /** The nodes of a list of siblings, without those that are not shown; `seen` are the folders on the way down. */
  function BuildList(view: View, opt: Options, list: seq<Folder>, seen: set<FolderId>): seq<Node>
    requires forall f :: f in list ==> f in view.mine
    decreases Known(view.mine) - seen, |list|
  {
    if list == [] then []
    else AsList(BuildNode(view, opt, list[0], seen)) + BuildList(view, opt, list[1..], seen)
  }

  function BuildNode(view: View, opt: Options, f: Folder, seen: set<FolderId>): Option<Node>
    requires f in view.mine
    decreases Known(view.mine) - seen, 0
  {
    if f.id in seen then None
      else NodeOf(view, opt, f, BuildList(view, opt, Below(view.mine, LISTED, f), seen + {f.id}))
  }

  /** The node made of one folder and the nodes under it, or None if it is not to be shown. */
  function NodeOf(view: View, opt: Options, f: Folder, nodes: seq<Node>): Option<Node> {
    var subfolders, shown := opt.sortNodes(nodes), opt.sortItems(ShownIn(view, opt.visible, Some(f.id)));
    var count := |shown| + Total(subfolders);
    var holdsAnything := ItemsIn(view, Some(f.id)) != [] || Below(view.mine, LISTED, f) != [];
    if count > 0 || (!opt.hideEmpty && (subfolders != [] || !holdsAnything))
      then Some(Node(f, subfolders, shown, count)) else None
  }

  function AsList(node: Option<Node>): seq<Node> {
    match node case None => [] case Some(n) => [n]
  }

  function BuildTree(view: View, opt: Options): Tree {
    var roots := opt.sortNodes(BuildList(view, opt, Top(view.mine, LISTED), {}));
    var top := opt.sortItems(ShownIn(view, opt.visible, None));
    Tree(roots, top, |top| + Total(roots))
  }

  // ------------------------------------------------------------------ reading a tree

  function Under(node: Node): seq<Item> {
    node.items + UnderAll(node.folders)
  }

  function UnderAll(nodes: seq<Node>): seq<Item> {
    if nodes == [] then [] else Under(nodes[0]) + UnderAll(nodes[1..])
  }

  function TreeItems(tree: Tree): seq<Item> {
    tree.items + UnderAll(tree.folders)
  }

  function FindNode(nodes: seq<Node>, id: FolderId): Option<Node> {
    if nodes == [] then None
    else if nodes[0].folder.id == id then Some(nodes[0])
    else
      var inner := FindNode(nodes[0].folders, id);
      if inner.Some? then inner else FindNode(nodes[1..], id)
  }

  function DescendantIds(node: Node): set<FolderId> {
    {node.folder.id} + IdsAll(node.folders)
  }

  function IdsAll(nodes: seq<Node>): set<FolderId> {
    if nodes == [] then {} else DescendantIds(nodes[0]) + IdsAll(nodes[1..])
  }

  // ------------------------------------------------------------------ sorting siblings changes nothing below

  lemma {:induction false} UnderConcat(a: seq<Node>, b: seq<Node>)
    ensures UnderAll(a + b) == UnderAll(a) + UnderAll(b)
    decreases |a|
  {
    if a == [] {
      assert a + b == b;
    } else {
      assert (a + b)[1..] == a[1..] + b;
      UnderConcat(a[1..], b);
    }
  }

  lemma {:induction false} TotalConcat(a: seq<Node>, b: seq<Node>)
    ensures Total(a + b) == Total(a) + Total(b) && IdsAll(a + b) == IdsAll(a) + IdsAll(b)
    decreases |a|
  {
    if a == [] {
      assert a + b == b;
    } else {
      assert (a + b)[1..] == a[1..] + b;
      TotalConcat(a[1..], b);
    }
  }

  /** Everything that counts about a list of nodes, in any order. */
  ghost predicate Alike(a: seq<Node>, b: seq<Node>) {
    multiset(UnderAll(a)) == multiset(UnderAll(b)) && Total(a) == Total(b) && IdsAll(a) == IdsAll(b)
  }

  lemma Pulled(a: seq<Node>, i: nat)
    requires i < |a|
    ensures Alike(a, [a[i]] + (a[..i] + a[i + 1..]))
  {
    var x, y, z := a[..i], [a[i]], a[i + 1..];
    assert a == x + (y + z);
    UnderConcat(x, y + z);
    UnderConcat(y, z);
    UnderConcat(y, x + z);
    UnderConcat(x, z);
    TotalConcat(x, y + z);
    TotalConcat(y, z);
    TotalConcat(y, x + z);
    TotalConcat(x, z);
  }

  lemma PulledBag(a: seq<Node>, b: seq<Node>, i: nat)
    requires multiset(a) == multiset(b) && a != [] && i < |b| && b[i] == a[0]
    ensures multiset(a[1..]) == multiset(b[..i] + b[i + 1..])
  {
    assert a == [a[0]] + a[1..];
    assert multiset(a[1..]) == multiset(a) - multiset{a[0]};
    assert b == b[..i] + ([b[i]] + b[i + 1..]);
    assert multiset(b[..i] + b[i + 1..]) == multiset(b) - multiset{b[i]};
  }

  lemma AlikeCons(node: Node, a: seq<Node>, b: seq<Node>)
    requires Alike(a, b)
    ensures Alike([node] + a, [node] + b)
  {
    UnderConcat([node], a);
    UnderConcat([node], b);
    TotalConcat([node], a);
    TotalConcat([node], b);
  }

  lemma {:induction false} Permuted(a: seq<Node>, b: seq<Node>)
    requires multiset(a) == multiset(b)
    ensures Alike(a, b)
    decreases |a|
  {
    if a == [] {
      assert |multiset(b)| == 0;
    } else {
      assert a[0] in multiset(b);
      var i :| 0 <= i < |b| && b[i] == a[0];
      var c := b[..i] + b[i + 1..];
      PulledBag(a, b, i);
      Permuted(a[1..], c);
      AlikeCons(a[0], a[1..], c);
      Pulled(b, i);
      assert [a[0]] + a[1..] == a;
    }
  }

  lemma SortedNodes(sort: NodeSort, a: seq<Node>)
    ensures multiset(UnderAll(sort(a))) == multiset(UnderAll(a)) && Total(sort(a)) == Total(a) &&
      IdsAll(sort(a)) == IdsAll(a)
    ensures |sort(a)| == |a| && forall node :: node in sort(a) <==> node in a
  {
    assert multiset(sort(a)) == multiset(a);
    Permuted(sort(a), a);
    assert |multiset(sort(a))| == |multiset(a)|;
    forall node ensures node in sort(a) <==> node in a {
      assert node in multiset(sort(a)) <==> node in multiset(a);
    }
  }

  // ------------------------------------------------------------------ counts

  /** `count` is the number of items under the node, and so it is for every node below. */
  ghost predicate Exact(node: Node) {
    node.count == |Under(node)| && forall k :: 0 <= k < |node.folders| ==> Exact(node.folders[k])
  }

  ghost predicate AllExact(nodes: seq<Node>) {
    forall node :: node in nodes ==> Exact(node)
  }

  lemma {:induction false} ExactTotal(nodes: seq<Node>)
    requires AllExact(nodes)
    ensures Total(nodes) == |UnderAll(nodes)|
  {
    if nodes != [] {
      assert nodes[0] in nodes;
      ExactTotal(nodes[1..]);
    }
  }

  // ------------------------------------------------------------------ what a walk shows

  /** The visible items of some folders, counted with repetitions. */
  function ShownAll(view: View, visible: Item -> bool, folders: seq<Folder>): multiset<Item> {
    if folders == [] then multiset{}
    else multiset(ShownIn(view, visible, Some(folders[0].id))) + ShownAll(view, visible, folders[1..])
  }

  lemma {:induction false} ShownConcat(view: View, visible: Item -> bool, a: seq<Folder>, b: seq<Folder>)
    ensures ShownAll(view, visible, a + b) == ShownAll(view, visible, a) + ShownAll(view, visible, b)
    decreases |a|
  {
    if a == [] {
      assert a + b == b;
    } else {
      assert (a + b)[1..] == a[1..] + b;
      ShownConcat(view, visible, a[1..], b);
    }
  }

  /** The nodes built for some folders hold what a walk of those folders shows, with exact counts. */
  ghost predicate Holds(view: View, visible: Item -> bool, nodes: seq<Node>, walk: seq<Folder>) {
    AllExact(nodes) && multiset(UnderAll(nodes)) == ShownAll(view, visible, walk)
  }

  lemma HoldsConcat(view: View, visible: Item -> bool, a: seq<Node>, x: seq<Folder>, b: seq<Node>, y: seq<Folder>)
    requires Holds(view, visible, a, x) && Holds(view, visible, b, y)
    ensures Holds(view, visible, a + b, x + y)
  {
    UnderConcat(a, b);
    ShownConcat(view, visible, x, y);
  }

  lemma HoldsSorted(view: View, visible: Item -> bool, sort: NodeSort, nodes: seq<Node>, walk: seq<Folder>)
    requires Holds(view, visible, nodes, walk)
    ensures Holds(view, visible, sort(nodes), walk)
  {
    SortedNodes(sort, nodes);
  }

  /** A node with the items of its folder and exact subfolders. */
  lemma NodeHolds(view: View, visible: Item -> bool, node: Node, walk: seq<Folder>)
    requires Holds(view, visible, node.folders, walk)
    requires multiset(node.items) == multiset(ShownIn(view, visible, Some(node.folder.id))) &&
      node.count == |node.items| + Total(node.folders)
    ensures Holds(view, visible, [node], [node.folder] + walk)
    ensures node.count == 0 ==> Holds(view, visible, [], [node.folder] + walk)
  {
    ExactTotal(node.folders);
    forall k | 0 <= k < |node.folders| ensures Exact(node.folders[k]) {
      assert node.folders[k] in node.folders;
    }
    assert Under(node) + [] == Under(node) && [node][1..] == [];
    assert UnderAll([node]) == Under(node);
    assert ([node.folder] + walk)[1..] == walk;
    assert multiset(Under(node)) == multiset(node.items) + multiset(UnderAll(node.folders));
    if node.count == 0 {
      assert Under(node) == [];
    }
  }

  lemma {:induction false} BuildListHolds(view: View, opt: Options, list: seq<Folder>, seen: set<FolderId>)
    requires forall f :: f in list ==> f in view.mine
    ensures Holds(view, opt.visible, BuildList(view, opt, list, seen), Walk(view.mine, LISTED, list, seen, None))
    decreases Known(view.mine) - seen, |list|
  {
    if list != [] {
      BuildNodeHolds(view, opt, list[0], seen);
      BuildListHolds(view, opt, list[1..], seen);
      HoldsConcat(view, opt.visible, Built(view, opt, list[0], seen), Met(view, list[0], seen),
                  BuildList(view, opt, list[1..], seen), Walk(view.mine, LISTED, list[1..], seen, None));
    }
  }

  /** The node of one folder, if it is shown. */
  function Built(view: View, opt: Options, f: Folder, seen: set<FolderId>): seq<Node>
    requires f in view.mine
  {
    AsList(BuildNode(view, opt, f, seen))
  }

  /** The folders met from one folder on down. */
  function Met(view: View, f: Folder, seen: set<FolderId>): seq<Folder>
    requires f in view.mine
  {
    if f.id in seen then [] else [f] + Walk(view.mine, LISTED, Below(view.mine, LISTED, f), seen + {f.id}, None)
  }

  lemma {:induction false} BuildNodeHolds(view: View, opt: Options, f: Folder, seen: set<FolderId>)
    requires f in view.mine
    ensures Holds(view, opt.visible, Built(view, opt, f, seen), Met(view, f, seen))
    decreases Known(view.mine) - seen, 0
  {
    if f.id !in seen {
      var children := Below(view.mine, LISTED, f);
      BuildListHolds(view, opt, children, seen + {f.id});
      OneBuilt(view, opt, f, BuildList(view, opt, children, seen + {f.id}),
        Walk(view.mine, LISTED, children, seen + {f.id}, None));
    }
  }

  lemma OneBuilt(view: View, opt: Options, f: Folder, nodes: seq<Node>, walk: seq<Folder>)
    requires Holds(view, opt.visible, nodes, walk)
    ensures Holds(view, opt.visible, AsList(NodeOf(view, opt, f, nodes)), [f] + walk)
  {
    var subfolders, shown := opt.sortNodes(nodes), opt.sortItems(ShownIn(view, opt.visible, Some(f.id)));
    HoldsSorted(view, opt.visible, opt.sortNodes, nodes, walk);
    NodeHolds(view, opt.visible, Node(f, subfolders, shown, |shown| + Total(subfolders)), walk);
  }
}
