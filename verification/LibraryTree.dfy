/**
What a built folder tree holds and which folders it shows (src/lib/libraryTree.ts), for any
parent links, and the loops that group folders and items.
*/
module LibraryTree {
  import opened Prelude
  import opened LibraryFolders
  import opened LibraryBuild

  // ------------------------------------------------------------------ the items

  /** The places from which an item reaches the tree: the top level, and folders whose links lead there. */
  ghost function RootedKeys(mine: seq<Folder>): set<Option<FolderId>> {
    {None} + set f | f in mine && Rooted(mine, f) :: Some(f.id)
  }

  function KeysOf(folders: seq<Folder>): set<Option<FolderId>> {
    set f | f in folders :: Some(f.id)
  }

  lemma {:induction false} FiledUnion(items: seq<Item>, home: map<ItemId, FolderId>, visible: Item -> bool,
    a: set<Option<FolderId>>, b: set<Option<FolderId>>)
    requires a !! b
    ensures multiset(Filed(items, home, visible, a + b)) ==
      multiset(Filed(items, home, visible, a)) + multiset(Filed(items, home, visible, b))
  {
    if items != [] {
      FiledUnion(items[1..], home, visible, a, b);
    }
  }

  lemma {:induction false} FiledNone(items: seq<Item>, home: map<ItemId, FolderId>, visible: Item -> bool)
    ensures Filed(items, home, visible, {}) == []
  {
    if items != [] {
      FiledNone(items[1..], home, visible);
    }
  }

  /** What distinct folders show, together: the visible items in any of them. */
  lemma {:induction false} ShownSum(view: View, visible: Item -> bool, folders: seq<Folder>)
    requires Unique(folders)
    ensures ShownAll(view, visible, folders) == multiset(Filed(view.items, view.home, visible, KeysOf(folders)))
  {
    if folders == [] {
      assert KeysOf(folders) == {};
      FiledNone(view.items, view.home, visible);
    } else {
      var f, rest := folders[0], folders[1..];
      ShownSum(view, visible, rest);
      assert KeysOf(folders) == {Some(f.id)} + KeysOf(rest);
      assert {Some(f.id)} !! KeysOf(rest);
      FiledUnion(view.items, view.home, visible, {Some(f.id)}, KeysOf(rest));
    }
  }

  lemma {:induction false} ClearOfNothing(mine: seq<Folder>, f: Folder, k: nat)
    ensures Clear(mine, f, k, None)
    decreases k
  {
    if k > 0 && Parent(mine, f).Some? {
      ClearOfNothing(mine, ById(mine, Parent(mine, f).value), k - 1);
    }
  }

  lemma ReachedIsRooted(mine: seq<Folder>, f: Folder)
    ensures Reached(mine, f, None) <==> f in mine && Rooted(mine, f)
  {
    if f in mine && Rooted(mine, f) {
      var n: nat :| AtLevel(mine, f, n);
      ClearOfNothing(mine, f, n);
    }
  }

  /** A list that holds nothing twice. */
  lemma OnceDistinct<T>(s: seq<T>, i: nat, j: nat)
    requires i < j < |s| && multiset(s)[s[i]] <= 1
    ensures s[i] != s[j]
  {
    assert s == s[..j] + s[j..];
    assert multiset(s) == multiset(s[..j]) + multiset(s[j..]);
    assert s[..j][i] == s[i] && s[i] in s[..j] && s[j..][0] == s[j];
  }

  /** The walk from the top meets the rooted folders, each once. */
  lemma WalkIsRooted(mine: seq<Folder>)
    requires Unique(mine)
    ensures Unique(WalkAll(mine, LISTED, None)) && KeysOf(WalkAll(mine, LISTED, None)) + {None} == RootedKeys(mine)
  {
    var walk := WalkAll(mine, LISTED, None);
    forall g ensures g in walk <==> g in mine && Rooted(mine, g) {
      WalkAllOnce(mine, LISTED, None, g);
      ReachedIsRooted(mine, g);
      assert g in walk <==> multiset(walk)[g] > 0;
    }
    forall i, j | 0 <= i < j < |walk| ensures walk[i].id != walk[j].id {
      WalkAllOnce(mine, LISTED, None, walk[i]);
      OnceDistinct(walk, i, j);
      assert walk[i] in walk && walk[j] in walk;
      UniqueById(mine, walk[i]);
      UniqueById(mine, walk[j]);
    }
    UniqueFrom(walk);
  }

  /**
  Nothing is lost and nothing doubled: the tree holds, with repetitions, exactly the visible items
  at the top level or in a folder whose links lead there; and every count is the number of items
  under its node, whether folders are hidden or not.
  */
  lemma TreeHolds(view: View, opt: Options)
    requires Unique(view.mine)
    ensures var tree := BuildTree(view, opt);
      && multiset(TreeItems(tree)) == multiset(Filed(view.items, view.home, opt.visible, RootedKeys(view.mine)))
      && tree.count == |TreeItems(tree)| && AllExact(tree.folders)
  {
    var mine := view.mine;
    var walk := WalkAll(mine, LISTED, None);
    var nodes := BuildList(view, opt, Top(mine, LISTED), {});
    BuildListHolds(view, opt, Top(mine, LISTED), {});
    HoldsSorted(view, opt.visible, opt.sortNodes, nodes, walk);
    ExactTotal(opt.sortNodes(nodes));
    WalkIsRooted(mine);
    ShownSum(view, opt.visible, walk);
    FiledUnion(view.items, view.home, opt.visible, KeysOf(walk), {None});
  }

  function Visible(items: seq<Item>, visible: Item -> bool): seq<Item> {
    if items == [] then [] else (if visible(items[0]) then [items[0]] else []) + Visible(items[1..], visible)
  }

  ghost predicate AllIn(items: seq<Item>, home: map<ItemId, FolderId>, visible: Item -> bool,
    keys: set<Option<FolderId>>) {
    forall item :: item in items && visible(item) ==> Key(home, item) in keys
  }

  lemma {:induction false} FiledAll(items: seq<Item>, home: map<ItemId, FolderId>, visible: Item -> bool,
    keys: set<Option<FolderId>>)
    ensures |Filed(items, home, visible, keys)| <= |Visible(items, visible)|
    ensures |Filed(items, home, visible, keys)| == |Visible(items, visible)| <==> AllIn(items, home, visible, keys)
    ensures AllIn(items, home, visible, keys) ==> Filed(items, home, visible, keys) == Visible(items, visible)
  {
    if items != [] {
      FiledAll(items[1..], home, visible, keys);
      assert forall item :: item in items <==> item == items[0] || item in items[1..];
    }
  }

  /** The tree holds every visible item exactly when no visible item is in a folder on, or under, a cycle. */
  lemma NothingLost(view: View, opt: Options)
    requires Unique(view.mine)
    ensures multiset(TreeItems(BuildTree(view, opt))) == multiset(Visible(view.items, opt.visible)) <==>
      AllIn(view.items, view.home, opt.visible, RootedKeys(view.mine))
  {
    TreeHolds(view, opt);
    FiledAll(view.items, view.home, opt.visible, RootedKeys(view.mine));
    var a, b := Filed(view.items, view.home, opt.visible, RootedKeys(view.mine)), Visible(view.items, opt.visible);
    assert |multiset(a)| == |a| && |multiset(b)| == |b|;
  }

  // ------------------------------------------------------------------ the folders

  /** A reason to show a folder: a visible item in it, or, unless empty folders are hidden, nothing in it at all. */
  predicate Worthwhile(view: View, opt: Options, f: Folder) {
    || ShownIn(view, opt.visible, Some(f.id)) != []
    || (!opt.hideEmpty && ItemsIn(view, Some(f.id)) == [] && Below(view.mine, LISTED, f) == [])
  }

  predicate AnyWorthwhile(view: View, opt: Options, folders: seq<Folder>) {
    folders != [] && (Worthwhile(view, opt, folders[0]) || AnyWorthwhile(view, opt, folders[1..]))
  }

  lemma {:induction false} AnyConcat(view: View, opt: Options, a: seq<Folder>, b: seq<Folder>)
    ensures AnyWorthwhile(view, opt, a + b) <==> AnyWorthwhile(view, opt, a) || AnyWorthwhile(view, opt, b)
    decreases |a|
  {
    if a == [] {
      assert a + b == b;
    } else {
      assert (a + b)[1..] == a[1..] + b;
      AnyConcat(view, opt, a[1..], b);
    }
  }

  lemma {:induction false} ShownSomething(view: View, opt: Options, folders: seq<Folder>)
    ensures ShownAll(view, opt.visible, folders) != multiset{} ==> AnyWorthwhile(view, opt, folders)
    ensures opt.hideEmpty && AnyWorthwhile(view, opt, folders) ==> ShownAll(view, opt.visible, folders) != multiset{}
  {
    if folders != [] {
      ShownSomething(view, opt, folders[1..]);
      var shown := ShownIn(view, opt.visible, Some(folders[0].id));
      if shown != [] {
        assert shown[0] in multiset(shown);
        assert shown[0] in ShownAll(view, opt.visible, folders);
      }
    }
  }

  lemma {:induction false} BuildListKeeps(view: View, opt: Options, list: seq<Folder>, seen: set<FolderId>)
    requires forall f :: f in list ==> f in view.mine
    ensures BuildList(view, opt, list, seen) != [] <==>
      AnyWorthwhile(view, opt, Walk(view.mine, LISTED, list, seen, None))
    decreases Known(view.mine) - seen, |list|
  {
    if list != [] {
      KeptExactly(view, opt, list[0], seen);
      BuildListKeeps(view, opt, list[1..], seen);
      AnyConcat(view, opt, Met(view, list[0], seen), Walk(view.mine, LISTED, list[1..], seen, None));
    }
  }

  /** A folder is shown exactly when it, or a folder somewhere under it, is worthwhile. */
  lemma {:induction false} KeptExactly(view: View, opt: Options, f: Folder, seen: set<FolderId>)
    requires f in view.mine
    ensures BuildNode(view, opt, f, seen).Some? <==> AnyWorthwhile(view, opt, Met(view, f, seen))
    decreases Known(view.mine) - seen, 0
  {
    if f.id !in seen {
      var children := Below(view.mine, LISTED, f);
      var nodes := BuildList(view, opt, children, seen + {f.id});
      var walk := Walk(view.mine, LISTED, children, seen + {f.id}, None);
      BuildListKeeps(view, opt, children, seen + {f.id});
      BuildListHolds(view, opt, children, seen + {f.id});
      CountPositive(view, opt, f, nodes, walk);
      assert ([f] + walk)[1..] == walk;
    }
  }

  lemma CountPositive(view: View, opt: Options, f: Folder, nodes: seq<Node>, walk: seq<Folder>)
    requires Holds(view, opt.visible, nodes, walk) && (nodes != [] <==> AnyWorthwhile(view, opt, walk))
    ensures |opt.sortNodes(nodes)| == |nodes|
    ensures var count := |opt.sortItems(ShownIn(view, opt.visible, Some(f.id)))| + Total(opt.sortNodes(nodes));
      && (count > 0 ==> ShownIn(view, opt.visible, Some(f.id)) != [] || nodes != [])
      && (ShownIn(view, opt.visible, Some(f.id)) != [] || (opt.hideEmpty && nodes != []) ==> count > 0)
  {
    var shown := ShownIn(view, opt.visible, Some(f.id));
    assert |multiset(opt.sortItems(shown))| == |multiset(shown)|;
    SortedNodes(opt.sortNodes, nodes);
    ExactTotal(nodes);
    ShownSomething(view, opt, walk);
    assert |multiset(UnderAll(nodes))| == |UnderAll(nodes)|;
  }

  // ------------------------------------------------------------------ the loops that group

  function Get<T>(m: map<Option<FolderId>, seq<T>>, key: Option<FolderId>): seq<T> {
    if key in m then m[key] else []
  }

  lemma {:induction false} ChildrenSnoc(mine: seq<Folder>, list: seq<Folder>, key: Option<FolderId>)
    requires list != []
    ensures ChildrenIn(mine, list, key) ==
      ChildrenIn(mine, list[..|list| - 1], key) + (if Parent(mine, Last(list)) == key then [Last(list)] else [])
  {
    if |list| > 1 {
      ChildrenSnoc(mine, list[1..], key);
      assert list[1..][..|list| - 2] == list[..|list| - 1][1..];
    }
  }

  method GroupFolders(mine: seq<Folder>) returns (childrenOf: map<Option<FolderId>, seq<Folder>>)
    ensures forall key :: Get(childrenOf, key) == Children(mine, key)
  {
    childrenOf := map[];
    for i := 0 to |mine|
      invariant forall key :: Get(childrenOf, key) == ChildrenIn(mine, mine[..i], key)
    {
      var parent := Parent(mine, mine[i]);
      forall key ensures ChildrenIn(mine, mine[..i + 1], key) ==
        ChildrenIn(mine, mine[..i], key) + if parent == key then [mine[i]] else []
      {
        assert mine[..i + 1][..i] == mine[..i];
        ChildrenSnoc(mine, mine[..i + 1], key);
      }
      ghost var before := childrenOf;
      childrenOf := childrenOf[parent := Get(childrenOf, parent) + [mine[i]]];
      forall key ensures Get(childrenOf, key) == ChildrenIn(mine, mine[..i + 1], key) {
        assert Get(before, key) == ChildrenIn(mine, mine[..i], key);
      }
    }
    assert mine[..|mine|] == mine;
  }

  lemma {:induction false} FiledSnoc(items: seq<Item>, home: map<ItemId, FolderId>, key: Option<FolderId>)
    requires items != []
    ensures Filed(items, home, EVERYTHING, {key}) ==
      Filed(items[..|items| - 1], home, EVERYTHING, {key}) +
        (if Key(home, Last(items)) == key then [Last(items)] else [])
  {
    if |items| > 1 {
      FiledSnoc(items[1..], home, key);
      assert items[1..][..|items| - 2] == items[..|items| - 1][1..];
    }
  }

  method GroupItems(items: seq<Item>, home: map<ItemId, FolderId>) returns (itemsIn: map<Option<FolderId>, seq<Item>>)
    ensures forall key :: Get(itemsIn, key) == Filed(items, home, EVERYTHING, {key})
  {
    itemsIn := map[];
    for i := 0 to |items|
      invariant forall key :: Get(itemsIn, key) == Filed(items[..i], home, EVERYTHING, {key})
    {
      var at := Key(home, items[i]);
      forall key ensures Filed(items[..i + 1], home, EVERYTHING, {key}) ==
        Filed(items[..i], home, EVERYTHING, {key}) + if at == key then [items[i]] else []
      {
        assert items[..i + 1][..i] == items[..i];
        FiledSnoc(items[..i + 1], home, key);
      }
      itemsIn := itemsIn[at := Get(itemsIn, at) + [items[i]]];
    }
    assert items[..|items|] == items;
  }

  method PlaceItems(scope: Scope, known: set<FolderId>, placements: seq<Placement>)
    returns (folderOf: map<ItemId, FolderId>)
    ensures folderOf == Homes(scope, known, placements)
  {
    folderOf := map[];
    for i := 0 to |placements|
      invariant folderOf == Homes(scope, known, placements[..i])
    {
      var p := placements[i];
      assert placements[..i + 1][..i] == placements[..i];
      if p.scope == scope && p.folder in known {
        folderOf := folderOf[p.item := p.folder];
      }
    }
    assert placements[..|placements|] == placements;
  }
}
