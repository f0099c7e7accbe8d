/**
Flat folder lists (src/lib/libraryTree.ts): parent links, levels, and the walk that every tree
and picker is built from. A parent that no folder has counts as the top level; links may form
cycles. Every sort is some function that permutes its argument.
*/
module LibraryFolders {
  import opened Prelude

  type FolderId = nat

  type Scope = nat

  datatype Folder = Folder(id: FolderId, scope: Scope, parent: Option<FolderId>, name: string)

  ghost predicate Permutes<T(!new)>(f: seq<T> -> seq<T>) {
    forall s: seq<T> {:trigger f(s)} :: multiset(f(s)) == multiset(s)
  }

  type Order = f: seq<Folder> -> seq<Folder> | Permutes(f) witness (s: seq<Folder>) => s

  /** The folders of one scope. */
  function Mine(scope: Scope, folders: seq<Folder>): seq<Folder> {
    if folders == [] then []
    else (if folders[0].scope == scope then [folders[0]] else []) + Mine(scope, folders[1..])
  }

  function Ids(folders: seq<Folder>): (r: seq<FolderId>)
    ensures |r| == |folders| && forall k :: 0 <= k < |folders| ==> r[k] == folders[k].id
  {
    seq(|folders|, k requires 0 <= k < |folders| => folders[k].id)
  }

  function Known(mine: seq<Folder>): set<FolderId> {
    set f | f in mine :: f.id
  }

  /** No two folders with one id. */
  ghost predicate Unique(mine: seq<Folder>) {
    mine == [] || ((forall f :: f in mine[1..] ==> f.id != mine[0].id) && Unique(mine[1..]))
  }

  lemma {:induction false} UniqueFrom(mine: seq<Folder>)
    requires forall i, j :: 0 <= i < j < |mine| ==> mine[i].id != mine[j].id
    ensures Unique(mine)
  {
    if mine != [] {
      forall i, j | 0 <= i < j < |mine| - 1 ensures mine[1..][i].id != mine[1..][j].id {
        assert mine[i + 1].id != mine[j + 1].id;
      }
      UniqueFrom(mine[1..]);
      forall f | f in mine[1..] ensures f.id != mine[0].id {
        var k :| 0 <= k < |mine| - 1 && mine[1..][k] == f;
        assert mine[k + 1].id != mine[0].id;
      }
    }
  }

  function ById(mine: seq<Folder>, id: FolderId): (f: Folder)
    requires id in Known(mine)
    ensures f in mine && f.id == id
  {
    if mine[0].id == id then mine[0] else ById(mine[1..], id)
  }

  lemma {:induction false} UniqueById(mine: seq<Folder>, f: Folder)
    requires Unique(mine) && f in mine
    ensures f.id in Known(mine) && ById(mine, f.id) == f
  {
    if mine[0] != f {
      assert f in mine[1..];
      UniqueById(mine[1..], f);
    }
  }

  /** The folder a folder is shown in: its parent if there is such a folder, else the top level. */
  function Parent(mine: seq<Folder>, f: Folder): Option<FolderId> {
    if f.parent.Some? && f.parent.value in Known(mine) then f.parent else None
  }

  function ChildrenIn(mine: seq<Folder>, list: seq<Folder>, key: Option<FolderId>): seq<Folder> {
    if list == [] then []
    else (if Parent(mine, list[0]) == key then [list[0]] else []) + ChildrenIn(mine, list[1..], key)
  }

  /** The folders shown directly under `key`, in the order they are listed. */
  function Children(mine: seq<Folder>, key: Option<FolderId>): seq<Folder> {
    ChildrenIn(mine, mine, key)
  }

  lemma {:induction false} ChildrenAre(mine: seq<Folder>, list: seq<Folder>, key: Option<FolderId>, f: Folder)
    ensures f in ChildrenIn(mine, list, key) <==> f in list && Parent(mine, f) == key
  {
    if list != [] {
      ChildrenAre(mine, list[1..], key, f);
    }
  }

  lemma {:induction false} ChildOnce(mine: seq<Folder>, list: seq<Folder>, key: Option<FolderId>, f: Folder)
    requires Unique(list) && f in list
    ensures multiset(ChildrenIn(mine, list, key))[f] == if Parent(mine, f) == key then 1 else 0
  {
    var rest := ChildrenIn(mine, list[1..], key);
    var first := if Parent(mine, list[0]) == key then [list[0]] else [];
    assert multiset(first + rest)[f] == multiset(first)[f] + multiset(rest)[f];
    if list[0] == f {
      assert f !in list[1..];
      ChildrenAre(mine, list[1..], key, f);
    } else {
      assert f in list[1..];
      ChildOnce(mine, list[1..], key, f);
    }
  }

  // ------------------------------------------------------------------ levels

  /** `n` steps up from `f` is a folder at the top level. */
  predicate AtLevel(mine: seq<Folder>, f: Folder, n: nat)
    decreases n
  {
    if n == 0 then Parent(mine, f).None?
    else Parent(mine, f).Some? && AtLevel(mine, ById(mine, Parent(mine, f).value), n - 1)
  }

  /** The parent links lead from `f` to the top level, rather than round a cycle. */
  ghost predicate Rooted(mine: seq<Folder>, f: Folder) {
    exists n: nat :: AtLevel(mine, f, n)
  }

  lemma {:induction false} LevelUnique(mine: seq<Folder>, f: Folder, m: nat, n: nat)
    requires AtLevel(mine, f, m) && AtLevel(mine, f, n)
    ensures m == n
    decreases m
  {
    if m > 0 && n > 0 {
      LevelUnique(mine, ById(mine, Parent(mine, f).value), m - 1, n - 1);
    }
  }

  /** The folder `k` steps up. */
  function Up(mine: seq<Folder>, f: Folder, k: nat): Folder
    decreases k
  {
    if k == 0 || Parent(mine, f).None? then f else Up(mine, ById(mine, Parent(mine, f).value), k - 1)
  }

  lemma {:induction false} UpLevel(mine: seq<Folder>, f: Folder, n: nat, k: nat)
    requires f in mine && AtLevel(mine, f, n) && k <= n
    ensures Up(mine, f, k) in mine && AtLevel(mine, Up(mine, f, k), n - k)
    decreases k
  {
    if k > 0 {
      UpLevel(mine, ById(mine, Parent(mine, f).value), n - 1, k - 1);
    }
  }

  lemma {:induction false} UpStep(mine: seq<Folder>, f: Folder, n: nat, k: nat)
    requires f in mine && AtLevel(mine, f, n) && k < n
    ensures Parent(mine, Up(mine, f, k)).Some? && ById(mine, Parent(mine, Up(mine, f, k)).value) == Up(mine, f, k + 1)
    decreases k
  {
    if k > 0 {
      UpStep(mine, ById(mine, Parent(mine, f).value), n - 1, k - 1);
    }
  }

  /** None of the folders from `f` to `k` steps up has the id `except`. */
  predicate Clear(mine: seq<Folder>, f: Folder, k: nat, except: Option<FolderId>)
    decreases k
  {
    except != Some(f.id) &&
      (k > 0 && Parent(mine, f).Some? ==> Clear(mine, ById(mine, Parent(mine, f).value), k - 1, except))
  }

  lemma {:induction false} ClearStep(mine: seq<Folder>, f: Folder, n: nat, k: nat, except: Option<FolderId>)
    requires f in mine && AtLevel(mine, f, n) && k < n
    ensures Clear(mine, f, k + 1, except) <==> Clear(mine, f, k, except) && except != Some(Up(mine, f, k + 1).id)
    decreases k
  {
    var p := ById(mine, Parent(mine, f).value);
    if k > 0 {
      ClearStep(mine, p, n - 1, k - 1, except);
    } else {
      assert Up(mine, f, 1) == Up(mine, p, 0) == p;
      assert Clear(mine, p, 0, except) <==> except != Some(p.id);
    }
  }

  // ------------------------------------------------------------------ the walk

  /**
  The folders met when walking a list of siblings depth first, `seen` being the folders on the way
  down; neither those nor the folder `except` are entered.
  */
  function Walk(mine: seq<Folder>, order: Order, list: seq<Folder>, seen: set<FolderId>,
    except: Option<FolderId>): seq<Folder>
    requires forall f :: f in list ==> f in mine
    decreases Known(mine) - seen, |list|
  {
    if list == [] then []
    else
      var f := list[0];
      (if except == Some(f.id) || f.id in seen then []
       else [f] + Walk(mine, order, Below(mine, order, f), seen + {f.id}, except))
      + Walk(mine, order, list[1..], seen, except)
  }

  /** The folders directly under `f`, sorted. */
  function Below(mine: seq<Folder>, order: Order, f: Folder): (r: seq<Folder>)
    ensures forall g :: g in r ==> g in mine && Parent(mine, g) == Some(f.id)
  {
    var children := Children(mine, Some(f.id));
    assert forall g :: g in order(children) ==> g in mine && Parent(mine, g) == Some(f.id) by {
      forall g | g in order(children) ensures g in mine && Parent(mine, g) == Some(f.id) {
        assert g in multiset(order(children));
        ChildrenAre(mine, mine, Some(f.id), g);
      }
    }
    order(children)
  }

  ghost predicate AllAtLevel(mine: seq<Folder>, list: seq<Folder>, d: nat) {
    forall f :: f in list ==> f in mine && AtLevel(mine, f, d)
  }

  ghost predicate AllAbove(mine: seq<Folder>, seen: set<FolderId>, d: nat) {
    forall id :: id in seen ==> id in Known(mine) && exists m: nat :: m < d && AtLevel(mine, ById(mine, id), m)
  }

  /** From the top down no folder is ever met on its own way down. */
  lemma NotSeen(mine: seq<Folder>, f: Folder, seen: set<FolderId>, d: nat)
    requires Unique(mine) && f in mine && AtLevel(mine, f, d) && AllAbove(mine, seen, d)
    ensures f.id !in seen && AllAbove(mine, seen + {f.id}, d + 1)
  {
    UniqueById(mine, f);
    if f.id in seen {
      var m: nat :| m < d && AtLevel(mine, ById(mine, f.id), m);
      LevelUnique(mine, f, m, d);
    }
    forall id | id in seen + {f.id}
      ensures id in Known(mine) && exists m: nat :: m < d + 1 && AtLevel(mine, ById(mine, id), m) {
      if id == f.id {
        assert AtLevel(mine, ById(mine, id), d);
      } else {
        var m: nat :| m < d && AtLevel(mine, ById(mine, id), m);
      }
    }
  }

  lemma BelowLevel(mine: seq<Folder>, order: Order, f: Folder, d: nat)
    requires Unique(mine) && f in mine && AtLevel(mine, f, d)
    ensures AllAtLevel(mine, Below(mine, order, f), d + 1)
  {
    UniqueById(mine, f);
  }

  /** At level `d` or further down. */
  ghost predicate Deep(mine: seq<Folder>, g: Folder, d: nat) {
    g in mine && exists n: nat :: n >= d && AtLevel(mine, g, n)
  }

  /** The walk meets folders at the level of the list or further down. */
  lemma {:induction false} WalkLevels(mine: seq<Folder>, order: Order, list: seq<Folder>, seen: set<FolderId>,
    except: Option<FolderId>, d: nat, g: Folder)
    requires Unique(mine) && AllAtLevel(mine, list, d) && AllAbove(mine, seen, d)
    requires g in Walk(mine, order, list, seen, except)
    ensures Deep(mine, g, d)
    decreases Known(mine) - seen, |list|
  {
    var f := list[0];
    assert f in list;
    if g in Walk(mine, order, list[1..], seen, except) {
      WalkLevels(mine, order, list[1..], seen, except, d, g);
    } else if g == f {
      assert AtLevel(mine, g, d);
    } else {
      NotSeen(mine, f, seen, d);
      UniqueById(mine, f);
      BelowLevel(mine, order, f, d);
      WalkLevels(mine, order, Below(mine, order, f), seen + {f.id}, except, d + 1, g);
      var n: nat :| n >= d + 1 && AtLevel(mine, g, n);
    }
  }

  lemma WalkLevelIs(mine: seq<Folder>, order: Order, list: seq<Folder>, seen: set<FolderId>, except: Option<FolderId>,
    d: nat, g: Folder, n: nat)
    requires Unique(mine) && AllAtLevel(mine, list, d) && AllAbove(mine, seen, d)
    requires AtLevel(mine, g, n) && n < d
    ensures multiset(Walk(mine, order, list, seen, except))[g] == 0
  {
    if g in Walk(mine, order, list, seen, except) {
      WalkLevels(mine, order, list, seen, except, d, g);
      var m: nat :| m >= d && AtLevel(mine, g, m);
      LevelUnique(mine, g, m, n);
    }
  }

  /** How often a folder at level `n` is met in a walk of siblings at level `d`. */
  function Times(mine: seq<Folder>, list: seq<Folder>, except: Option<FolderId>, d: nat, g: Folder, n: nat): nat
    requires d <= n
  {
    if Clear(mine, g, n - d, except) then multiset(list)[Up(mine, g, n - d)] else 0
  }

  lemma BelowOnce(mine: seq<Folder>, order: Order, f: Folder, g: Folder)
    requires Unique(mine) && g in mine
    ensures multiset(Below(mine, order, f))[g] == if Parent(mine, g) == Some(f.id) then 1 else 0
  {
    ChildOnce(mine, mine, Some(f.id), g);
    assert multiset(Below(mine, order, f)) == multiset(Children(mine, Some(f.id)));
  }

  lemma BelowTimes(mine: seq<Folder>, order: Order, f: Folder, except: Option<FolderId>, d: nat, g: Folder, n: nat)
    requires Unique(mine) && f in mine && g in mine && AtLevel(mine, g, n) && d < n && except != Some(f.id)
    ensures Times(mine, Below(mine, order, f), except, d + 1, g, n) == Times(mine, [f], except, d, g, n)
  {
    var k := n - d - 1;
    var a, b := Up(mine, g, k + 1), Up(mine, g, k);
    UpLevel(mine, g, n, k);
    UpStep(mine, g, n, k);
    ClearStep(mine, g, n, k, except);
    BelowOnce(mine, order, f, b);
    UniqueById(mine, f);
    assert Parent(mine, b) == Some(f.id) <==> a == f;
    assert multiset([f])[a] == if a == f then 1 else 0;
  }

  lemma TimesSplit(mine: seq<Folder>, list: seq<Folder>, except: Option<FolderId>, d: nat, g: Folder, n: nat)
    requires list != [] && d <= n
    ensures Times(mine, list, except, d, g, n) ==
      Times(mine, [list[0]], except, d, g, n) + Times(mine, list[1..], except, d, g, n)
  {
    assert list == [list[0]] + list[1..];
  }

  lemma {:induction false} UpIsNotExcept(mine: seq<Folder>, f: Folder, k: nat, except: Option<FolderId>)
    requires Clear(mine, f, k, except)
    ensures except != Some(Up(mine, f, k).id)
    decreases k
  {
    if k > 0 && Parent(mine, f).Some? {
      UpIsNotExcept(mine, ById(mine, Parent(mine, f).value), k - 1, except);
    }
  }

  /**
  The walk meets a folder as often as its ancestor at the level of the list stands in the list, if nothing
  between them is left out.
  */
  lemma {:induction false} WalkTimes(mine: seq<Folder>, order: Order, list: seq<Folder>, seen: set<FolderId>,
    except: Option<FolderId>,
      d: nat, g: Folder, n: nat)
    requires Unique(mine) && AllAtLevel(mine, list, d) && AllAbove(mine, seen, d)
    requires g in mine && AtLevel(mine, g, n) && d <= n
    ensures multiset(Walk(mine, order, list, seen, except))[g] == Times(mine, list, except, d, g, n)
    decreases Known(mine) - seen, |list| + 1
  {
    if list != [] {
      var f := list[0];
      NotSeen(mine, f, seen, d);
      UniqueById(mine, f);
      WalkTimes(mine, order, list[1..], seen, except, d, g, n);
      TimesSplit(mine, list, except, d, g, n);
      HeadTimes(mine, order, f, seen, except, d, g, n);
    }
  }

  /** One folder of the list and everything under it. */
  lemma {:induction false} HeadTimes(mine: seq<Folder>, order: Order, f: Folder, seen: set<FolderId>,
    except: Option<FolderId>, d: nat, g: Folder, n: nat)
    requires Unique(mine) && f in mine && AtLevel(mine, f, d) && AllAbove(mine, seen, d) && f.id in Known(mine) &&
      f.id !in seen
    requires g in mine && AtLevel(mine, g, n) && d <= n
    ensures multiset(if except == Some(f.id) then []
      else [f] + Walk(mine, order, Below(mine, order, f), seen + {f.id}, except))[g] ==
      Times(mine, [f], except, d, g, n)
    decreases Known(mine) - seen, 1
  {
    if except == Some(f.id) {
      if Clear(mine, g, n - d, except) {
        UpIsNotExcept(mine, g, n - d, except);
      }
    } else {
      UnderTimes(mine, order, f, seen, except, d, g, n);
      var under := Walk(mine, order, Below(mine, order, f), seen + {f.id}, except);
      assert multiset([f] + under)[g] == multiset([f])[g] + multiset(under)[g];
      if n == d {
        assert Up(mine, g, 0) == g;
      } else if f == g {
        LevelUnique(mine, f, d, n);
      }
    }
  }

  lemma {:induction false} UnderTimes(mine: seq<Folder>, order: Order, f: Folder, seen: set<FolderId>,
    except: Option<FolderId>, d: nat, g: Folder, n: nat)
    requires Unique(mine) && f in mine && AtLevel(mine, f, d) && AllAbove(mine, seen, d) && f.id in Known(mine) &&
      f.id !in seen
    requires g in mine && AtLevel(mine, g, n) && d <= n && except != Some(f.id)
    ensures multiset(Walk(mine, order, Below(mine, order, f), seen + {f.id}, except))[g] ==
      if n == d then 0 else Times(mine, [f], except, d, g, n)
    decreases Known(mine) - seen, 0
  {
    NotSeen(mine, f, seen, d);
    BelowLevel(mine, order, f, d);
    if n == d {
      WalkLevelIs(mine, order, Below(mine, order, f), seen + {f.id}, except, d + 1, g, n);
    } else {
      WalkTimes(mine, order, Below(mine, order, f), seen + {f.id}, except, d + 1, g, n);
      BelowTimes(mine, order, f, except, d, g, n);
    }
  }

  // ------------------------------------------------------------------ from the top

  /** The folders at the top level, sorted. */
  function Top(mine: seq<Folder>, order: Order): (r: seq<Folder>)
    ensures AllAtLevel(mine, r, 0)
  {
    var children := Children(mine, None);
    assert AllAtLevel(mine, order(children), 0) by {
      forall g | g in order(children) ensures g in mine && AtLevel(mine, g, 0) {
        assert g in multiset(order(children));
        ChildrenAre(mine, mine, None, g);
      }
    }
    order(children)
  }

  function WalkAll(mine: seq<Folder>, order: Order, except: Option<FolderId>): seq<Folder> {
    Walk(mine, order, Top(mine, order), {}, except)
  }

  /** The folder is reached from the top without passing through `except`. */
  ghost predicate Reached(mine: seq<Folder>, f: Folder, except: Option<FolderId>) {
    f in mine && exists n: nat :: AtLevel(mine, f, n) && Clear(mine, f, n, except)
  }

  lemma ReachedAt(mine: seq<Folder>, f: Folder, except: Option<FolderId>, n: nat)
    requires f in mine && AtLevel(mine, f, n)
    ensures Reached(mine, f, except) <==> Clear(mine, f, n, except)
  {
    if Reached(mine, f, except) {
      var m: nat :| AtLevel(mine, f, m) && Clear(mine, f, m, except);
      LevelUnique(mine, f, m, n);
    }
  }

  /** The whole walk meets each folder that is reached from the top exactly once, and no other. */
  lemma WalkAllOnce(mine: seq<Folder>, order: Order, except: Option<FolderId>, g: Folder)
    requires Unique(mine)
    ensures multiset(WalkAll(mine, order, except))[g] == if Reached(mine, g, except) then 1 else 0
  {
    if g in WalkAll(mine, order, except) {
      WalkLevels(mine, order, Top(mine, order), {}, except, 0, g);
    }
    if g in mine && Rooted(mine, g) {
      var n: nat :| AtLevel(mine, g, n);
      WalkTimes(mine, order, Top(mine, order), {}, except, 0, g, n);
      UpLevel(mine, g, n, n);
      ChildOnce(mine, mine, None, Up(mine, g, n));
      assert multiset(Top(mine, order)) == multiset(Children(mine, None));
      ReachedAt(mine, g, except, n);
    }
  }
}
