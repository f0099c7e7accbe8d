/**
Folder pickers (`flattenFolders`, `folderPath` of src/lib/libraryTree.ts): what is listed, at what
depth and under what path, and why a folder may be moved to any folder listed for it.
*/
module LibraryFlat {
  import opened Prelude
  import opened LibraryFolders

  datatype FlatFolder = FlatFolder(folder: Folder, depth: nat, path: string)

  function PathUnder(prefix: string, name: string): string {
    if |prefix| > 0 then prefix + " / " + name else name
  }

  /** The entries for a list of siblings and everything under them. */
  function Flatten(mine: seq<Folder>, order: Order, list: seq<Folder>, depth: nat, prefix: string, seen: set<FolderId>,
    except: Option<FolderId>): seq<FlatFolder>
    requires forall f :: f in list ==> f in mine
    decreases Known(mine) - seen, |list|
  {
    if list == [] then []
    else
      Entries(mine, order, list[0], depth, prefix, seen, except) +
      Flatten(mine, order, list[1..], depth, prefix, seen, except)
  }

  /** What the list says of one folder: an entry of its own, and those of its subtree. */
  function Entries(mine: seq<Folder>, order: Order, f: Folder, depth: nat, prefix: string, seen: set<FolderId>,
    except: Option<FolderId>): seq<FlatFolder>
    requires f in mine
    decreases Known(mine) - seen, 0
  {
    var path := PathUnder(prefix, f.name);
    if except == Some(f.id) || f.id in seen then []
    else
      [FlatFolder(f, depth, path)] +
      Flatten(mine, order, Below(mine, order, f), depth + 1, path, seen + {f.id}, except)
  }

  function FlattenFolders(scope: Scope, order: Order, folders: seq<Folder>, except: Option<FolderId>): seq<FlatFolder> {
    var mine := Mine(scope, folders);
    Flatten(mine, order, Top(mine, order), 0, "", {}, except)
  }

  // ------------------------------------------------------------------ which folders are listed

  function Folders(entries: seq<FlatFolder>): (r: seq<Folder>)
    ensures |r| == |entries| && forall k :: 0 <= k < |entries| ==> r[k] == entries[k].folder
  {
    seq(|entries|, k requires 0 <= k < |entries| => entries[k].folder)
  }

  lemma FoldersConcat(a: seq<FlatFolder>, b: seq<FlatFolder>)
    ensures Folders(a + b) == Folders(a) + Folders(b)
  {
  }

  lemma {:induction false} FlattenIsWalk(mine: seq<Folder>, order: Order, list: seq<Folder>, depth: nat, prefix: string,
    seen: set<FolderId>, except: Option<FolderId>)
    requires forall f :: f in list ==> f in mine
    ensures Folders(Flatten(mine, order, list, depth, prefix, seen, except)) == Walk(mine, order, list, seen, except)
    decreases Known(mine) - seen, |list|
  {
    if list != [] {
      var f := list[0];
      var path := PathUnder(prefix, f.name);
      var rest := Flatten(mine, order, list[1..], depth, prefix, seen, except);
      FlattenIsWalk(mine, order, list[1..], depth, prefix, seen, except);
      if except != Some(f.id) && f.id !in seen {
        var under := Flatten(mine, order, Below(mine, order, f), depth + 1, path, seen + {f.id}, except);
        assert f.id in Known(mine);
        FlattenIsWalk(mine, order, Below(mine, order, f), depth + 1, path, seen + {f.id}, except);
        FoldersConcat([FlatFolder(f, depth, path)], under);
        FoldersConcat([FlatFolder(f, depth, path)] + under, rest);
        assert Folders([FlatFolder(f, depth, path)]) == [f];
        assert Entries(mine, order, f, depth, prefix, seen, except) == [FlatFolder(f, depth, path)] + under;
      } else {
        assert [] + rest == rest;
      }
    }
  }

  /**
  Each folder reached from the top other than through the excluded one is listed exactly once, and no other
  folder is.
  */
  lemma ListedOnce(scope: Scope, order: Order, folders: seq<Folder>, except: Option<FolderId>, g: Folder)
    requires Unique(Mine(scope, folders))
    ensures multiset(Folders(FlattenFolders(scope, order, folders, except)))[g] ==
      if Reached(Mine(scope, folders), g, except) then 1 else 0
  {
    var mine := Mine(scope, folders);
    FlattenIsWalk(mine, order, Top(mine, order), 0, "", {}, except);
    WalkAllOnce(mine, order, except, g);
  }

  // ------------------------------------------------------------------ depth and path

  /** The path the picker shows for a folder at level `n`. */
  function FlatPath(mine: seq<Folder>, f: Folder, n: nat): string
    requires AtLevel(mine, f, n)
    decreases n
  {
    if n == 0 then f.name else PathUnder(FlatPath(mine, ById(mine, Parent(mine, f).value), n - 1), f.name)
  }

  /** An entry says where its folder is. */
  ghost predicate Placed(mine: seq<Folder>, e: FlatFolder) {
    AtLevel(mine, e.folder, e.depth) && e.path == FlatPath(mine, e.folder, e.depth)
  }

  ghost predicate AllPlaced(mine: seq<Folder>, entries: seq<FlatFolder>) {
    forall k :: 0 <= k < |entries| ==> Placed(mine, entries[k])
  }

  /** The siblings would be listed at this depth under this prefix. */
  ghost predicate Siblings(mine: seq<Folder>, list: seq<Folder>, depth: nat, prefix: string) {
    forall f {:trigger f in list} :: f in list ==>
      f in mine && AtLevel(mine, f, depth) && FlatPath(mine, f, depth) == PathUnder(prefix, f.name)
  }

  lemma BelowSiblings(mine: seq<Folder>, order: Order, f: Folder, depth: nat, path: string)
    requires Unique(mine) && f in mine && AtLevel(mine, f, depth) && FlatPath(mine, f, depth) == path
    ensures Siblings(mine, Below(mine, order, f), depth + 1, path)
  {
    UniqueById(mine, f);
  }

  lemma PlacedConcat(mine: seq<Folder>, a: seq<FlatFolder>, b: seq<FlatFolder>)
    requires AllPlaced(mine, a) && AllPlaced(mine, b)
    ensures AllPlaced(mine, a + b)
  {
  }

  lemma PlacedCons(mine: seq<Folder>, e: FlatFolder, rest: seq<FlatFolder>)
    requires Placed(mine, e) && AllPlaced(mine, rest)
    ensures AllPlaced(mine, [e] + rest)
  {
  }

  lemma {:induction false} ListPlaced(mine: seq<Folder>, order: Order, list: seq<Folder>, depth: nat, prefix: string,
    seen: set<FolderId>, except: Option<FolderId>)
    requires Unique(mine) && Siblings(mine, list, depth, prefix)
    ensures AllPlaced(mine, Flatten(mine, order, list, depth, prefix, seen, except))
    decreases Known(mine) - seen, |list|
  {
    if list != [] {
      assert list[0] in list;
      EntriesPlaced(mine, order, list[0], depth, prefix, seen, except);
      assert forall f :: f in list[1..] ==> f in list;
      ListPlaced(mine, order, list[1..], depth, prefix, seen, except);
      PlacedConcat(mine, Entries(mine, order, list[0], depth, prefix, seen, except),
        Flatten(mine, order, list[1..], depth, prefix, seen, except));
    }
  }

  lemma {:induction false} EntriesPlaced(mine: seq<Folder>, order: Order, f: Folder, depth: nat, prefix: string,
    seen: set<FolderId>, except: Option<FolderId>)
    requires Unique(mine) && f in mine && AtLevel(mine, f, depth)
    requires FlatPath(mine, f, depth) == PathUnder(prefix, f.name)
    ensures AllPlaced(mine, Entries(mine, order, f, depth, prefix, seen, except))
    decreases Known(mine) - seen, 0
  {
    if except != Some(f.id) && f.id !in seen {
      assert f.id in Known(mine);
      BelowSiblings(mine, order, f, depth, PathUnder(prefix, f.name));
      var below, now := Below(mine, order, f), seen + {f.id};
      ListPlaced(mine, order, below, depth + 1, PathUnder(prefix, f.name), now, except);
      EntryThenRest(mine, order, f, depth, prefix, seen, except);
    }
  }

  lemma EntryThenRest(mine: seq<Folder>, order: Order, f: Folder, depth: nat, prefix: string, seen: set<FolderId>,
      except: Option<FolderId>)
    requires f in mine && AtLevel(mine, f, depth) && FlatPath(mine, f, depth) == PathUnder(prefix, f.name)
    requires except != Some(f.id) && f.id !in seen
    requires AllPlaced(mine,
      Flatten(mine, order, Below(mine, order, f), depth + 1, PathUnder(prefix, f.name), seen + {f.id}, except))
    ensures AllPlaced(mine, Entries(mine, order, f, depth, prefix, seen, except))
  {
    var path := PathUnder(prefix, f.name);
    PlacedCons(mine, FlatFolder(f, depth, path),
               Flatten(mine, order, Below(mine, order, f), depth + 1, path, seen + {f.id}, except));
  }

  /** Every entry carries its folder's level as its depth. */
  lemma ListedPlaced(scope: Scope, order: Order, folders: seq<Folder>, except: Option<FolderId>)
    requires Unique(Mine(scope, folders))
    ensures AllPlaced(Mine(scope, folders), FlattenFolders(scope, order, folders, except))
  {
    var mine := Mine(scope, folders);
    ListPlaced(mine, order, Top(mine, order), 0, "", {}, except);
  }

  // ------------------------------------------------------------------ folderPath

  /** The folders by id, the last one winning. */
  function Index(folders: seq<Folder>): map<FolderId, Folder> {
    if folders == [] then map[] else Index(folders[..|folders| - 1])[Last(folders).id := Last(folders)]
  }

  /** The names from the top of the links down to a folder, not going round a cycle. */
  function Trail(byId: map<FolderId, Folder>, id: Option<FolderId>, seen: set<FolderId>): seq<string>
    decreases byId.Keys - seen
  {
    if id.None? || id.value !in byId || byId[id.value].id in seen || byId[id.value].id != id.value then []
    else Trail(byId, byId[id.value].parent, seen + {id.value}) + [byId[id.value].name]
  }

  function JoinNames(names: seq<string>): string {
    if names == [] then ""
    else if |names| == 1 then names[0]
    else JoinNames(names[..|names| - 1]) + " / " + Last(names)
  }

  function FolderPath(id: Option<FolderId>, folders: seq<Folder>): string {
    JoinNames(Trail(Index(folders), id, {}))
  }

  lemma {:induction false} IndexIs(folders: seq<Folder>, id: FolderId)
    ensures id in Index(folders) <==> id in Known(folders)
    ensures id in Index(folders) ==> Index(folders)[id] in folders && Index(folders)[id].id == id
  {
    if folders != [] {
      var before := folders[..|folders| - 1];
      assert folders == before + [Last(folders)];
      IndexIs(before, id);
      assert Known(folders) == Known(before) + {Last(folders).id};
    }
  }

  lemma IndexUnique(folders: seq<Folder>, id: FolderId)
    requires Unique(folders)
    ensures id in Index(folders) <==> id in Known(folders)
    ensures id in Known(folders) ==> Index(folders)[id] == ById(folders, id)
  {
    IndexIs(folders, id);
    if id in Known(folders) {
      UniqueById(folders, Index(folders)[id]);
    }
  }

  function NamesDown(mine: seq<Folder>, f: Folder, n: nat): (r: seq<string>)
    requires AtLevel(mine, f, n)
    ensures |r| == n + 1
    decreases n
  {
    (if n == 0 then [] else NamesDown(mine, ById(mine, Parent(mine, f).value), n - 1)) + [f.name]
  }

  ghost predicate AllDeeper(mine: seq<Folder>, seen: set<FolderId>, n: nat) {
    forall id :: id in seen ==> id in Known(mine) && exists m: nat :: m > n && AtLevel(mine, ById(mine, id), m)
  }

  /** Up from a rooted folder no folder is met twice, so the trail is the whole chain. */
  lemma {:induction false} TrailIsChain(mine: seq<Folder>, f: Folder, n: nat, seen: set<FolderId>)
    requires Unique(mine) && f in mine && AtLevel(mine, f, n) && AllDeeper(mine, seen, n)
    ensures Trail(Index(mine), Some(f.id), seen) == NamesDown(mine, f, n)
    decreases n
  {
    UniqueById(mine, f);
    IndexUnique(mine, f.id);
    if f.id in seen {
      var m: nat :| m > n && AtLevel(mine, ById(mine, f.id), m);
      LevelUnique(mine, f, m, n);
    }
    if n == 0 {
      if f.parent.Some? {
        IndexUnique(mine, f.parent.value);
      }
    } else {
      forall id | id in seen + {f.id}
        ensures id in Known(mine) && exists m: nat :: m > n - 1 && AtLevel(mine, ById(mine, id), m) {
        if id == f.id {
          assert AtLevel(mine, ById(mine, id), n);
        } else {
          var m: nat :| m > n && AtLevel(mine, ById(mine, id), m);
        }
      }
      TrailIsChain(mine, ById(mine, Parent(mine, f).value), n - 1, seen + {f.id});
    }
  }

  /** The names put together as the picker does: no separator behind nothing. */
  function FlatNames(names: seq<string>): string
    requires names != []
  {
    if |names| == 1 then names[0] else PathUnder(FlatNames(names[..|names| - 1]), Last(names))
  }

  lemma {:induction false} FlatNamesShort(names: seq<string>)
    requires names != []
    ensures |FlatNames(names)| <= |JoinNames(names)|
  {
    if |names| > 1 {
      FlatNamesShort(names[..|names| - 1]);
    }
  }

  lemma {:induction false} FlatNamesSome(names: seq<string>)
    requires names != [] && names[0] != ""
    ensures FlatNames(names) != ""
  {
    if |names| > 1 {
      FlatNamesSome(names[..|names| - 1]);
    }
  }

  /** Only what begins with an empty name loses separators, and it does at once. */
  lemma {:induction false} FlatNamesAreJoined(names: seq<string>)
    requires names != []
    ensures names[0] != "" ==> FlatNames(names) == JoinNames(names)
    ensures names[0] == "" && |names| > 1 ==> |FlatNames(names)| < |JoinNames(names)|
  {
    if |names| > 1 {
      var before := names[..|names| - 1];
      FlatNamesAreJoined(before);
      FlatNamesShort(before);
      if names[0] != "" {
        FlatNamesSome(before);
      }
    }
  }

  lemma {:induction false} FlatPathNames(mine: seq<Folder>, f: Folder, n: nat)
    requires f in mine && AtLevel(mine, f, n)
    ensures FlatPath(mine, f, n) == FlatNames(NamesDown(mine, f, n))
    decreases n
  {
    var names := NamesDown(mine, f, n);
    if n > 0 {
      FlatPathNames(mine, ById(mine, Parent(mine, f).value), n - 1);
      assert names[..|names| - 1] == NamesDown(mine, ById(mine, Parent(mine, f).value), n - 1);
    }
  }

  lemma {:induction false} TopName(mine: seq<Folder>, f: Folder, n: nat)
    requires f in mine && AtLevel(mine, f, n)
    ensures NamesDown(mine, f, n)[0] == Up(mine, f, n).name
    decreases n
  {
    if n > 0 {
      TopName(mine, ById(mine, Parent(mine, f).value), n - 1);
    }
  }

  /** The picker's path is the joined names if and only if the topmost name is not empty, or is the folder's own. */
  lemma FlatPathIsJoined(mine: seq<Folder>, f: Folder, n: nat)
    requires f in mine && AtLevel(mine, f, n)
    ensures FlatPath(mine, f, n) == JoinNames(NamesDown(mine, f, n)) <==> n == 0 || Up(mine, f, n).name != ""
  {
    FlatPathNames(mine, f, n);
    TopName(mine, f, n);
    FlatNamesAreJoined(NamesDown(mine, f, n));
  }

  lemma {:induction false} MineAll(scope: Scope, folders: seq<Folder>)
    requires forall f :: f in folders ==> f.scope == scope
    ensures Mine(scope, folders) == folders
  {
    if folders != [] {
      assert folders[0] in folders;
      MineAll(scope, folders[1..]);
    }
  }

  /**
  With the folders of one scope, an entry's path is `folderPath` of its folder if and only if the
  folder is at the top level or the topmost folder above it has a name.
  */
  lemma PathsAgree(scope: Scope, order: Order, folders: seq<Folder>, except: Option<FolderId>, k: nat)
    requires Unique(folders) && (forall f :: f in folders ==> f.scope == scope)
    requires k < |FlattenFolders(scope, order, folders, except)|
    ensures var e := FlattenFolders(scope, order, folders, except)[k];
      e.path == FolderPath(Some(e.folder.id), folders) <==> e.depth == 0 || Up(folders, e.folder, e.depth).name != ""
  {
    MineAll(scope, folders);
    ListedPlaced(scope, order, folders, except);
    var entries := FlattenFolders(scope, order, folders, except);
    var e := entries[k];
    assert Placed(folders, e);
    FlattenIsWalk(folders, order, Top(folders, order), 0, "", {}, except);
    assert Folders(entries)[k] == e.folder;
    WalkLevels(folders, order, Top(folders, order), {}, except, 0, e.folder);
    TrailIsChain(folders, e.folder, e.depth, {});
    FlatPathIsJoined(folders, e.folder, e.depth);
  }

  // ------------------------------------------------------------------ moving a folder

  function MovedOne(f: Folder, id: FolderId, parent: Option<FolderId>): Folder {
    if f.id == id then f.(parent := parent) else f
  }

  /** The folders with one of them put under another parent. */
  function Moved(mine: seq<Folder>, id: FolderId, parent: Option<FolderId>): seq<Folder> {
    if mine == [] then [] else [MovedOne(mine[0], id, parent)] + Moved(mine[1..], id, parent)
  }

  ghost predicate Acyclic(mine: seq<Folder>) {
    forall f :: f in mine ==> Rooted(mine, f)
  }

  lemma {:induction false} MovedAt(mine: seq<Folder>, id: FolderId, parent: Option<FolderId>)
    ensures |Moved(mine, id, parent)| == |mine|
    ensures forall k :: 0 <= k < |mine| ==> Moved(mine, id, parent)[k] == MovedOne(mine[k], id, parent)
  {
    if mine != [] {
      MovedAt(mine[1..], id, parent);
    }
  }

  lemma MovedHas(mine: seq<Folder>, id: FolderId, parent: Option<FolderId>, f: Folder)
    requires f in mine
    ensures MovedOne(f, id, parent) in Moved(mine, id, parent)
  {
    MovedAt(mine, id, parent);
    var k :| 0 <= k < |mine| && mine[k] == f;
    assert Moved(mine, id, parent)[k] == MovedOne(f, id, parent);
  }

  lemma MovedFrom(mine: seq<Folder>, id: FolderId, parent: Option<FolderId>, g: Folder) returns (f: Folder)
    requires g in Moved(mine, id, parent)
    ensures f in mine && g == MovedOne(f, id, parent)
  {
    MovedAt(mine, id, parent);
    var k :| 0 <= k < |Moved(mine, id, parent)| && Moved(mine, id, parent)[k] == g;
    f := mine[k];
  }

  lemma {:induction false} MovedKnown(mine: seq<Folder>, id: FolderId, parent: Option<FolderId>)
    ensures Known(Moved(mine, id, parent)) == Known(mine)
  {
    if mine != [] {
      var rest := Moved(mine[1..], id, parent);
      MovedKnown(mine[1..], id, parent);
      assert mine == [mine[0]] + mine[1..];
      assert Known(mine) == {mine[0].id} + Known(mine[1..]);
      assert Known([MovedOne(mine[0], id, parent)] + rest) == {mine[0].id} + Known(rest);
    }
  }

  lemma {:induction false} MovedUnique(mine: seq<Folder>, id: FolderId, parent: Option<FolderId>)
    requires Unique(mine)
    ensures Unique(Moved(mine, id, parent))
  {
    if mine != [] {
      var rest := Moved(mine[1..], id, parent);
      MovedUnique(mine[1..], id, parent);
      forall g | g in rest ensures g.id != mine[0].id {
        var f := MovedFrom(mine[1..], id, parent, g);
      }
      assert ([MovedOne(mine[0], id, parent)] + rest)[1..] == rest;
    }
  }

  lemma MovedById(mine: seq<Folder>, id: FolderId, parent: Option<FolderId>, x: FolderId)
    requires Unique(mine) && x in Known(mine)
    ensures x in Known(Moved(mine, id, parent)) &&
      ById(Moved(mine, id, parent), x) == MovedOne(ById(mine, x), id, parent)
  {
    MovedUnique(mine, id, parent);
    MovedHas(mine, id, parent, ById(mine, x));
    UniqueById(Moved(mine, id, parent), MovedOne(ById(mine, x), id, parent));
  }

  /** The links of every other folder are as before. */
  lemma MovedStep(mine: seq<Folder>, id: FolderId, parent: Option<FolderId>, f: Folder)
    requires Unique(mine) && f in mine && f.id != id
    ensures MovedOne(f, id, parent) == f && Parent(Moved(mine, id, parent), f) == Parent(mine, f)
    ensures Parent(mine, f).Some? ==>
      ById(Moved(mine, id, parent), Parent(mine, f).value) == MovedOne(ById(mine, Parent(mine, f).value), id, parent)
  {
    MovedKnown(mine, id, parent);
    if Parent(mine, f).Some? {
      MovedById(mine, id, parent, Parent(mine, f).value);
    }
  }

  /** A folder that is not under the moved one keeps its level. */
  lemma {:induction false} ClearKeepsLevel(mine: seq<Folder>, id: FolderId, parent: Option<FolderId>, f: Folder, n: nat)
    requires Unique(mine) && f in mine && AtLevel(mine, f, n) && Clear(mine, f, n, Some(id))
    ensures AtLevel(Moved(mine, id, parent), f, n)
    decreases n
  {
    MovedStep(mine, id, parent, f);
    if n > 0 {
      var p := ById(mine, Parent(mine, f).value);
      ClearKeepsLevel(mine, id, parent, p, n - 1);
      assert p.id != id;
    }
  }

  /** Levels above another folder are as before. */
  lemma MovedLevel(mine: seq<Folder>, id: FolderId, parent: Option<FolderId>, f: Folder, n: nat)
    requires Unique(mine) && f in mine && f.id != id && Parent(mine, f).Some?
    ensures AtLevel(Moved(mine, id, parent), MovedOne(f, id, parent), n + 1) <==>
      AtLevel(Moved(mine, id, parent), MovedOne(ById(mine, Parent(mine, f).value), id, parent), n)
  {
    MovedStep(mine, id, parent, f);
  }

  /** Once the moved folder is rooted, so is everything else that was. */
  lemma {:induction false} MovedKeepsRooted(mine: seq<Folder>, e: Folder, parent: Option<FolderId>, f: Folder, n: nat)
    requires Unique(mine) && e in mine && Rooted(Moved(mine, e.id, parent), MovedOne(e, e.id, parent))
    requires f in mine && AtLevel(mine, f, n)
    ensures Rooted(Moved(mine, e.id, parent), MovedOne(f, e.id, parent))
    decreases n
  {
    if f.id == e.id {
      UniqueById(mine, e);
      UniqueById(mine, f);
    } else if n == 0 {
      MovedStep(mine, e.id, parent, f);
      assert AtLevel(Moved(mine, e.id, parent), f, 0);
    } else {
      var p := ById(mine, Parent(mine, f).value);
      MovedKeepsRooted(mine, e, parent, p, n - 1);
      var m: nat :| AtLevel(Moved(mine, e.id, parent), MovedOne(p, e.id, parent), m);
      MovedLevel(mine, e.id, parent, f, m);
    }
  }

  lemma SameFolder(mine: seq<Folder>, e: Folder, f: Folder)
    requires Unique(mine) && e in mine && f in mine && f.id == e.id
    ensures f == e
  {
    UniqueById(mine, e);
    UniqueById(mine, f);
  }

  /** One step up from a folder under `id`. */
  lemma UnderStep(mine: seq<Folder>, id: FolderId, f: Folder, n: nat) returns (p: Folder)
    requires Unique(mine) && f in mine && AtLevel(mine, f, n) && !Clear(mine, f, n, Some(id)) && f.id != id
    ensures n > 0 && Parent(mine, f) == Some(p.id) && p in mine && AtLevel(mine, p, n - 1) &&
      !Clear(mine, p, n - 1, Some(id))
  {
    p := ById(mine, Parent(mine, f).value);
  }

  lemma MovedUp(mine: seq<Folder>, moved: seq<Folder>, id: FolderId, parent: Option<FolderId>, f: Folder, p: Folder,
    m: nat)
    requires Unique(mine) && moved == Moved(mine, id, parent)
    requires f in mine && f.id != id && p in mine && Parent(mine, f) == Some(p.id)
    requires AtLevel(moved, MovedOne(f, id, parent), m)
    ensures m > 0 && AtLevel(moved, MovedOne(p, id, parent), m - 1)
  {
    UniqueById(mine, p);
    MovedStep(mine, id, parent, f);
  }

  /** From a folder under `id` the links lead to the folder with that id, `k` steps up. */
  lemma {:induction false} ChainTo(mine: seq<Folder>, id: FolderId, f: Folder, n: nat) returns (chain: seq<Folder>)
    requires Unique(mine) && f in mine && AtLevel(mine, f, n) && !Clear(mine, f, n, Some(id))
    ensures IsChain(mine, id, chain) && chain[0] == f
    decreases n
  {
    if f.id == id {
      chain := [f];
    } else {
      var p := UnderStep(mine, id, f, n);
      var rest := ChainTo(mine, id, p, n - 1);
      assert ([f] + rest)[1..] == rest;
      chain := [f] + rest;
    }
  }

  /** Folders each of which is the parent of the one before; only the last has the id. */
  ghost predicate IsChain(mine: seq<Folder>, id: FolderId, chain: seq<Folder>) {
    && chain != [] && chain[0] in mine
    && if |chain| == 1 then chain[0].id == id
       else chain[0].id != id && Parent(mine, chain[0]) == Some(chain[1].id) && IsChain(mine, id, chain[1..])
  }

  lemma {:induction false} ChainEnds(mine: seq<Folder>, e: Folder, chain: seq<Folder>)
    requires Unique(mine) && e in mine && IsChain(mine, e.id, chain)
    ensures Last(chain) == e
  {
    if |chain| > 1 {
      ChainEnds(mine, e, chain[1..]);
    } else {
      SameFolder(mine, e, chain[0]);
    }
  }

  /** After the move the chain still leads up, so its end is rooted no further down than its start. */
  lemma {:induction false} ChainMoved(mine: seq<Folder>, moved: seq<Folder>, id: FolderId, parent: Option<FolderId>,
      chain: seq<Folder>, m: nat) returns (k: nat)
    requires Unique(mine) && moved == Moved(mine, id, parent) && IsChain(mine, id, chain)
    requires AtLevel(moved, MovedOne(chain[0], id, parent), m)
    ensures k <= m && AtLevel(moved, MovedOne(Last(chain), id, parent), k)
    decreases |chain|
  {
    k := m;
    if |chain| > 1 {
      var rest := chain[1..];
      assert Last(rest) == Last(chain);
      MovedUp(mine, moved, id, parent, chain[0], chain[1], m);
      k := ChainMoved(mine, moved, id, parent, rest, m - 1);
    }
  }

  /**
  Moving a folder under another one keeps every folder rooted if and only if the target is among
  the folders listed with the moved one excluded.
  */
  lemma MoveKeepsAcyclic(mine: seq<Folder>, e: Folder, target: Folder)
    requires Unique(mine) && Acyclic(mine) && e in mine && target in mine
    ensures Acyclic(Moved(mine, e.id, Some(target.id))) <==> Reached(mine, target, Some(e.id))
  {
    var n: nat :| AtLevel(mine, target, n);
    ReachedAt(mine, target, Some(e.id), n);
    if Clear(mine, target, n, Some(e.id)) {
      MoveToClear(mine, e, target, n);
    } else {
      MoveUnder(mine, e, target, n);
    }
  }

  lemma MovedParent(mine: seq<Folder>, e: Folder, target: Folder)
    requires Unique(mine) && e in mine && target in mine
    ensures var moved := Moved(mine, e.id, Some(target.id));
      && Parent(moved, MovedOne(e, e.id, Some(target.id))) == Some(target.id)
      && ById(moved, target.id) == MovedOne(target, e.id, Some(target.id))
  {
    UniqueById(mine, target);
    MovedById(mine, e.id, Some(target.id), target.id);
  }

  lemma MoveToClear(mine: seq<Folder>, e: Folder, target: Folder, n: nat)
    requires Unique(mine) && Acyclic(mine) && e in mine && target in mine && AtLevel(mine, target, n) &&
      Clear(mine, target, n, Some(e.id))
    ensures Acyclic(Moved(mine, e.id, Some(target.id)))
  {
    var parent := Some(target.id);
    var moved, after := Moved(mine, e.id, parent), MovedOne(e, e.id, parent);
    MovedParent(mine, e, target);
    ClearKeepsLevel(mine, e.id, parent, target, n);
    assert AtLevel(moved, after, n + 1);
    forall g | g in moved ensures Rooted(moved, g) {
      var f := MovedFrom(mine, e.id, parent, g);
      var m: nat :| AtLevel(mine, f, m);
      MovedKeepsRooted(mine, e, parent, f, m);
    }
  }

  /** Once moved under one of its own, a folder would be no further down than that one. */
  lemma UnderMoved(mine: seq<Folder>, e: Folder, target: Folder, n: nat, parent: Option<FolderId>, m: nat)
    returns (k: nat)
    requires Unique(mine) && e in mine && target in mine && AtLevel(mine, target, n)
    requires !Clear(mine, target, n, Some(e.id))
    requires AtLevel(Moved(mine, e.id, parent), MovedOne(target, e.id, parent), m)
    ensures k <= m && AtLevel(Moved(mine, e.id, parent), MovedOne(e, e.id, parent), k)
  {
    var chain := ChainTo(mine, e.id, target, n);
    k := ChainMoved(mine, Moved(mine, e.id, parent), e.id, parent, chain, m);
    ChainEnds(mine, e, chain);
  }

  lemma MoveUnder(mine: seq<Folder>, e: Folder, target: Folder, n: nat)
    requires Unique(mine) && e in mine && target in mine && AtLevel(mine, target, n)
    requires !Clear(mine, target, n, Some(e.id))
    ensures !Acyclic(Moved(mine, e.id, Some(target.id)))
  {
    var parent := Some(target.id);
    var moved, after := Moved(mine, e.id, parent), MovedOne(e, e.id, parent);
    MovedHas(mine, e.id, parent, e);
    MovedParent(mine, e, target);
    if Rooted(moved, after) {
      var m: nat :| AtLevel(moved, after, m);
      var k := UnderMoved(mine, e, target, n, parent, m - 1);
      LevelUnique(moved, after, m, k);
    }
  }

  /** The folders listed for a moved folder are exactly the targets that keep the forest acyclic. */
  lemma ListedTargets(scope: Scope, order: Order, folders: seq<Folder>, e: Folder, target: Folder)
    requires var mine := Mine(scope, folders); Unique(mine) && Acyclic(mine) && e in mine && target in mine
    ensures target in Folders(FlattenFolders(scope, order, folders, Some(e.id))) <==>
      Acyclic(Moved(Mine(scope, folders), e.id, Some(target.id)))
  {
    var listed := Folders(FlattenFolders(scope, order, folders, Some(e.id)));
    ListedOnce(scope, order, folders, Some(e.id), target);
    MoveKeepsAcyclic(Mine(scope, folders), e, target);
    assert target in listed <==> multiset(listed)[target] > 0;
  }

  // ------------------------------------------------------------------ the loops

  /** Entries listed so far, then one folder's, then the rest. */
  lemma ListedSoFar(mine: seq<Folder>, order: Order, list: seq<Folder>, k: nat, depth: nat, prefix: string,
    seen: set<FolderId>,
      except: Option<FolderId>, out: seq<FlatFolder>)
    requires (forall f :: f in list ==> f in mine) && k < |list|
    ensures out + Flatten(mine, order, list[k..], depth, prefix, seen, except) ==
      out + Entries(mine, order, list[k], depth, prefix, seen, except) +
        Flatten(mine, order, list[k + 1..], depth, prefix, seen, except)
  {
    assert list[k..][0] == list[k] && list[k..][1..] == list[k + 1..];
    var x, y := Entries(mine, order, list[k], depth, prefix, seen, except),
      Flatten(mine, order, list[k + 1..], depth, prefix, seen, except);
    assert out + (x + y) == out + x + y;
  }

  method WalkInto(mine: seq<Folder>, order: Order, list: seq<Folder>, depth: nat, prefix: string, seen: set<FolderId>,
      except: Option<FolderId>, start: seq<FlatFolder>) returns (out: seq<FlatFolder>)
    requires forall f :: f in list ==> f in mine
    ensures out == start + Flatten(mine, order, list, depth, prefix, seen, except)
    decreases Known(mine) - seen, |list|
  {
    out := start;
    assert list[0..] == list;
    for k := 0 to |list|
      invariant out + Flatten(mine, order, list[k..], depth, prefix, seen, except) ==
        start + Flatten(mine, order, list, depth, prefix, seen, except)
    {
      ListedSoFar(mine, order, list, k, depth, prefix, seen, except, out);
      out := WalkFolder(mine, order, list[k], depth, prefix, seen, except, out);
    }
    assert out + [] == out;
  }

  method WalkFolder(mine: seq<Folder>, order: Order, f: Folder, depth: nat, prefix: string, seen: set<FolderId>,
      except: Option<FolderId>, start: seq<FlatFolder>) returns (out: seq<FlatFolder>)
    requires f in mine
    ensures out == start + Entries(mine, order, f, depth, prefix, seen, except)
    decreases Known(mine) - seen, 0
  {
    out := start;
    if except != Some(f.id) && f.id !in seen {
      var path := PathUnder(prefix, f.name);
      ghost var under := Flatten(mine, order, Below(mine, order, f), depth + 1, path, seen + {f.id}, except);
      assert f.id in Known(mine);
      out := WalkInto(mine, order, Below(mine, order, f), depth + 1, path, seen + {f.id}, except,
        out + [FlatFolder(f, depth, path)]);
      assert start + [FlatFolder(f, depth, path)] + under == start + ([FlatFolder(f, depth, path)] + under);
    }
  }

  method ListFolders(scope: Scope, order: Order, folders: seq<Folder>, except: Option<FolderId>)
    returns (out: seq<FlatFolder>)
    ensures out == FlattenFolders(scope, order, folders, except)
  {
    var mine := Mine(scope, folders);
    out := WalkInto(mine, order, Top(mine, order), 0, "", {}, except, []);
    assert [] + FlattenFolders(scope, order, folders, except) == FlattenFolders(scope, order, folders, except);
  }

  method PathOf(id: Option<FolderId>, folders: seq<Folder>) returns (path: string)
    ensures path == FolderPath(id, folders)
  {
    var byId := Index(folders);
    var parts: seq<string>, seen: set<FolderId>, at := [], {}, id;
    assert Trail(byId, id, {}) + [] == Trail(byId, id, {});
    while at.Some? && at.value in byId && at.value !in seen
      invariant Trail(byId, id, {}) == Trail(byId, at, seen) + parts
      decreases byId.Keys - seen
    {
      var current := byId[at.value];
      IndexIs(folders, at.value);
      assert Trail(byId, current.parent, seen + {current.id}) + [current.name] + parts ==
        Trail(byId, current.parent, seen + {current.id}) + ([current.name] + parts);
      seen := seen + {current.id};
      parts := [current.name] + parts;
      at := current.parent;
    }
    assert [] + parts == parts;
    path := JoinNames(parts);
  }
}
