/**
The order of the folder picker: a folder's whole subtree stands directly behind it, in one piece.
*/
module LibraryOrder {
  import opened Prelude
  import opened LibraryFolders
  import opened LibraryFlat

  /** `h` is somewhere below `g`. */
  ghost predicate IsUnder(mine: seq<Folder>, h: Folder, g: Folder) {
    h in mine && exists k: nat, n: nat :: 0 < k <= n && AtLevel(mine, h, n) && Up(mine, h, k) == g
  }

  lemma {:induction false} ClearShorter(mine: seq<Folder>, f: Folder, n: nat, k: nat, except: Option<FolderId>)
    requires k <= n && Clear(mine, f, n, except)
    ensures Clear(mine, f, k, except)
    decreases k
  {
    if k > 0 && Parent(mine, f).Some? {
      ClearShorter(mine, ById(mine, Parent(mine, f).value), n - 1, k - 1, except);
    }
  }

  /** What a walk meets behind `g`: the folders under it that are reached without the excluded one. */
  function Subwalk(mine: seq<Folder>, order: Order, g: Folder, above: set<FolderId>,
    except: Option<FolderId>): seq<Folder> {
    Walk(mine, order, Below(mine, order, g), above + {g.id}, except)
  }

  /** `g`, at level `m`, was entered on a way down through `above`. */
  ghost predicate Entered(mine: seq<Folder>, g: Folder, above: set<FolderId>, m: nat, except: Option<FolderId>) {
    g in mine && AtLevel(mine, g, m) && AllAbove(mine, above, m) && except != Some(g.id)
  }

  /** `walk` is `a`, then `g` and `sub`, then `b`. */
  ghost predicate Splits(walk: seq<Folder>, a: seq<Folder>, g: Folder, sub: seq<Folder>, b: seq<Folder>) {
    walk == a + ([g] + sub) + b
  }

  lemma SplitsBehind(x: seq<Folder>, walk: seq<Folder>, a: seq<Folder>, g: Folder, sub: seq<Folder>, b: seq<Folder>)
    requires Splits(walk, a, g, sub, b)
    ensures Splits(x + walk, x + a, g, sub, b)
  {
  }

  lemma SplitsBefore(walk: seq<Folder>, y: seq<Folder>, a: seq<Folder>, g: Folder, sub: seq<Folder>, b: seq<Folder>)
    requires Splits(walk, a, g, sub, b)
    ensures Splits(walk + y, a, g, sub, b + y)
  {
  }

  lemma SplitsFirst(g: Folder, sub: seq<Folder>, y: seq<Folder>)
    ensures Splits([g] + sub + y, [], g, sub, y)
  {
  }

  /** Where a walk meets `g` it goes on with all that is under `g`, and then with the rest. */
  lemma {:induction false} WalkSplit(mine: seq<Folder>, order: Order, list: seq<Folder>, seen: set<FolderId>,
      except: Option<FolderId>, d: nat, g: Folder)
        returns (a: seq<Folder>, b: seq<Folder>, above: set<FolderId>, m: nat)
    requires Unique(mine) && AllAtLevel(mine, list, d) && AllAbove(mine, seen, d)
    requires g in Walk(mine, order, list, seen, except)
    ensures Entered(mine, g, above, m, except)
    ensures Splits(Walk(mine, order, list, seen, except), a, g, Subwalk(mine, order, g, above, except), b)
    decreases Known(mine) - seen, |list|
  {
    var f, rest := list[0], Walk(mine, order, list[1..], seen, except);
    assert f in list;
    if g in rest {
      a, b, above, m := WalkSplit(mine, order, list[1..], seen, except, d, g);
      var head := if except == Some(f.id) || f.id in seen then [] else [f] + Subwalk(mine, order, f, seen, except);
      SplitsBehind(head, rest, a, g, Subwalk(mine, order, g, above, except), b);
      a := head + a;
    } else {
      a, b, above, m := HeadSplit(mine, order, f, seen, except, d, g);
      SplitsBefore([f] + Subwalk(mine, order, f, seen, except), rest, a, g, Subwalk(mine, order, g, above, except), b);
      b := b + rest;
    }
  }

  lemma {:induction false} HeadSplit(mine: seq<Folder>, order: Order, f: Folder, seen: set<FolderId>,
      except: Option<FolderId>, d: nat, g: Folder)
        returns (a: seq<Folder>, b: seq<Folder>, above: set<FolderId>, m: nat)
    requires Unique(mine) && f in mine && AtLevel(mine, f, d) && AllAbove(mine, seen, d)
    requires f.id in Known(mine) && f.id !in seen && except != Some(f.id)
    requires g in [f] + Subwalk(mine, order, f, seen, except)
    ensures Entered(mine, g, above, m, except)
    ensures Splits([f] + Subwalk(mine, order, f, seen, except), a, g, Subwalk(mine, order, g, above, except), b)
    decreases Known(mine) - (seen + {f.id}), |Below(mine, order, f)| + 1
  {
    if g == f {
      a, b, above, m := [], [], seen, d;
      SplitsFirst(g, Subwalk(mine, order, g, above, except), []);
      assert [g] + Subwalk(mine, order, g, above, except) + [] == [g] + Subwalk(mine, order, g, above, except);
    } else {
      NotSeen(mine, f, seen, d);
      BelowLevel(mine, order, f, d);
      var now := seen + {f.id};
      a, b, above, m := WalkSplit(mine, order, Below(mine, order, f), now, except, d + 1, g);
      SplitsBehind([f], Subwalk(mine, order, f, seen, except), a, g, Subwalk(mine, order, g, above, except), b);
      a := [f] + a;
    }
  }

  lemma SubwalkIs(mine: seq<Folder>, order: Order, g: Folder, above: set<FolderId>, m: nat, except: Option<FolderId>,
    h: Folder)
    requires Unique(mine) && Entered(mine, g, above, m, except)
    ensures h in Subwalk(mine, order, g, above, except) <==> IsUnder(mine, h, g) && Reaches(mine, h, m, except)
  {
    var sub := Subwalk(mine, order, g, above, except);
    NotSeen(mine, g, above, m);
    UniqueById(mine, g);
    BelowLevel(mine, order, g, m);
    if h in sub {
      WalkLevels(mine, order, Below(mine, order, g), above + {g.id}, except, m + 1, h);
    }
    if h in mine && Rooted(mine, h) {
      var n: nat :| AtLevel(mine, h, n);
      SubwalkAt(mine, order, g, above, m, except, h, n);
    }
  }

  /** From level `m` down to `h` the excluded folder is not met. */
  ghost predicate Reaches(mine: seq<Folder>, h: Folder, m: nat, except: Option<FolderId>) {
    exists n: nat :: m <= n && AtLevel(mine, h, n) && Clear(mine, h, n - m, except)
  }

  lemma SubwalkAt(mine: seq<Folder>, order: Order, g: Folder, above: set<FolderId>, m: nat, except: Option<FolderId>,
      h: Folder, n: nat)
    requires Unique(mine) && Entered(mine, g, above, m, except) && g.id in Known(mine) && g.id !in above
    requires AllAtLevel(mine, Below(mine, order, g), m + 1) && AllAbove(mine, above + {g.id}, m + 1)
    requires h in mine && AtLevel(mine, h, n)
    ensures h in Subwalk(mine, order, g, above, except) <==> IsUnder(mine, h, g) && Reaches(mine, h, m, except)
  {
    var sub := Subwalk(mine, order, g, above, except);
    assert h in sub <==> multiset(sub)[h] > 0;
    SubwalkCount(mine, order, g, above, m, except, h, n);
    UnderAt(mine, g, m, h, n);
    ReachesAt(mine, h, n, m, except);
  }

  lemma SubwalkCount(mine: seq<Folder>, order: Order, g: Folder, above: set<FolderId>, m: nat, except: Option<FolderId>,
      h: Folder, n: nat)
    requires Unique(mine) && Entered(mine, g, above, m, except) && g.id in Known(mine) && g.id !in above
    requires AllAtLevel(mine, Below(mine, order, g), m + 1) && AllAbove(mine, above + {g.id}, m + 1)
    requires h in mine && AtLevel(mine, h, n)
    ensures multiset(Subwalk(mine, order, g, above, except))[h] ==
      if m < n && Up(mine, h, n - m) == g && Clear(mine, h, n - m, except) then 1 else 0
  {
    if n < m {
      WalkLevelIs(mine, order, Below(mine, order, g), above + {g.id}, except, m + 1, h, n);
    } else {
      UnderTimes(mine, order, g, above, except, m, h, n);
      if n > m {
        OneOf(g, Up(mine, h, n - m));
      }
    }
  }

  lemma OneOf(g: Folder, u: Folder)
    ensures multiset([g])[u] == if u == g then 1 else 0
  {
  }

  lemma UnderAt(mine: seq<Folder>, g: Folder, m: nat, h: Folder, n: nat)
    requires g in mine && AtLevel(mine, g, m) && h in mine && AtLevel(mine, h, n)
    ensures IsUnder(mine, h, g) <==> m < n && Up(mine, h, n - m) == g
  {
    if IsUnder(mine, h, g) {
      var k: nat, l: nat :| 0 < k <= l && AtLevel(mine, h, l) && Up(mine, h, k) == g;
      LevelUnique(mine, h, l, n);
      UpLevel(mine, h, n, k);
      LevelUnique(mine, g, n - k, m);
    }
  }

  lemma ReachesAt(mine: seq<Folder>, h: Folder, n: nat, m: nat, except: Option<FolderId>)
    requires h in mine && AtLevel(mine, h, n)
    ensures Reaches(mine, h, m, except) <==> m <= n && Clear(mine, h, n - m, except)
  {
    if Reaches(mine, h, m, except) {
      var l: nat :| m <= l && AtLevel(mine, h, l) && Clear(mine, h, l - m, except);
      LevelUnique(mine, h, l, n);
    }
  }

  lemma WalkedReaches(mine: seq<Folder>, order: Order, except: Option<FolderId>, h: Folder, m: nat)
    requires Unique(mine) && h in WalkAll(mine, order, except)
    ensures forall n: nat :: m <= n && AtLevel(mine, h, n) ==> Reaches(mine, h, m, except)
  {
    WalkAllOnce(mine, order, except, h);
    assert Reached(mine, h, except);
    forall n: nat | m <= n && AtLevel(mine, h, n) ensures Reaches(mine, h, m, except) {
      ReachedAt(mine, h, except, n);
      ClearShorter(mine, h, n, n - m, except);
    }
  }

  /**
  The picker lists a folder's subtree directly behind the folder and in one piece: what stands there
  is exactly every other listed folder that is under it.
  */
  lemma SubtreeBehindRoot(scope: Scope, order: Order, folders: seq<Folder>, except: Option<FolderId>, g: Folder)
      returns (a: seq<Folder>, sub: seq<Folder>, b: seq<Folder>)
    requires Unique(Mine(scope, folders)) && g in Folders(FlattenFolders(scope, order, folders, except))
    ensures var listed := Folders(FlattenFolders(scope, order, folders, except));
      && listed == a + ([g] + sub) + b
      && forall h :: h in sub <==> h in listed && IsUnder(Mine(scope, folders), h, g)
  {
    var mine := Mine(scope, folders);
    FlattenIsWalk(mine, order, Top(mine, order), 0, "", {}, except);
    var above, m;
    a, b, above, m := WalkSplit(mine, order, Top(mine, order), {}, except, 0, g);
    sub := Subwalk(mine, order, g, above, except);
    forall h ensures h in sub <==> h in WalkAll(mine, order, except) && IsUnder(mine, h, g) {
      SubwalkIs(mine, order, g, above, m, except, h);
      if h in WalkAll(mine, order, except) && IsUnder(mine, h, g) {
        WalkedReaches(mine, order, except, h, m);
        var k: nat, n: nat :| 0 < k <= n && AtLevel(mine, h, n) && Up(mine, h, k) == g;
        UnderAt(mine, g, m, h, n);
      }
    }
  }
}
