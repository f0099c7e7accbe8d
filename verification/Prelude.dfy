/**
Shared vocabulary: the two failure datatypes, and filtering of duplicate-free lists.
The filters are by membership in a set, so two filtered lists are equal as soon as the
sets that drive them agree on the list.
*/
module Prelude {
  datatype Option<+T> = None | Some(value: T)

  datatype Result<+T, +E> = Ok(value: T) | Err(error: E)

  const U32_MAX: nat := 0xFFFF_FFFF

  /** No member of `s` stands in it twice. */
  ghost predicate Distinct<T>(s: seq<T>) {
    s == [] || (s[0] !in s[1..] && Distinct(s[1..]))
  }

  lemma {:induction false} DistinctAt<T>(s: seq<T>, i: nat, j: nat)
    requires Distinct(s) && i < j < |s|
    ensures s[i] != s[j]
  {
    if i > 0 {
      DistinctAt(s[1..], i - 1, j - 1);
    } else {
      assert s[j] == s[1..][j - 1];
    }
  }

  function Elems<T(==)>(s: seq<T>): set<T> {
    set x | x in s
  }

  /** The members of `s` that are in `keep`, in order. */
  function Only<T(==)>(s: seq<T>, keep: set<T>): seq<T> {
    if s == [] then []
    else if s[0] in keep then [s[0]] + Only(s[1..], keep)
    else Only(s[1..], keep)
  }

  /** The members of `s` that are not in `gone`, in order. */
  function Minus<T(==)>(s: seq<T>, gone: set<T>): seq<T> {
    Only(s, Elems(s) - gone)
  }

  /** Position of the first `x` in `s`, or -1. */
  function IndexOf<T(==)>(s: seq<T>, x: T): (at: int)
    ensures at == -1 <==> x !in s
    ensures at != -1 ==> 0 <= at < |s| && s[at] == x && forall k :: 0 <= k < at ==> s[k] != x
  {
    if s == [] then -1
    else if s[0] == x then 0
    else
      var rest := IndexOf(s[1..], x);
      if rest == -1 then -1 else rest + 1
  }

  /** Position of the last member of `s` that is in `group`, or -1. */
  function LastIn<T(==)>(s: seq<T>, group: set<T>): (at: int)
    ensures -1 <= at < |s|
    ensures at >= 0 ==> s[at] in group
    ensures forall k :: at < k < |s| ==> s[k] !in group
  {
    if s == [] then -1
    else if Last(s) in group then |s| - 1
    else LastIn(s[..|s| - 1], group)
  }

  /** One past the last member of `s` that is in `group`, or the end of `s` when none is. */
  function AfterLast<T(==)>(s: seq<T>, group: set<T>): (at: nat)
    ensures at <= |s|
    ensures forall k :: at <= k < |s| ==> s[k] !in group
  {
    var last := LastIn(s, group);
    if last < 0 then |s| else last + 1
  }

  function Last<T>(s: seq<T>): T
    requires s != []
  {
    s[|s| - 1]
  }

  lemma AppendAssoc<T>(a: seq<T>, b: seq<T>, c: seq<T>)
    ensures a + (b + c) == a + b + c
  {
  }

  lemma OnlyElems<T>(s: seq<T>, keep: set<T>)
    ensures forall x :: x in Only(s, keep) <==> x in s && x in keep
  {
    if s != [] {
      OnlyElems(s[1..], keep);
    }
  }

  lemma {:induction false} OnlyConcat<T>(a: seq<T>, b: seq<T>, keep: set<T>)
    ensures Only(a + b, keep) == Only(a, keep) + Only(b, keep)
  {
    if a == [] {
      assert a + b == b;
    } else {
      assert (a + b)[1..] == a[1..] + b;
      OnlyConcat(a[1..], b, keep);
    }
  }

  lemma {:induction false} OnlyDistinct<T>(s: seq<T>, keep: set<T>)
    requires Distinct(s)
    ensures Distinct(Only(s, keep))
  {
    if s != [] {
      OnlyDistinct(s[1..], keep);
      OnlyElems(s[1..], keep);
      if s[0] in keep {
        assert Only(s, keep)[1..] == Only(s[1..], keep);
      }
    }
  }

  lemma {:induction false} OnlyCongruent<T>(s: seq<T>, a: set<T>, b: set<T>)
    requires forall x :: x in s ==> (x in a <==> x in b)
    ensures Only(s, a) == Only(s, b)
  {
    if s != [] {
      assert s[0] in s;
      OnlyCongruent(s[1..], a, b);
    }
  }

  lemma {:induction false} OnlyAll<T>(s: seq<T>, keep: set<T>)
    requires forall x :: x in s ==> x in keep
    ensures Only(s, keep) == s
  {
    if s != [] {
      assert s[0] in s;
      OnlyAll(s[1..], keep);
    }
  }

  lemma {:induction false} OnlyOnly<T>(s: seq<T>, a: set<T>, b: set<T>)
    ensures Only(Only(s, a), b) == Only(s, a * b)
  {
    if s != [] {
      OnlyOnly(s[1..], a, b);
    }
  }

  lemma {:induction false} OnlyShorter<T>(s: seq<T>, keep: set<T>)
    ensures |Only(s, keep)| <= |s|
    ensures |Only(s, keep)| == |s| ==> Only(s, keep) == s
  {
    if s != [] {
      OnlyShorter(s[1..], keep);
    }
  }

  lemma MinusElems<T>(s: seq<T>, gone: set<T>)
    ensures forall x :: x in Minus(s, gone) <==> x in s && x !in gone
  {
    OnlyElems(s, Elems(s) - gone);
  }

  lemma MinusSingle<T>(x: T, gone: set<T>)
    ensures Minus([x], gone) == if x in gone then [] else [x]
  {
    assert x in [x] && [x][1..] == [];
    assert Only([x][1..], Elems([x]) - gone) == [];
  }

  lemma MinusConcat<T>(a: seq<T>, b: seq<T>, gone: set<T>)
    ensures Minus(a + b, gone) == Minus(a, gone) + Minus(b, gone)
  {
    var keep := Elems(a + b) - gone;
    OnlyConcat(a, b, keep);
    OnlyCongruent(a, keep, Elems(a) - gone);
    OnlyCongruent(b, keep, Elems(b) - gone);
  }

  lemma {:induction false} DistinctConcat<T>(a: seq<T>, b: seq<T>)
    ensures Distinct(a + b) <==> Distinct(a) && Distinct(b) && (forall x :: x in a ==> x !in b)
  {
    if a == [] {
      assert a + b == b;
    } else {
      assert (a + b)[1..] == a[1..] + b;
      DistinctConcat(a[1..], b);
      assert forall x :: x in a <==> x == a[0] || x in a[1..];
    }
  }

  /** A duplicate-free list has as many items as its set of members. */
  lemma {:induction false} DistinctCount<T>(s: seq<T>)
    ensures |Elems(s)| <= |s|
    ensures Distinct(s) <==> |Elems(s)| == |s|
  {
    if s == [] {
      assert Elems(s) == {};
    } else {
      var t := s[1..];
      DistinctCount(t);
      assert Elems(s) == {s[0]} + Elems(t);
      if s[0] in t {
        assert Elems(s) == Elems(t);
      }
    }
  }

  lemma {:induction false} IndexOfConcat<T>(a: seq<T>, b: seq<T>, x: T)
    ensures IndexOf(a + b, x) ==
      if x in a then IndexOf(a, x) else if x in b then |a| + IndexOf(b, x) else -1
  {
    if a == [] {
      assert a + b == b;
    } else {
      assert (a + b)[1..] == a[1..] + b;
      IndexOfConcat(a[1..], b, x);
    }
  }

  /** In a duplicate-free list the index of a member is where it stands. */
  lemma DistinctIndex<T>(s: seq<T>, i: nat)
    requires Distinct(s) && i < |s|
    ensures IndexOf(s, s[i]) == i
  {
    assert s[i] in s;
    var at := IndexOf(s, s[i]);
    if at < i {
      DistinctAt(s, at, i);
    }
  }

  /** `x % n` for a non-negative x, by repeated subtraction. */
  function Remainder(x: nat, n: nat): (r: nat)
    requires n > 0
    ensures r < n
  {
    if x < n then x else Remainder(x - n, n)
  }
}
