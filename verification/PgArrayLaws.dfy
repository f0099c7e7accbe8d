/**
What array text is refused: an element that opens a nested array, whatever stands before it and
behind it.
*/
module PgArrayLaws {
  import opened Prelude
  import opened Text
  import opened PgArray

  function Spaces(n: nat): string {
    if n == 0 then "" else [' '] + Spaces(n - 1)
  }

  lemma {:induction false} SpacesDropped(n: nat, s: string)
    requires s != "" && s[0] != ' '
    ensures DropSpaces(Spaces(n) + s) == s
  {
    if n == 0 {
      assert Spaces(n) + s == s;
    } else {
      SpacesDropped(n - 1, s);
      assert (Spaces(n) + s)[1..] == Spaces(n - 1) + s;
    }
  }

  /** The items before the nested array, each with its comma. */
  function Led(upper: Upper, items: seq<Item>): string {
    if items == [] then "" else FormatItem(upper, items[0]) + ([','] + Led(upper, items[1..]))
  }

  lemma {:induction false} NestedElement(upper: Upper, items: seq<Item>, n: nat, rest: string)
    ensures Elements(upper, Led(upper, items) + (Spaces(n) + (['{'] + rest))) == None
  {
    var tail := Spaces(n) + (['{'] + rest);
    if items == [] {
      assert Led(upper, items) + tail == tail;
      SpacesDropped(n, ['{'] + rest);
    } else {
      var more := Led(upper, items[1..]) + tail;
      NestedElement(upper, items[1..], n, rest);
      assert Led(upper, items) + tail == FormatItem(upper, items[0]) + ([','] + more);
      ItemBack(upper, items[0], [','] + more);
      assert ([','] + more)[1..] == more;
    }
  }

  lemma {:induction false} TrimRightKeeps(a: string, rest: string)
    requires a != "" && !IsJsSpace(Last(a))
    ensures exists m: nat :: m <= |rest| && TrimRight(a + rest) == a + rest[..m]
    decreases |rest|
  {
    if rest == "" {
      assert a + rest == a && a + rest[..0] == a;
    } else if IsJsSpace(Last(rest)) {
      var shorter := rest[..|rest| - 1];
      TrimRightKeeps(a, shorter);
      assert (a + rest)[..|a + rest| - 1] == a + shorter;
      var m: nat :| m <= |shorter| && TrimRight(a + shorter) == a + shorter[..m];
      assert rest[..m] == shorter[..m];
    } else {
      assert a + rest[..|rest|] == a + rest;
    }
  }

  lemma {:induction false} LeftKeeps(a: string, rest: string)
    requires a != "" && !IsJsSpace(Last(a))
    ensures TrimLeft(a + rest) != "" && !IsJsSpace(TrimLeft(a + rest)[0])
    decreases |a|
  {
    if IsJsSpace(a[0]) {
      assert (a + rest)[1..] == a[1..] + rest;
      LeftKeeps(a[1..], rest);
    }
  }

  /** Text with a character that is no blank is not all trimmed away. */
  lemma TrimKeeps(a: string, rest: string)
    requires a != "" && !IsJsSpace(Last(a))
    ensures JsTrim(a + rest) != ""
  {
    LeftKeeps(a, rest);
    var t := TrimLeft(a + rest);
    TrimRightStops(t);
  }

  lemma BraceInside(upper: Upper, items: seq<Item>, n: nat, rest: string)
    requires rest != "" && Last(rest) == '}'
    ensures var source := ['{'] + (Led(upper, items) + Spaces(n) + ['{']) + rest;
      JsTrim(Body(source)) != "" && Elements(upper, Body(source)) == None
  {
    var inner := Led(upper, items) + Spaces(n) + ['{'];
    var source, short := ['{'] + inner + rest, rest[..|rest| - 1];
    assert Body(source) == inner + short;
    assert inner + short == Led(upper, items) + (Spaces(n) + (['{'] + short));
    NestedElement(upper, items, n, short);
    TrimKeeps(inner, short);
  }

  /** Text whose first element, or one behind any items, begins with a brace is no array this reads. */
  lemma NestedIsRefused(upper: Upper, items: seq<Item>, n: nat, rest: string)
    ensures Parse(upper, ['{'] + Led(upper, items) + Spaces(n) + ['{'] + rest) == None
  {
    var inner := Led(upper, items) + Spaces(n) + ['{'];
    var a := ['{'] + inner;
    assert ['{'] + Led(upper, items) + Spaces(n) + ['{'] + rest == a + rest;
    TrimRightKeeps(a, rest);
    var m: nat :| m <= |rest| && TrimRight(a + rest) == a + rest[..m];
    var source := JsTrim(a + rest);
    assert TrimLeft(a + rest) == a + rest;
    assert source == a + rest[..m];
    if Last(source) == '}' {
      BraceInside(upper, items, n, rest[..m]);
    }
  }
}
