/**
Scripts that binding makes read another way, one for each kind of seam: what was a parameter is none any
more, what was none has become one, or one has another name.
*/
module ParamWitness {
  import opened Prelude
  import opened Text
  import opened Params
  import opened ParamCut
  import opened ParamFit
  import opened ParamSeams
  import opened ParamBinding

  // ------------------------------------------------------------------ reading a script piece by piece

  /** The names of the parameters among the pieces. */
  function ParamNames(pieces: seq<Piece>): seq<string> {
    if pieces == [] then []
    else (if pieces[0].kind == Param then [pieces[0].name] else []) + ParamNames(pieces[1..])
  }

  lemma NamesStep(p: Piece, rest: seq<Hit>, at: nat, end: nat)
    ensures Names((if p.kind == Param then [Hit(p.name, at, end)] else []) + rest) ==
      (if p.kind == Param then [p.name] else []) + Names(rest)
  {
  }

  lemma {:induction false} NamesOfHits(pieces: seq<Piece>, at: nat)
    ensures Names(HitsOf(pieces, at)) == ParamNames(pieces)
    decreases |pieces|
  {
    if pieces != [] {
      var end := at + |pieces[0].text|;
      NamesOfHits(pieces[1..], end);
      NamesStep(pieces[0], HitsOf(pieces[1..], end), at, end);
    }
  }

  /** From `i` on the script has parameters of these names, and with these values it becomes this text. */
  ghost predicate Reads(s: string, i: nat, values: Values, names: seq<string>, text: string) {
    i <= |s| && ParamNames(PiecesFrom(s, i, true)) == names && Bound(PiecesFrom(s, i, true), values) == text
  }

  lemma ReadsAll(s: string, values: Values, names: seq<string>, text: string)
    requires Reads(s, 0, values, names, text)
    ensures Names(Hits(s, true)) == names && BindParams(s, true, values) == text
  {
    NamesOfHits(Pieces(s, true), 0);
  }

  lemma ReadsEnd(s: string, i: nat, values: Values)
    requires i == |s|
    ensures Reads(s, i, values, [], "")
  {
  }

  lemma ReadsPiece(s: string, i: nat, p: Piece, end: nat, values: Values, names: seq<string>, text: string)
    requires i < |s| && PieceAt(s, i, true) == p && EndAt(s, i, true) == end && Reads(s, end, values, names, text)
    ensures Reads(s, i, values, (if p.kind == Param then [p.name] else []) + names,
      (if p.kind == Param && p.name in values then ParamLiteral(values[p.name]) else p.text) + text)
  {
    assert ([p] + PiecesFrom(s, end, true))[1..] == PiecesFrom(s, end, true);
  }

  lemma NothingMore(names: seq<string>)
    ensures [] + names == names
  {
  }

  lemma PlainPiece(s: string, i: nat)
    requires i < |s| && KindAt(s, i, true) == Plain
    ensures PieceAt(s, i, true) == Piece(Plain, [s[i]], "") && EndAt(s, i, true) == i + 1
  {
  }

  /** A plain character. */
  lemma ReadsPlain(s: string, i: nat, values: Values, names: seq<string>, text: string, next: string)
    requires i < |s| && KindAt(s, i, true) == Plain && Reads(s, i + 1, values, names, text) && next == [s[i]] + text
    ensures Reads(s, i, values, names, next)
  {
    PlainPiece(s, i);
    ReadsPiece(s, i, Piece(Plain, [s[i]], ""), i + 1, values, names, text);
    NothingMore(names);
  }

  lemma ReadsQuiet(s: string, i: nat, values: Values, names: seq<string>, text: string, next: string)
    requires i < |s| && IsQuiet(s[i]) && Reads(s, i + 1, values, names, text) && next == [s[i]] + text
    ensures Reads(s, i, values, names, next)
  {
    ReadsPlain(s, i, values, names, text, next);
  }

  lemma TwoQuiet(s: string, i: nat, values: Values, names: seq<string>, text: string, next: string, all: string)
    requires i + 1 < |s| && IsQuiet(s[i]) && IsQuiet(s[i + 1]) && Reads(s, i + 2, values, names, text)
    requires next == [s[i + 1]] + text && all == [s[i]] + next
    ensures Reads(s, i, values, names, all)
  {
    ReadsQuiet(s, i + 1, values, names, text, next);
    ReadsQuiet(s, i, values, names, next, all);
  }

  /** A dollar sign that begins no tag. */
  lemma ReadsDollar(s: string, i: nat, values: Values, names: seq<string>, text: string, next: string)
    requires i < |s| && s[i] == '$' && (i + 1 < |s| ==> !IsIdentStart(s[i + 1]) && s[i + 1] != '$')
    requires Reads(s, i + 1, values, names, text) && next == "$" + text
    ensures Reads(s, i, values, names, next)
  {
    assert [s[i]] == "$";
    ReadsPlain(s, i, values, names, text, next);
  }

  /** Another piece than a plain character or a parameter. */
  lemma ReadsOther(s: string, i: nat, end: nat, values: Values, names: seq<string>, text: string, next: string)
    requires i < end <= |s| && KindAt(s, i, true) !in {Plain, Param} && EndAt(s, i, true) == end
    requires Reads(s, end, values, names, text) && next == s[i..end] + text
    ensures Reads(s, i, values, names, next)
  {
    ReadsPiece(s, i, PieceAt(s, i, true), end, values, names, text);
    NothingMore(names);
  }

  /** A parameter, bound or not. */
  lemma ReadsParam(s: string, i: nat, end: nat, name: string, values: Values, names: seq<string>, text: string,
    all: seq<string>, next: string)
    requires i < end <= |s| && KindAt(s, i, true) == Param && ParamAt(s, i, true) == Some(Hit(name, i, end))
    requires Reads(s, end, values, names, text) && all == [name] + names
    requires next == (if name in values then ParamLiteral(values[name]) else s[i..end]) + text
    ensures Reads(s, i, values, all, next)
  {
    ReadsPiece(s, i, Piece(Param, s[i..end], name), end, values, names, text);
  }

  /** `:name`, bound or not. */
  lemma ReadsName(s: string, i: nat, end: nat, name: string, values: Values, names: seq<string>, text: string,
    all: seq<string>, next: string)
    requires i < end <= |s| && s[i] == ':' && OpenBefore(s, i) && NameFollows(s, i, end) && s[i + 1..end] == name
    requires Reads(s, end, values, names, text) && all == [name] + names
    requires next == (if name in values then ParamLiteral(values[name]) else s[i..end]) + text
    ensures Reads(s, i, values, all, next)
  {
    NameEndAt(s, i + 1, end);
    ReadsParam(s, i, end, name, values, names, text, all, next);
  }

  lemma BracesAreParam(s: string, i: nat, n: nat, name: string)
    requires i < n < |s| - 1 && s[i] == '{' && BracesFollow(s, i, n) && JsTrim(s[i + 2..n]) == name
    ensures KindAt(s, i, true) == Param && ParamAt(s, i, true) == Some(Hit(name, i, n + 2))
  {
    FirstBraces(s, i, n);
  }

  // ------------------------------------------------------------------ literals

  lemma NullIsBare()
    ensures ParamLiteral(ParamValue("null", Auto)) == "NULL"
  {
    var v := "null";
    assert JsTrim(v) == v;
    if IsNumber(v) {
      NumberTame(v);
      assert IsUnsigned(v);
      UnsignedTame(v);
    }
    assert AsciiUpper(v) == "NULL";
  }

  // ------------------------------------------------------------------ tags

  /** ` :y` at the end. */
  ghost predicate EndsInName(s: string, i: nat) {
    i + 3 == |s| && s[i] == ' ' && s[i + 1] == ':' && s[i + 2] == 'y'
  }

  lemma ReadsEndName(s: string, i: nat, values: Values)
    requires EndsInName(s, i) && "y" !in values
    ensures Reads(s, i, values, ["y"], " :y")
  {
    assert s[i + 2..i + 3] == "y" && s[i + 1..i + 3] == ":y";
    ReadsEnd(s, i + 3, values);
    ReadsName(s, i + 1, i + 3, "y", values, [], "", ["y"], ":y");
    ReadsQuiet(s, i, values, ["y"], ":y", " :y");
  }

  /** `$:x$ :y` */
  ghost predicate IsTagScript(s: string, i: nat) {
    i + 7 == |s| && s[i] == '$' && s[i + 1] == ':' && s[i + 2] == 'x' && s[i + 3] == '$' && EndsInName(s, i + 4)
  }

  lemma TagScriptEnd(s: string, i: nat, values: Values)
    requires IsTagScript(s, i) && "y" !in values
    ensures Reads(s, i + 3, values, ["y"], "$ :y")
  {
    ReadsEndName(s, i + 4, values);
    ReadsDollar(s, i + 3, values, ["y"], " :y", "$ :y");
  }

  lemma TagScript(s: string, i: nat, values: Values)
    requires IsTagScript(s, i) && "y" !in values && "x" in values && ParamLiteral(values["x"]) == "NULL"
    ensures Reads(s, i, values, ["x", "y"], "$NULL$ :y")
  {
    TagScriptEnd(s, i, values);
    assert s[i + 2..i + 3] == "x";
    ReadsName(s, i + 1, i + 3, "x", values, ["y"], "$ :y", ["x", "y"], "NULL$ :y");
    ReadsDollar(s, i, values, ["x", "y"], "NULL$ :y", "$NULL$ :y");
  }

  lemma HidesAll(s: string, tag: string)
    requires s != "" && IsTag(tag) && At(s, 0, tag) && ClosedBy(s, 0 + |tag|, tag, |s|)
    ensures Names(Hits(s, true)) == []
  {
    DollarExactly(s, 0, |s|);
    ReadsEnd(s, |s|, map[]);
    assert s == s[0..|s|] + "";
    ReadsOther(s, 0, |s|, map[], [], "", s);
    ReadsAll(s, map[], [], s);
  }

  lemma NoTagLater(s: string, tag: string, k: nat)
    requires tag != "" && tag[0] == '$' && forall j :: k <= j < |s| ==> s[j] != '$'
    ensures forall j: nat :: k <= j ==> !At(s, j, tag)
  {
    forall j: nat | k <= j ensures !At(s, j, tag) {
      assert j + |tag| <= |s| ==> s[j..j + |tag|][0] == s[j];
    }
  }

  lemma TagHides(s: string)
    requires s == "$NULL$ :y"
    ensures Names(Hits(s, true)) == []
  {
    var tag := s[0..6];
    assert IsTag(tag) && At(s, 0, tag);
    NoTagLater(s, tag, 6);
    assert ClosedBy(s, 0 + |tag|, tag, 9);
    HidesAll(s, tag);
  }

  /** A tag has come about: a body opens that takes the other parameter along. */
  lemma TagSeam(sql: string, values: Values)
    requires sql == "$:x$ :y" && values == map["x" := ParamValue("null", Auto)]
    ensures Names(Hits(sql, true)) == ["x", "y"] && BindParams(sql, true, values) == "$NULL$ :y"
    ensures Names(Hits(BindParams(sql, true, values), true)) == []
  {
    NullIsBare();
    TagScript(sql, 0, values);
    ReadsAll(sql, values, ["x", "y"], "$NULL$ :y");
    TagHides(BindParams(sql, true, values));
  }

  // ------------------------------------------------------------------ signs

  lemma MinusFive(v: string)
    requires v == "-5"
    ensures ParamLiteral(ParamValue(v, Auto)) == v
  {
    assert Digits(v[1..]) && v[1..][..1] == v[1..] && v[1..][1..] == "";
    assert IsUnsigned(v[1..]);
  }

  /** `-:x :y` */
  ghost predicate IsMinusScript(s: string, i: nat) {
    i + 6 == |s| && s[i] == '-' && s[i + 1] == ':' && s[i + 2] == 'x' && EndsInName(s, i + 3)
  }

  lemma MinusScriptEnd(s: string, i: nat, values: Values)
    requires IsMinusScript(s, i) && "y" !in values && "x" in values && ParamLiteral(values["x"]) == "-5"
    ensures Reads(s, i + 1, values, ["x", "y"], "-5 :y")
  {
    ReadsEndName(s, i + 3, values);
    assert s[i + 2..i + 3] == "x";
    ReadsName(s, i + 1, i + 3, "x", values, ["y"], " :y", ["x", "y"], "-5 :y");
  }

  lemma MinusScript(s: string, i: nat, values: Values)
    requires IsMinusScript(s, i) && "y" !in values && "x" in values && ParamLiteral(values["x"]) == "-5"
    ensures Reads(s, i, values, ["x", "y"], "--5 :y")
  {
    MinusScriptEnd(s, i, values);
    assert [s[i]] + "-5 :y" == "--5 :y";
    ReadsPlain(s, i, values, ["x", "y"], "-5 :y", "--5 :y");
  }

  lemma FeedInside(s: string, at: nat)
    requires At(s, at, "\n")
    ensures '\n' in s
  {
    assert s[at] == s[at..at + 1][0];
  }

  lemma DashesHideAll(s: string)
    requires Two(s, 0, '-', '-') && '\n' !in s
    ensures Names(Hits(s, true)) == []
  {
    FindIsFirst(s, "\n", 0);
    if Find(s, "\n", 0).Some? {
      FeedInside(s, Find(s, "\n", 0).value);
    }
    ReadsEnd(s, |s|, map[]);
    assert s == s[0..|s|] + "";
    ReadsOther(s, 0, |s|, map[], [], "", s);
    ReadsAll(s, map[], [], s);
  }

  /** A comment has come about: the other parameter is gone. */
  lemma MinusSeam(sql: string, values: Values)
    requires sql == "-:x :y" && values == map["x" := ParamValue("-5", Auto)]
    ensures Names(Hits(sql, true)) == ["x", "y"] && BindParams(sql, true, values) == "--5 :y"
    ensures Names(Hits(BindParams(sql, true, values), true)) == []
  {
    MinusFive("-5");
    MinusScript(sql, 0, values);
    ReadsAll(sql, values, ["x", "y"], "--5 :y");
    DashesHideAll(BindParams(sql, true, values));
  }

  // ------------------------------------------------------------------ braces

  /** A brace with another behind it, and something that is in no name before the braces close. */
  lemma BraceIsPlain(s: string, i: nat, k: nat)
    requires i < |s| && s[i] == '{' && i + 2 <= k < |s| && !IsQuiet(s[k]) && forall j :: i + 2 <= j < k ==> s[j] != '}'
    ensures KindAt(s, i, true) == Plain
  {
    forall n: nat ensures !BracesFollow(s, i, n) {
      if BracesFollow(s, i, n) && k <= n {
        BodyIsQuiet(s, i, n, k);
      }
    }
    PlainFits(s, i, true);
  }

  lemma LoneBrace(s: string, i: nat)
    requires i < |s| && s[i] == '{' && (i + 1 < |s| ==> s[i + 1] != '{')
    ensures KindAt(s, i, true) == Plain
  {
    PlainFits(s, i, true);
  }

  /** ` }}` at the end. */
  ghost predicate EndsInBraces(s: string, i: nat) {
    i + 3 == |s| && s[i] == ' ' && s[i + 1] == '}' && s[i + 2] == '}'
  }

  lemma ReadsClosing(s: string, i: nat, values: Values)
    requires i + 2 == |s| && s[i] == '}' && s[i + 1] == '}'
    ensures Reads(s, i, values, [], "}}")
  {
    ReadsEnd(s, i + 2, values);
    TwoQuiet(s, i, values, [], "", "}", "}}");
  }

  lemma ReadsEndBraces(s: string, i: nat, values: Values)
    requires EndsInBraces(s, i)
    ensures Reads(s, i, values, [], " }}")
  {
    ReadsClosing(s, i + 1, values);
    ReadsQuiet(s, i, values, [], "}}", " }}");
  }

  /** `{{ :x }}` */
  ghost predicate IsBracesScript(s: string, i: nat) {
    && i + 8 == |s| && s[i] == '{' && s[i + 1] == '{' && s[i + 2] == ' ' && s[i + 3] == ':' && s[i + 4] == 'x'
    && EndsInBraces(s, i + 5)
  }

  lemma BracesScriptName(s: string, i: nat, values: Values)
    requires IsBracesScript(s, i) && "x" in values && ParamLiteral(values["x"]) == "NULL"
    ensures Reads(s, i + 3, values, ["x"], "NULL }}")
  {
    ReadsEndBraces(s, i + 5, values);
    assert s[i + 4..i + 5] == "x" && "NULL" + " }}" == "NULL }}";
    ReadsName(s, i + 3, i + 5, "x", values, [], " }}", ["x"], "NULL }}");
  }

  lemma BracesScriptEnd(s: string, i: nat, values: Values)
    requires IsBracesScript(s, i) && "x" in values && ParamLiteral(values["x"]) == "NULL"
    ensures Reads(s, i + 2, values, ["x"], " NULL }}")
  {
    BracesScriptName(s, i, values);
    assert [s[i + 2]] + "NULL }}" == " NULL }}";
    ReadsQuiet(s, i + 2, values, ["x"], "NULL }}", " NULL }}");
  }

  lemma BracesScript(s: string, i: nat, values: Values)
    requires IsBracesScript(s, i) && "x" in values && ParamLiteral(values["x"]) == "NULL"
    ensures Reads(s, i, values, ["x"], "{{ NULL }}")
  {
    BracesScriptEnd(s, i, values);
    LoneBrace(s, i + 1);
    ReadsPlain(s, i + 1, values, ["x"], " NULL }}", "{ NULL }}");
    BraceIsPlain(s, i, i + 3);
    ReadsPlain(s, i, values, ["x"], "{ NULL }}", "{{ NULL }}");
  }

  /** A script that is all one parameter in braces. */
  lemma AllBraces(s: string, body: string, name: string)
    requires s == "{{" + body + "}}" && JsTrim(body) == name && IsName(name)
    ensures Names(Hits(s, true)) == [name]
  {
    var n := |s| - 2;
    assert s[2..n] == body;
    assert BracesFollow(s, 0, n);
    ReadsEnd(s, n + 2, map[]);
    assert s == s[0..n + 2] + "";
    BracesAreParam(s, 0, n, name);
    ReadsParam(s, 0, n + 2, name, map[], [], "", [name], s);
    ReadsAll(s, map[], [name], s);
  }

  lemma TrimmedWord(body: string, name: string)
    requires body == " " + name + " " && IsName(name)
    ensures JsTrim(body) == name
  {
    var left := name + " ";
    assert body[1..] == left && left[..|left| - 1] == name;
    assert IsWordChar(name[|name| - 1]) && !IsJsSpace(name[0]);
    assert TrimLeft(left) == left;
    assert TrimRight(name) == name;
  }

  lemma SpacedName(s: string, body: string, name: string)
    requires body == " " + name + " " && s == "{{" + body + "}}" && IsName(name)
    ensures Names(Hits(s, true)) == [name]
  {
    TrimmedWord(body, name);
    AllBraces(s, body, name);
  }

  lemma NullName(s: string)
    requires s == "{{ NULL }}"
    ensures Names(Hits(s, true)) == ["NULL"]
  {
    assert IsName("NULL");
    assert " NULL " == " " + "NULL" + " ";
    assert "{{ NULL }}" == "{{" + " NULL " + "}}";
    SpacedName(s, " NULL ", "NULL");
  }

  /** A parameter has come about that was none. */
  lemma BracesSeam(sql: string, values: Values)
    requires sql == "{{ :x }}" && values == map["x" := ParamValue("null", Auto)]
    ensures Names(Hits(sql, true)) == ["x"] && BindParams(sql, true, values) == "{{ NULL }}"
    ensures Names(Hits(BindParams(sql, true, values), true)) == ["NULL"]
  {
    NullIsBare();
    BracesScript(sql, 0, values);
    ReadsAll(sql, values, ["x"], "{{ NULL }}");
    NullName(BindParams(sql, true, values));
  }

  /** `{{x}}` */
  ghost predicate IsNamedX(s: string, i: nat) {
    && i + 5 <= |s| && s[i] == '{' && s[i + 1] == '{' && s[i + 2] == 'x' && s[i + 3] == '}' && s[i + 4] == '}'
  }

  /** `{{ a{{x}}b }}` */
  ghost predicate IsNestedScript(s: string, i: nat) {
    && i + 13 == |s| && s[i] == '{' && s[i + 1] == '{' && s[i + 2] == ' ' && s[i + 3] == 'a' && IsNamedX(s, i + 4)
    && s[i + 9] == 'b' && EndsInBraces(s, i + 10)
  }

  lemma ReadsNamedX(s: string, i: nat, values: Values, literal: string, names: seq<string>, text: string,
    all: seq<string>, next: string)
    requires IsNamedX(s, i) && "x" in values && ParamLiteral(values["x"]) == literal
    requires Reads(s, i + 5, values, names, text) && all == ["x"] + names && next == literal + text
    ensures Reads(s, i, values, all, next)
  {
    assert s[i + 2..i + 3] == "x";
    TrimTight("x");
    assert BracesFollow(s, i, i + 3);
    BracesAreParam(s, i, i + 3, "x");
    ReadsParam(s, i, i + 5, "x", values, names, text, all, next);
  }

  lemma NestedScriptEnd(s: string, i: nat, values: Values)
    requires IsNestedScript(s, i) && "x" in values && ParamLiteral(values["x"]) == "NULL"
    ensures Reads(s, i + 4, values, ["x"], "NULLb }}")
  {
    ReadsEndBraces(s, i + 10, values);
    ReadsQuiet(s, i + 9, values, [], " }}", "b }}");
    ReadsNamedX(s, i + 4, values, "NULL", [], "b }}", ["x"], "NULLb }}");
  }

  lemma NestedTexts()
    ensures ['a'] + "NULLb }}" == "aNULLb }}" && [' '] + "aNULLb }}" == " aNULLb }}"
  {
  }

  lemma NestedScriptMiddle(s: string, i: nat, values: Values)
    requires IsNestedScript(s, i) && "x" in values && ParamLiteral(values["x"]) == "NULL"
    ensures Reads(s, i + 2, values, ["x"], " aNULLb }}")
  {
    NestedScriptEnd(s, i, values);
    NestedTexts();
    TwoQuiet(s, i + 2, values, ["x"], "NULLb }}", "aNULLb }}", " aNULLb }}");
  }

  lemma NestedScript(s: string, i: nat, values: Values)
    requires IsNestedScript(s, i) && "x" in values && ParamLiteral(values["x"]) == "NULL"
    ensures Reads(s, i, values, ["x"], "{{ aNULLb }}")
  {
    NestedScriptMiddle(s, i, values);
    LoneBrace(s, i + 1);
    ReadsPlain(s, i + 1, values, ["x"], " aNULLb }}", "{ aNULLb }}");
    BraceIsPlain(s, i, i + 4);
    ReadsPlain(s, i, values, ["x"], "{ aNULLb }}", "{{ aNULLb }}");
  }

  lemma NestedName(s: string)
    requires s == "{{ aNULLb }}"
    ensures Names(Hits(s, true)) == ["aNULLb"]
  {
    assert IsName("aNULLb");
    assert " aNULLb " == " " + "aNULLb" + " ";
    assert "{{ aNULLb }}" == "{{" + " aNULLb " + "}}";
    SpacedName(s, " aNULLb ", "aNULLb");
  }

  lemma NestedBound(sql: string, values: Values)
    requires IsNestedScript(sql, 0) && values == map["x" := ParamValue("null", Auto)]
    ensures Names(Hits(sql, true)) == ["x"] && BindParams(sql, true, values) == "{{ aNULLb }}"
  {
    NullIsBare();
    NestedScript(sql, 0, values);
    ReadsAll(sql, values, ["x"], "{{ aNULLb }}");
  }

  /** A parameter has come about whose name is partly the literal. */
  lemma NestedSeam(sql: string, values: Values)
    requires sql == "{{ a{{x}}b }}" && values == map["x" := ParamValue("null", Auto)]
    ensures Names(Hits(sql, true)) == ["x"] && BindParams(sql, true, values) == "{{ aNULLb }}"
    ensures Names(Hits(BindParams(sql, true, values), true)) == ["aNULLb"]
  {
    NestedBound(sql, values);
    NestedName(BindParams(sql, true, values));
  }

  // ------------------------------------------------------------------ names

  lemma FiveIs(v: string)
    requires v == "5"
    ensures ParamLiteral(ParamValue(v, Auto)) == v
  {
    assert Digits(v) && v[..1] == v && v[1..] == "";
    assert IsUnsigned(v);
  }

  lemma LetterQuoted()
    ensures ParamLiteral(ParamValue("v", AsText)) == "'v'"
  {
  }

  /** A colon that begins no name because of what stands before it. */
  lemma ReadsColon(s: string, i: nat, values: Values, names: seq<string>, text: string, next: string)
    requires i < |s| && s[i] == ':' && !OpenBefore(s, i)
    requires Reads(s, i + 1, values, names, text) && next == ":" + text
    ensures Reads(s, i, values, names, next)
  {
    assert [s[i]] == ":";
    ReadsPlain(s, i, values, names, text, next);
  }

  lemma ColonThenQuiet(s: string, i: nat, values: Values, names: seq<string>, text: string, next: string, all: string)
    requires i + 1 < |s| && s[i] == ':' && !OpenBefore(s, i) && IsQuiet(s[i + 1])
    requires Reads(s, i + 2, values, names, text) && next == [s[i + 1]] + text && all == ":" + next
    ensures Reads(s, i, values, names, all)
  {
    ReadsQuiet(s, i + 1, values, names, text, next);
    ReadsColon(s, i, values, names, next, all);
  }

  /** `:y` at the end, behind a word. */
  lemma ReadsNoName(s: string, i: nat, values: Values)
    requires i + 2 == |s| && s[i] == ':' && s[i + 1] == 'y' && !OpenBefore(s, i)
    ensures Reads(s, i, values, [], ":y")
  {
    ReadsEnd(s, i + 2, values);
    ColonThenQuiet(s, i, values, [], "", "y", ":y");
  }

  /** `:y` at the end, behind something else. */
  lemma ReadsLastName(s: string, i: nat, values: Values)
    requires i + 2 == |s| && s[i] == ':' && s[i + 1] == 'y' && OpenBefore(s, i) && "y" !in values
    ensures Reads(s, i, values, ["y"], ":y")
  {
    assert s[i + 1..i + 2] == "y" && s[i..i + 2] == ":y";
    ReadsEnd(s, i + 2, values);
    ReadsName(s, i, i + 2, "y", values, [], "", ["y"], ":y");
  }

  lemma VThenName()
    ensures "'v'" + ":y" == "'v':y"
  {
  }

  /** `:x:y` */
  lemma ColonScript(s: string, i: nat, values: Values)
    requires i + 4 == |s| && s[i] == ':' && s[i + 1] == 'x' && s[i + 2] == ':' && s[i + 3] == 'y' && OpenBefore(s, i)
    requires "x" in values && ParamLiteral(values["x"]) == "'v'"
    ensures Reads(s, i, values, ["x"], "'v':y")
  {
    ReadsNoName(s, i + 2, values);
    VThenName();
    assert s[i + 1..i + 2] == "x";
    ReadsName(s, i, i + 2, "x", values, [], ":y", ["x"], "'v':y");
  }

  /** A quoted text, and what is behind it. */
  lemma ReadsQuoted(s: string, i: nat, end: nat, values: Values, names: seq<string>, text: string, next: string)
    requires QuotedAt(s, i, end) && Reads(s, end, values, names, text) && next == s[i..end] + text
    ensures Reads(s, i, values, names, next)
  {
    QuotedExactly(s, i, end);
    ReadsOther(s, i, end, values, names, text, next);
  }

  /** A short text in single quotes, with nothing to escape. */
  lemma ShortQuote(s: string, i: nat)
    requires i + 3 <= |s| && s[i] == '\'' && s[i + 1] != '\'' && s[i + 1] != '\\' && s[i + 2] == '\''
    requires i + 3 < |s| ==> s[i + 3] != '\''
    ensures QuotedAt(s, i, i + 3)
  {
    var t := s[i + 1..i + 3];
    assert t[..1] == [s[i + 1]] && t[..1][1..] == "";
    assert IsBody("", '\'');
    assert IsBody(t[..1], '\'');
  }

  lemma QuotedThenName(s: string, i: nat, values: Values)
    requires i + 5 == |s| && s[i] == '\'' && s[i + 1] == 'v' && s[i + 2] == '\'' && s[i + 3] == ':' && s[i + 4] == 'y'
    requires "y" !in values
    ensures Reads(s, i, values, ["y"], "'v':y")
  {
    ReadsLastName(s, i + 3, values);
    ShortQuote(s, i);
    assert s[i..i + 3] == "'v'";
    ReadsQuoted(s, i, i + 3, values, ["y"], ":y", "'v':y");
  }

  lemma QuoteThenName(s: string)
    requires s == "'v':y"
    ensures Names(Hits(s, true)) == ["y"]
  {
    QuotedThenName(s, 0, map[]);
    ReadsAll(s, map[], ["y"], "'v':y");
  }

  /** A name where none could begin before. */
  lemma ColonSeam(sql: string, values: Values)
    requires sql == ":x:y" && values == map["x" := ParamValue("v", AsText)]
    ensures Names(Hits(sql, true)) == ["x"] && BindParams(sql, true, values) == "'v':y"
    ensures Names(Hits(BindParams(sql, true, values), true)) == ["y"]
  {
    LetterQuoted();
    ColonScript(sql, 0, values);
    ReadsAll(sql, values, ["x"], "'v':y");
    QuoteThenName(BindParams(sql, true, values));
  }

  /** `{{x}}:y` */
  lemma NoNameScript(s: string, i: nat, values: Values)
    requires IsNamedX(s, i) && i + 7 == |s| && s[i + 5] == ':' && s[i + 6] == 'y' && "y" !in values
    requires "x" in values && ParamLiteral(values["x"]) == "5"
    ensures Reads(s, i, values, ["x", "y"], "5:y")
  {
    ReadsLastName(s, i + 5, values);
    ReadsNamedX(s, i, values, "5", ["y"], ":y", ["x", "y"], "5:y");
  }

  lemma DigitThenColon(s: string, i: nat, values: Values)
    requires i + 3 == |s| && s[i] == '5' && s[i + 1] == ':' && s[i + 2] == 'y'
    ensures Reads(s, i, values, [], "5:y")
  {
    ReadsNoName(s, i + 1, values);
    assert [s[i]] + ":y" == "5:y";
    ReadsQuiet(s, i, values, [], ":y", "5:y");
  }

  lemma FiveThenColon(s: string)
    requires s == "5:y"
    ensures Names(Hits(s, true)) == []
  {
    DigitThenColon(s, 0, map[]);
    ReadsAll(s, map[], [], "5:y");
  }

  /** No name where one began before. */
  lemma NoNameSeam(sql: string, values: Values)
    requires sql == "{{x}}:y" && values == map["x" := ParamValue("5", Auto)]
    ensures Names(Hits(sql, true)) == ["x", "y"] && BindParams(sql, true, values) == "5:y"
    ensures Names(Hits(BindParams(sql, true, values), true)) == []
  {
    FiveIs("5");
    NoNameScript(sql, 0, values);
    ReadsAll(sql, values, ["x", "y"], "5:y");
    FiveThenColon(BindParams(sql, true, values));
  }

  /** `:a{{x}}` */
  lemma GrownScript(s: string, i: nat, values: Values)
    requires i + 7 == |s| && s[i] == ':' && s[i + 1] == 'a' && OpenBefore(s, i) && IsNamedX(s, i + 2)
    requires "a" !in values && "x" in values && ParamLiteral(values["x"]) == "5"
    ensures Reads(s, i, values, ["a", "x"], ":a5")
  {
    ReadsEnd(s, i + 7, values);
    ReadsNamedX(s, i + 2, values, "5", [], "", ["x"], "5");
    assert s[i + 1..i + 2] == "a" && s[i..i + 2] == ":a";
    ReadsName(s, i, i + 2, "a", values, ["x"], "5", ["a", "x"], ":a5");
  }

  lemma TwoChars(s: string, i: nat, name: string)
    requires i + 2 <= |s| && |name| == 2 && s[i] == name[0] && s[i + 1] == name[1]
    ensures s[i..i + 2] == name
  {
  }

  /** A script that is all one `:name` of two characters. */
  lemma AllName(s: string, name: string)
    requires |s| == 3 && s[0] == ':' && |name| == 2 && IsName(name) && s[1] == name[0] && s[2] == name[1]
    ensures Names(Hits(s, true)) == [name]
  {
    TwoChars(s, 1, name);
    ReadsEnd(s, 3, map[]);
    assert s[0..3] == s && s + "" == s;
    assert NameFollows(s, 0, 3);
    ReadsName(s, 0, 3, name, map[], [], "", [name], s);
    ReadsAll(s, map[], [name], s);
  }

  /** A name has grown. */
  lemma GrownNameSeam(sql: string, values: Values)
    requires sql == ":a{{x}}" && values == map["x" := ParamValue("5", Auto)]
    ensures Names(Hits(sql, true)) == ["a", "x"] && BindParams(sql, true, values) == ":a5"
    ensures Names(Hits(BindParams(sql, true, values), true)) == ["a5"]
  {
    FiveIs("5");
    GrownScript(sql, 0, values);
    ReadsAll(sql, values, ["a", "x"], ":a5");
    AllName(BindParams(sql, true, values), "a5");
  }

  // ------------------------------------------------------------------ quotes

  /** `'a':x :y` */
  ghost predicate IsQuoteScript(s: string, i: nat) {
    && i + 8 == |s| && s[i] == '\'' && s[i + 1] == 'a' && s[i + 2] == '\'' && s[i + 3] == ':' && s[i + 4] == 'x'
    && EndsInName(s, i + 5)
  }

  lemma QuoteScriptEnd(s: string, i: nat, values: Values)
    requires IsQuoteScript(s, i) && "y" !in values && "x" in values && ParamLiteral(values["x"]) == "'v'"
    ensures Reads(s, i + 3, values, ["x", "y"], "'v' :y")
  {
    ReadsEndName(s, i + 5, values);
    assert s[i + 4..i + 5] == "x";
    ReadsName(s, i + 3, i + 5, "x", values, ["y"], " :y", ["x", "y"], "'v' :y");
  }

  lemma QuoteScript(s: string, i: nat, values: Values)
    requires IsQuoteScript(s, i) && "y" !in values && "x" in values && ParamLiteral(values["x"]) == "'v'"
    ensures Reads(s, i, values, ["x", "y"], "'a''v' :y")
  {
    QuoteScriptEnd(s, i, values);
    ShortQuote(s, i);
    assert s[i..i + 3] == "'a'" && "'a'" + "'v' :y" == "'a''v' :y";
    ReadsQuoted(s, i, i + 3, values, ["x", "y"], "'v' :y", "'a''v' :y");
  }

  lemma FirstQuote(s: string)
    requires s == "'a':x :y"
    ensures PieceAt(s, 0, true).text == "'a'"
  {
    ShortQuote(s, 0);
    QuotedExactly(s, 0, 3);
    assert s[0..3] == "'a'";
  }

  lemma MergedThenName(s: string, i: nat, values: Values)
    requires i + 9 == |s| && QuotedAt(s, i, i + 6) && s[i..i + 6] == "'a''v'" && EndsInName(s, i + 6) && "y" !in values
    ensures Reads(s, i, values, ["y"], "'a''v' :y")
  {
    ReadsEndName(s, i + 6, values);
    ReadsQuoted(s, i, i + 6, values, ["y"], " :y", "'a''v' :y");
  }

  lemma MergedNames(s: string)
    requires |s| == 9 && QuotedAt(s, 0, 6) && s[0..6] == "'a''v'" && EndsInName(s, 6)
    ensures Names(Hits(s, true)) == ["y"]
  {
    MergedThenName(s, 0, map[]);
    ReadsAll(s, map[], ["y"], "'a''v' :y");
  }

  lemma LongBody(t: string)
    requires |t| == 4 && t[0] == 'a' && t[1] == '\'' && t[2] == '\'' && t[3] == 'v'
    ensures IsBody(t, '\'')
  {
    assert t[1..][2..][1..] == "";
    assert IsBody(t[1..][2..], '\'');
    assert IsBody(t[1..], '\'');
  }

  lemma MergedQuote(s: string)
    requires s == "'a''v' :y"
    ensures QuotedAt(s, 0, 6)
  {
    LongBody(s[1..6][..4]);
  }

  lemma LongQuote(s: string)
    requires s == "'a''v' :y"
    ensures PieceAt(s, 0, true).text == "'a''v'" && Names(Hits(s, true)) == ["y"]
  {
    MergedQuote(s);
    assert s[0..6] == "'a''v'";
    MergedNames(s);
    QuotedExactly(s, 0, 6);
  }

  /** Two quoted texts have become one. The other parameter is still there. */
  lemma QuoteSeam(sql: string, values: Values)
    requires sql == "'a':x :y" && values == map["x" := ParamValue("v", AsText)]
    ensures Names(Hits(sql, true)) == ["x", "y"] && BindParams(sql, true, values) == "'a''v' :y"
    ensures PieceAt(sql, 0, true).text == "'a'" && PieceAt(BindParams(sql, true, values), 0, true).text == "'a''v'"
    ensures Names(Hits(BindParams(sql, true, values), true)) == ["y"]
  {
    LetterQuoted();
    QuoteScript(sql, 0, values);
    ReadsAll(sql, values, ["x", "y"], "'a''v' :y");
    FirstQuote(sql);
    LongQuote(BindParams(sql, true, values));
  }
}
