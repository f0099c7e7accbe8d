/**
Parameter names, literals and binding (src/lib/params.ts). Binding is specified on the pieces of
the script: a bound parameter becomes its literal and every other piece stays as it is.
*/
module ParamBinding {
  import opened Prelude
  import opened Text
  import opened Params
  import opened ParamCut

  datatype ParamMode = Auto | AsText | Raw

  datatype ParamValue = ParamValue(value: string, mode: ParamMode)

  // ------------------------------------------------------------------ literals

  predicate IsExponent(s: string) {
    s == "" || ((s[0] == 'e' || s[0] == 'E') &&
      (Digits(s[1..]) || (|s| > 1 && (s[1] == '-' || s[1] == '+') && Digits(s[2..]))))
  }

  predicate IsUnsigned(s: string) {
    exists k :: 0 < k <= |s| && Decimal(s[..k]) && IsExponent(s[k..])
  }

  predicate IsNumber(s: string) {
    IsUnsigned(s) || (s != "" && s[0] == '-' && IsUnsigned(s[1..]))
  }

  predicate IsKeyword(s: string) {
    AsciiUpper(s) == "NULL" || AsciiUpper(s) == "TRUE" || AsciiUpper(s) == "FALSE"
  }

  function QuotedLiteral(value: string): string {
    ['\''] + Doubled(value, '\'') + ['\'']
  }

  function ParamLiteral(param: ParamValue): string {
    var trimmed := JsTrim(param.value);
    if param.mode == Raw then param.value
    else if param.mode == Auto && IsNumber(trimmed) then trimmed
    else if param.mode == Auto && IsKeyword(trimmed) then AsciiUpper(trimmed)
    else QuotedLiteral(param.value)
  }

  // ------------------------------------------------------------------ a literal is one quoted text

  /** No backslash that escapes takes a quote with it, or stands last. */
  predicate Clean(v: string)
    decreases |v|
  {
    if v == "" then true
    else if v[0] == '\\' then |v| > 1 && v[1] != '\'' && Clean(v[2..])
    else Clean(v[1..])
  }

  /** A single quote in front of doubled text never closes exactly behind it. */
  lemma {:induction false} OddQuote(v: string, after: string)
    requires after != ""
    ensures QuoteLength(['\''] + Doubled(v, '\'') + ['\''] + after, '\'') != 2 + |Doubled(v, '\'')|
    decreases |v|
  {
    var s := ['\''] + Doubled(v, '\'') + ['\''] + after;
    if v == "" {
      assert s == ['\'', '\''] + after && s[2..] == after;
    } else if v[0] == '\'' {
      var rest := Doubled(v[1..], '\'');
      assert s == ['\'', '\''] + (['\''] + rest + ['\''] + after);
      assert s[2..] == ['\''] + rest + ['\''] + after;
      OddQuote(v[1..], after);
    } else {
      assert s[1] == v[0];
    }
  }

  lemma DoubledStep(v: string, after: string)
    requires v != ""
    ensures var s, rest := Doubled(v, '\'') + ['\''] + after, Doubled(v[1..], '\'') + ['\''] + after;
      s == (if v[0] == '\'' then ['\'', '\''] else [v[0]]) + rest
  {
  }

  /**
  A quoted literal in a script is consumed exactly up to its closing quote if and only if no
  active backslash in the value takes a quote with it or stands last, and no quote follows.
  */
  lemma {:induction false} LiteralConsumed(v: string, after: string)
    requires after != ""
    ensures QuoteLength(Doubled(v, '\'') + ['\''] + after, '\'') == |Doubled(v, '\'')| + 1 <==>
      Clean(v) && after[0] != '\''
    decreases |v|
  {
    var s := Doubled(v, '\'') + ['\''] + after;
    if v == "" {
      assert s == ['\''] + after;
      if after[0] == '\'' {
        assert s[1] == '\'';
      }
    } else {
      var rest := Doubled(v[1..], '\'') + ['\''] + after;
      DoubledStep(v, after);
      if v[0] == '\'' {
        assert s[2..] == rest;
        LiteralConsumed(v[1..], after);
      } else if v[0] != '\\' {
        assert s[1..] == rest;
        LiteralConsumed(v[1..], after);
      } else {
        BackslashConsumed(v, after);
      }
    }
  }

  lemma {:induction false} BackslashConsumed(v: string, after: string)
    requires after != "" && v != "" && v[0] == '\\'
    ensures QuoteLength(Doubled(v, '\'') + ['\''] + after, '\'') == |Doubled(v, '\'')| + 1 <==>
      Clean(v) && after[0] != '\''
    decreases |v|, 0
  {
    var s := Doubled(v, '\'') + ['\''] + after;
    DoubledStep(v, after);
    if |v| == 1 {
      assert v[1..] == "" && s == ['\\', '\''] + after && s[2..] == after;
    } else {
      DoubledStep(v[1..], after);
      assert v[1..][1..] == v[2..];
      var rest := Doubled(v[2..], '\'') + ['\''] + after;
      if v[1] == '\'' {
        assert s == ['\\', '\'', '\''] + rest && s[2..] == ['\''] + Doubled(v[2..], '\'') + ['\''] + after;
        OddQuote(v[2..], after);
      } else {
        assert s == ['\\', v[1]] + rest && s[2..] == rest;
        LiteralConsumed(v[2..], after);
      }
    }
  }

  predicate OnlyQuotes(v: string) { forall k :: 0 <= k < |v| ==> v[k] == '\'' }

  /** A backslash that escapes stands before a quote only if nothing but quotes follows. */
  predicate WholeAtEnd(v: string)
    decreases |v|
  {
    if v == "" then true
    else if v[0] != '\\' then WholeAtEnd(v[1..])
    else if |v| == 1 then true
    else if v[1] != '\'' then WholeAtEnd(v[2..])
    else OnlyQuotes(v[2..])
  }

  lemma {:induction false} OddQuoteAtEnd(v: string)
    ensures QuoteLength(['\''] + Doubled(v, '\'') + ['\''], '\'') == 2 + |Doubled(v, '\'')| <==> OnlyQuotes(v)
    decreases |v|
  {
    var s := ['\''] + Doubled(v, '\'') + ['\''];
    if v == "" {
      assert s == ['\'', '\''] && s[2..] == "";
    } else if v[0] == '\'' {
      assert s[2..] == ['\''] + Doubled(v[1..], '\'') + ['\''];
      assert v == ['\''] + v[1..];
      OddQuoteAtEnd(v[1..]);
    } else {
      assert s[1] == v[0];
    }
  }

  /** At the end of a script a quoted literal is consumed whole if and only if this holds of its value. */
  lemma {:induction false} LiteralAtEnd(v: string)
    ensures QuoteLength(Doubled(v, '\'') + ['\''], '\'') == |Doubled(v, '\'')| + 1 <==> WholeAtEnd(v)
    decreases |v|
  {
    var s := Doubled(v, '\'') + ['\''];
    if v == "" {
      assert s == ['\''];
    } else if v[0] == '\\' {
      BackslashAtEnd(v);
    } else {
      var rest := Doubled(v[1..], '\'') + ['\''];
      assert s == (if v[0] == '\'' then ['\'', '\''] else [v[0]]) + rest;
      assert s[if v[0] == '\'' then 2 else 1..] == rest;
      LiteralAtEnd(v[1..]);
    }
  }

  lemma {:induction false} BackslashAtEnd(v: string)
    requires v != "" && v[0] == '\\'
    ensures QuoteLength(Doubled(v, '\'') + ['\''], '\'') == |Doubled(v, '\'')| + 1 <==> WholeAtEnd(v)
    decreases |v|, 0
  {
    var s := Doubled(v, '\'') + ['\''];
    if |v| == 1 {
      assert v[1..] == "" && s == ['\\', '\''] && s[2..] == "";
    } else {
      assert v[1..][1..] == v[2..];
      if v[1] == '\'' {
        assert Doubled(v[1..], '\'') == ['\'', '\''] + Doubled(v[2..], '\'');
        assert s == ['\\', '\'', '\''] + (Doubled(v[2..], '\'') + ['\'']);
        assert s[2..] == ['\''] + Doubled(v[2..], '\'') + ['\''];
        OddQuoteAtEnd(v[2..]);
      } else {
        assert s[2..] == Doubled(v[2..], '\'') + ['\''];
        LiteralAtEnd(v[2..]);
      }
    }
  }

  /** A value that is clean anywhere is consumed whole at the end. */
  lemma {:induction false} CleanIsWhole(v: string)
    requires Clean(v)
    ensures WholeAtEnd(v)
    decreases |v|
  {
    if v != "" {
      CleanIsWhole(if v[0] == '\\' then v[2..] else v[1..]);
    }
  }

  /** One quote out of each doubled pair. */
  function Undoubled(s: string, q: char): string
    decreases |s|
  {
    if s == "" then ""
    else if |s| > 1 && s[0] == q && s[1] == q then [q] + Undoubled(s[2..], q)
    else [s[0]] + Undoubled(s[1..], q)
  }

  /** What stands between the quotes un-doubles to the value. */
  lemma {:induction false} UndoubledBack(v: string, q: char)
    ensures Undoubled(Doubled(v, q), q) == v
  {
    if v != "" {
      var d, rest := Doubled(v, q), Doubled(v[1..], q);
      UndoubledBack(v[1..], q);
      if v[0] == q {
        assert d == [q, q] + rest && d[2..] == rest;
      } else {
        assert d[0] == v[0] && d[1..] == rest;
      }
      assert v == [v[0]] + v[1..];
    }
  }

  // ------------------------------------------------------------------ a bound value adds no parameter

  predicate IsNumberChar(c: char) { IsDigit(c) || c == '.' || c == 'e' || c == 'E' || c == '+' || c == '-' }

  /** Only number characters, and no two dashes in a row. */
  ghost predicate Tame(s: string) {
    && (forall k :: 0 <= k < |s| ==> IsNumberChar(s[k]) || IsAsciiAlpha(s[k]))
    && (forall k :: 0 <= k < |s| - 1 ==> s[k] == '-' ==> IsDigit(s[k + 1]))
  }

  lemma DecimalChars(s: string)
    requires Decimal(s)
    ensures s != "" && forall k :: 0 <= k < |s| ==> IsDigit(s[k]) || s[k] == '.'
    ensures IsDigit(s[0])
  {
    if !Digits(s) {
      var k :| 0 < k < |s| && s[k] == '.' && Digits(s[..k]) && Digits(s[k + 1..]);
      assert s[..k][0] == s[0];
      forall j | 0 <= j < |s| ensures IsDigit(s[j]) || s[j] == '.' {
        if j < k {
          assert s[j] == s[..k][j];
        } else if j > k {
          assert s[j] == s[k + 1..][j - k - 1];
        }
      }
    }
  }

  lemma ExponentTame(s: string)
    requires IsExponent(s)
    ensures Tame(s) && (s != "" ==> s[0] != '-')
  {
    if s != "" {
      var from := if Digits(s[1..]) then 1 else 2;
      forall k | from <= k < |s| ensures IsDigit(s[k]) {
        assert s[k] == s[from..][k - from];
      }
    }
  }

  lemma UnsignedTame(s: string)
    requires IsUnsigned(s)
    ensures Tame(s) && s != "" && IsDigit(s[0])
  {
    var k :| 0 < k <= |s| && Decimal(s[..k]) && IsExponent(s[k..]);
    DecimalChars(s[..k]);
    ExponentTame(s[k..]);
    forall j | 0 <= j < |s|
      ensures IsNumberChar(s[j]) || IsAsciiAlpha(s[j])
      ensures j < |s| - 1 && s[j] == '-' ==> IsDigit(s[j + 1])
    {
      if j < k {
        assert s[j] == s[..k][j];
      } else {
        assert s[j] == s[k..][j - k];
        assert j < |s| - 1 ==> s[j + 1] == s[k..][j + 1 - k];
      }
    }
    assert s[0] == s[..k][0];
  }

  lemma NumberTame(s: string)
    requires IsNumber(s)
    ensures Tame(s)
  {
    if IsUnsigned(s) {
      UnsignedTame(s);
    } else {
      UnsignedTame(s[1..]);
      forall j | 0 <= j < |s|
        ensures IsNumberChar(s[j]) || IsAsciiAlpha(s[j])
        ensures j < |s| - 1 && s[j] == '-' ==> IsDigit(s[j + 1])
      {
        assert j > 0 ==> s[j] == s[1..][j - 1];
        assert j < |s| - 1 ==> s[j + 1] == s[1..][j];
      }
    }
  }

  lemma TameIsPlain(s: string, i: nat, colon: bool)
    requires Tame(s) && i < |s|
    ensures KindAt(s, i, colon) == Plain
  {
    assert IsNumberChar(s[i]) || IsAsciiAlpha(s[i]);
  }

  /** The parameter at `i`, if there is one. */
  function HitAt(s: string, i: nat, colon: bool): seq<Hit>
    requires i < |s|
  {
    if KindAt(s, i, colon) == Param then [ParamAt(s, i, colon).value] else []
  }

  lemma LengthOf(s: string, i: nat, colon: bool)
    requires i < |s|
    ensures var p, end := PieceAt(s, i, colon), EndAt(s, i, colon);
      && |p.text| == end - i
      && HitAt(s, i, colon) == if p.kind == Param then [Hit(p.name, i, end)] else []
  {
  }

  /** The hits from `i` on are those at `i` and those from `end` on. */
  ghost predicate HitThen(s: string, i: nat, colon: bool, end: nat, hit: seq<Hit>) {
    i < end <= |s| && HitsOf(PiecesFrom(s, i, colon), i) == hit + HitsOf(PiecesFrom(s, end, colon), end)
  }

  lemma HitStep(s: string, i: nat, colon: bool)
    requires i < |s|
    ensures HitThen(s, i, colon, EndAt(s, i, colon), HitAt(s, i, colon))
  {
    var p, end := PieceAt(s, i, colon), EndAt(s, i, colon);
    LengthOf(s, i, colon);
    HitsOfCons(p, PiecesFrom(s, end, colon), i);
  }

  lemma {:induction false} TameHasNoHits(s: string, i: nat, colon: bool)
    requires Tame(s) && i <= |s|
    ensures HitsOf(PiecesFrom(s, i, colon), i) == []
    decreases |s| - i
  {
    if i < |s| {
      TameIsPlain(s, i, colon);
      HitStep(s, i, colon);
      TameHasNoHits(s, i + 1, colon);
    }
  }

  lemma QuotedIsInert(value: string, colon: bool)
    requires WholeAtEnd(value)
    ensures Hits(QuotedLiteral(value), colon) == []
  {
    var literal := QuotedLiteral(value);
    LiteralAtEnd(value);
    assert literal[1..] == Doubled(value, '\'') + ['\''];
    assert EndAt(literal, 0, colon) == |literal|;
    HitStep(literal, 0, colon);
  }

  /** What a value not written raw becomes holds no parameter, as long as it is consumed whole if quoted. */
  lemma BoundValueIsInert(param: ParamValue, colon: bool)
    requires param.mode != Raw && (ParamLiteral(param) == QuotedLiteral(param.value) ==> WholeAtEnd(param.value))
    ensures Hits(ParamLiteral(param), colon) == []
  {
    var literal, trimmed := ParamLiteral(param), JsTrim(param.value);
    if param.mode == Auto && IsNumber(trimmed) {
      NumberTame(trimmed);
      TameHasNoHits(literal, 0, colon);
    } else if param.mode == Auto && IsKeyword(trimmed) {
      assert literal in {"NULL", "TRUE", "FALSE"};
      TameHasNoHits(literal, 0, colon);
    } else {
      QuotedIsInert(param.value, colon);
    }
  }

  // ------------------------------------------------------------------ binding

  type Values = map<string, ParamValue>

  function Bound(pieces: seq<Piece>, values: Values): string {
    if pieces == [] then ""
    else
      var p := pieces[0];
      (if p.kind == Param && p.name in values then ParamLiteral(values[p.name]) else p.text) +
        Bound(pieces[1..], values)
  }

  /** The script with every bound parameter replaced by its literal. */
  function BindParams(sql: string, colon: bool, values: Values): string {
    Bound(Pieces(sql, colon), values)
  }

  lemma {:induction false} UnboundTexts(pieces: seq<Piece>, at: nat, values: Values)
    requires forall h :: h in HitsOf(pieces, at) ==> h.name !in values
    ensures Bound(pieces, values) == Texts(pieces)
    decreases |pieces|
  {
    if pieces != [] {
      var p, end := pieces[0], at + |pieces[0].text|;
      var rest := HitsOf(pieces[1..], end);
      if p.kind == Param {
        assert HitsOf(pieces, at) == [Hit(p.name, at, end)] + rest;
        assert Hit(p.name, at, end) in HitsOf(pieces, at);
      } else {
        assert HitsOf(pieces, at) == [] + rest == rest;
      }
      UnboundTexts(pieces[1..], end, values);
    }
  }

  /** Nothing changes when no parameter of the script is bound. */
  lemma NothingBound(sql: string, colon: bool, values: Values)
    requires forall h :: h in Hits(sql, colon) ==> h.name !in values
    ensures BindParams(sql, colon, values) == sql
  {
    PiecesAndHits(sql, colon);
    UnboundTexts(Pieces(sql, colon), 0, values);
  }

  // ------------------------------------------------------------------ binding hit by hit

  /** Binding hit by hit, the text before `at` having been copied already. */
  function BindFrom(sql: string, hits: seq<Hit>, at: nat, values: Values): string
    requires at <= |sql| && InOrder(hits, at, |sql|)
    decreases |hits|
  {
    if hits == [] then sql[at..]
    else if hits[0].name in values then
      sql[at..hits[0].start] + ParamLiteral(values[hits[0].name]) + BindFrom(sql, hits[1..], hits[0].end, values)
    else
      InOrderEarlier(hits[1..], hits[0].end, at, |sql|);
      BindFrom(sql, hits[1..], at, values)
  }

  lemma EmptySlice(s: string, i: nat, rest: string)
    requires i <= |s|
    ensures s[i..i] + rest == rest
  {
  }

  lemma BindFromHit(sql: string, hit: Hit, rest: seq<Hit>, at: nat, values: Values)
    requires at <= |sql| && InOrder([hit] + rest, at, |sql|)
    ensures InOrder(rest, hit.end, |sql|) && InOrder(rest, at, |sql|)
    ensures BindFrom(sql, [hit] + rest, at, values) ==
      if hit.name in values then
        sql[at..hit.start] + ParamLiteral(values[hit.name]) + BindFrom(sql, rest, hit.end, values)
      else BindFrom(sql, rest, at, values)
  {
    assert ([hit] + rest)[1..] == rest;
    InOrderEarlier(rest, hit.end, at, |sql|);
  }

  lemma SliceThen(s: string, a: nat, b: nat, c: nat)
    requires a <= b <= c <= |s|
    ensures s[a..c] == s[a..b] + s[b..c]
  {
  }

  lemma BindHit(before: string, text: string, after: string)
    ensures before + text + after == before + (text + after)
  {
  }

  lemma {:induction false} BindFromIsBound(sql: string, i: nat, pieces: seq<Piece>, at: nat, values: Values)
    requires at <= i <= |sql| && Texts(pieces) == sql[i..] && InOrder(HitsOf(pieces, i), at, |sql|)
    ensures BindFrom(sql, HitsOf(pieces, i), at, values) == sql[at..i] + Bound(pieces, values)
    decreases |pieces|, 0
  {
    if pieces == [] {
      assert sql[at..i] + "" == sql[at..];
    } else {
      var p := pieces[0];
      var end := i + |p.text|;
      TextBehind(sql, i, p.text, Texts(pieces[1..]));
      if p.kind == Param {
        HitIsBound(sql, i, p, pieces[1..], at, values);
      } else {
        NothingBefore(HitsOf(pieces[1..], end));
        BindFromIsBound(sql, end, pieces[1..], at, values);
        SliceThen(sql, at, i, end);
        BindHit(sql[at..i], p.text, Bound(pieces[1..], values));
      }
    }
  }

  lemma {:induction false} HitIsBound(sql: string, i: nat, p: Piece, rest: seq<Piece>, at: nat, values: Values)
    requires at <= i < i + |p.text| <= |sql| && sql[i..i + |p.text|] == p.text && Texts(rest) == sql[i + |p.text|..]
    requires p.kind == Param && InOrder([Hit(p.name, i, i + |p.text|)] + HitsOf(rest, i + |p.text|), at, |sql|)
    ensures BindFrom(sql, [Hit(p.name, i, i + |p.text|)] + HitsOf(rest, i + |p.text|), at, values) ==
      sql[at..i] + ((if p.name in values then ParamLiteral(values[p.name]) else p.text) + Bound(rest, values))
    decreases |rest|, 1
  {
    var end := i + |p.text|;
    BindFromHit(sql, Hit(p.name, i, end), HitsOf(rest, end), at, values);
    if p.name in values {
      BindFromIsBound(sql, end, rest, end, values);
      EmptySlice(sql, end, Bound(rest, values));
      BindHit(sql[at..i], ParamLiteral(values[p.name]), Bound(rest, values));
    } else {
      BindFromIsBound(sql, end, rest, at, values);
      SliceThen(sql, at, i, end);
      BindHit(sql[at..i], p.text, Bound(rest, values));
    }
  }

  // ------------------------------------------------------------------ names

  function Names(hits: seq<Hit>): (r: seq<string>)
    ensures |r| == |hits| && forall k :: 0 <= k < |hits| ==> r[k] == hits[k].name
  {
    seq(|hits|, k requires 0 <= k < |hits| => hits[k].name)
  }

  /** Each name once, where it first stands. */
  function Firsts(names: seq<string>): seq<string> {
    if names == [] then []
    else
      var before := Firsts(names[..|names| - 1]);
      if Last(names) in before then before else before + [Last(names)]
  }

  function FindParams(sql: string, colon: bool): seq<string> {
    Firsts(Names(Hits(sql, colon)))
  }

  /** Exactly the names of the hits, each once. */
  lemma {:induction false} FirstsMembers(names: seq<string>)
    ensures Distinct(Firsts(names))
    ensures forall x :: x in Firsts(names) <==> x in names
  {
    if names != [] {
      FirstsMembers(names[..|names| - 1]);
      assert names == names[..|names| - 1] + [Last(names)];
      DistinctConcat(Firsts(names[..|names| - 1]), [Last(names)]);
    }
  }

  /** Ordered by where they first stand. */
  lemma {:induction false} FirstsInOrder(names: seq<string>, i: nat, j: nat)
    requires i < j < |Firsts(names)|
    ensures IndexOf(names, Firsts(names)[i]) < IndexOf(names, Firsts(names)[j])
  {
    var shorter, last := names[..|names| - 1], Last(names);
    var x, y, before := Firsts(names)[i], Firsts(names)[j], Firsts(shorter);
    assert names == shorter + [last];
    FirstsMembers(shorter);
    IndexOfConcat(shorter, [last], x);
    IndexOfConcat(shorter, [last], y);
    assert x == before[i] && x in before;
    if j < |before| {
      assert y == before[j] && y in before;
      FirstsInOrder(shorter, i, j);
    }
  }

  // ------------------------------------------------------------------ the loops

  method SkipQuoted(sql: string, start: nat, quote: char) returns (end: nat)
    requires start < |sql|
    ensures end == start + 1 + QuoteLength(sql[start + 1..], quote)
  {
    var i := start + 1;
    while i < |sql|
      invariant start < i <= |sql|
      invariant QuoteLength(sql[start + 1..], quote) == i - start - 1 + QuoteLength(sql[i..], quote)
    {
      var rest := sql[i..];
      assert rest[0] == sql[i] && rest[1..] == sql[i + 1..];
      if i + 1 < |sql| {
        assert rest[1] == sql[i + 1] && rest[2..] == sql[i + 2..];
      }
      if sql[i] == '\\' && quote == '\'' {
        i := if i + 2 <= |sql| then i + 2 else |sql|;
      } else if sql[i] == quote {
        if i + 1 < |sql| && sql[i + 1] == quote {
          i := i + 2;
        } else {
          return i + 1;
        }
      } else {
        i := i + 1;
      }
    }
    end := |sql|;
  }

  /** Where what is skipped at `i` ends, if something is. */
  method Skip(sql: string, i: nat, colon: bool) returns (end: Option<nat>)
    requires i < |sql|
    ensures end == if KindAt(sql, i, colon) == Param || KindAt(sql, i, colon) == Plain then None
      else Some(EndAt(sql, i, colon))
  {
    var ch := sql[i];
    if IsQuote(ch) {
      var past := SkipQuoted(sql, i, ch);
      return Some(past);
    } else if Two(sql, i, '-', '-') {
      return Some(Past(sql, "\n", i));
    } else if Two(sql, i, '/', '*') {
      return Some(Past(sql, "*/", i + 2));
    } else if TagAt(sql, i).Some? {
      return Some(DollarEnd(sql, i));
    }
    return None;
  }

  lemma HitsSoFar(sql: string, i: nat, colon: bool, end: nat, hit: seq<Hit>, hits: seq<Hit>)
    requires HitThen(sql, i, colon, end, hit)
    ensures hits + HitsOf(PiecesFrom(sql, i, colon), i) == hits + hit + HitsOf(PiecesFrom(sql, end, colon), end)
  {
    var rest := HitsOf(PiecesFrom(sql, end, colon), end);
    assert hits + (hit + rest) == hits + hit + rest;
  }

  /** The piece at `i`: where it ends, and the parameter if it is one. */
  method Recognize(sql: string, i: nat, colon: bool) returns (end: nat, hit: seq<Hit>)
    requires i < |sql|
    ensures end == EndAt(sql, i, colon) && hit == HitAt(sql, i, colon)
  {
    var skipped := Skip(sql, i, colon);
    if skipped.Some? {
      return skipped.value, [];
    }
    var found := ParamAt(sql, i, colon);
    if found.Some? {
      return found.value.end, [found.value];
    }
    return i + 1, [];
  }

  method Scan(sql: string, colon: bool) returns (hits: seq<Hit>)
    ensures hits == Hits(sql, colon)
  {
    hits := [];
    var i := 0;
    while i < |sql|
      invariant i <= |sql|
      invariant Hits(sql, colon) == hits + HitsOf(PiecesFrom(sql, i, colon), i)
    {
      var end, hit := Recognize(sql, i, colon);
      HitStep(sql, i, colon);
      HitsSoFar(sql, i, colon, end, hit, hits);
      hits := hits + hit;
      i := end;
    }
  }

  method FindNames(sql: string, colon: bool) returns (seen: seq<string>)
    ensures seen == FindParams(sql, colon)
  {
    var hits := Scan(sql, colon);
    ghost var names := Names(hits);
    seen := [];
    for k := 0 to |hits|
      invariant seen == Firsts(names[..k])
    {
      assert names[..k + 1][..k] == names[..k];
      if hits[k].name !in seen {
        seen := seen + [hits[k].name];
      }
    }
    assert names[..|hits|] == names;
  }

  method Bind(sql: string, colon: bool, values: Values) returns (r: string)
    ensures r == BindParams(sql, colon, values)
  {
    var out := "";
    var at: nat := 0;
    var hits := Scan(sql, colon);
    PiecesAndHits(sql, colon);
    BindFromIsBound(sql, 0, Pieces(sql, colon), 0, values);
    assert hits[0..] == hits;
    for k := 0 to |hits|
      invariant at <= |sql| && InOrder(hits[k..], at, |sql|)
      invariant BindParams(sql, colon, values) == out + BindFrom(sql, hits[k..], at, values)
    {
      var hit := hits[k];
      assert hits[k..][0] == hit && hits[k..][1..] == hits[k + 1..];
      if hit.name !in values {
        InOrderEarlier(hits[k + 1..], hit.end, at, |sql|);
        continue;
      }
      var more := sql[at..hit.start] + ParamLiteral(values[hit.name]);
      BindHit(out, more, BindFrom(sql, hits[k + 1..], hit.end, values));
      out := out + more;
      at := hit.end;
    }
    r := out + sql[at..];
  }
}
