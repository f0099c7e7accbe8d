/**
The grammar of the typed filter language, told without a parser: how each operator can be
spelled, which words a rule is made of, and what it means. The parser accepts exactly the
sentences of this grammar, and gives each the one meaning it has.
*/
module FilterGrammar {
  import opened Prelude
  import opened Text
  import opened FilterTokens
  import opened FilterParser
  import opened FilterPrinter

  // ------------------------------------------------------------------ names

  /** A typed name is the column of that name, or else the first one that differs in case only. */
  ghost predicate Names(fold: Fold, columns: seq<string>, name: string, column: string) {
    if name in columns then column == name
    else exists k :: 0 <= k < |columns| && columns[k] == column && fold(columns[k]) == fold(name)
           && forall i :: 0 <= i < k ==> fold(columns[i]) != fold(name)
  }

  lemma {:induction false} FindFoldedIs(fold: Fold, columns: seq<string>, lower: string)
    ensures var r := FindFolded(fold, columns, lower);
      if r.None? then forall k :: 0 <= k < |columns| ==> fold(columns[k]) != lower
      else
        exists k :: 0 <= k < |columns| && columns[k] == r.value && fold(columns[k]) == lower && forall i ::
          0 <= i < k ==> fold(columns[i]) != lower
  {
    if columns != [] && fold(columns[0]) != lower {
      var rest := columns[1..];
      FindFoldedIs(fold, rest, lower);
      assert forall k :: 0 < k < |columns| ==> columns[k] == rest[k - 1];
      if FindFolded(fold, rest, lower).Some? {
        var k :| 0 <= k < |rest| && rest[k] == FindFolded(fold, rest, lower).value && fold(rest[k]) == lower
          && forall i :: 0 <= i < k ==> fold(rest[i]) != lower;
        assert columns[k + 1] == rest[k];
      }
    }
  }

  lemma ResolveExactly(fold: Fold, columns: seq<string>, name: string, column: string)
    ensures Resolve(fold, columns, name) == Some(column) <==> Names(fold, columns, name, column)
  {
    FindFoldedIs(fold, columns, fold(name));
  }

  // ------------------------------------------------------------------ operators

  predicate SymbolIn(t: Token, symbols: set<string>) { t.kind == Symbol && t.text in symbols }

  /** The tokens from `i` up to `j` spell the operator. */
  predicate Spells(fold: Fold, tokens: seq<Token>, i: nat, j: nat, op: Op) {
    j <= |tokens| &&
    match op
    case Eq => j == i + 1 && SymbolIn(tokens[i], {"=", "=="})
    case Ne => j == i + 1 && SymbolIn(tokens[i], {"!=", "<>"})
    case Gt => j == i + 1 && SymbolIn(tokens[i], {">"})
    case Gte => j == i + 1 && SymbolIn(tokens[i], {">="})
    case Lt => j == i + 1 && SymbolIn(tokens[i], {"<"})
    case Lte => j == i + 1 && SymbolIn(tokens[i], {"<="})
    case Contains => j == i + 1 && WordIs(fold, tokens[i], "contains")
    case NotContains => j == i + 2 && WordIs(fold, tokens[i], "not") && WordIs(fold, tokens[i + 1], "contains")
    case StartsWith =>
      || (j == i + 1 && WordIs(fold, tokens[i], "startswith"))
      || (j == i + 2 && WordIs(fold, tokens[i], "starts") && WordIs(fold, tokens[i + 1], "with"))
    case EndsWith =>
      || (j == i + 1 && WordIs(fold, tokens[i], "endswith"))
      || (j == i + 2 && WordIs(fold, tokens[i], "ends") && WordIs(fold, tokens[i + 1], "with"))
    case In => j == i + 1 && WordIs(fold, tokens[i], "in")
    case IsNull => j == i + 2 && WordIs(fold, tokens[i], "is") && WordIs(fold, tokens[i + 1], "null")
    case IsNotNull =>
      && j == i + 3 && WordIs(fold, tokens[i], "is")
      && WordIs(fold, tokens[i + 1], "not") && WordIs(fold, tokens[i + 2], "null")
  }

  lemma OperatorSound(fold: Fold, tokens: seq<Token>, i: nat)
    requires i < |tokens|
    ensures var r := ReadOperator(fold, tokens, i);
      r.OperatorRead? && r.op.Some? ==> Spells(fold, tokens, i, i + r.used, r.op.value)
  {
  }

  lemma OperatorComplete(fold: Fold, tokens: seq<Token>, i: nat, j: nat, op: Op)
    requires Spells(fold, tokens, i, j, op)
    ensures i < |tokens| && i < j && ReadOperator(fold, tokens, i) == OperatorRead(Some(op), j - i)
  {
  }

  // ------------------------------------------------------------------ values

  /** The tokens from `i` up to `j` are these values, parted by commas. */
  predicate ItemsAt(tokens: seq<Token>, i: nat, j: nat, items: seq<string>)
    decreases |items|
  {
    && items != [] && i < |tokens| && tokens[i].kind != Symbol && tokens[i].text == items[0]
    && if |items| == 1 then j == i + 1
       else i + 1 < |tokens| && SymbolIn(tokens[i + 1], {","}) && ItemsAt(tokens, i + 2, j, items[1..])
  }

  /** Such values in parentheses, or without. */
  predicate ListAt(tokens: seq<Token>, i: nat, j: nat, items: seq<string>) {
    || ItemsAt(tokens, i, j, items)
    || (i + 2 <= j <= |tokens| && SymbolIn(tokens[i], {"("}) && SymbolIn(tokens[j - 1], {")"})
        && ItemsAt(tokens, i + 1, j - 1, items))
  }

  /** The token is the word `null`, in any case; in quotes it would be a value. */
  predicate BareNull(fold: Fold, t: Token) { WordIs(fold, t, "null") }

  /** The tokens from `i` up to `j` are an operator and its value, and mean `op` with `value`. */
  ghost predicate Means(fold: Fold, tokens: seq<Token>, i: nat, j: nat, op: Op, value: string) {
    i < j <= |tokens| &&
    match op
    case IsNull => value == "" && (
      || Spells(fold, tokens, i, j, IsNull)
      || (Spells(fold, tokens, i, j - 1, Eq) && BareNull(fold, tokens[j - 1])))
    case IsNotNull => value == "" && (
      || Spells(fold, tokens, i, j, IsNotNull)
      || (Spells(fold, tokens, i, j - 1, Ne) && BareNull(fold, tokens[j - 1])))
    case In => Spells(fold, tokens, i, i + 1, In) && exists items ::
      ListAt(tokens, i + 1, j, items) && value == Join(items, ",")
    case _ =>
      && Spells(fold, tokens, i, j - 1, op) && tokens[j - 1].kind != Symbol && value == tokens[j - 1].text
      && (op == Eq || op == Ne ==> !BareNull(fold, tokens[j - 1]))
  }

  ghost predicate RuleAt(fold: Fold, columns: seq<string>, tokens: seq<Token>, i: nat, j: nat, rule: Rule) {
    && i < |tokens| && (tokens[i].kind == Word || tokens[i].kind == Ident)
    && Names(fold, columns, tokens[i].text, rule.column)
    && Means(fold, tokens, i + 1, j, rule.op, rule.value)
  }

  /** Nothing is left at token `j` and of the rules, or a connector and a sentence of the rest of them. */
  ghost predicate GoesOn(fold: Fold, columns: seq<string>, tokens: seq<Token>, j: nat, rest: seq<Rule>,
    mode: FilterMode)
    decreases |rest|, 1
  {
    if rest == [] then j == |tokens|
    else
      && j < |tokens| && WordIs(fold, tokens[j], ConnectorText(mode))
      && Sentence(fold, columns, tokens, j + 1, rest, mode)
  }

  /** The tokens from `i` on are these rules, with the one connector of `mode` between each two. */
  ghost predicate Sentence(fold: Fold, columns: seq<string>, tokens: seq<Token>, i: nat, rules: seq<Rule>,
    mode: FilterMode)
    decreases |rules|, 0
  {
    rules != [] && exists j: nat ::
      RuleAt(fold, columns, tokens, i, j, rules[0]) && GoesOn(fold, columns, tokens, j, rules[1..], mode)
  }

  // ------------------------------------------------------------------ the parser reads a list as it stands

  /** What a list read without an error was. */
  lemma {:induction false} ListSound(tokens: seq<Token>, at: nat, i: nat, paren: bool, read: seq<string>)
    returns (items: seq<string>)
    requires at <= i <= |tokens|
    requires var r := ReadList(tokens, at, i, paren, read); r.ValueRead? && !r.open
    ensures var r := ReadList(tokens, at, i, paren, read);
      var j := at + r.used - (if paren then 1 else 0);
      && i < j <= |tokens| && r.value == Some(Join(read + items, ",")) && ItemsAt(tokens, i, j, items)
      && (paren ==> j < |tokens| && SymbolIn(tokens[j], {")"}))
    decreases |tokens| - i
  {
    var more := read + [tokens[i].text];
    if i + 1 < |tokens| && tokens[i + 1].kind == Symbol && tokens[i + 1].text == "," {
      var rest := ListSound(tokens, at, i + 2, paren, more);
      items := [tokens[i].text] + rest;
      AppendAssoc(read, [tokens[i].text], rest);
      assert items[1..] == rest;
    } else {
      items := [tokens[i].text];
    }
  }

  lemma {:induction false} ListComplete(tokens: seq<Token>, at: nat, i: nat, j: nat, paren: bool, read: seq<string>,
    items: seq<string>)
    requires at <= i && ItemsAt(tokens, i, j, items)
    requires if paren then j < |tokens| && SymbolIn(tokens[j], {")"}) else j < |tokens| ==> tokens[j].kind == Word
    ensures i < j <= |tokens|
    ensures ReadList(tokens, at, i, paren, read) ==
      ValueRead(Some(Join(read + items, ",")), j + (if paren then 1 else 0) - at, false, false)
    decreases |items|
  {
    if |items| == 1 {
      assert read + items == read + [items[0]];
    } else {
      ListComplete(tokens, at, i + 2, j, paren, read + [items[0]], items[1..]);
      AppendAssoc(read, [items[0]], items[1..]);
      assert [items[0]] + items[1..] == items;
    }
  }

  // ------------------------------------------------------------------ the parser reads what the grammar says

  lemma InSound(fold: Fold, tokens: seq<Token>, at: nat)
    requires at <= |tokens|
    requires var r := ReadValue(fold, tokens, at, In); r.ValueRead? && r.value.Some? && !r.open
    ensures var r := ReadValue(fold, tokens, at, In);
      && !r.bareNull && at + r.used <= |tokens|
      && exists items :: ListAt(tokens, at, at + r.used, items) && r.value.value == Join(items, ",")
  {
    var r := ReadValue(fold, tokens, at, In);
    var paren := tokens[at].kind == Symbol && tokens[at].text == "(";
    ListUses(tokens, at, if paren then at + 1 else at, paren, []);
    var items := ListSound(tokens, at, if paren then at + 1 else at, paren, []);
    assert [] + items == items;
    assert ListAt(tokens, at, at + r.used, items);
  }

  lemma InComplete(fold: Fold, tokens: seq<Token>, at: nat, j: nat, items: seq<string>)
    requires ListAt(tokens, at, j, items) && (j < |tokens| ==> tokens[j].kind == Word)
    ensures at < j <= |tokens|
    ensures ReadValue(fold, tokens, at, In) == ValueRead(Some(Join(items, ",")), j - at, false, false)
  {
    assert [] + items == items;
    if ItemsAt(tokens, at, j, items) {
      ListComplete(tokens, at, at, j, false, [], items);
    } else {
      ListComplete(tokens, at, at + 1, j - 1, true, [], items);
    }
  }

  lemma RestSound(fold: Fold, tokens: seq<Token>, i: nat, m: nat, end: nat, column: string, op: Op)
    requires Spells(fold, tokens, i, m, op)
    ensures m <= |tokens|
    ensures var r := ReadRest(fold, tokens, m, end, column, op);
      r.Ok? ==> r.value.0.column == column && Means(fold, tokens, i, r.value.1, r.value.0.op, r.value.0.value)
  {
    var r := ReadRest(fold, tokens, m, end, column, op);
    if r.Ok? && op == In {
      InSound(fold, tokens, m);
    }
  }

  lemma ConditionSound(fold: Fold, tokens: seq<Token>, i: nat, end: nat, column: string)
    requires i <= |tokens|
    ensures var r := ReadCondition(fold, tokens, i, end, column);
      r.Ok? ==> r.value.0.column == column && Means(fold, tokens, i, r.value.1, r.value.0.op, r.value.0.value)
  {
    if i < |tokens| {
      OperatorSound(fold, tokens, i);
      OperatorUses(fold, tokens, i);
      var r := ReadOperator(fold, tokens, i);
      if r.OperatorRead? && r.op.Some? {
        RestSound(fold, tokens, i, i + r.used, end, column, r.op.value);
      }
    }
  }

  lemma RuleSound(fold: Fold, columns: seq<string>, tokens: seq<Token>, i: nat, end: nat)
    requires i <= |tokens|
    ensures var r := ReadRule(fold, tokens, i, end, columns);
      r.Ok? ==> RuleAt(fold, columns, tokens, i, r.value.1, r.value.0)
  {
    var r := ReadRule(fold, tokens, i, end, columns);
    if r.Ok? {
      var column := Resolve(fold, columns, tokens[i].text).value;
      ResolveExactly(fold, columns, tokens[i].text, column);
      ConditionSound(fold, tokens, i + 1, end, column);
    }
  }

  /** The operator that is spelled where a meaning begins, and where its value begins. */
  lemma MeansSpelled(fold: Fold, tokens: seq<Token>, i: nat, j: nat, op: Op, value: string) returns (m: nat, typed: Op)
    requires Means(fold, tokens, i, j, op, value)
    ensures i < m <= j && Spells(fold, tokens, i, m, typed)
    ensures if typed == In then op == In && m == i + 1
      else if NeedsValue(typed) then m == j - 1 && tokens[m].kind != Symbol
        && (if (typed == Eq || typed == Ne) && BareNull(fold, tokens[m])
            then op == (if typed == Eq then IsNull else IsNotNull) && value == ""
            else op == typed && value == tokens[m].text)
      else m == j && op == typed && value == ""
  {
    if op == In {
      m, typed := i + 1, In;
    } else if NeedsValue(op) {
      m, typed := j - 1, op;
    } else if Spells(fold, tokens, i, j, op) {
      m, typed := j, op;
    } else {
      m, typed := j - 1, if op == IsNull then Eq else Ne;
    }
  }

  lemma ConditionComplete(fold: Fold, tokens: seq<Token>, i: nat, j: nat, end: nat, column: string, op: Op,
    value: string)
    requires Means(fold, tokens, i, j, op, value) && (j < |tokens| ==> tokens[j].kind == Word)
    ensures ReadCondition(fold, tokens, i, end, column) == Ok((Rule(column, op, value), j))
  {
    var m, typed := MeansSpelled(fold, tokens, i, j, op, value);
    OperatorComplete(fold, tokens, i, m, typed);
    if op == In {
      var items :| ListAt(tokens, i + 1, j, items) && value == Join(items, ",");
      InComplete(fold, tokens, i + 1, j, items);
    }
  }

  lemma RuleComplete(fold: Fold, columns: seq<string>, tokens: seq<Token>, i: nat, j: nat, end: nat, rule: Rule)
    requires RuleAt(fold, columns, tokens, i, j, rule) && (j < |tokens| ==> tokens[j].kind == Word)
    ensures ReadRule(fold, tokens, i, end, columns) == Ok((rule, j))
  {
    ResolveExactly(fold, columns, tokens[i].text, rule.column);
    ConditionComplete(fold, tokens, i + 1, j, end, rule.column, rule.op, rule.value);
  }

  // ------------------------------------------------------------------ whole filters

  /** A connector, or the end: what every rule of a sentence stands before. */
  lemma GoesOnAtWord(fold: Fold, columns: seq<string>, tokens: seq<Token>, j: nat, rest: seq<Rule>, mode: FilterMode)
    requires GoesOn(fold, columns, tokens, j, rest, mode)
    ensures j <= |tokens| && (j < |tokens| ==> tokens[j].kind == Word)
    ensures j < |tokens| ==> Connector(fold, tokens[j]) == Some(mode)
  {
  }

  /** How the filters combine when `rules` follow rules joined by `seen`; a single rule combines with nothing. */
  function Combined(rules: seq<Rule>, seen: Option<FilterMode>, mode: FilterMode): FilterMode {
    if |rules| > 1 || seen.Some? then mode else All
  }

  lemma {:induction false} ParseComplete(fold: Fold, columns: seq<string>, tokens: seq<Token>, i: nat, end: nat,
    rules: seq<Rule>, mode: FilterMode, read: seq<Rule>, seen: Option<FilterMode>)
    requires Sentence(fold, columns, tokens, i, rules, mode) && (seen.Some? ==> seen.value == mode)
    ensures i < |tokens|
    ensures ParseFrom(fold, tokens, i, end, columns, read, seen) == Parsed(read + rules, Combined(rules, seen, mode))
    decreases |rules|
  {
    var j: nat :|
      RuleAt(fold, columns, tokens, i, j, rules[0]) && GoesOn(fold, columns, tokens, j, rules[1..], mode);
    GoesOnAtWord(fold, columns, tokens, j, rules[1..], mode);
    RuleComplete(fold, columns, tokens, i, j, end, rules[0]);
    assert [rules[0]] + rules[1..] == rules;
    AppendAssoc(read, [rules[0]], rules[1..]);
    if |rules| > 1 {
      ParseComplete(fold, columns, tokens, j + 1, end, rules[1..], mode, read + [rules[0]], Some(mode));
    } else {
      assert read + rules == read + [rules[0]];
    }
  }

  lemma {:induction false} ParseSound(fold: Fold, columns: seq<string>, tokens: seq<Token>, i: nat, end: nat,
    read: seq<Rule>, seen: Option<FilterMode>) returns (rules: seq<Rule>, mode: FilterMode)
    requires i <= |tokens| && ParseFrom(fold, tokens, i, end, columns, read, seen).Parsed?
    ensures Sentence(fold, columns, tokens, i, rules, mode) && (seen.Some? ==> seen.value == mode)
    ensures ParseFrom(fold, tokens, i, end, columns, read, seen) == Parsed(read + rules, Combined(rules, seen, mode))
    decreases |tokens| - i
  {
    var (rule, j) := ReadRule(fold, tokens, i, end, columns).value;
    RuleSound(fold, columns, tokens, i, end);
    if j == |tokens| {
      rules, mode := [rule], if seen.Some? then seen.value else All;
      assert GoesOn(fold, columns, tokens, j, rules[1..], mode);
    } else {
      mode := Connector(fold, tokens[j]).value;
      var rest, same := ParseSound(fold, columns, tokens, j + 1, end, read + [rule], Some(mode));
      rules := [rule] + rest;
      assert rules[1..] == rest;
      assert GoesOn(fold, columns, tokens, j, rules[1..], mode);
      AppendAssoc(read, [rule], rest);
    }
  }

  /** A single rule is joined to nothing, so any mode will do. */
  lemma OneRule(fold: Fold, columns: seq<string>, tokens: seq<Token>, i: nat, rules: seq<Rule>, mode: FilterMode,
    other: FilterMode)
    requires |rules| == 1 && Sentence(fold, columns, tokens, i, rules, mode)
    ensures Sentence(fold, columns, tokens, i, rules, other)
  {
    var j: nat :|
      RuleAt(fold, columns, tokens, i, j, rules[0]) && GoesOn(fold, columns, tokens, j, rules[1..], mode);
    assert GoesOn(fold, columns, tokens, j, rules[1..], other);
  }

  /**
  The parser accepts exactly the sentences of the grammar, and reads each as the rules it means: so a text
  that mixes `and` with `or`, or has a list that is not closed, is refused, and nothing is read two ways.
  */
  lemma ParsesExactly(fold: Fold, source: string, columns: seq<string>, rules: seq<Rule>, mode: FilterMode)
    ensures Parse(fold, source, columns) == Parsed(rules, mode) <==>
      var scanned := Tokenized(source);
      && scanned.error.None?
      && (if scanned.tokens == [] then rules == [] && mode == All
          else Sentence(fold, columns, scanned.tokens, 0, rules, mode) && (|rules| == 1 ==> mode == All))
  {
    var scanned := Tokenized(source);
    if scanned.error.None? && scanned.tokens != [] {
      if Sentence(fold, columns, scanned.tokens, 0, rules, mode) {
        ParseComplete(fold, columns, scanned.tokens, 0, |source|, rules, mode, [], None);
        assert [] + rules == rules;
      }
      if Parse(fold, source, columns) == Parsed(rules, mode) {
        var all, connector := ParseSound(fold, columns, scanned.tokens, 0, |source|, [], None);
        assert [] + all == all;
        if |all| == 1 {
          OneRule(fold, columns, scanned.tokens, 0, all, connector, mode);
        }
      }
    }
  }

  // ------------------------------------------------------------------ null, typed

  /** A rule as it is typed: a name, a symbol and one more word, each with a blank before it. */
  function Typed(fold: Fold, name: string, symbol: string, rest: string): string {
    FormatName(fold, name) + " " + (symbol + " " + rest)
  }

  predicate Compares(symbol: string, op: Op) {
    (op == Eq && symbol in {"=", "=="}) || (op == Ne && symbol in {"!=", "<>"})
  }

  lemma TypedTokens(fold: Fold, name: string, symbol: string, op: Op, rest: string, last: Lexeme)
    requires Compares(symbol, op) && ReadsAs(rest, [last], "")
    ensures var r := Tokenized(Typed(fold, name, symbol, rest));
      r.error.None? && Shape(r.tokens) == [NameLexeme(fold, name), Lexeme(Symbol, symbol), last]
  {
    var text, shape :=
      Typed(fold, name, symbol, rest), [NameLexeme(fold, name)] + ([Lexeme(Symbol, symbol)] + [last]);
    SpaceThen(rest, [last], "");
    LexedSymbol(symbol, " " + rest + "");
    ReadsAsThen(symbol, [Lexeme(Symbol, symbol)], " " + rest, [last], "");
    assert symbol + " " + rest == symbol + (" " + rest);
    NameThen(fold, name, symbol + " " + rest, [Lexeme(Symbol, symbol)] + [last], "");
    assert text + "" == text && shape + [] == shape;
    ScanIsLexed(text, 0);
  }

  lemma TypedMeans(fold: Fold, columns: seq<string>, source: string, name: string, symbol: string, op: Op,
    last: Lexeme, column: string)
    requires Compares(symbol, op) && last.kind != Symbol && Names(fold, columns, name, column)
    requires var r := Tokenized(source);
      r.error.None? && Shape(r.tokens) == [NameLexeme(fold, name), Lexeme(Symbol, symbol), last]
    ensures Parse(fold, source, columns) == Parsed([
      if last.kind == Word && fold(last.text) == "null"
      then Rule(column, if op == Eq then IsNull else IsNotNull, "")
      else Rule(column, op, last.text)], All)
  {
    var tokens, bare := Tokenized(source).tokens, last.kind == Word && fold(last.text) == "null";
    var rule :=
      if bare then Rule(column, if op == Eq then IsNull else IsNotNull, "") else Rule(column, op, last.text);
    assert Shape(tokens)[0] == NameLexeme(fold, name) && Shape(tokens)[1] == Lexeme(Symbol, symbol);
    assert Shape(tokens)[2] == last;
    assert Spells(fold, tokens, 1, 2, op);
    assert RuleAt(fold, columns, tokens, 0, 3, rule);
    assert GoesOn(fold, columns, tokens, 3, [rule][1..], All);
    ParsesExactly(fold, source, columns, [rule], All);
  }

  lemma NullWord(fold: Fold, word: string)
    requires AsciiLower(word) == "null"
    ensures word != "" && fold(word) == "null" && forall k :: 0 <= k < |word| ==> !IsStop(word[k])
  {
    forall k | 0 <= k < |word| ensures IsAsciiAlpha(word[k]) {
      assert AsciiLowerChar(word[k]) == "null"[k];
    }
    assert IsAscii(word);
  }

  /** `c = null` in any case, and `c == null`, mean that c is null, `c != null` and `c <> null` that it is not. */
  lemma NullIsATest(fold: Fold, columns: seq<string>, name: string, symbol: string, op: Op, word: string,
    column: string)
    requires Compares(symbol, op) && Names(fold, columns, name, column) && AsciiLower(word) == "null"
    ensures Parse(fold, Typed(fold, name, symbol, word), columns) ==
      Parsed([Rule(column, if op == Eq then IsNull else IsNotNull, "")], All)
  {
    NullWord(fold, word);
    LexedWord(word, "");
    assert ReadsAs(word, [Lexeme(Word, word)], "");
    TypedTokens(fold, name, symbol, op, word, Lexeme(Word, word));
    TypedMeans(fold, columns, Typed(fold, name, symbol, word), name, symbol, op, Lexeme(Word, word), column);
  }

  /** In quotes, `null` is a value like any other. */
  lemma QuotedIsAValue(fold: Fold, columns: seq<string>, name: string, symbol: string, op: Op, value: string,
    column: string)
    requires Compares(symbol, op) && Names(fold, columns, name, column)
    ensures Parse(fold, Typed(fold, name, symbol, InQuotes(value, '\'')), columns) ==
      Parsed([Rule(column, op, value)], All)
  {
    var text := InQuotes(value, '\'');
    LexedQuoted(value, '\'', "");
    assert ReadsAs(text, [Lexeme(Str, value)], "");
    TypedTokens(fold, name, symbol, op, text, Lexeme(Str, value));
    TypedMeans(fold, columns, Typed(fold, name, symbol, text), name, symbol, op, Lexeme(Str, value), column);
  }
}
