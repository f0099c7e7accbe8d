/**
Printing a filter and parsing it back. For every list of rules this says exactly what comes
back: the rules with their values in canonical form, or an error; and so exactly which rules
survive the round trip unchanged.
*/
module FilterRoundTrip {
  import opened Prelude
  import opened Text
  import opened FilterTokens
  import opened FilterParser
  import opened FilterPrinter

  // ------------------------------------------------------------------ what comes back

  /** The value the printed text carries: trimmed, or the trimmed non-empty items of a list. */
  function CanonValue(rule: Rule): string {
    if !NeedsValue(rule.op) then ""
    else if rule.op == In then Join(Items(rule.value), ",")
    else JsTrim(rule.value)
  }

  /** What printing and parsing make of a rule; None if the printed text is refused. */
  function RuleBack(fold: Fold, columns: seq<string>, rule: Rule): Option<Rule> {
    match Resolve(fold, columns, rule.column)
    case None => None
    case Some(column) =>
      if rule.op == In && Items(rule.value) == [] then None else Some(Rule(column, rule.op, CanonValue(rule)))
  }

  function Backs(fold: Fold, columns: seq<string>, rules: seq<Rule>): (r: seq<Option<Rule>>)
    ensures |r| == |rules|
  {
    if rules == [] then [] else [RuleBack(fold, columns, rules[0])] + Backs(fold, columns, rules[1..])
  }

  /** The values, if all of them are there. */
  function AllSome(backs: seq<Option<Rule>>): Option<seq<Rule>> {
    if backs == [] then Some([])
    else
      var rest := AllSome(backs[1..]);
      if backs[0].Some? && rest.Some? then Some([backs[0].value] + rest.value) else None
  }

  /** What comes back of all the rules, or None if one of them is refused. */
  function RulesBack(fold: Fold, columns: seq<string>, rules: seq<Rule>): Option<seq<Rule>> {
    AllSome(Backs(fold, columns, rules))
  }

  // ------------------------------------------------------------------ parsing the printed lexemes

  predicate Has(t: Token, x: Lexeme) { t.kind == x.kind && t.text == x.text }

  /** From token `at` on, the tokens have the given shape. */
  ghost predicate Begins(tokens: seq<Token>, at: nat, shape: seq<Lexeme>)
    decreases |shape|
  {
    if shape == [] then at <= |tokens|
      else at < |tokens| && Has(tokens[at], shape[0]) && Begins(tokens, at + 1, shape[1..])
  }

  lemma {:induction false} BeginsAt(tokens: seq<Token>, at: nat, shape: seq<Lexeme>, k: nat)
    requires Begins(tokens, at, shape) && k < |shape|
    ensures at + k < |tokens| && Has(tokens[at + k], shape[k])
    decreases k
  {
    if k > 0 {
      BeginsAt(tokens, at + 1, shape[1..], k - 1);
    }
  }

  lemma {:induction false} BeginsSplit(tokens: seq<Token>, at: nat, x: seq<Lexeme>, y: seq<Lexeme>)
    requires Begins(tokens, at, x + y)
    ensures Begins(tokens, at, x) && Begins(tokens, at + |x|, y)
    decreases |x|
  {
    if x == [] {
      assert x + y == y;
      BeginsFits(tokens, at, y);
    } else {
      assert (x + y)[1..] == x[1..] + y;
      BeginsSplit(tokens, at + 1, x[1..], y);
    }
  }

  lemma {:induction false} BeginsFits(tokens: seq<Token>, at: nat, shape: seq<Lexeme>)
    requires Begins(tokens, at, shape)
    ensures at + |shape| <= |tokens|
    decreases |shape|
  {
    if shape != [] {
      BeginsFits(tokens, at + 1, shape[1..]);
    }
  }

  lemma {:induction false} BeginsWhole(tokens: seq<Token>, at: nat, shape: seq<Lexeme>)
    requires at <= |tokens| && shape == Shape(tokens)[at..]
    ensures Begins(tokens, at, shape)
    decreases |tokens| - at
  {
    if at < |tokens| {
      assert shape[0] == Shape(tokens)[at] && shape[1..] == Shape(tokens)[at + 1..];
      BeginsWhole(tokens, at + 1, shape[1..]);
    }
  }

  lemma FoldsToItself(fold: Fold, w: string)
    requires forall k :: 0 <= k < |w| ==> 'a' <= w[k] <= 'z'
    ensures fold(w) == w
  {
    assert IsAscii(w);
    assert AsciiLower(w) == w;
  }

  lemma OneWordBack(fold: Fold, tokens: seq<Token>, at: nat, op: Op)
    requires (op == Contains || op == In || IsSymbolic(op)) && Begins(tokens, at, OpLexemes(op))
    ensures ReadOperator(fold, tokens, at) == OperatorRead(Some(op), 1)
  {
    assert tokens[at].text == OpText(op) && tokens[at].kind == OpLexemes(op)[0].kind;
    if !IsSymbolic(op) {
      FoldsToItself(fold, OpText(op));
    }
  }

  lemma TwoWordsBack(fold: Fold, tokens: seq<Token>, at: nat, op: Op)
    requires IsPhrase(op) && Begins(tokens, at, OpLexemes(op))
    ensures ReadOperator(fold, tokens, at) == OperatorRead(Some(op), 2)
  {
    var shape := OpLexemes(op);
    BeginsAt(tokens, at, shape, 1);
    FoldsToItself(fold, shape[0].text);
    FoldsToItself(fold, shape[1].text);
  }

  lemma NullTestBack(fold: Fold, tokens: seq<Token>, at: nat, op: Op)
    requires (op == IsNull || op == IsNotNull) && Begins(tokens, at, OpLexemes(op))
    ensures ReadOperator(fold, tokens, at) == OperatorRead(Some(op), |OpLexemes(op)|)
  {
    FoldsToItself(fold, "is");
    FoldsToItself(fold, "not");
    FoldsToItself(fold, "null");
    BeginsAt(tokens, at, OpLexemes(op), 1);
    if op == IsNotNull {
      BeginsAt(tokens, at, OpLexemes(op), 2);
    }
  }

  lemma OperatorBack(fold: Fold, tokens: seq<Token>, at: nat, op: Op)
    requires Begins(tokens, at, OpLexemes(op))
    ensures at < |tokens| && at + |OpLexemes(op)| <= |tokens|
    ensures ReadOperator(fold, tokens, at) == OperatorRead(Some(op), |OpLexemes(op)|)
  {
    BeginsFits(tokens, at, OpLexemes(op));
    if op == IsNull || op == IsNotNull {
      NullTestBack(fold, tokens, at, op);
    } else if IsPhrase(op) {
      TwoWordsBack(fold, tokens, at, op);
    } else {
      OneWordBack(fold, tokens, at, op);
    }
  }

  lemma {:induction false} ListBack(fold: Fold, tokens: seq<Token>, at: nat, i: nat, items: seq<string>,
    read: seq<string>)
    requires at <= i && items != [] && Begins(tokens, i, ItemLexemes(fold, items) + [Lexeme(Symbol, ")")])
    ensures i <= |tokens|
    ensures ReadList(tokens, at, i, true, read) ==
      ValueRead(Some(Join(read + items, ",")), i + |ItemLexemes(fold, items)| + 1 - at, false, false)
    decreases |items|
  {
    var shape := ItemLexemes(fold, items) + [Lexeme(Symbol, ")")];
    BeginsAt(tokens, i, shape, 1);
    if |items| == 1 {
      assert read + items == read + [items[0]];
    } else {
      var rest := items[1..];
      var first, more :=
        [ValueLexeme(fold, items[0]), Lexeme(Symbol, ",")], ItemLexemes(fold, rest) + [Lexeme(Symbol, ")")];
      assert shape == first + more;
      BeginsSplit(tokens, i, first, more);
      ListBack(fold, tokens, at, i + 2, rest, read + [items[0]]);
      assert read + [items[0]] + rest == read + items;
    }
  }

  lemma InBack(fold: Fold, tokens: seq<Token>, at: nat, items: seq<string>)
    requires Begins(tokens, at, [Lexeme(Symbol, "(")] + ItemLexemes(fold, items) + [Lexeme(Symbol, ")")])
    ensures items == [] ==> ReadValue(fold, tokens, at, In).BadValue?
    ensures items != [] ==>
      ReadValue(fold, tokens, at, In) == ValueRead(Some(Join(items, ",")), |ItemLexemes(fold, items)| + 2, false, false)
  {
    var open, rest := [Lexeme(Symbol, "(")], ItemLexemes(fold, items) + [Lexeme(Symbol, ")")];
    assert open + ItemLexemes(fold, items) + [Lexeme(Symbol, ")")] == open + rest;
    BeginsAt(tokens, at, open + rest, 0);
    BeginsAt(tokens, at, open + rest, 1);
    BeginsSplit(tokens, at, open, rest);
    if items != [] {
      ListBack(fold, tokens, at, at + 1, items, []);
      assert [] + items == items;
    }
  }

  lemma OneValueBack(fold: Fold, tokens: seq<Token>, at: nat, op: Op, value: string)
    requires NeedsValue(op) && op != In && Begins(tokens, at, [ValueLexeme(fold, value)])
    ensures ReadValue(fold, tokens, at, op) == ValueRead(Some(value), 1, false, false)
  {
    BeginsAt(tokens, at, [ValueLexeme(fold, value)], 0);
  }

  /** What printing makes of a rule's operator and value was read for `column`, up to token `next`. */
  ghost predicate RestRead(r: Result<(Rule, nat), ExprError>, column: string, rule: Rule, next: nat) {
    if rule.op == In && Items(rule.value) == [] then r.Err?
      else r == Ok((Rule(column, rule.op, CanonValue(rule)), next))
  }

  lemma OperandBack(fold: Fold, tokens: seq<Token>, at: nat, end: nat, column: string, rule: Rule)
    requires Begins(tokens, at, OperandLexemes(fold, rule))
    ensures at <= |tokens|
    ensures RestRead(ReadRest(fold, tokens, at, end, column, rule.op), column, rule, at + |OperandLexemes(fold, rule)|)
  {
    if rule.op == In {
      InBack(fold, tokens, at, Items(rule.value));
    } else if NeedsValue(rule.op) {
      OneValueBack(fold, tokens, at, rule.op, JsTrim(rule.value));
    }
  }

  /** What comes after an operator that was read. */
  lemma ConditionFrom(fold: Fold, tokens: seq<Token>, at: nat, end: nat, column: string, rule: Rule, used: nat,
    next: nat)
    requires at < |tokens| && at + used <= |tokens| &&
      ReadOperator(fold, tokens, at) == OperatorRead(Some(rule.op), used)
    requires RestRead(ReadRest(fold, tokens, at + used, end, column, rule.op), column, rule, next)
    ensures RestRead(ReadCondition(fold, tokens, at, end, column), column, rule, next)
  {
  }

  /** The rule was read as `back` says, up to token `next`. */
  ghost predicate RuleRead(r: Result<(Rule, nat), ExprError>, back: Option<Rule>, next: nat) {
    if back.None? then r.Err? else r.Ok? && r.value == (back.value, next)
  }

  lemma ColumnBack(fold: Fold, tokens: seq<Token>, at: nat, end: nat, columns: seq<string>, name: string)
    requires at < |tokens| && Has(tokens[at], NameLexeme(fold, name))
    ensures ReadRule(fold, tokens, at, end, columns) ==
      match Resolve(fold, columns, name)
      case None => Err(ExprError(NoSuchColumn, tokens[at].start, tokens[at].end))
      case Some(column) => ReadCondition(fold, tokens, at + 1, end, column)
  {
  }

  lemma BeginsThree(tokens: seq<Token>, at: nat, x: seq<Lexeme>, y: seq<Lexeme>, z: seq<Lexeme>)
    requires Begins(tokens, at, x + y + z)
    ensures Begins(tokens, at, x) && Begins(tokens, at + |x|, y) && Begins(tokens, at + |x| + |y|, z)
  {
    assert x + y + z == x + (y + z);
    BeginsSplit(tokens, at, x, y + z);
    BeginsSplit(tokens, at + |x|, y, z);
  }

  /** The name was seen and the rest of the rule read. */
  lemma PartsBack(fold: Fold, tokens: seq<Token>, at: nat, end: nat, columns: seq<string>, rule: Rule, used: nat,
    next: nat)
    requires at < |tokens| && Has(tokens[at], NameLexeme(fold, rule.column))
    requires at + 1 < |tokens| && at + 1 + used <= |tokens| &&
      ReadOperator(fold, tokens, at + 1) == OperatorRead(Some(rule.op), used)
    requires var column := Resolve(fold, columns, rule.column);
      column.Some? ==>
        RestRead(ReadRest(fold, tokens, at + 1 + used, end, column.value, rule.op), column.value, rule, next)
    ensures RuleRead(ReadRule(fold, tokens, at, end, columns), RuleBack(fold, columns, rule), next)
  {
    ColumnBack(fold, tokens, at, end, columns, rule.column);
    var column := Resolve(fold, columns, rule.column);
    if column.Some? {
      ConditionFrom(fold, tokens, at + 1, end, column.value, rule, used, next);
    }
  }

  /** The parts of a printed rule: a name, an operator, and what follows it up to `next`. */
  ghost predicate PartsAt(fold: Fold, tokens: seq<Token>, at: nat, rule: Rule, next: nat) {
    var used := |OpLexemes(rule.op)|;
    && next == at + 1 + used + |OperandLexemes(fold, rule)|
    && Begins(tokens, at, [NameLexeme(fold, rule.column)])
    && Begins(tokens, at + 1, OpLexemes(rule.op))
    && Begins(tokens, at + 1 + used, OperandLexemes(fold, rule))
  }

  lemma RuleParts(fold: Fold, tokens: seq<Token>, at: nat, rule: Rule)
    requires Begins(tokens, at, RuleLexemes(fold, rule))
    ensures PartsAt(fold, tokens, at, rule, at + |RuleLexemes(fold, rule)|)
  {
    BeginsThree(tokens, at, [NameLexeme(fold, rule.column)], OpLexemes(rule.op), OperandLexemes(fold, rule));
  }

  lemma RuleBackIs(fold: Fold, tokens: seq<Token>, at: nat, end: nat, columns: seq<string>, rule: Rule, next: nat)
    requires PartsAt(fold, tokens, at, rule, next)
    ensures at <= |tokens| && RuleRead(ReadRule(fold, tokens, at, end, columns), RuleBack(fold, columns, rule), next)
  {
    var used := |OpLexemes(rule.op)|;
    OperatorBack(fold, tokens, at + 1, rule.op);
    var column := Resolve(fold, columns, rule.column);
    if column.Some? {
      OperandBack(fold, tokens, at + 1 + used, end, column.value, rule);
    }
    PartsBack(fold, tokens, at, end, columns, rule, used, next);
  }

  // ------------------------------------------------------------------ the whole list

  lemma ConnectorBack(fold: Fold, t: Token, mode: FilterMode)
    requires t.kind == Word && t.text == ConnectorText(mode)
    ensures Connector(fold, t) == Some(mode)
  {
    FoldsToItself(fold, "and");
    FoldsToItself(fold, "or");
  }

  /** The parser's answer, given the rules read before: them and what comes back, or an error. */
  ghost predicate Agrees(r: ParseResult, back: Option<seq<Rule>>, read: seq<Rule>, mode: FilterMode) {
    match back case None => r.Failed? case Some(rules) => r == Parsed(read + rules, mode)
  }

  /** The tokens have these shapes, one after the other, with the connector between them. */
  ghost predicate Laid(fold: Fold, tokens: seq<Token>, at: nat, shapes: seq<seq<Lexeme>>, mode: FilterMode)
    decreases |shapes|
  {
    && shapes != [] && Begins(tokens, at, shapes[0])
    && var next := at + |shapes[0]|;
      if |shapes| == 1 then next == |tokens|
      else
        next < |tokens| && Connector(fold, tokens[next]) == Some(mode) &&
        Laid(fold, tokens, next + 1, shapes[1..], mode)
  }

  lemma JoinedSplit(fold: Fold, tokens: seq<Token>, at: nat, first: seq<Lexeme>, mode: FilterMode, rest: seq<Lexeme>)
    requires Begins(tokens, at, first + ([Lexeme(Word, ConnectorText(mode))] + rest))
    ensures var next := at + |first|;
      Begins(tokens, at, first) && next < |tokens| && Connector(fold, tokens[next]) == Some(mode) &&
        Begins(tokens, next + 1, rest)
  {
    var word := [Lexeme(Word, ConnectorText(mode))];
    BeginsSplit(tokens, at, first, word + rest);
    BeginsSplit(tokens, at + |first|, word, rest);
    ConnectorBack(fold, tokens[at + |first|], mode);
  }

  lemma {:induction false} PrintedLaid(fold: Fold, tokens: seq<Token>, at: nat, shapes: seq<seq<Lexeme>>,
    mode: FilterMode)
    requires shapes != [] && Begins(tokens, at, JoinShapes(shapes, mode)) && at + |JoinShapes(shapes, mode)| == |tokens|
    ensures Laid(fold, tokens, at, shapes, mode)
    decreases |shapes|
  {
    if |shapes| > 1 {
      JoinedSplit(fold, tokens, at, shapes[0], mode, JoinShapes(shapes[1..], mode));
      PrintedLaid(fold, tokens, at + |shapes[0]| + 1, shapes[1..], mode);
    }
  }

  /** One round of the parser: the rule, then what follows it. */
  lemma RuleThenRest(fold: Fold, tokens: seq<Token>, at: nat, next: nat, end: nat, columns: seq<string>,
    back: Option<Rule>, read: seq<Rule>, seen: Option<FilterMode>)
    requires at <= |tokens| && next <= |tokens| && RuleRead(ReadRule(fold, tokens, at, end, columns), back, next)
    ensures back.None? ==> ParseFrom(fold, tokens, at, end, columns, read, seen).Failed?
    ensures back.Some? ==>
      ParseFrom(fold, tokens, at, end, columns, read, seen) ==
        AfterRule(fold, tokens, next, end, columns, read + [back.value], seen)
  {
  }

  lemma ThenEnd(fold: Fold, tokens: seq<Token>, end: nat, columns: seq<string>, read: seq<Rule>,
    seen: Option<FilterMode>)
    ensures AfterRule(fold, tokens, |tokens|, end, columns, read, seen) ==
      Parsed(read, if seen.Some? then seen.value else All)
  {
  }

  lemma ThenConnector(fold: Fold, tokens: seq<Token>, next: nat, end: nat, columns: seq<string>, read: seq<Rule>,
    mode: FilterMode, seen: Option<FilterMode>)
    requires next < |tokens| && Connector(fold, tokens[next]) == Some(mode) && (seen.None? || seen == Some(mode))
    ensures AfterRule(fold, tokens, next, end, columns, read, seen) ==
      ParseFrom(fold, tokens, next + 1, end, columns, read, Some(mode))
  {
  }

  lemma AgreesCons(r: ParseResult, back: Option<Rule>, rest: Option<seq<Rule>>, read: seq<Rule>, mode: FilterMode)
    requires if back.Some? then Agrees(r, rest, read + [back.value], mode) else r.Failed?
    ensures Agrees(r, if back.Some? && rest.Some? then Some([back.value] + rest.value) else None, read, mode)
  {
    if back.Some? && rest.Some? {
      assert read + [back.value] + rest.value == read + ([back.value] + rest.value);
    }
  }

  /** What reading a rule at a token gives. */
  type Reader = nat -> Result<(Rule, nat), ExprError>

  /** The rules are read one after the other as `backs` says, the k-th taking |shapes[k]| tokens. */
  ghost predicate Steps(reader: Reader, fold: Fold, tokens: seq<Token>, at: nat, shapes: seq<seq<Lexeme>>,
    backs: seq<Option<Rule>>, mode: FilterMode)
    decreases |shapes|
  {
    && at <= |tokens| && shapes != [] && |backs| == |shapes|
    && RuleRead(reader(at), backs[0], at + |shapes[0]|)
    && var next := at + |shapes[0]|;
      if |shapes| == 1 then next == |tokens|
      else
        && next < |tokens| && Connector(fold, tokens[next]) == Some(mode)
        && Steps(reader, fold, tokens, next + 1, shapes[1..], backs[1..], mode)
  }

  /** Each shape, wherever it stands, is read as `backs` says. */
  ghost predicate EachRead(reader: Reader, tokens: seq<Token>, shapes: seq<seq<Lexeme>>, backs: seq<Option<Rule>>)
    decreases |shapes|
  {
    && |backs| == |shapes|
    && (shapes == [] ||
      (ShapeRead(reader, tokens, shapes[0], backs[0]) && EachRead(reader, tokens, shapes[1..], backs[1..])))
  }

  ghost predicate ShapeRead(reader: Reader, tokens: seq<Token>, shape: seq<Lexeme>, back: Option<Rule>) {
    forall at: nat :: Begins(tokens, at, shape) ==> RuleRead(reader(at), back, at + |shape|)
  }

  lemma {:induction false} LaidSteps(reader: Reader, fold: Fold, tokens: seq<Token>, at: nat, shapes: seq<seq<Lexeme>>,
    backs: seq<Option<Rule>>, mode: FilterMode)
    requires Laid(fold, tokens, at, shapes, mode) && EachRead(reader, tokens, shapes, backs)
    ensures Steps(reader, fold, tokens, at, shapes, backs, mode)
    decreases |shapes|
  {
    assert ShapeRead(reader, tokens, shapes[0], backs[0]);
    assert RuleRead(reader(at), backs[0], at + |shapes[0]|);
    if |shapes| > 1 {
      LaidSteps(reader, fold, tokens, at + |shapes[0]| + 1, shapes[1..], backs[1..], mode);
    }
  }

  lemma {:induction false} StepsParse(reader: Reader, fold: Fold, tokens: seq<Token>, at: nat, end: nat,
    columns: seq<string>,
      shapes: seq<seq<Lexeme>>, backs: seq<Option<Rule>>, read: seq<Rule>, mode: FilterMode, seen: Option<FilterMode>)
    requires forall i: nat :: i <= |tokens| ==> reader(i) == ReadRule(fold, tokens, i, end, columns)
    requires Steps(reader, fold, tokens, at, shapes, backs, mode) && (seen.None? || seen == Some(mode))
    ensures Agrees(ParseFrom(fold, tokens, at, end, columns, read, seen), AllSome(backs), read,
                   if |shapes| > 1 || seen.Some? then mode else All)
    decreases |shapes|
  {
    var back, next := backs[0], at + |shapes[0]|;
    var later := ParseFrom(fold, tokens, at, end, columns, read, seen);
    assert reader(at) == ReadRule(fold, tokens, at, end, columns);
    RuleThenRest(fold, tokens, at, next, end, columns, back, read, seen);
    if back.Some? {
      if |shapes| == 1 {
        ThenEnd(fold, tokens, end, columns, read + [back.value], seen);
        assert backs[1..] == [] && read + [back.value] + [] == read + [back.value];
      } else {
        ThenConnector(fold, tokens, next, end, columns, read + [back.value], mode, seen);
        StepsParse(reader, fold, tokens, next + 1, end, columns, shapes[1..], backs[1..], read + [back.value], mode,
          Some(mode));
      }
      AgreesCons(later, back, AllSome(backs[1..]), read, if |shapes| > 1 || seen.Some? then mode else All);
    }
  }

  lemma {:induction false} ShapesRead(reader: Reader, fold: Fold, tokens: seq<Token>, end: nat, columns: seq<string>,
    rules: seq<Rule>)
    requires forall i: nat :: i <= |tokens| ==> reader(i) == ReadRule(fold, tokens, i, end, columns)
    ensures EachRead(reader, tokens, RuleShapes(fold, rules), Backs(fold, columns, rules))
    decreases |rules|
  {
    if rules != [] {
      ShapesRead(reader, fold, tokens, end, columns, rules[1..]);
      RuleShapeRead(reader, fold, tokens, end, columns, rules[0]);
      EachReadCons(reader, tokens, RuleLexemes(fold, rules[0]), RuleBack(fold, columns, rules[0]),
                   RuleShapes(fold, rules[1..]), Backs(fold, columns, rules[1..]));
    }
  }

  lemma EachReadCons(reader: Reader, tokens: seq<Token>, shape: seq<Lexeme>, back: Option<Rule>,
    shapes: seq<seq<Lexeme>>, backs: seq<Option<Rule>>)
    requires ShapeRead(reader, tokens, shape, back) && EachRead(reader, tokens, shapes, backs)
    ensures EachRead(reader, tokens, [shape] + shapes, [back] + backs)
  {
    assert ([shape] + shapes)[1..] == shapes && ([back] + backs)[1..] == backs;
  }

  lemma RuleShapeRead(reader: Reader, fold: Fold, tokens: seq<Token>, end: nat, columns: seq<string>, rule: Rule)
    requires forall i: nat :: i <= |tokens| ==> reader(i) == ReadRule(fold, tokens, i, end, columns)
    ensures ShapeRead(reader, tokens, RuleLexemes(fold, rule), RuleBack(fold, columns, rule))
  {
    forall at: nat | Begins(tokens, at, RuleLexemes(fold, rule))
      ensures RuleRead(reader(at), RuleBack(fold, columns, rule), at + |RuleLexemes(fold, rule)|)
    {
      RuleParts(fold, tokens, at, rule);
      RuleBackIs(fold, tokens, at, end, columns, rule, at + |RuleLexemes(fold, rule)|);
    }
  }

  lemma PrintedBack(reader: Reader, fold: Fold, tokens: seq<Token>, end: nat, columns: seq<string>, rules: seq<Rule>,
    mode: FilterMode)
    requires forall i: nat :: i <= |tokens| ==> reader(i) == ReadRule(fold, tokens, i, end, columns)
    requires rules != [] && Laid(fold, tokens, 0, RuleShapes(fold, rules), mode)
    ensures Agrees(ParseFrom(fold, tokens, 0, end, columns, [], None), RulesBack(fold, columns, rules), [],
      if |rules| > 1 then mode else All)
  {
    var shapes, backs := RuleShapes(fold, rules), Backs(fold, columns, rules);
    ShapesRead(reader, fold, tokens, end, columns, rules);
    LaidSteps(reader, fold, tokens, 0, shapes, backs, mode);
    StepsParse(reader, fold, tokens, 0, end, columns, shapes, backs, [], mode, None);
  }

  lemma ParsePrinted(fold: Fold, tokens: seq<Token>, end: nat, columns: seq<string>, rules: seq<Rule>, mode: FilterMode)
    requires rules != [] && Laid(fold, tokens, 0, RuleShapes(fold, rules), mode)
    ensures Agrees(ParseFrom(fold, tokens, 0, end, columns, [], None), RulesBack(fold, columns, rules), [],
      if |rules| > 1 then mode else All)
  {
    var reader: Reader := (i: nat) =>
      if i <= |tokens| then ReadRule(fold, tokens, i, end, columns) else Err(ExprError(ExpectedColumn, 0, 0));
    PrintedBack(reader, fold, tokens, end, columns, rules, mode);
  }

  lemma ShapeLaid(fold: Fold, tokens: seq<Token>, shapes: seq<seq<Lexeme>>, mode: FilterMode)
    requires shapes != [] && Shape(tokens) == JoinShapes(shapes, mode)
    ensures Laid(fold, tokens, 0, shapes, mode)
  {
    assert Shape(tokens)[0..] == Shape(tokens);
    BeginsWhole(tokens, 0, JoinShapes(shapes, mode));
    PrintedLaid(fold, tokens, 0, shapes, mode);
  }

  /**
  Printing any rules and parsing the text gives exactly `RulesBack` of them: an error if one of
  them cannot be read back at all, else every rule with its column resolved and its value in
  canonical form. The mode survives when there is something to join.
  */
  lemma FormatThenParse(fold: Fold, columns: seq<string>, rules: seq<Rule>, mode: FilterMode)
    ensures Agrees(Parse(fold, FormatFilterExpr(fold, rules, mode), columns), RulesBack(fold, columns, rules), [],
                   if |rules| > 1 then mode else All)
  {
    var text := FormatFilterExpr(fold, rules, mode);
    PrintedTokens(fold, rules, mode);
    if rules == [] {
      assert [] + [] == RulesBack(fold, columns, rules).value;
    } else {
      var tokens := Tokenized(text).tokens;
      ShapeLaid(fold, tokens, RuleShapes(fold, rules), mode);
      assert RuleShapes(fold, rules)[0] == RuleLexemes(fold, rules[0]);
      LaidTokens(fold, tokens, RuleShapes(fold, rules), mode);
      ParsePrinted(fold, tokens, |text|, columns, rules, mode);
    }
  }

  lemma LaidTokens(fold: Fold, tokens: seq<Token>, shapes: seq<seq<Lexeme>>, mode: FilterMode)
    requires shapes != [] && shapes[0] != [] && Laid(fold, tokens, 0, shapes, mode)
    ensures tokens != []
  {
  }

  // ------------------------------------------------------------------ which rules survive unchanged

  /** The rule format can carry the rule as it is: a known column, and a value in canonical form. */
  predicate Expressible(columns: seq<string>, rule: Rule) {
    && rule.column in columns
    && (if !NeedsValue(rule.op) then rule.value == ""
        else if rule.op == In then AllItems(SplitCommas(rule.value))
        else JsTrim(rule.value) == rule.value)
  }

  predicate IsItem(piece: string) { piece != "" && JsTrim(piece) == piece }

  predicate AllItems(pieces: seq<string>) {
    pieces == [] || (IsItem(pieces[0]) && AllItems(pieces[1..]))
  }

  function Weight(pieces: seq<string>): nat {
    if pieces == [] then 0 else |pieces[0]| + 1 + Weight(pieces[1..])
  }

  lemma {:induction false} JoinWeight(pieces: seq<string>)
    requires pieces != []
    ensures |Join(pieces, ",")| + 1 == Weight(pieces)
  {
    if |pieces| > 1 {
      JoinWeight(pieces[1..]);
    } else {
      assert pieces[1..] == [];
    }
  }

  lemma {:induction false} JoinSplit(s: string)
    ensures Join(SplitCommas(s), ",") == s
  {
    if s != [] {
      var rest := SplitCommas(s[1..]);
      JoinSplit(s[1..]);
      assert s == [s[0]] + s[1..];
      if s[0] == ',' {
        assert ([""] + rest)[1..] == rest;
      } else {
        var first := [s[0]] + rest[0];
        assert ([first] + rest[1..])[1..] == rest[1..];
      }
    }
  }

  lemma {:induction false} CleanedWeight(pieces: seq<string>)
    ensures Weight(Cleaned(pieces)) <= Weight(pieces)
    ensures Weight(Cleaned(pieces)) == Weight(pieces) <==> AllItems(pieces)
    ensures AllItems(pieces) ==> Cleaned(pieces) == pieces
  {
    if pieces != [] {
      var t, rest := JsTrim(pieces[0]), Cleaned(pieces[1..]);
      CleanedWeight(pieces[1..]);
      TrimShorter(pieces[0]);
      if t == "" {
        assert Cleaned(pieces) == rest;
      } else {
        assert Cleaned(pieces) == [t] + rest && ([t] + rest)[1..] == rest;
        assert Weight(Cleaned(pieces)) == |t| + 1 + Weight(rest);
        assert IsItem(pieces[0]) <==> |t| == |pieces[0]|;
      }
    }
  }

  /** A list value survives exactly when it is a non-empty comma list of trimmed, non-empty items. */
  lemma ListSurvives(value: string)
    ensures Items(value) != [] && Join(Items(value), ",") == value <==> AllItems(SplitCommas(value))
  {
    var pieces := SplitCommas(value);
    CleanedWeight(pieces);
    JoinSplit(value);
    JoinWeight(pieces);
    if Items(value) != [] {
      JoinWeight(Items(value));
    }
  }

  lemma RuleSurvives(fold: Fold, columns: seq<string>, rule: Rule)
    ensures RuleBack(fold, columns, rule) == Some(rule) <==> Expressible(columns, rule)
  {
    ResolveIsColumn(fold, columns, rule.column);
    if rule.op == In {
      ListSurvives(rule.value);
    }
  }

  lemma {:induction false} RulesSurvive(fold: Fold, columns: seq<string>, rules: seq<Rule>)
    ensures RulesBack(fold, columns, rules) == Some(rules) <==> forall k ::
      0 <= k < |rules| ==> Expressible(columns, rules[k])
  {
    if rules != [] {
      var rest := rules[1..];
      RulesSurvive(fold, columns, rest);
      RuleSurvives(fold, columns, rules[0]);
      assert rules == [rules[0]] + rest;
      assert forall k :: 0 <= k < |rest| ==> rest[k] == rules[k + 1];
      if Expressible(columns, rules[0]) && forall k :: 0 <= k < |rest| ==> Expressible(columns, rest[k]) {
        forall k | 0 <= k < |rules| ensures Expressible(columns, rules[k]) {
          if k > 0 {
            assert rest[k - 1] == rules[k];
          }
        }
      }
    }
  }

  /**
  The round trip, exactly: the text printed for some rules parses back to the very same rules
  if and only if every one of them is expressible. Quotes, keywords and `null` in names and
  values make no difference.
  */
  lemma RoundTrip(fold: Fold, columns: seq<string>, rules: seq<Rule>, mode: FilterMode)
    ensures var parsed := Parsed(rules, if |rules| > 1 then mode else All);
      Parse(fold, FormatFilterExpr(fold, rules, mode), columns) == parsed <==>
      forall k :: 0 <= k < |rules| ==> Expressible(columns, rules[k])
  {
    FormatThenParse(fold, columns, rules, mode);
    RulesSurvive(fold, columns, rules);
    var back := RulesBack(fold, columns, rules);
    if back.Some? {
      assert [] + back.value == back.value;
    }
  }
}
