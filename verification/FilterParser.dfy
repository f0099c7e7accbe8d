/**
The typed filter language, second half: tokens to rules (src/lib/filterExpr.ts). Lower-casing is
a parameter of which only the ASCII part is known.
*/
module FilterParser {
  import opened Prelude
  import opened Text
  import opened FilterTokens

  datatype Op = Eq | Ne | Gt | Gte | Lt | Lte | Contains | NotContains | StartsWith | EndsWith | In | IsNull | IsNotNull

  datatype Rule = Rule(column: string, op: Op, value: string)

  datatype FilterMode = All | Any

  datatype ParseResult = Parsed(rules: seq<Rule>, mode: FilterMode) | Failed(error: ExprError)

  ghost predicate FoldTable(f: string -> string) {
    forall s {:trigger IsAscii(s)} :: IsAscii(s) ==> f(s) == AsciiLower(s)
  }

  /** JavaScript's `toLowerCase`, known only on ASCII text. */
  type Fold = f: string -> string | FoldTable(f) witness (s: string) => AsciiLower(s)

  predicate NeedsValue(op: Op) { op != IsNull && op != IsNotNull }

  predicate WordIs(fold: Fold, t: Token, word: string) {
    t.kind == Word && fold(t.text) == word
  }

  function SymbolOp(text: string): Option<Op> {
    if text == "=" || text == "==" then Some(Eq)
    else if text == "!=" || text == "<>" then Some(Ne)
    else if text == ">" then Some(Gt)
    else if text == ">=" then Some(Gte)
    else if text == "<" then Some(Lt)
    else if text == "<=" then Some(Lte)
    else None
  }

  // ------------------------------------------------------------------ columns

  function FindExact(columns: seq<string>, name: string): Option<string> {
    if name in columns then Some(name) else None
  }

  function FindFolded(fold: Fold, columns: seq<string>, lower: string): Option<string> {
    if columns == [] then None
    else if fold(columns[0]) == lower then Some(columns[0])
    else FindFolded(fold, columns[1..], lower)
  }

  /** The real column a typed name stands for: exact, then ignoring case. */
  function Resolve(fold: Fold, columns: seq<string>, name: string): Option<string> {
    var exact := FindExact(columns, name);
    if exact.Some? then exact else FindFolded(fold, columns, fold(name))
  }

  lemma {:induction false} FoldedIsColumn(fold: Fold, columns: seq<string>, lower: string)
    ensures FindFolded(fold, columns, lower).Some? ==> FindFolded(fold, columns, lower).value in columns
  {
    if columns != [] {
      FoldedIsColumn(fold, columns[1..], lower);
    }
  }

  /** A name resolves to itself exactly when it is a column; what anything else resolves to is another column. */
  lemma ResolveIsColumn(fold: Fold, columns: seq<string>, name: string)
    ensures Resolve(fold, columns, name) == Some(name) <==> name in columns
    ensures Resolve(fold, columns, name).Some? ==> Resolve(fold, columns, name).value in columns
  {
    FoldedIsColumn(fold, columns, fold(name));
  }

  // ------------------------------------------------------------------ operators

  /** `used` counts the operator's words, also when it is only half typed (`op` is None then). */
  datatype OperatorRead = OperatorRead(op: Option<Op>, used: nat) | BadOperator(error: ExprError)

  function TwoWords(fold: Fold, tokens: seq<Token>, at: nat, word: string, op: Op): OperatorRead
    requires at < |tokens|
  {
    if at + 1 >= |tokens| then OperatorRead(None, 1)
    else if WordIs(fold, tokens[at + 1], word) then OperatorRead(Some(op), 2)
    else BadOperator(ExprError(NotAnOperator, tokens[at].start, tokens[at + 1].end))
  }

  function IsOperator(fold: Fold, tokens: seq<Token>, at: nat): OperatorRead
    requires at < |tokens|
  {
    if at + 1 >= |tokens| then OperatorRead(None, 1)
    else if WordIs(fold, tokens[at + 1], "null") then OperatorRead(Some(IsNull), 2)
    else if WordIs(fold, tokens[at + 1], "not") && at + 2 >= |tokens| then OperatorRead(None, 2)
    else if WordIs(fold, tokens[at + 1], "not") && WordIs(fold, tokens[at + 2], "null")
      then OperatorRead(Some(IsNotNull), 3)
    else BadOperator(ExprError(NotAnOperator, tokens[at].start,
      tokens[if at + 2 < |tokens| then at + 2 else at + 1].end))
  }

  function ReadOperator(fold: Fold, tokens: seq<Token>, at: nat): OperatorRead
    requires at < |tokens|
  {
    var first := tokens[at];
    var bad := BadOperator(ExprError(NotAnOperator, first.start, first.end));
    if first.kind == Symbol then
      (match SymbolOp(first.text) case Some(op) => OperatorRead(Some(op), 1) case None => bad)
    else if first.kind != Word then BadOperator(ExprError(ExpectedOperator, first.start, first.end))
    else
      var word := fold(first.text);
      if word == "contains" then OperatorRead(Some(Contains), 1)
      else if word == "not" then TwoWords(fold, tokens, at, "contains", NotContains)
      else if word == "startswith" then OperatorRead(Some(StartsWith), 1)
      else if word == "starts" then TwoWords(fold, tokens, at, "with", StartsWith)
      else if word == "endswith" then OperatorRead(Some(EndsWith), 1)
      else if word == "ends" then TwoWords(fold, tokens, at, "with", EndsWith)
      else if word == "in" then OperatorRead(Some(In), 1)
      else if word == "is" then IsOperator(fold, tokens, at)
      else bad
  }

  lemma OperatorUses(fold: Fold, tokens: seq<Token>, at: nat)
    requires at < |tokens|
    ensures var r := ReadOperator(fold, tokens, at); r.OperatorRead? ==> 0 < r.used && at + r.used <= |tokens|
  {
  }

  // ------------------------------------------------------------------ values

  /** `open`: the list was not closed. `bareNull`: the value was the word `null`, without quotes. */
  datatype ValueRead =
    | ValueRead(value: Option<string>, used: nat, open: bool, bareNull: bool)
    | BadValue(error: ExprError)

  function Join(items: seq<string>, separator: string): string {
    if items == [] then ""
    else if |items| == 1 then items[0]
    else items[0] + separator + Join(items[1..], separator)
  }

  /** The rest of an `in` list from token `i`, with `items` read so far; `at` is where the value began. */
  function ReadList(tokens: seq<Token>, at: nat, i: nat, paren: bool, items: seq<string>): ValueRead
    requires at <= i <= |tokens|
    decreases |tokens| - i
  {
    if i == |tokens| then ValueRead(Some(Join(items, ",")), i - at, true, false)
    else if tokens[i].kind == Symbol then BadValue(ExprError(ExpectedItem, tokens[i].start, tokens[i].end))
    else
      var read := items + [tokens[i].text];
      var next := i + 1;
      if next < |tokens| && tokens[next].kind == Symbol && tokens[next].text == ","
        then ReadList(tokens, at, next + 1, paren, read)
      else if !paren then ValueRead(Some(Join(read, ",")), next - at, false, false)
      else if next == |tokens| then ValueRead(Some(Join(read, ",")), next - at, true, false)
      else if tokens[next].kind == Symbol && tokens[next].text == ")"
        then ValueRead(Some(Join(read, ",")), next + 1 - at, false, false)
      else BadValue(ExprError(ExpectedCommaOrClose, tokens[next].start, tokens[next].end))
  }

  function ReadValue(fold: Fold, tokens: seq<Token>, at: nat, op: Op): ValueRead {
    if at >= |tokens| then ValueRead(None, 0, false, false)
    else if op != In then
      if tokens[at].kind == Symbol then BadValue(ExprError(ExpectedValue, tokens[at].start, tokens[at].end))
      else ValueRead(Some(tokens[at].text), 1, false, WordIs(fold, tokens[at], "null"))
    else
      var paren := tokens[at].kind == Symbol && tokens[at].text == "(";
      ReadList(tokens, at, if paren then at + 1 else at, paren, [])
  }

  lemma {:induction false} ListUses(tokens: seq<Token>, at: nat, i: nat, paren: bool, items: seq<string>)
    requires at <= i <= |tokens|
    ensures var r := ReadList(tokens, at, i, paren, items);
      && (r.ValueRead? ==>
        r.value.Some? && !r.bareNull && at + r.used <= |tokens| && (i > at || i < |tokens| ==> r.used > 0))
      && (r.BadValue? ==> exists k ::
        i <= k < |tokens| && tokens[k].start == r.error.start && tokens[k].end == r.error.end)
    decreases |tokens| - i
  {
    if i < |tokens| && tokens[i].kind != Symbol {
      var next := i + 1;
      if next < |tokens| && tokens[next].kind == Symbol && tokens[next].text == "," {
        ListUses(tokens, at, next + 1, paren, items + [tokens[i].text]);
      }
    }
  }

  lemma ValueUses(fold: Fold, tokens: seq<Token>, at: nat, op: Op)
    requires at <= |tokens|
    ensures var r := ReadValue(fold, tokens, at, op);
      && (r.ValueRead? ==> at + r.used <= |tokens|)
      && (r.BadValue? ==> exists k ::
        at <= k < |tokens| && tokens[k].start == r.error.start && tokens[k].end == r.error.end)
  {
    if at < |tokens| && op == In {
      var paren := tokens[at].kind == Symbol && tokens[at].text == "(";
      ListUses(tokens, at, if paren then at + 1 else at, paren, []);
    }
  }

  // ------------------------------------------------------------------ rules

  /** One rule read from token `at`, and the token after it. */
  function ReadRule(fold: Fold, tokens: seq<Token>, at: nat, end: nat,
    columns: seq<string>): (r: Result<(Rule, nat), ExprError>)
    requires at <= |tokens|
    ensures r.Ok? ==> at < r.value.1 <= |tokens|
  {
    if at == |tokens| || tokens[at].kind == Symbol || tokens[at].kind == Str then
      Err(if at == |tokens| then ExprError(ExpectedColumn, end, end)
        else ExprError(ExpectedColumn, tokens[at].start, tokens[at].end))
    else
      match Resolve(fold, columns, tokens[at].text)
      case None => Err(ExprError(NoSuchColumn, tokens[at].start, tokens[at].end))
      case Some(column) => ReadCondition(fold, tokens, at + 1, end, column)
  }

  /** The operator at token `at` and what follows it. */
  function ReadCondition(fold: Fold, tokens: seq<Token>, at: nat, end: nat,
    column: string): (r: Result<(Rule, nat), ExprError>)
    requires at <= |tokens|
    ensures r.Ok? ==> at < r.value.1 <= |tokens|
  {
    if at == |tokens| then Err(ExprError(ExpectedOperator, end, end))
    else
      OperatorUses(fold, tokens, at);
      match ReadOperator(fold, tokens, at)
      case BadOperator(error) => Err(error)
      case OperatorRead(None, _) => Err(ExprError(UnfinishedOperator, end, end))
      case OperatorRead(Some(op), used) => ReadRest(fold, tokens, at + used, end, column, op)
  }

  /** The value the operator needs, read from token `at`. */
  function ReadRest(fold: Fold, tokens: seq<Token>, at: nat, end: nat, column: string,
    op: Op): (r: Result<(Rule, nat), ExprError>)
    requires at <= |tokens|
    ensures r.Ok? ==> at <= r.value.1 <= |tokens|
  {
    if !NeedsValue(op) then Ok((Rule(column, op, ""), at))
    else
      ValueUses(fold, tokens, at, op);
      match ReadValue(fold, tokens, at, op)
      case BadValue(error) => Err(error)
      case ValueRead(value, used, open, bareNull) =>
        if value.None? || open then
          Err(ExprError(
            if open then UnclosedList else ExpectedValue,
            if at < |tokens| then tokens[at].start else end,
            end))
        else if bareNull && (op == Eq || op == Ne)
          then Ok((Rule(column, if op == Eq then IsNull else IsNotNull, ""), at + used))
        else Ok((Rule(column, op, value.value), at + used))
  }

  function Connector(fold: Fold, t: Token): Option<FilterMode> {
    if WordIs(fold, t, "and") then Some(All) else if WordIs(fold, t, "or") then Some(Any) else None
  }

  function ParseFrom(fold: Fold, tokens: seq<Token>, at: nat, end: nat, columns: seq<string>, rules: seq<Rule>,
    mode: Option<FilterMode>): ParseResult
    requires at <= |tokens|
    decreases |tokens| - at, 1
  {
    match ReadRule(fold, tokens, at, end, columns)
    case Err(error) => Failed(error)
    case Ok((rule, next)) => AfterRule(fold, tokens, next, end, columns, rules + [rule], mode)
  }

  /** What the parser does once a rule has been read up to token `next`. */
  function AfterRule(fold: Fold, tokens: seq<Token>, next: nat, end: nat, columns: seq<string>, read: seq<Rule>,
    mode: Option<FilterMode>): ParseResult
    requires next <= |tokens|
    decreases |tokens| - next, 0
  {
    if next == |tokens| then Parsed(read, if mode.Some? then mode.value else All)
    else
      var t := tokens[next];
      match Connector(fold, t)
      case None => Failed(ExprError(ExpectedConnector, t.start, t.end))
      case Some(kind) =>
        if mode.Some? && mode.value != kind then Failed(ExprError(MixedConnectors, t.start, t.end))
        else ParseFrom(fold, tokens, next + 1, end, columns, read, Some(kind))
  }

  function Parse(fold: Fold, source: string, columns: seq<string>): ParseResult {
    var scanned := Tokenized(source);
    if scanned.error.Some? then Failed(scanned.error.value)
    else if scanned.tokens == [] then Parsed([], All)
    else ParseFrom(fold, scanned.tokens, 0, |source|, columns, [], None)
  }

  // ------------------------------------------------------------------ errors point into the text

  ghost predicate Inside(e: ExprError, end: nat) { e.start <= e.end <= end }

  lemma OperatorErrorInside(fold: Fold, tokens: seq<Token>, at: nat, end: nat)
    requires at < |tokens| && Placed(tokens, 0, end)
    ensures ReadOperator(fold, tokens, at).BadOperator? ==> Inside(ReadOperator(fold, tokens, at).error, end)
  {
  }

  lemma RestErrorInside(fold: Fold, tokens: seq<Token>, at: nat, end: nat, column: string, op: Op)
    requires at <= |tokens| && Placed(tokens, 0, end)
    ensures ReadRest(fold, tokens, at, end, column, op).Err? ==>
      Inside(ReadRest(fold, tokens, at, end, column, op).error, end)
  {
    ValueUses(fold, tokens, at, op);
  }

  lemma ConditionErrorInside(fold: Fold, tokens: seq<Token>, at: nat, end: nat, column: string)
    requires at <= |tokens| && Placed(tokens, 0, end)
    ensures ReadCondition(fold, tokens, at, end, column).Err? ==>
      Inside(ReadCondition(fold, tokens, at, end, column).error, end)
  {
    if at < |tokens| {
      OperatorErrorInside(fold, tokens, at, end);
      OperatorUses(fold, tokens, at);
      var r := ReadOperator(fold, tokens, at);
      if r.OperatorRead? && r.op.Some? {
        RestErrorInside(fold, tokens, at + r.used, end, column, r.op.value);
      }
    }
  }

  lemma RuleErrorInside(fold: Fold, tokens: seq<Token>, at: nat, end: nat, columns: seq<string>)
    requires at <= |tokens| && Placed(tokens, 0, end)
    ensures ReadRule(fold, tokens, at, end, columns).Err? ==>
      Inside(ReadRule(fold, tokens, at, end, columns).error, end)
  {
    if at < |tokens| && Resolve(fold, columns, tokens[at].text).Some? {
      ConditionErrorInside(fold, tokens, at + 1, end, Resolve(fold, columns, tokens[at].text).value);
    }
  }

  ghost predicate ResultInside(r: ParseResult, end: nat) { r.Failed? ==> Inside(r.error, end) }

  lemma {:induction false} ParseErrorInside(fold: Fold, tokens: seq<Token>, at: nat, end: nat, columns: seq<string>,
    rules: seq<Rule>, mode: Option<FilterMode>)
    requires at <= |tokens| && Placed(tokens, 0, end)
    ensures ResultInside(ParseFrom(fold, tokens, at, end, columns, rules, mode), end)
    decreases |tokens| - at, 1
  {
    RuleErrorInside(fold, tokens, at, end, columns);
    var r := ReadRule(fold, tokens, at, end, columns);
    if r.Ok? {
      AfterRuleInside(fold, tokens, r.value.1, end, columns, rules + [r.value.0], mode);
    }
  }

  lemma {:induction false} AfterRuleInside(fold: Fold, tokens: seq<Token>, next: nat, end: nat, columns: seq<string>,
    read: seq<Rule>, mode: Option<FilterMode>)
    requires next <= |tokens| && Placed(tokens, 0, end)
    ensures ResultInside(AfterRule(fold, tokens, next, end, columns, read, mode), end)
    decreases |tokens| - next, 0
  {
    if next < |tokens| {
      var kind := Connector(fold, tokens[next]);
      if kind.Some? && (mode.None? || mode == kind) {
        ParseErrorInside(fold, tokens, next + 1, end, columns, read, kind);
      }
    }
  }

  /** Whatever is typed, an error's span lies inside the text. */
  lemma ErrorsPointInside(fold: Fold, source: string, columns: seq<string>)
    ensures Parse(fold, source, columns).Failed? ==> Inside(Parse(fold, source, columns).error, |source|)
  {
    ScanPlaced(source, 0);
    ParseErrorInside(fold, Tokenized(source).tokens, 0, |source|, columns, [], None);
  }

  // ------------------------------------------------------------------ as the source computes it

  method ReadListItems(tokens: seq<Token>, at: nat, from: nat, paren: bool) returns (r: ValueRead)
    requires at <= from <= |tokens|
    ensures r == ReadList(tokens, at, from, paren, [])
  {
    var i := from;
    var items: seq<string> := [];
    while i < |tokens|
      invariant from <= i <= |tokens|
      invariant ReadList(tokens, at, from, paren, []) == ReadList(tokens, at, i, paren, items)
    {
      if tokens[i].kind == Symbol {
        return BadValue(ExprError(ExpectedItem, tokens[i].start, tokens[i].end));
      }
      items := items + [tokens[i].text];
      i := i + 1;
      if i < |tokens| && tokens[i].kind == Symbol && tokens[i].text == "," {
        i := i + 1;
        continue;
      }
      if !paren || i == |tokens| {
        return ValueRead(Some(Join(items, ",")), i - at, paren, false);
      }
      if tokens[i].kind == Symbol && tokens[i].text == ")" {
        return ValueRead(Some(Join(items, ",")), i + 1 - at, false, false);
      }
      return BadValue(ExprError(ExpectedCommaOrClose, tokens[i].start, tokens[i].end));
    }
    r := ValueRead(Some(Join(items, ",")), i - at, true, false);
  }

  method ParseFilterExpr(fold: Fold, source: string, columns: seq<string>) returns (r: ParseResult)
    ensures r == Parse(fold, source, columns)
  {
    var scanned := Tokenize(source);
    if scanned.error.Some? {
      return Failed(scanned.error.value);
    }
    var tokens := scanned.tokens;
    if tokens == [] {
      return Parsed([], All);
    }
    var rules: seq<Rule> := [];
    var mode: Option<FilterMode> := None;
    var at := 0;
    while true
      invariant at <= |tokens|
      invariant Parse(fold, source, columns) == ParseFrom(fold, tokens, at, |source|, columns, rules, mode)
      decreases |tokens| - at
    {
      var rule := ReadRule(fold, tokens, at, |source|, columns);
      if rule.Err? {
        return Failed(rule.error);
      }
      rules := rules + [rule.value.0];
      at := rule.value.1;
      if at == |tokens| {
        break;
      }
      var kind := Connector(fold, tokens[at]);
      if kind.None? {
        return Failed(ExprError(ExpectedConnector, tokens[at].start, tokens[at].end));
      }
      if mode.Some? && mode != kind {
        return Failed(ExprError(MixedConnectors, tokens[at].start, tokens[at].end));
      }
      mode := kind;
      at := at + 1;
    }
    r := Parsed(rules, if mode.Some? then mode.value else All);
  }
}
