/**
Filter rules printed as text the filter bar accepts (`formatName`, `formatValue`,
`formatFilterExpr` of src/lib/filterExpr.ts), and what the tokenizer makes of that text.
*/
module FilterPrinter {
  import opened Prelude
  import opened Text
  import opened FilterTokens
  import opened FilterParser

  const KEYWORDS: set<string> := {"and", "or", "not", "in", "is", "null", "contains", "starts", "ends", "with", "like"}

  predicate BareName(s: string) {
    s != [] && (IsAsciiAlpha(s[0]) || s[0] == '_') && forall k :: 1 <= k < |s| ==> IsWordChar(s[k]) || s[k] == '$'
  }

  predicate BareValue(s: string) {
    || Decimal(s)
    || (s != [] && s[0] == '-' && Decimal(s[1..]))
    || (s != [] && (IsAsciiAlpha(s[0]) || s[0] == '_')
        && forall k :: 1 <= k < |s| ==> IsWordChar(s[k]) || s[k] == '@' || s[k] == '.' || s[k] == ':' || s[k] == '-')
  }

  predicate NameIsBare(fold: Fold, name: string) { BareName(name) && fold(name) !in KEYWORDS }

  predicate ValueIsBare(fold: Fold, value: string) { BareValue(value) && fold(value) !in KEYWORDS }

  function FormatName(fold: Fold, name: string): string {
    if NameIsBare(fold, name) then name else InQuotes(name, '"')
  }

  function FormatValue(fold: Fold, value: string): string {
    if ValueIsBare(fold, value) then value else InQuotes(value, '\'')
  }

  function OpText(op: Op): string {
    match op
    case Eq => "="
    case Ne => "!="
    case Gt => ">"
    case Gte => ">="
    case Lt => "<"
    case Lte => "<="
    case Contains => "contains"
    case NotContains => "not contains"
    case StartsWith => "starts with"
    case EndsWith => "ends with"
    case In => "in"
    case IsNull => "is null"
    case IsNotNull => "is not null"
  }

  // ------------------------------------------------------------------ the items of a list value

  /** `split(",")`. */
  function SplitCommas(s: string): (r: seq<string>)
    ensures r != []
  {
    if s == [] then [""]
    else
      var rest := SplitCommas(s[1..]);
      if s[0] == ',' then [""] + rest else [[s[0]] + rest[0]] + rest[1..]
  }

  /** The pieces trimmed, the empty ones dropped. */
  function Cleaned(pieces: seq<string>): seq<string> {
    if pieces == [] then []
    else
      var t := JsTrim(pieces[0]);
      (if t == "" then [] else [t]) + Cleaned(pieces[1..])
  }

  function Items(value: string): seq<string> { Cleaned(SplitCommas(value)) }

  // ------------------------------------------------------------------ rules as text

  function FormatItems(fold: Fold, items: seq<string>): string {
    if items == [] then ""
    else if |items| == 1 then FormatValue(fold, items[0])
    else FormatValue(fold, items[0]) + ", " + FormatItems(fold, items[1..])
  }

  /** What follows the operator. */
  function FormatOperand(fold: Fold, rule: Rule): string {
    if !NeedsValue(rule.op) then ""
    else if rule.op == In then " (" + FormatItems(fold, Items(rule.value)) + ")"
    else " " + FormatValue(fold, JsTrim(rule.value))
  }

  function FormatRule(fold: Fold, rule: Rule): string {
    FormatName(fold, rule.column) + " " + OpText(rule.op) + FormatOperand(fold, rule)
  }

  function ConnectorText(mode: FilterMode): string { if mode == Any then "or" else "and" }

  function FormatFilterExpr(fold: Fold, rules: seq<Rule>, mode: FilterMode): string {
    if rules == [] then ""
    else if |rules| == 1 then FormatRule(fold, rules[0])
    else FormatRule(fold, rules[0]) + (" " + ConnectorText(mode) + " " + FormatFilterExpr(fold, rules[1..], mode))
  }

  // ------------------------------------------------------------------ the tokens of printed text

  function NameLexeme(fold: Fold, name: string): Lexeme {
    Lexeme(if NameIsBare(fold, name) then Word else Ident, name)
  }

  function ValueLexeme(fold: Fold, value: string): Lexeme {
    Lexeme(if ValueIsBare(fold, value) then Word else Str, value)
  }

  function OpLexemes(op: Op): seq<Lexeme> {
    match op
    case Contains => [Lexeme(Word, "contains")]
    case NotContains => [Lexeme(Word, "not"), Lexeme(Word, "contains")]
    case StartsWith => [Lexeme(Word, "starts"), Lexeme(Word, "with")]
    case EndsWith => [Lexeme(Word, "ends"), Lexeme(Word, "with")]
    case In => [Lexeme(Word, "in")]
    case IsNull => [Lexeme(Word, "is"), Lexeme(Word, "null")]
    case IsNotNull => [Lexeme(Word, "is"), Lexeme(Word, "not"), Lexeme(Word, "null")]
    case _ => [Lexeme(Symbol, OpText(op))]
  }

  function ItemLexemes(fold: Fold, items: seq<string>): seq<Lexeme> {
    if items == [] then []
    else if |items| == 1 then [ValueLexeme(fold, items[0])]
    else [ValueLexeme(fold, items[0]), Lexeme(Symbol, ",")] + ItemLexemes(fold, items[1..])
  }

  function OperandLexemes(fold: Fold, rule: Rule): seq<Lexeme> {
    if !NeedsValue(rule.op) then []
    else if rule.op == In then [Lexeme(Symbol, "(")] + ItemLexemes(fold, Items(rule.value)) + [Lexeme(Symbol, ")")]
    else [ValueLexeme(fold, JsTrim(rule.value))]
  }

  function RuleLexemes(fold: Fold, rule: Rule): seq<Lexeme> {
    [NameLexeme(fold, rule.column)] + OpLexemes(rule.op) + OperandLexemes(fold, rule)
  }

  function RuleShapes(fold: Fold, rules: seq<Rule>): (r: seq<seq<Lexeme>>)
    ensures |r| == |rules|
  {
    if rules == [] then [] else [RuleLexemes(fold, rules[0])] + RuleShapes(fold, rules[1..])
  }

  function JoinShapes(shapes: seq<seq<Lexeme>>, mode: FilterMode): seq<Lexeme> {
    if shapes == [] then []
    else if |shapes| == 1 then shapes[0]
    else shapes[0] + ([Lexeme(Word, ConnectorText(mode))] + JoinShapes(shapes[1..], mode))
  }

  /** `text` in front of `rest` is read as the lexemes `shape` in front of what `rest` gives. */
  ghost predicate ReadsAs(text: string, shape: seq<Lexeme>, rest: string) {
    Lexed(text + rest) == Prepend(shape, Lexed(rest))
  }

  lemma ReadsAsThen(a: string, x: seq<Lexeme>, b: string, y: seq<Lexeme>, rest: string)
    requires ReadsAs(a, x, b + rest) && ReadsAs(b, y, rest)
    ensures ReadsAs(a + b, x + y, rest)
  {
    assert a + b + rest == a + (b + rest);
    PrependTwice(x, y, Lexed(rest));
  }

  lemma PrependTwice(x: seq<Lexeme>, y: seq<Lexeme>, rest: Option<seq<Lexeme>>)
    ensures Prepend(x, Prepend(y, rest)) == Prepend(x + y, rest)
    ensures Prepend([], rest) == rest
  {
    if rest.Some? {
      assert x + (y + rest.value) == (x + y) + rest.value;
      assert [] + rest.value == rest.value;
    }
  }

  lemma SpaceThen(b: string, y: seq<Lexeme>, rest: string)
    requires ReadsAs(b, y, rest)
    ensures ReadsAs(" " + b, y, rest)
  {
    assert " " + b + rest == " " + (b + rest);
    LexedSpace(b + rest);
  }

  lemma NothingReads(rest: string)
    ensures ReadsAs("", [], rest)
  {
    assert "" + rest == rest;
    PrependTwice([], [], Lexed(rest));
  }

  /** After a printed lexeme comes the end, white space, or a symbol. */
  predicate Parted(rest: string) {
    rest == [] || rest[0] == ' ' || rest[0] == ',' || rest[0] == ')'
  }

  // ------------------------------------------------------------------ each part of a rule

  lemma DecimalHasNoStop(s: string)
    requires Decimal(s)
    ensures s != [] && forall k :: 0 <= k < |s| ==> !IsStop(s[k]) && s[k] as int < 128
  {
    if !Digits(s) {
      var k :| 0 < k < |s| && s[k] == '.' && Digits(s[..k]) && Digits(s[k + 1..]);
      forall j | 0 <= j < |s| ensures !IsStop(s[j]) && s[j] as int < 128 {
        if j < k {
          assert s[j] == s[..k][j];
        } else if j > k {
          assert s[j] == s[k + 1..][j - k - 1];
        }
      }
    }
  }

  lemma BareHasNoStop(s: string)
    requires BareName(s) || BareValue(s)
    ensures s != [] && IsAscii(s) && forall k :: 0 <= k < |s| ==> !IsStop(s[k])
  {
    if Decimal(s) {
      DecimalHasNoStop(s);
    } else if s[0] == '-' {
      DecimalHasNoStop(s[1..]);
      forall j | 0 <= j < |s| ensures !IsStop(s[j]) && s[j] as int < 128 {
        if j > 0 {
          assert s[j] == s[1..][j - 1];
        }
      }
    }
  }

  lemma NameReads(fold: Fold, name: string, rest: string)
    requires Parted(rest)
    ensures ReadsAs(FormatName(fold, name), [NameLexeme(fold, name)], rest)
  {
    if NameIsBare(fold, name) {
      BareHasNoStop(name);
      LexedWord(name, rest);
    } else {
      LexedQuoted(name, '"', rest);
    }
  }

  lemma ValueReads(fold: Fold, value: string, rest: string)
    requires Parted(rest)
    ensures ReadsAs(FormatValue(fold, value), [ValueLexeme(fold, value)], rest)
  {
    if ValueIsBare(fold, value) {
      BareHasNoStop(value);
      LexedWord(value, rest);
    } else {
      LexedQuoted(value, '\'', rest);
    }
  }

  lemma TwoWordsRead(a: string, b: string, y: seq<Lexeme>, rest: string)
    requires a != [] && forall k :: 0 <= k < |a| ==> !IsStop(a[k])
    requires ReadsAs(b, y, rest)
    ensures ReadsAs(a + " " + b, [Lexeme(Word, a)] + y, rest)
  {
    SpaceThen(b, y, rest);
    LexedWord(a, " " + b + rest);
    ReadsAsThen(a, [Lexeme(Word, a)], " " + b, y, rest);
    assert a + " " + b == a + (" " + b);
  }

  lemma PhraseReads(a: string, b: string, rest: string)
    requires a != [] && forall k :: 0 <= k < |a| ==> !IsStop(a[k])
    requires b != [] && forall k :: 0 <= k < |b| ==> !IsStop(b[k])
    requires Parted(rest)
    ensures ReadsAs(a + " " + b, [Lexeme(Word, a), Lexeme(Word, b)], rest)
  {
    LexedWord(b, rest);
    TwoWordsRead(a, b, [Lexeme(Word, b)], rest);
    assert [Lexeme(Word, a)] + [Lexeme(Word, b)] == [Lexeme(Word, a), Lexeme(Word, b)];
  }

  lemma NullTestReads(op: Op, rest: string)
    requires (op == IsNull || op == IsNotNull) && Parted(rest)
    ensures ReadsAs(OpText(op), OpLexemes(op), rest)
  {
    if op == IsNull {
      PhraseReads("is", "null", rest);
      assert "is" + " " + "null" == "is null";
    } else {
      NotNullReads(rest);
    }
  }

  lemma NotNullReads(rest: string)
    requires Parted(rest)
    ensures ReadsAs("is not null", [Lexeme(Word, "is"), Lexeme(Word, "not"), Lexeme(Word, "null")], rest)
  {
    ThreeWordsRead("is", "not", "null", rest);
    assert "is" + " " + ("not" + " " + "null") == "is not null";
  }

  lemma ThreeWordsRead(a: string, b: string, c: string, rest: string)
    requires a != [] && forall k :: 0 <= k < |a| ==> !IsStop(a[k])
    requires b != [] && forall k :: 0 <= k < |b| ==> !IsStop(b[k])
    requires c != [] && forall k :: 0 <= k < |c| ==> !IsStop(c[k])
    requires Parted(rest)
    ensures ReadsAs(a + " " + (b + " " + c), [Lexeme(Word, a), Lexeme(Word, b), Lexeme(Word, c)], rest)
  {
    PhraseReads(b, c, rest);
    TwoWordsRead(a, b + " " + c, [Lexeme(Word, b), Lexeme(Word, c)], rest);
    assert [Lexeme(Word, a)] + [Lexeme(Word, b), Lexeme(Word, c)] ==
      [Lexeme(Word, a), Lexeme(Word, b), Lexeme(Word, c)];
  }

  predicate IsPhrase(op: Op) { op == NotContains || op == StartsWith || op == EndsWith }

  lemma PhraseText()
    ensures "not" + " " + "contains" == "not contains"
    ensures "starts" + " " + "with" == "starts with"
    ensures "ends" + " " + "with" == "ends with"
  {
  }

  lemma PhraseOpReads(op: Op, rest: string)
    requires IsPhrase(op) && Parted(rest)
    ensures ReadsAs(OpText(op), OpLexemes(op), rest)
  {
    match op
    case NotContains => PhraseReads("not", "contains", rest); PhraseText();
    case StartsWith => PhraseReads("starts", "with", rest); PhraseText();
    case EndsWith => PhraseReads("ends", "with", rest); PhraseText();
  }

  lemma WordOpReads(op: Op, rest: string)
    requires (op == Contains || op == In) && Parted(rest)
    ensures ReadsAs(OpText(op), OpLexemes(op), rest)
  {
    if op == In {
      LexedWord("in", rest);
    } else {
      LexedWord("contains", rest);
    }
  }

  predicate IsSymbolic(op: Op) { op == Eq || op == Ne || op == Gt || op == Gte || op == Lt || op == Lte }

  lemma SymbolOpReads(op: Op, rest: string)
    requires IsSymbolic(op) && rest != [] && rest[0] == ' '
    ensures ReadsAs(OpText(op), OpLexemes(op), rest)
  {
    LexedSymbol(OpText(op), rest);
  }

  lemma OpReads(op: Op, rest: string)
    requires if NeedsValue(op) then rest != [] && rest[0] == ' ' else Parted(rest)
    ensures ReadsAs(OpText(op), OpLexemes(op), rest)
  {
    if IsSymbolic(op) {
      SymbolOpReads(op, rest);
    } else if IsPhrase(op) {
      PhraseOpReads(op, rest);
    } else if op == Contains || op == In {
      WordOpReads(op, rest);
    } else {
      NullTestReads(op, rest);
    }
  }

  lemma {:induction false} ItemsRead(fold: Fold, items: seq<string>, rest: string)
    requires rest != [] && rest[0] == ')'
    ensures ReadsAs(FormatItems(fold, items), ItemLexemes(fold, items), rest)
    decreases |items|
  {
    if items == [] {
      NothingReads(rest);
    } else if |items| == 1 {
      ValueReads(fold, items[0], rest);
    } else {
      ItemsRead(fold, items[1..], rest);
      ItemThen(fold, items[0], FormatItems(fold, items[1..]), ItemLexemes(fold, items[1..]), rest);
    }
  }

  lemma ItemThen(fold: Fold, item: string, tail: string, shape: seq<Lexeme>, rest: string)
    requires ReadsAs(tail, shape, rest)
    ensures ReadsAs(FormatValue(fold, item) + ", " + tail, [ValueLexeme(fold, item), Lexeme(Symbol, ",")] + shape, rest)
  {
    var value, more, comma := FormatValue(fold, item), "," + (" " + tail), [Lexeme(Symbol, ",")] + shape;
    CommaThen(tail, shape, rest);
    ValueReads(fold, item, more + rest);
    ReadsAsThen(value, [ValueLexeme(fold, item)], more, comma, rest);
    CommaText(value, tail);
    CommaShape(ValueLexeme(fold, item), shape);
  }

  lemma CommaShape(x: Lexeme, shape: seq<Lexeme>)
    ensures [x, Lexeme(Symbol, ",")] + shape == [x] + ([Lexeme(Symbol, ",")] + shape)
  {
  }

  lemma CommaThen(tail: string, shape: seq<Lexeme>, rest: string)
    requires ReadsAs(tail, shape, rest)
    ensures ReadsAs("," + (" " + tail), [Lexeme(Symbol, ",")] + shape, rest)
  {
    SpaceThen(tail, shape, rest);
    LexedSymbol(",", " " + tail + rest);
    ReadsAsThen(",", [Lexeme(Symbol, ",")], " " + tail, shape, rest);
  }

  lemma ListReads(fold: Fold, items: seq<string>, rest: string)
    ensures ReadsAs(" (" + FormatItems(fold, items) + ")",
      [Lexeme(Symbol, "(")] + ItemLexemes(fold, items) + [Lexeme(Symbol, ")")], rest)
  {
    ItemsRead(fold, items, ")" + rest);
    InParentheses(FormatItems(fold, items), ItemLexemes(fold, items), rest);
  }

  lemma InParentheses(text: string, shape: seq<Lexeme>, rest: string)
    requires ReadsAs(text, shape, ")" + rest)
    ensures ReadsAs(" (" + text + ")", [Lexeme(Symbol, "(")] + shape + [Lexeme(Symbol, ")")], rest)
  {
    var close, all := shape + [Lexeme(Symbol, ")")], [Lexeme(Symbol, "(")] + (shape + [Lexeme(Symbol, ")")]);
    LexedSymbol(")", rest);
    ReadsAsThen(text, shape, ")", [Lexeme(Symbol, ")")], rest);
    LexedSymbol("(", text + ")" + rest);
    ReadsAsThen("(", [Lexeme(Symbol, "(")], text + ")", close, rest);
    SpaceThen("(" + (text + ")"), all, rest);
    ParenthesesText(text);
    assert [Lexeme(Symbol, "(")] + shape + [Lexeme(Symbol, ")")] == all;
  }

  lemma ParenthesesText(text: string)
    ensures " (" + text + ")" == " " + ("(" + (text + ")"))
  {
    assert " (" == " " + "(";
  }

  lemma CommaText(value: string, tail: string)
    ensures value + ", " + tail == value + ("," + (" " + tail))
  {
    assert ", " == "," + " ";
  }

  lemma OperandReads(fold: Fold, rule: Rule, rest: string)
    requires Parted(rest)
    ensures ReadsAs(FormatOperand(fold, rule), OperandLexemes(fold, rule), rest)
  {
    if !NeedsValue(rule.op) {
      NothingReads(rest);
    } else if rule.op == In {
      ListReads(fold, Items(rule.value), rest);
    } else {
      ValueReads(fold, JsTrim(rule.value), rest);
      SpaceThen(FormatValue(fold, JsTrim(rule.value)), [ValueLexeme(fold, JsTrim(rule.value))], rest);
    }
  }

  /** A first part, a space, and the rest of a rule. */
  lemma NameThen(fold: Fold, name: string, tail: string, shape: seq<Lexeme>, rest: string)
    requires ReadsAs(tail, shape, rest)
    ensures ReadsAs(FormatName(fold, name) + " " + tail, [NameLexeme(fold, name)] + shape, rest)
  {
    SpaceThen(tail, shape, rest);
    NameReads(fold, name, " " + tail + rest);
    ReadsAsThen(FormatName(fold, name), [NameLexeme(fold, name)], " " + tail, shape, rest);
    assert FormatName(fold, name) + " " + tail == FormatName(fold, name) + (" " + tail);
  }

  lemma RuleReads(fold: Fold, rule: Rule, rest: string)
    requires Parted(rest)
    ensures ReadsAs(FormatRule(fold, rule), RuleLexemes(fold, rule), rest)
  {
    var op, operand := OpText(rule.op), FormatOperand(fold, rule);
    OperandReads(fold, rule, rest);
    assert NeedsValue(rule.op) ==> operand != [] && operand[0] == ' ';
    OpReads(rule.op, operand + rest);
    ReadsAsThen(op, OpLexemes(rule.op), operand, OperandLexemes(fold, rule), rest);
    NameThen(fold, rule.column, op + operand, OpLexemes(rule.op) + OperandLexemes(fold, rule), rest);
    assert FormatRule(fold, rule) == FormatName(fold, rule.column) + " " + (op + operand);
    assert RuleLexemes(fold, rule) ==
      [NameLexeme(fold, rule.column)] + (OpLexemes(rule.op) + OperandLexemes(fold, rule));
  }

  lemma {:induction false} RulesRead(fold: Fold, rules: seq<Rule>, mode: FilterMode)
    ensures ReadsAs(FormatFilterExpr(fold, rules, mode), JoinShapes(RuleShapes(fold, rules), mode), "")
    decreases |rules|
  {
    if rules == [] {
      NothingReads("");
    } else {
      var shapes := RuleShapes(fold, rules[1..]);
      assert RuleShapes(fold, rules)[1..] == shapes;
      if |rules| == 1 {
        RuleReads(fold, rules[0], "");
      } else {
        RulesRead(fold, rules[1..], mode);
        RuleThen(fold, rules[0], mode, FormatFilterExpr(fold, rules[1..], mode), JoinShapes(shapes, mode));
      }
    }
  }

  lemma RuleThen(fold: Fold, rule: Rule, mode: FilterMode, tail: string, shape: seq<Lexeme>)
    requires ReadsAs(tail, shape, "")
    ensures ReadsAs(FormatRule(fold, rule) + (" " + ConnectorText(mode) + " " + tail),
                    RuleLexemes(fold, rule) + ([Lexeme(Word, ConnectorText(mode))] + shape), "")
  {
    var word := ConnectorText(mode);
    TwoWordsRead(word, tail, shape, "");
    SpaceThen(word + " " + tail, [Lexeme(Word, word)] + shape, "");
    var more := " " + word + " " + tail;
    assert " " + (word + " " + tail) == more;
    RuleReads(fold, rule, more + "");
    ReadsAsThen(FormatRule(fold, rule), RuleLexemes(fold, rule), more, [Lexeme(Word, word)] + shape, "");
  }

  /** The printed text is tokenized without an error into exactly the lexemes of the rules. */
  lemma PrintedTokens(fold: Fold, rules: seq<Rule>, mode: FilterMode)
    ensures var r := Tokenized(FormatFilterExpr(fold, rules, mode));
      r.error.None? && Shape(r.tokens) == JoinShapes(RuleShapes(fold, rules), mode)
  {
    RulesRead(fold, rules, mode);
    var text, shape := FormatFilterExpr(fold, rules, mode), JoinShapes(RuleShapes(fold, rules), mode);
    assert text + "" == text;
    assert shape + [] == shape;
    ScanIsLexed(text, 0);
  }
}
