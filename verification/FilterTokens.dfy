/**
The typed filter language, first half: text to tokens (src/lib/filterExpr.ts). The tokenizer is
specified on what is left of the text, `base` being how much has been read already.
*/
module FilterTokens {
  import opened Prelude
  import opened Text

  datatype TokenKind = Word | Str | Ident | Symbol

  /** `text` is what the token stands for; of a quoted one, what is between the quotes, undoubled. */
  datatype Token = Token(kind: TokenKind, text: string, start: nat, end: nat)

  datatype Problem =
    | UnclosedQuote | UnexpectedCharacter | ExpectedColumn | NoSuchColumn | ExpectedOperator | NotAnOperator
    | UnfinishedOperator | ExpectedValue | ExpectedItem | ExpectedCommaOrClose | UnclosedList | ExpectedConnector
    | MixedConnectors

  datatype ExprError = ExprError(problem: Problem, start: nat, end: nat)

  datatype Scanned = Scanned(tokens: seq<Token>, error: Option<ExprError>)

  predicate IsStop(c: char) {
    IsJsSpace(c) || IsQuote(c) || c == '=' || c == '<' || c == '>' || c == '!' || c == '(' || c == ')' || c == ','
  }

  /** A symbol of two characters: `<=`, `>=`, `<>`, `!=` or `==`. */
  predicate IsPair(a: char, b: char) {
    (b == '=' && (a == '<' || a == '>' || a == '!' || a == '=')) || (a == '<' && b == '>')
  }

  /** The symbol `s` starts with, longest first. */
  function SymbolAt(s: string): Option<string> {
    if s == [] then None
    else if |s| > 1 && IsPair(s[0], s[1]) then Some(s[..2])
    else if s[0] == '=' || s[0] == '<' || s[0] == '>' || s[0] == ',' || s[0] == '(' || s[0] == ')' then Some(s[..1])
    else None
  }

  /** What stands before the closing quote, decoded, and how much text it took with that quote. */
  function Quoted(s: string, q: char): (r: Option<(string, nat)>)
    ensures r.Some? ==> 0 < r.value.1 <= |s|
    decreases |s|
  {
    if s == [] then None
    else if s[0] == q then
      if |s| > 1 && s[1] == q then
        (match Quoted(s[2..], q) case None => None case Some((text, n)) => Some(([q] + text, n + 2)))
      else Some(("", 1))
    else (match Quoted(s[1..], q) case None => None case Some((text, n)) => Some(([s[0]] + text, n + 1)))
  }

  function WordLength(s: string): (n: nat)
    ensures n <= |s|
  {
    if s == [] || IsStop(s[0]) then 0 else 1 + WordLength(s[1..])
  }

  function QuoteKind(q: char): TokenKind { if q == '\'' then Str else Ident }

  /** The token `s` starts with and its length, or what is wrong and how far it reaches. */
  function FirstToken(s: string): (r: Result<(TokenKind, string, nat), (Problem, nat)>)
    requires s != [] && !IsJsSpace(s[0])
    ensures r.Ok? ==> 0 < r.value.2 <= |s|
    ensures r.Err? ==> 0 < r.error.1 <= |s|
  {
    if IsQuote(s[0]) then
      match Quoted(s[1..], s[0])
      case None => Err((UnclosedQuote, |s|))
      case Some((text, n)) => Ok((QuoteKind(s[0]), text, n + 1))
    else
      match SymbolAt(s)
      case Some(symbol) => Ok((Symbol, symbol, |symbol|))
      case None =>
        var n := WordLength(s);
        if n == 0 then Err((UnexpectedCharacter, 1)) else Ok((Word, s[..n], n))
  }

  function Scan(s: string, base: nat): Scanned
    decreases |s|
  {
    if s == [] then Scanned([], None)
    else if IsJsSpace(s[0]) then Scan(s[1..], base + 1)
    else
      match FirstToken(s)
      case Err((problem, n)) => Scanned([], Some(ExprError(problem, base, base + n)))
      case Ok((kind, text, n)) => Then(Token(kind, text, base, base + n), Scan(s[n..], base + n))
  }

  function Then(t: Token, rest: Scanned): Scanned {
    rest.(tokens := [t] + rest.tokens)
  }

  function Tokenized(source: string): Scanned {
    Scan(source, 0)
  }

  // ------------------------------------------------------------------ positions

  /** Tokens lie in [base, end), in order and not empty. */
  ghost predicate Placed(tokens: seq<Token>, base: nat, end: nat) {
    && (forall k :: 0 <= k < |tokens| ==> base <= tokens[k].start < tokens[k].end <= end)
    && (forall k :: 0 <= k < |tokens| - 1 ==> tokens[k].end <= tokens[k + 1].start)
  }

  lemma PlacedThen(t: Token, tokens: seq<Token>, base: nat, end: nat)
    requires base <= t.start < t.end <= end && Placed(tokens, t.end, end)
    ensures Placed([t] + tokens, base, end)
  {
  }

  ghost predicate ScannedIn(x: Scanned, base: nat, end: nat) {
    && Placed(x.tokens, base, end)
    && (x.error.Some? ==> base <= x.error.value.start <= x.error.value.end <= end)
  }

  lemma ThenIn(t: Token, rest: Scanned, base: nat, end: nat)
    requires base <= t.start < t.end <= end && ScannedIn(rest, t.end, end)
    ensures ScannedIn(Then(t, rest), base, end)
  {
    PlacedThen(t, rest.tokens, base, end);
  }

  /** Every token, and the error if there is one, lies inside the text. */
  lemma {:induction false} ScanPlaced(s: string, base: nat)
    ensures ScannedIn(Scan(s, base), base, base + |s|)
    decreases |s|
  {
    if s == [] {
    } else if IsJsSpace(s[0]) {
      ScanPlaced(s[1..], base + 1);
    } else if FirstToken(s).Ok? {
      var (kind, text, n) := FirstToken(s).value;
      ScanPlaced(s[n..], base + n);
      ThenIn(Token(kind, text, base, base + n), Scan(s[n..], base + n), base, base + |s|);
    }
  }

  // ------------------------------------------------------------------ tokens without their positions

  datatype Lexeme = Lexeme(kind: TokenKind, text: string)

  function Shape(tokens: seq<Token>): (r: seq<Lexeme>)
    ensures |r| == |tokens| && forall k :: 0 <= k < |tokens| ==> r[k] == Lexeme(tokens[k].kind, tokens[k].text)
  {
    seq(|tokens|, k requires 0 <= k < |tokens| => Lexeme(tokens[k].kind, tokens[k].text))
  }

  function Prepend(x: seq<Lexeme>, rest: Option<seq<Lexeme>>): Option<seq<Lexeme>> {
    if rest.None? then None else Some(x + rest.value)
  }

  /** The lexemes of a text, or None if it has an error. */
  function Lexed(s: string): Option<seq<Lexeme>>
    decreases |s|
  {
    if s == [] then Some([])
    else if IsJsSpace(s[0]) then Lexed(s[1..])
    else
      match FirstToken(s)
      case Err(_) => None
      case Ok((kind, text, n)) => Prepend([Lexeme(kind, text)], Lexed(s[n..]))
  }

  ghost predicate SameLexemes(x: Scanned, y: Option<seq<Lexeme>>) {
    if x.error.None? then y == Some(Shape(x.tokens)) else y == None
  }

  lemma SameThen(t: Token, rest: Scanned, y: Option<seq<Lexeme>>)
    requires SameLexemes(rest, y)
    ensures SameLexemes(Then(t, rest), Prepend([Lexeme(t.kind, t.text)], y))
  {
    ShapeThen(t, rest.tokens);
  }

  /** Positions play no part in what the tokens are. */
  lemma {:induction false} ScanIsLexed(s: string, base: nat)
    ensures SameLexemes(Scan(s, base), Lexed(s))
    decreases |s|
  {
    if s == [] {
    } else if IsJsSpace(s[0]) {
      ScanIsLexed(s[1..], base + 1);
    } else if FirstToken(s).Ok? {
      var (kind, text, n) := FirstToken(s).value;
      ScanIsLexed(s[n..], base + n);
      SameThen(Token(kind, text, base, base + n), Scan(s[n..], base + n), Lexed(s[n..]));
    }
  }

  lemma ShapeThen(t: Token, tokens: seq<Token>)
    ensures Shape([t] + tokens) == [Lexeme(t.kind, t.text)] + Shape(tokens)
  {
  }

  // ------------------------------------------------------------------ reading what was printed

  function InQuotes(v: string, q: char): string {
    [q] + Doubled(v, q) + [q]
  }

  lemma {:induction false} QuotedBack(v: string, q: char, rest: string)
    requires rest == [] || rest[0] != q
    ensures Quoted(Doubled(v, q) + [q] + rest, q) == Some((v, |Doubled(v, q)| + 1))
    decreases |v|
  {
    var s := Doubled(v, q) + [q] + rest;
    if v == [] {
      assert s == [q] + rest;
    } else {
      var tail := Doubled(v[1..], q) + [q] + rest;
      QuotedBack(v[1..], q, rest);
      assert v == [v[0]] + v[1..];
      if v[0] == q {
        assert s == [q, q] + tail;
        assert s[2..] == tail;
      } else {
        assert s == [v[0]] + tail;
        assert s[1..] == tail;
      }
    }
  }

  lemma LexedSpace(rest: string)
    ensures Lexed(" " + rest) == Lexed(rest)
  {
    assert (" " + rest)[1..] == rest;
  }

  lemma QuotedFirst(v: string, q: char, rest: string)
    requires IsQuote(q) && (rest == [] || rest[0] != q)
    ensures var s := InQuotes(v, q) + rest;
      s[0] == q && !IsJsSpace(q) && FirstToken(s) == Ok((QuoteKind(q), v, |InQuotes(v, q)|))
  {
    var s := InQuotes(v, q) + rest;
    assert s[1..] == Doubled(v, q) + [q] + rest;
    QuotedBack(v, q, rest);
  }

  lemma LexedQuoted(v: string, q: char, rest: string)
    requires IsQuote(q) && (rest == [] || rest[0] != q)
    ensures Lexed(InQuotes(v, q) + rest) == Prepend([Lexeme(QuoteKind(q), v)], Lexed(rest))
  {
    QuotedFirst(v, q, rest);
    LexedFirst(InQuotes(v, q), rest, QuoteKind(q), v);
  }

  /** A text whose first token ends where `rest` begins. */
  lemma LexedFirst(head: string, rest: string, kind: TokenKind, text: string)
    requires head != [] && !IsJsSpace((head + rest)[0]) && FirstToken(head + rest) == Ok((kind, text, |head|))
    ensures Lexed(head + rest) == Prepend([Lexeme(kind, text)], Lexed(rest))
  {
    assert (head + rest)[|head|..] == rest;
  }

  lemma {:induction false} WordLengthIs(w: string, rest: string)
    requires forall k :: 0 <= k < |w| ==> !IsStop(w[k])
    requires rest == [] || IsStop(rest[0])
    ensures WordLength(w + rest) == |w|
  {
    if w == [] {
      assert w + rest == rest;
    } else {
      assert (w + rest)[1..] == w[1..] + rest;
      WordLengthIs(w[1..], rest);
    }
  }

  lemma LexedWord(w: string, rest: string)
    requires w != [] && forall k :: 0 <= k < |w| ==> !IsStop(w[k])
    requires rest == [] || IsStop(rest[0])
    ensures Lexed(w + rest) == Prepend([Lexeme(Word, w)], Lexed(rest))
  {
    var s := w + rest;
    assert s[0] == w[0] && !IsStop(s[0]);
    WordLengthIs(w, rest);
    assert SymbolAt(s).None? by {
      if |s| > 1 {
        assert s[..2][0] == s[0];
      }
    }
    assert s[..|w|] == w && s[|w|..] == rest;
  }

  /** Every symbol of the language. */
  predicate IsSymbol(symbol: string) {
    || (|symbol| == 2 && IsPair(symbol[0], symbol[1]))
    || (|symbol| == 1 && symbol[0] in {'=', '<', '>', ',', '(', ')'})
  }

  /** A symbol is read as itself unless the next character makes a longer one of it. */
  lemma LexedSymbol(symbol: string, rest: string)
    requires IsSymbol(symbol)
    requires |symbol| == 1 && rest != [] ==> !IsPair(symbol[0], rest[0])
    ensures Lexed(symbol + rest) == Prepend([Lexeme(Symbol, symbol)], Lexed(rest))
  {
    var s := symbol + rest;
    assert s[|symbol|..] == rest && s[0] == symbol[0];
    if |symbol| == 2 {
      assert s[..2] == symbol;
    } else {
      assert s[..1] == symbol;
      if |s| > 1 {
        assert s[1] == rest[0];
      }
    }
    assert SymbolAt(s) == Some(symbol);
  }

  // ------------------------------------------------------------------ as the source computes it

  /** `read` put in front of what a later position gives. */
  function Resume(read: string, n: nat, r: Option<(string, nat)>): Option<(string, nat)> {
    match r case None => None case Some((text, m)) => Some((read + text, n + m))
  }

  lemma ResumeStep(read: string, n: nat, c: char, k: nat, r: Option<(string, nat)>)
    ensures Resume(read, n, Resume([c], k, r)) == Resume(read + [c], n + k, r)
    ensures Resume("", 0, r) == r
  {
    if r.Some? {
      assert read + ([c] + r.value.0) == (read + [c]) + r.value.0;
      assert "" + r.value.0 == r.value.0;
    }
  }

  lemma QuotedAt(source: string, i: nat, q: char)
    requires i < |source|
    ensures Quoted(source[i..], q) ==
      if source[i] != q then Resume([source[i]], 1, Quoted(source[i + 1..], q))
      else if i + 1 < |source| && source[i + 1] == q then Resume([q], 2, Quoted(source[i + 2..], q))
      else Some(("", 1))
  {
    var s := source[i..];
    assert s[0] == source[i] && s[1..] == source[i + 1..];
    if i + 1 < |source| {
      assert s[1] == source[i + 1] && s[2..] == source[i + 2..];
    }
  }

  /** One more character, or doubled quote, or the closing quote. */
  lemma ReadMore(source: string, i: nat, q: char, text: string, n: nat)
    requires i < |source|
    ensures Resume(text, n, Quoted(source[i..], q)) ==
      if source[i] != q then Resume(text + [source[i]], n + 1, Quoted(source[i + 1..], q))
      else if i + 1 < |source| && source[i + 1] == q then Resume(text + [q], n + 2, Quoted(source[i + 2..], q))
      else Some((text, n + 1))
  {
    QuotedAt(source, i, q);
    assert text + "" == text;
    if source[i] != q {
      ResumeStep(text, n, source[i], 1, Quoted(source[i + 1..], q));
    } else if i + 1 < |source| && source[i + 1] == q {
      ResumeStep(text, n, q, 2, Quoted(source[i + 2..], q));
    }
  }

  method ReadQuoted(source: string, at: nat, q: char) returns (text: string, i: nat, closed: bool)
    requires at <= |source|
    ensures at <= i <= |source|
    ensures Quoted(source[at..], q) == if closed then Some((text, i - at)) else None
  {
    text := "";
    i := at;
    ghost var whole := Quoted(source[at..], q);
    ResumeStep("", 0, q, 0, whole);
    while i < |source|
      invariant at <= i <= |source|
      invariant whole == Resume(text, i - at, Quoted(source[i..], q))
    {
      ReadMore(source, i, q, text, i - at);
      if source[i] == q {
        if i + 1 < |source| && source[i + 1] == q {
          text := text + [q];
          i := i + 2;
          continue;
        }
        return text, i + 1, true;
      }
      text := text + [source[i]];
      i := i + 1;
    }
    assert source[i..] == [];
    closed := false;
  }

  function After(tokens: seq<Token>, rest: Scanned): Scanned {
    rest.(tokens := tokens + rest.tokens)
  }

  lemma AfterThen(tokens: seq<Token>, t: Token, rest: Scanned)
    ensures After(tokens, Then(t, rest)) == After(tokens + [t], rest)
    ensures After([], rest) == rest
  {
    assert tokens + ([t] + rest.tokens) == (tokens + [t]) + rest.tokens;
  }

  /** The token at `i`, where no white space stands. */
  method ReadFirst(source: string, i: nat) returns (r: Result<(TokenKind, string, nat), (Problem, nat)>)
    requires i < |source| && !IsJsSpace(source[i])
    ensures source[i..] != [] && !IsJsSpace(source[i..][0]) && r == FirstToken(source[i..])
  {
    var rest := source[i..];
    assert rest[0] == source[i];
    if IsQuote(source[i]) {
      assert rest[1..] == source[i + 1..];
      var text, j, closed := ReadQuoted(source, i + 1, source[i]);
      return if closed then Ok((QuoteKind(source[i]), text, j - i)) else Err((UnclosedQuote, |rest|));
    }
    var symbol := SymbolAt(rest);
    if symbol.Some? {
      return Ok((Symbol, symbol.value, |symbol.value|));
    }
    var j := i;
    while j < |source| && !IsStop(source[j])
      invariant i <= j <= |source|
      invariant forall k :: i <= k < j ==> !IsStop(source[k])
    {
      j := j + 1;
    }
    WordEnds(source, i, j);
    assert rest[..j - i] == source[i..j];
    r := if j == i then Err((UnexpectedCharacter, 1)) else Ok((Word, source[i..j], j - i));
  }

  /** A scan that has put `tokens` aside and has `rest` left, from position `i` on. */
  ghost predicate Midway(whole: Scanned, tokens: seq<Token>, rest: string, i: nat) {
    whole == After(tokens, Scan(rest, i))
  }

  lemma SkipSpace(whole: Scanned, tokens: seq<Token>, rest: string, i: nat)
    requires Midway(whole, tokens, rest, i) && rest != [] && IsJsSpace(rest[0])
    ensures Midway(whole, tokens, rest[1..], i + 1)
  {
  }

  lemma TakeToken(whole: Scanned, tokens: seq<Token>, rest: string, i: nat, kind: TokenKind, text: string, n: nat)
    requires Midway(whole, tokens, rest, i) && rest != [] && !IsJsSpace(rest[0]) &&
      FirstToken(rest) == Ok((kind, text, n))
    ensures n <= |rest| && Midway(whole, tokens + [Token(kind, text, i, i + n)], rest[n..], i + n)
  {
    AfterThen(tokens, Token(kind, text, i, i + n), Scan(rest[n..], i + n));
  }

  lemma Stop(whole: Scanned, tokens: seq<Token>, rest: string, i: nat, problem: Problem, n: nat)
    requires Midway(whole, tokens, rest, i) && rest != [] && !IsJsSpace(rest[0]) &&
      FirstToken(rest) == Err((problem, n))
    ensures whole == Scanned(tokens, Some(ExprError(problem, i, i + n)))
  {
  }

  lemma Finish(whole: Scanned, tokens: seq<Token>, i: nat)
    requires Midway(whole, tokens, [], i)
    ensures whole == Scanned(tokens, None)
  {
  }

  /** One round of the tokenizer: past a space, past a token, or an error. */
  method Advance(source: string, i: nat, tokens: seq<Token>, ghost whole: Scanned)
    returns (read: seq<Token>, j: nat, error: Option<ExprError>)
    requires i < |source| && Midway(whole, tokens, source[i..], i)
    ensures error.Some? ==> whole == Scanned(tokens, error)
    ensures error.None? ==> i < j <= |source| && Midway(whole, read, source[j..], j)
  {
    read, j, error := tokens, i + 1, None;
    ghost var rest := source[i..];
    assert rest[0] == source[i];
    if IsJsSpace(source[i]) {
      SkipSpace(whole, tokens, rest, i);
      assert rest[1..] == source[j..];
      return;
    }
    var next := ReadFirst(source, i);
    if next.Err? {
      Stop(whole, tokens, rest, i, next.error.0, next.error.1);
      error := Some(ExprError(next.error.0, i, i + next.error.1));
      return;
    }
    var (kind, text, n) := next.value;
    TakeToken(whole, tokens, rest, i, kind, text, n);
    assert rest[n..] == source[i + n..];
    read, j := tokens + [Token(kind, text, i, i + n)], i + n;
  }

  method Tokenize(source: string) returns (r: Scanned)
    ensures r == Tokenized(source)
  {
    var tokens: seq<Token> := [];
    var i := 0;
    ghost var whole := Tokenized(source);
    assert source[0..] == source;
    AfterThen([], Token(Word, "", 0, 0), whole);
    while i < |source|
      invariant i <= |source| && Midway(whole, tokens, source[i..], i)
    {
      var read, j, error := Advance(source, i, tokens, whole);
      if error.Some? {
        return Scanned(tokens, error);
      }
      tokens, i := read, j;
    }
    Finish(whole, tokens, i);
    r := Scanned(tokens, None);
  }

  lemma WordEnds(source: string, start: nat, i: nat)
    requires start <= i <= |source| && forall k :: start <= k < i ==> !IsStop(source[k])
    requires i < |source| ==> IsStop(source[i])
    ensures WordLength(source[start..]) == i - start
  {
    assert source[start..] == source[start..i] + source[i..];
    WordLengthIs(source[start..i], source[i..]);
  }
}
