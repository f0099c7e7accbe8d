/**
The words of a statement, told without a reader: it is a row of quotations, remarks, words and
single marks, and the words between balanced parentheses are those that count.
*/
module SqlReading {
  import opened Prelude
  import opened Text
  import opened SqlWords
  import opened SqlPieces

  datatype TokenKind = Quotation | LineRemark | BlockRemark | Word | Mark

  datatype Token = Token(kind: TokenKind, text: string)

  predicate InWord(alnum: Alnum, c: char) { alnum(c) || c == '_' }

  /** A longest run of word characters. */
  predicate IsWord(alnum: Alnum, t: string, rest: string) {
    (forall k :: 0 <= k < |t| ==> InWord(alnum, t[k])) && (rest != [] ==> !InWord(alnum, rest[0]))
  }

  /** A single character that is no part of a word and opens nothing. */
  predicate IsMark(alnum: Alnum, t: string, rest: string) {
    |t| == 1 && !InWord(alnum, t[0]) && !IsQuote(t[0]) && !StartsLine(t + rest) && !StartsBlock(t + rest)
  }

  ghost predicate IsToken(alnum: Alnum, t: Token, rest: string) {
    t.text != [] && (
      || (t.kind.Quotation? && IsLiteral(t.text, rest))
      || (t.kind.LineRemark? && StartsLine(t.text) && ToLineEnd(t.text, rest))
      || (t.kind.BlockRemark? && IsBlock(t.text, rest))
      || (t.kind.Word? && IsWord(alnum, t.text, rest))
      || (t.kind.Mark? && IsMark(alnum, t.text, rest)))
  }

  ghost predicate IsRow(alnum: Alnum, s: string, ts: seq<Token>) {
    if ts == [] then s == []
    else
      var t := ts[0];
      t.text <= s && IsToken(alnum, t, s[|t.text|..]) && IsRow(alnum, s[|t.text|..], ts[1..])
  }

  /** How many more parentheses a token opens than it closes. */
  function Opening(t: Token): int {
    if t == Token(Mark, "(") then 1 else if t == Token(Mark, ")") then -1 else 0
  }

  /** How many more parentheses the row opens than it closes. */
  function Depth(ts: seq<Token>): int {
    if ts == [] then 0 else Opening(ts[0]) + Depth(ts[1..])
  }

  /** The word a token counts as when `d` parentheses are open before it. */
  function Counted(t: Token, d: int): seq<string> {
    if t.kind.Word? && d == 0 then [AsciiUpper(t.text)] else []
  }

  /** The words, in upper case, with as many parentheses opened as closed before them. */
  function TopWords(ts: seq<Token>, depth: int): seq<string> {
    if ts == [] then []
    else Counted(ts[0], depth) + TopWords(ts[1..], depth + Opening(ts[0]))
  }

  // ------------------------------------------------------------------ the reader reads each token whole

  function Idle(depth: int, words: seq<string>): Reader { Reader(Code, "", depth, words) }

  lemma {:induction false} QuotedGoesOn(alnum: Alnum, s: string, i: nat, x: Reader, body: string)
    requires x.mode.Quote? && StandsAt(s, i, Doubled(body, x.mode.quote))
    ensures WordsFrom(alnum, s, i, x) == WordsFrom(alnum, s, i + |Doubled(body, x.mode.quote)|, x)
    decreases |body|
  {
    if body != [] {
      var q := x.mode.quote;
      DoubledTail(s, i, q, body);
      QuotedGoesOn(alnum, s, i + (if body[0] == q then 2 else 1), x, body[1..]);
      assert s[i + 0] == Doubled(body, q)[0];
      if body[0] == q {
        assert s[i + 1] == Doubled(body, q)[1];
        assert WordsFrom(alnum, s, i, x) == WordsFrom(alnum, s, i + 1, x.(mode := QuoteEnd(q)));
      }
    }
  }

  lemma QuotationOpens(alnum: Alnum, s: string, i: nat, q: char, body: string, d: int, ws: seq<string>)
    requires IsQuote(q) && StandsAt(s, i, [q] + Doubled(body, q))
    ensures WordsFrom(alnum, s, i, Idle(d, ws)) ==
      WordsFrom(alnum, s, i + 1 + |Doubled(body, q)|, Reader(Quote(q), "", d, ws))
  {
    StandsPart(s, i, [q], Doubled(body, q));
    assert s[i + 0] == [q][0] && !alnum(q);
    QuotedGoesOn(alnum, s, i + 1, Reader(Quote(q), "", d, ws), body);
  }

  lemma QuotationClosed(alnum: Alnum, s: string, i: nat, q: char, body: string, d: int, ws: seq<string>)
    requires IsQuote(q) && StandsAt(s, i, [q] + Doubled(body, q) + [q])
    requires var j := i + 2 + |Doubled(body, q)|; j < |s| ==> s[j] != q
    ensures WordsFrom(alnum, s, i, Idle(d, ws)) == WordsFrom(alnum, s, i + 2 + |Doubled(body, q)|, Idle(d, ws))
  {
    var j := i + 1 + |Doubled(body, q)|;
    StandsPart(s, i, [q] + Doubled(body, q), [q]);
    assert s[j + 0] == [q][0];
    QuotationOpens(alnum, s, i, q, body, d, ws);
    Alike(alnum, s, j + 1, Reader(QuoteEnd(q), "", d, ws), Code);
  }

  lemma QuotationRead(alnum: Alnum, s: string, i: nat, t: string, d: int, ws: seq<string>)
    requires StandsAt(s, i, t) && IsLiteral(t, s[i + |t|..])
    ensures WordsFrom(alnum, s, i, Idle(d, ws)) == WordsFrom(alnum, s, i + |t|, Idle(d, ws))
  {
    var body :| LiteralOf(t, t[0], body, s[i + |t|..]);
    if t == [t[0]] + Doubled(body, t[0]) + [t[0]] && (i + |t| < |s| ==> s[i + |t|] != t[0]) {
      QuotationClosed(alnum, s, i, t[0], body, d, ws);
    } else {
      QuotationOpens(alnum, s, i, t[0], body, d, ws);
    }
  }

  lemma {:induction false} LineGoesOnIn(alnum: Alnum, s: string, i: nat, end: nat, x: Reader)
    requires x.mode.Line? && i <= end <= |s| && forall k :: i <= k < end ==> s[k] != '\n'
    ensures WordsFrom(alnum, s, i, x) == WordsFrom(alnum, s, end, x)
    decreases end - i
  {
    if i < end {
      LineGoesOnIn(alnum, s, i + 1, end, x);
    }
  }

  lemma LineRemarkRead(alnum: Alnum, s: string, i: nat, t: string, d: int, ws: seq<string>)
    requires StandsAt(s, i, t) && StartsLine(t) && ToLineEnd(t, s[i + |t|..])
    ensures WordsFrom(alnum, s, i, Idle(d, ws)) == WordsFrom(alnum, s, i + |t|, Idle(d, ws))
  {
    var x := Reader(Line, "", d, ws);
    NoLineFeed(s, i, t);
    assert s[i + 0] == t[0] && s[i + 1] == t[1] && !alnum('-') && !alnum('\n');
    assert WordsFrom(alnum, s, i, Idle(d, ws)) == WordsFrom(alnum, s, i + 1, x.(mode := Dash));
    LineGoesOnIn(alnum, s, i + 2, i + |t|, x);
    Alike(alnum, s, i + |t|, x, Code);
  }

  lemma {:induction false} BlockGoesOnIn(alnum: Alnum, s: string, i: nat, end: nat, x: Reader)
    requires x.mode.Block? && i <= end <= |s| && forall k :: i <= k < end ==> !Closes(s, k)
    ensures WordsFrom(alnum, s, i, x) == WordsFrom(alnum, s, end, x)
    decreases end - i
  {
    if i < end {
      assert !Closes(s, i);
      if s[i] == '*' {
        Alike(alnum, s, i + 1, x.(mode := BlockStar), Block);
      }
      BlockGoesOnIn(alnum, s, i + 1, end, x);
    }
  }

  lemma BlockRemarkOpens(alnum: Alnum, s: string, i: nat, t: string, d: int, ws: seq<string>)
    requires StandsAt(s, i, t) && StartsBlock(t)
    ensures WordsFrom(alnum, s, i, Idle(d, ws)) == WordsFrom(alnum, s, i + 2, Reader(Block, "", d, ws))
  {
    assert s[i + 0] == t[0] && s[i + 1] == t[1] && !alnum('/');
    assert WordsFrom(alnum, s, i, Idle(d, ws)) == WordsFrom(alnum, s, i + 1, Reader(Slash, "", d, ws));
  }

  lemma NoneCloses(s: string, i: nat, t: string, n: nat)
    requires StandsAt(s, i, t) && n <= |t| && (n < |t| || i + |t| == |s|)
    requires forall k :: 2 <= k < n ==> !Closes(t, k)
    ensures forall k :: i + 2 <= k < i + n ==> !Closes(s, k)
  {
    forall k | i + 2 <= k < i + n ensures !Closes(s, k) {
      if k + 1 < |s| {
        ClosesInside(s, i, t, k - i);
      }
    }
  }

  lemma BlockRemarkRead(alnum: Alnum, s: string, i: nat, t: string, d: int, ws: seq<string>)
    requires StandsAt(s, i, t) && IsBlock(t, s[i + |t|..])
    ensures WordsFrom(alnum, s, i, Idle(d, ws)) == WordsFrom(alnum, s, i + |t|, Idle(d, ws))
  {
    var x, n := Reader(Block, "", d, ws), i + |t|;
    BlockRemarkOpens(alnum, s, i, t, d, ws);
    if |t| >= 4 && Closes(t, |t| - 2) && forall k :: 2 <= k < |t| - 2 ==> !Closes(t, k) {
      NoneCloses(s, i, t, |t| - 2);
      BlockGoesOnIn(alnum, s, i + 2, n - 2, x);
      ClosesInside(s, i, t, |t| - 2);
      assert WordsFrom(alnum, s, n - 2, x) == WordsFrom(alnum, s, n - 1, x.(mode := BlockStar));
    } else {
      NoneCloses(s, i, t, |t|);
      BlockGoesOnIn(alnum, s, i + 2, n, x);
    }
  }

  lemma {:induction false} WordGoesOn(alnum: Alnum, s: string, i: nat, end: nat, x: Reader)
    requires x.mode == Code && i <= end <= |s| && forall k :: i <= k < end ==> InWord(alnum, s[k])
    ensures WordsFrom(alnum, s, i, x) == WordsFrom(alnum, s, end, x.(word := x.word + s[i..end]))
    decreases end - i
  {
    if i < end {
      var y := x.(word := x.word + [s[i]]);
      WordGoesOn(alnum, s, i + 1, end, y);
      assert x.word + [s[i]] + s[i + 1..end] == x.word + s[i..end];
    } else {
      assert x.word + s[i..end] == x.word;
    }
  }

  /** Where no word goes on, the word being read is over. */
  lemma WordEnds(alnum: Alnum, s: string, i: nat, x: Reader)
    requires x.mode == Code && (i < |s| ==> !InWord(alnum, s[i]))
    ensures WordsFrom(alnum, s, i, x) == WordsFrom(alnum, s, i, Flush(x))
  {
  }

  lemma WordRead(alnum: Alnum, s: string, i: nat, t: string, d: int, ws: seq<string>)
    requires t != [] && StandsAt(s, i, t) && IsWord(alnum, t, s[i + |t|..])
    ensures WordsFrom(alnum, s, i, Idle(d, ws)) ==
      WordsFrom(alnum, s, i + |t|, Idle(d, ws + if d == 0 then [AsciiUpper(t)] else []))
  {
    var end := i + |t|;
    forall k | i <= k < end ensures InWord(alnum, s[k]) {
      assert s[i + (k - i)] == t[k - i];
    }
    StandsSlice(s, i, t);
    WordGoesOn(alnum, s, i, end, Idle(d, ws));
    assert "" + s[i..end] == t;
    WordEnds(alnum, s, end, Reader(Code, t, d, ws));
    assert ws + [] == ws;
  }

  lemma MarkRead(alnum: Alnum, s: string, i: nat, t: string, d: int, ws: seq<string>)
    requires |t| == 1 && StandsAt(s, i, t) && IsMark(alnum, t, s[i + 1..])
    ensures WordsFrom(alnum, s, i, Idle(d, ws)) == WordsFrom(alnum, s, i + 1, Idle(d + Opening(Token(Mark, t)), ws))
  {
    assert s[i + 0] == t[0];
    assert t + s[i + 1..] == s[i..];
    assert i + 1 < |s| ==> s[i..][1] == s[i + 1];
    var y := Step(alnum, Idle(d, ws), s[i]);
    Alike(alnum, s, i + 1, y, Code);
  }

  lemma TokenRead(alnum: Alnum, s: string, i: nat, t: Token, d: int, ws: seq<string>)
    requires StandsAt(s, i, t.text) && IsToken(alnum, t, s[i + |t.text|..])
    ensures WordsFrom(alnum, s, i, Idle(d, ws)) ==
      WordsFrom(alnum, s, i + |t.text|, Idle(d + Opening(t), ws + Counted(t, d)))
  {
    assert ws + [] == ws;
    match t.kind
    case Quotation => QuotationRead(alnum, s, i, t.text, d, ws);
    case LineRemark => LineRemarkRead(alnum, s, i, t.text, d, ws);
    case BlockRemark => BlockRemarkRead(alnum, s, i, t.text, d, ws);
    case Word => WordRead(alnum, s, i, t.text, d, ws);
    case Mark => MarkRead(alnum, s, i, t.text, d, ws);
  }

  /** Whatever has been read before, the reader takes `t`, which stands at position `at`, whole. */
  ghost predicate Takes(alnum: Alnum, s: string, at: nat, t: Token) {
    forall d: int, ws: seq<string> ::
      WordsFrom(alnum, s, at, Idle(d, ws)) ==
      WordsFrom(alnum, s, at + |t.text|, Idle(d + Opening(t), ws + Counted(t, d)))
  }

  ghost predicate TakesAll(alnum: Alnum, s: string, at: nat, ts: seq<Token>)
    decreases |ts|
  {
    if ts == [] then at == |s| else Takes(alnum, s, at, ts[0]) && TakesAll(alnum, s, at + |ts[0].text|, ts[1..])
  }

  lemma TakeOne(alnum: Alnum, s: string, at: nat, t: Token, d: int, ws: seq<string>)
    requires Takes(alnum, s, at, t)
    ensures WordsFrom(alnum, s, at, Idle(d, ws)) ==
      WordsFrom(alnum, s, at + |t.text|, Idle(d + Opening(t), ws + Counted(t, d)))
  {
  }

  lemma TokenTaken(alnum: Alnum, s: string, at: nat, t: Token)
    requires at <= |s| && t.text <= s[at..] && IsToken(alnum, t, s[at..][|t.text|..])
    ensures Takes(alnum, s, at, t)
  {
    PrefixStands(s, at, t.text);
    forall d: int, ws: seq<string> ensures WordsFrom(alnum, s, at, Idle(d, ws)) ==
      WordsFrom(alnum, s, at + |t.text|, Idle(d + Opening(t), ws + Counted(t, d))) {
      TokenRead(alnum, s, at, t, d, ws);
    }
  }

  lemma RestIsRow(alnum: Alnum, s: string, at: nat, ts: seq<Token>)
    requires at <= |s| && ts != [] && IsRow(alnum, s[at..], ts)
    ensures at + |ts[0].text| <= |s| && IsRow(alnum, s[at + |ts[0].text|..], ts[1..])
  {
    PrefixStands(s, at, ts[0].text);
  }

  lemma {:induction false} RowTaken(alnum: Alnum, s: string, at: nat, ts: seq<Token>)
    requires at <= |s| && IsRow(alnum, s[at..], ts)
    ensures TakesAll(alnum, s, at, ts)
    decreases |ts|
  {
    if ts != [] {
      TokenTaken(alnum, s, at, ts[0]);
      RestIsRow(alnum, s, at, ts);
      RowTaken(alnum, s, at + |ts[0].text|, ts[1..]);
    }
  }

  /** From position `at` on, the reader adds the words of `ts` that count. */
  ghost predicate Yields(alnum: Alnum, s: string, at: nat, ts: seq<Token>, d: int, ws: seq<string>) {
    WordsFrom(alnum, s, at, Idle(d, ws)) == ws + TopWords(ts, d)
  }

  lemma YieldsFirst(alnum: Alnum, s: string, at: nat, ts: seq<Token>, d: int, ws: seq<string>)
    requires ts != [] && Takes(alnum, s, at, ts[0])
    requires Yields(alnum, s, at + |ts[0].text|, ts[1..], d + Opening(ts[0]), ws + Counted(ts[0], d))
    ensures Yields(alnum, s, at, ts, d, ws)
  {
    TakeOne(alnum, s, at, ts[0], d, ws);
    AppendAssoc(ws, Counted(ts[0], d), TopWords(ts[1..], d + Opening(ts[0])));
  }

  lemma YieldsNothing(alnum: Alnum, s: string, at: nat, d: int, ws: seq<string>)
    requires at == |s|
    ensures Yields(alnum, s, at, [], d, ws)
  {
  }

  lemma {:induction false} WordsFromRow(alnum: Alnum, s: string, at: nat, ts: seq<Token>, d: int, ws: seq<string>)
    requires TakesAll(alnum, s, at, ts)
    ensures Yields(alnum, s, at, ts, d, ws)
    decreases |ts|
  {
    if ts == [] {
      YieldsNothing(alnum, s, at, d, ws);
    } else {
      WordsFromRow(alnum, s, at + |ts[0].text|, ts[1..], d + Opening(ts[0]), ws + Counted(ts[0], d));
      YieldsFirst(alnum, s, at, ts, d, ws);
    }
  }

  /** The words a statement is classified by are those of its tokens that stand outside parentheses. */
  lemma WordsOfRow(alnum: Alnum, s: string, ts: seq<Token>)
    requires IsRow(alnum, s, ts)
    ensures Words(alnum, s) == TopWords(ts, 0)
  {
    assert s[0..] == s;
    WordsFromRead(alnum, s, 0, START);
    RowTaken(alnum, s, 0, ts);
    WordsFromRow(alnum, s, 0, ts, 0, []);
  }

  // ------------------------------------------------------------------ every statement is such a row

  lemma {:induction false} WordThere(alnum: Alnum, s: string) returns (n: nat)
    ensures n <= |s| && IsWord(alnum, s[..n], s[n..])
    ensures s != [] && InWord(alnum, s[0]) ==> n > 0
  {
    if s == [] || !InWord(alnum, s[0]) {
      n := 0;
    } else {
      var m := WordThere(alnum, s[1..]);
      n := m + 1;
      assert s[..n] == [s[0]] + s[1..][..m] && s[n..] == s[1..][m..];
    }
  }

  lemma QuotationThere(alnum: Alnum, s: string) returns (t: Token)
    requires s != [] && IsQuote(s[0])
    ensures t.text <= s && IsToken(alnum, t, s[|t.text|..])
  {
    var p := LiteralThere(alnum, s, true);
    t := Token(Quotation, p.text);
    assert p.text[0] == s[0];
  }

  lemma BlockRemarkThere(alnum: Alnum, s: string) returns (t: Token)
    requires StartsBlock(s)
    ensures t.text <= s && IsToken(alnum, t, s[|t.text|..])
  {
    var p := BlockThere(alnum, s, true);
    t := Token(BlockRemark, p.text);
  }

  lemma NextToken(alnum: Alnum, s: string) returns (t: Token)
    requires s != []
    ensures t.text <= s && IsToken(alnum, t, s[|t.text|..])
  {
    if IsQuote(s[0]) {
      t := QuotationThere(alnum, s);
    } else if StartsLine(s) {
      var n := LineThere(s);
      LineFeedBehind(s, n);
      t := Token(LineRemark, s[..n]);
    } else if StartsBlock(s) {
      t := BlockRemarkThere(alnum, s);
    } else if InWord(alnum, s[0]) {
      var n := WordThere(alnum, s);
      t := Token(Word, s[..n]);
    } else {
      assert s[..1] + s[1..] == s;
      t := Token(Mark, s[..1]);
    }
  }

  lemma {:induction false} RowExists(alnum: Alnum, s: string) returns (ts: seq<Token>)
    ensures IsRow(alnum, s, ts)
    decreases |s|
  {
    if s == [] {
      ts := [];
    } else {
      var t := NextToken(alnum, s);
      var rest := RowExists(alnum, s[|t.text|..]);
      ts := [t] + rest;
      assert ts[1..] == rest;
    }
  }
}
