/**
What a statement's text must hold to be labelled a read, a write or destructive: laws on texts
and the words that stand in them, against sets of words listed here.
*/
module SqlClassify {
  import opened Prelude
  import opened Text
  import opened SqlReading
  import opened SqlSpans
  import SqlPieces

  const READERS: set<string> := {
    "SELECT", "SHOW", "VALUES", "TABLE", "EXPLAIN", "DESCRIBE", "DESC", "SET", "RESET", "DISCARD", "BEGIN", "START",
    "COMMIT", "END", "ROLLBACK", "SAVEPOINT", "RELEASE", "LISTEN", "UNLISTEN"}

  const WRITERS: set<string> := {"INSERT", "UPDATE", "DELETE", "MERGE", "REPLACE", "UPSERT"}

  /** What each destructive leader is said to do. */
  const REASONS: map<string, Reason> := map[
    "DROP" := DropRemoves, "TRUNCATE" := TruncateRemoves, "DELETE" := DeletesEveryRow, "UPDATE" := RewritesEveryRow,
    "ALTER" := AlterDrops]

  /** What a statement with these words can lose whole: an object, a part of one, or every row. */
  predicate Destroys(words: seq<string>) {
    words != [] && (
      || words[0] in {"DROP", "TRUNCATE"}
      || (words[0] in {"DELETE", "UPDATE"} && "WHERE" !in words)
      || (words[0] == "ALTER" && "DROP" in words))
  }

  /** The only statements taken for reads; whatever is not known here is a write. */
  ghost predicate OnlyReads(words: seq<string>) {
    || words == []
    || words[0] in READERS
    || (words[0] == "WITH" && forall w :: w in WRITERS ==> w !in words)
    || (words[0] == "PRAGMA" && |words| <= 2)
  }

  lemma ReadersAre(w: string)
    ensures w in READ_LEADERS <==> w in READERS
  {
  }

  lemma WritersAre(w: string)
    ensures w in DML_WRITERS <==> w in WRITERS
  {
  }

  lemma WithExactly(words: seq<string>)
    requires words != [] && words[0] == "WITH"
    ensures ClassifyWords(words).0 == if forall w :: w in WRITERS ==> w !in words then Read else Write
  {
    forall w ensures w in DML_WRITERS <==> w in WRITERS {
      WritersAre(w);
    }
    if exists k :: 0 <= k < |DML_WRITERS| && DML_WRITERS[k] in words {
      var k :| 0 <= k < |DML_WRITERS| && DML_WRITERS[k] in words;
      assert DML_WRITERS[k] in DML_WRITERS;
    } else {
      forall w | w in WRITERS ensures w !in words {
        assert w in DML_WRITERS;
      }
    }
  }

  lemma KindExactly(words: seq<string>)
    ensures ClassifyWords(words).0 == Destructive <==> Destroys(words)
    ensures ClassifyWords(words).0 == Read <==> OnlyReads(words)
    ensures ClassifyWords(words).1.Some? <==> Destroys(words)
    ensures Destroys(words) ==> words[0] in REASONS && ClassifyWords(words).1.value == REASONS[words[0]]
  {
    if words != [] && words[0] == "WITH" {
      WithExactly(words);
    } else if words != [] {
      ReadersAre(words[0]);
    }
  }

  lemma DeleteExactly(words: seq<string>)
    requires words != [] && words[0] in {"DELETE", "UPDATE"}
    ensures ClassifyWords(words).0 == if "WHERE" in words then Write else Destructive
  {
  }

  lemma DropExactly(words: seq<string>)
    requires words != []
    ensures words[0] in {"DROP", "TRUNCATE"} ==> ClassifyWords(words).0 == Destructive
    ensures words[0] == "ALTER" ==> ClassifyWords(words).0 == if "DROP" in words then Destructive else Write
  {
  }

  // ------------------------------------------------------------------ texts

  /** Token `k` is the word `word`, in any case, with as many parentheses opened as closed before it. */
  predicate TopAt(ts: seq<Token>, k: nat, word: string)
    requires k < |ts|
  {
    ts[k].kind.Word? && AsciiUpper(ts[k].text) == word && Depth(ts[..k]) == 0
  }

  predicate HasTop(ts: seq<Token>, word: string) {
    exists k :: 0 <= k < |ts| && TopAt(ts, k, word)
  }

  /** Token `k` is the word `word` at the top, when `depth` parentheses are open before the first token. */
  predicate TopFrom(ts: seq<Token>, depth: int, k: nat, word: string)
    requires k < |ts|
  {
    ts[k].kind.Word? && AsciiUpper(ts[k].text) == word && depth + Depth(ts[..k]) == 0
  }

  lemma TopLater(ts: seq<Token>, depth: int, k: nat, word: string)
    requires 0 < k < |ts|
    ensures TopFrom(ts, depth, k, word) <==> TopFrom(ts[1..], depth + Opening(ts[0]), k - 1, word)
  {
    assert ts[..k][1..] == ts[1..][..k - 1];
  }

  lemma {:induction false} TopWordsHave(ts: seq<Token>, depth: int, word: string)
    ensures word in TopWords(ts, depth) <==> exists k :: 0 <= k < |ts| && TopFrom(ts, depth, k, word)
    decreases |ts|
  {
    if ts != [] {
      var rest, d := ts[1..], depth + Opening(ts[0]);
      TopWordsHave(rest, d, word);
      if TopFrom(ts, depth, 0, word) {
        assert word in Counted(ts[0], depth);
      } else if k :| 0 <= k < |ts| && TopFrom(ts, depth, k, word) {
        TopLater(ts, depth, k, word);
      } else if k :| 0 <= k < |rest| && TopFrom(rest, d, k, word) {
        TopLater(ts, depth, k + 1, word);
      }
    }
  }

  lemma TopIs(ts: seq<Token>, word: string)
    ensures word in TopWords(ts, 0) <==> HasTop(ts, word)
  {
    TopWordsHave(ts, 0, word);
    forall k | 0 <= k < |ts| ensures TopFrom(ts, 0, k, word) <==> TopAt(ts, k, word) {
    }
  }

  /**
  A statement is labelled by its words outside parentheses, quotations and remarks: destructive or a read exactly
  as listed above, and with the reason its leader is listed with.
  */
  lemma LabelExactly(alnum: Alnum, text: string, ts: seq<Token>)
    requires IsRow(alnum, text, ts)
    ensures var r, words := Label(alnum, text), TopWords(ts, 0);
      && (r.kind == Destructive <==> Destroys(words))
      && (r.kind == Kind.Read <==> OnlyReads(words))
      && r.reason == if Destroys(words) then Some(REASONS[words[0]]) else None
  {
    WordsOfRow(alnum, text, ts);
    KindExactly(TopWords(ts, 0));
  }

  /**
  A DELETE or an UPDATE is destructive exactly when no WHERE, in any case, stands in it as a word outside
  parentheses; a WHERE in a subquery, a quotation or a remark is no such word.
  */
  lemma DeleteNeedsWhere(alnum: Alnum, text: string, ts: seq<Token>)
    requires IsRow(alnum, text, ts) && TopWords(ts, 0) != [] && TopWords(ts, 0)[0] in {"DELETE", "UPDATE"}
    ensures Label(alnum, text).kind == if HasTop(ts, "WHERE") then Write else Destructive
  {
    var words := TopWords(ts, 0);
    WordsOfRow(alnum, text, ts);
    DeleteExactly(words);
    TopIs(ts, "WHERE");
  }

  /** Dropping and truncating are destructive, and so is an ALTER that drops; no other ALTER is. */
  lemma DropsAreDestructive(alnum: Alnum, text: string, ts: seq<Token>)
    requires IsRow(alnum, text, ts) && TopWords(ts, 0) != []
    ensures var first, r := TopWords(ts, 0)[0], Label(alnum, text);
      && (first in {"DROP", "TRUNCATE"} ==> r.kind == Destructive)
      && (first == "ALTER" ==> r.kind == if HasTop(ts, "DROP") then Destructive else Write)
  {
    var words := TopWords(ts, 0);
    WordsOfRow(alnum, text, ts);
    DropExactly(words);
    TopIs(ts, "DROP");
  }

  // ------------------------------------------------------------------ what counts in a text

  lemma {:induction false} TopWordsConcat(a: seq<Token>, b: seq<Token>, depth: int)
    ensures TopWords(a + b, depth) == TopWords(a, depth) + TopWords(b, depth + Depth(a))
    decreases |a|
  {
    if a == [] {
      assert a + b == b;
    } else {
      assert (a + b)[1..] == a[1..] + b;
      TopWordsConcat(a[1..], b, depth + Opening(a[0]));
      AppendAssoc(Counted(a[0], depth), TopWords(a[1..], depth + Opening(a[0])), TopWords(b, depth + Depth(a)));
    }
  }

  predicate IsHidden(t: Token) { t.kind.Quotation? || t.kind.LineRemark? || t.kind.BlockRemark? }

  lemma TopWordsOne(t: Token, depth: int)
    ensures TopWords([t], depth) == Counted(t, depth)
  {
    assert [t][1..] == [];
    assert TopWords([t][1..], depth + Opening(t)) == [];
  }

  lemma {:induction false} DepthSnoc(a: seq<Token>, t: Token)
    ensures Depth(a + [t]) == Depth(a) + Opening(t)
    decreases |a|
  {
    if a == [] {
      assert a + [t] == [t] && [t][1..] == [];
      assert Depth([t][1..]) == 0;
    } else {
      assert (a + [t])[1..] == a[1..] + [t];
      DepthSnoc(a[1..], t);
    }
  }

  lemma HiddenAddsNothing(a: seq<Token>, t: Token, b: seq<Token>)
    requires IsHidden(t)
    ensures TopWords(a + [t] + b, 0) == TopWords(a, 0) + TopWords(b, Depth(a))
  {
    TopWordsConcat(a + [t], b, 0);
    TopWordsConcat(a, [t], 0);
    TopWordsOne(t, 0 + Depth(a));
    DepthSnoc(a, t);
    AppendAssoc(TopWords(a, 0), [], TopWords(b, Depth(a)));
    assert TopWords(a, 0) + [] == TopWords(a, 0);
  }

  /** A text with one quotation or remark saying something else has the same label. */
  lemma HiddenDoesNotCount(alnum: Alnum, text: string, other: string, a: seq<Token>, t: Token, u: Token, b: seq<Token>)
    requires IsRow(alnum, text, a + [t] + b) && IsRow(alnum, other, a + [u] + b)
    requires IsHidden(t) && IsHidden(u)
    ensures Label(alnum, text).kind == Label(alnum, other).kind
    ensures Label(alnum, text).reason == Label(alnum, other).reason
  {
    HiddenAddsNothing(a, t, b);
    HiddenAddsNothing(a, u, b);
    WordsOfRow(alnum, text, a + [t] + b);
    WordsOfRow(alnum, other, a + [u] + b);
  }

  // ------------------------------------------------------------------ a clause put behind a statement

  lemma MarkStays(t: string, rest: string, other: string)
    requires |t| == 1 && rest != [] && other != [] && rest[0] == other[0]
    ensures SqlPieces.StartsLine(t + other) <==> SqlPieces.StartsLine(t + rest)
    ensures SqlPieces.StartsBlock(t + other) <==> SqlPieces.StartsBlock(t + rest)
  {
    var u, v := t + other, t + rest;
    assert u[0] == t[0] == v[0] && u[1] == other[0] && v[1] == rest[0];
  }

  /** Of what follows a token only the first character matters. */
  lemma TokenStays(alnum: Alnum, t: Token, rest: string, other: string)
    requires IsToken(alnum, t, rest) && rest != [] && other != [] && rest[0] == other[0]
    ensures IsToken(alnum, t, other)
  {
    if t.kind.Quotation? {
      var body :| SqlPieces.LiteralOf(t.text, t.text[0], body, rest);
      assert SqlPieces.LiteralOf(t.text, t.text[0], body, other);
    } else if t.kind.Mark? {
      MarkStays(t.text, rest, other);
    }
  }

  lemma FirstThenRow(alnum: Alnum, t: Token, rest: string, ts: seq<Token>)
    requires IsToken(alnum, t, rest) && IsRow(alnum, rest, ts)
    ensures IsRow(alnum, t.text + rest, [t] + ts)
  {
    assert (t.text + rest)[|t.text|..] == rest && ([t] + ts)[1..] == ts;
  }

  /** The row does not end in what goes on over a blank: a quotation or remark left open. */
  ghost predicate IsClosed(alnum: Alnum, ts: seq<Token>) {
    ts != [] ==> IsToken(alnum, Last(ts), " ")
  }

  lemma LastStays(alnum: Alnum, text: string, ts: seq<Token>, tail: string)
    requires ts != [] && IsRow(alnum, text, ts) && IsClosed(alnum, ts) && tail != [] && tail[0] == ' '
    ensures IsToken(alnum, ts[0], text[|ts[0].text|..] + tail)
  {
    var rest := text[|ts[0].text|..];
    if |ts| == 1 {
      assert rest + tail == tail;
      TokenStays(alnum, ts[0], " ", tail);
    } else {
      TokenStays(alnum, ts[0], rest, rest + tail);
    }
  }

  /** Such a statement is read as before when a blank and more is put behind it. */
  lemma {:induction false} RowExtends(alnum: Alnum, text: string, ts: seq<Token>, tail: string, us: seq<Token>)
    requires IsRow(alnum, text, ts) && IsClosed(alnum, ts)
    requires IsRow(alnum, tail, us) && tail != [] && tail[0] == ' '
    ensures IsRow(alnum, text + tail, ts + us)
    decreases |ts|
  {
    if ts == [] {
      assert text + tail == tail && ts + us == us;
    } else {
      var t, rest := ts[0], text[|ts[0].text|..];
      assert |ts| > 1 ==> Last(ts[1..]) == Last(ts);
      RowExtends(alnum, rest, ts[1..], tail, us);
      LastStays(alnum, text, ts, tail);
      FirstThenRow(alnum, t, rest + tail, ts[1..] + us);
      assert t.text + rest == text;
      AppendAssoc(t.text, rest, tail);
      assert [t] + ts[1..] == ts;
      AppendAssoc([t], ts[1..], us);
    }
  }

  lemma WhereIsWord(alnum: Alnum, w: string, after: string)
    requires AsciiUpper(w) == "WHERE" && (after != [] ==> !InWord(alnum, after[0]))
    ensures IsToken(alnum, Token(Word, w), after)
  {
    forall k | 0 <= k < |w| ensures InWord(alnum, w[k]) {
      assert AsciiUpperChar(w[k]) == "WHERE"[k];
    }
  }

  lemma BlankIsMark(alnum: Alnum, rest: string)
    ensures IsToken(alnum, Token(Mark, " "), rest)
  {
    assert !alnum(' ');
    assert (" " + rest)[0] == ' ';
  }

  /** The row of a WHERE clause behind a blank. */
  lemma ClauseRow(alnum: Alnum, w: string, after: string) returns (us: seq<Token>)
    requires AsciiUpper(w) == "WHERE" && (after != [] ==> !InWord(alnum, after[0]))
    ensures IsRow(alnum, " " + (w + after), us) && "WHERE" in TopWords(us, 0)
  {
    var vs := RowExists(alnum, after);
    WhereIsWord(alnum, w, after);
    FirstThenRow(alnum, Token(Word, w), after, vs);
    BlankIsMark(alnum, w + after);
    FirstThenRow(alnum, Token(Mark, " "), w + after, [Token(Word, w)] + vs);
    us := [Token(Mark, " ")] + ([Token(Word, w)] + vs);
    TopWordsConcat([Token(Mark, " ")], [Token(Word, w)] + vs, 0);
    TopWordsConcat([Token(Word, w)], vs, 0);
    TopWordsOne(Token(Word, w), 0);
    assert Depth([Token(Mark, " ")]) == 0 by {
      assert [Token(Mark, " ")][1..] == [];
      assert Depth([Token(Mark, " ")][1..]) == 0;
    }
  }

  /**
  A DELETE or an UPDATE with a WHERE clause put behind it, in any case, is a plain write, as long as what it is put
  behind leaves no parenthesis, quotation or remark open.
  */
  lemma AppendingWhere(alnum: Alnum, text: string, ts: seq<Token>, w: string, after: string)
    requires IsRow(alnum, text, ts) && Depth(ts) == 0 && IsClosed(alnum, ts)
    requires TopWords(ts, 0) != [] && TopWords(ts, 0)[0] in {"DELETE", "UPDATE"}
    requires AsciiUpper(w) == "WHERE" && (after != [] ==> !InWord(alnum, after[0]))
    ensures Label(alnum, text + " " + w + after).kind == Write
  {
    var us := ClauseRow(alnum, w, after);
    var tail := " " + (w + after);
    RowExtends(alnum, text, ts, tail, us);
    AppendAssoc(text, " ", w + after);
    AppendAssoc(text + " ", w, after);
    TopWordsConcat(ts, us, 0);
    WordsOfRow(alnum, text + tail, ts + us);
    DeleteExactly(TopWords(ts, 0) + TopWords(us, 0));
  }

  // ------------------------------------------------------------------ what the editor is told

  /** The intent of a span: that of a read if a shell command opens it, else what its text is labelled as. */
  lemma IntentExactly(alnum: Alnum, s: string, k: nat, ts: seq<Token>)
    requires k < |Spans(alnum, s)| && IsRow(alnum, s[PiecesOf(alnum, s)[k].0..PiecesOf(alnum, s)[k].1], ts)
    ensures var p, words := PiecesOf(alnum, s)[k], TopWords(ts, 0);
      Spans(alnum, s)[k].intent ==
        if s[p.0] == '\\' || (s[p.0] == '.' && p.0 + 1 < p.1 && IsAsciiAlpha(s[p.0 + 1])) then Kind.Read
        else if Destroys(words) then Destructive else if OnlyReads(words) then Kind.Read else Write
  {
    var p := PiecesOf(alnum, s)[k];
    RunningOneStatement(alnum, s, k);
    SpansMatchStatements(alnum, s);
    LabelExactly(alnum, s[p.0..p.1], ts);
  }
}
