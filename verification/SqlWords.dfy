/**
The words a statement is classified by (`top_level_words`): bare words outside parentheses,
quotes and comments. The specification reads one character per step; the method jumps.
*/
module SqlWords {
  import opened Text

  datatype Mode = Code | Dash | Slash | Quote(quote: char) | QuoteEnd(quote: char) | Line | Block | BlockStar

  datatype Reader = Reader(mode: Mode, word: string, depth: int, words: seq<string>)

  const START: Reader := Reader(Code, "", 0, [])

  /** The word being read is over; it counts outside parentheses only. */
  function Flush(x: Reader): Reader {
    x.(word := "", words := if x.word != "" && x.depth == 0 then x.words + [AsciiUpper(x.word)] else x.words)
  }

  function StepCode(alnum: Alnum, x: Reader, c: char): Reader {
    if alnum(c) || c == '_' then x.(mode := Code, word := x.word + [c])
    else
      var y := Flush(x);
      if IsQuote(c) then y.(mode := Quote(c))
      else if c == '-' then y.(mode := Dash)
      else if c == '/' then y.(mode := Slash)
      else if c == '(' then y.(mode := Code, depth := y.depth + 1)
      else if c == ')' then y.(mode := Code, depth := y.depth - 1)
      else y.(mode := Code)
  }

  function Step(alnum: Alnum, x: Reader, c: char): Reader {
    match x.mode
    case Code => StepCode(alnum, x, c)
    case Dash => if c == '-' then x.(mode := Line) else StepCode(alnum, x, c)
    case Slash => if c == '*' then x.(mode := Block) else StepCode(alnum, x, c)
    case Quote(q) => if c == q then x.(mode := QuoteEnd(q)) else x
    case QuoteEnd(q) => if c == q then x.(mode := Quote(q)) else StepCode(alnum, x, c)
    case Line => if c == '\n' then x.(mode := Code) else x
    case Block => if c == '*' then x.(mode := BlockStar) else x
    case BlockStar => if c == '/' then x.(mode := Code) else if c == '*' then x else x.(mode := Block)
  }

  function Read(alnum: Alnum, x: Reader, s: string): Reader
    decreases |s|
  {
    if s == [] then x else Read(alnum, Step(alnum, x, s[0]), s[1..])
  }

  function Words(alnum: Alnum, s: string): seq<string> {
    Flush(Read(alnum, START, s)).words
  }

  lemma {:induction false} ReadConcat(alnum: Alnum, x: Reader, a: string, b: string)
    ensures Read(alnum, x, a + b) == Read(alnum, Read(alnum, x, a), b)
    decreases |a|
  {
    if a == [] {
      assert a + b == b;
    } else {
      assert (a + b)[1..] == a[1..] + b;
      ReadConcat(alnum, Step(alnum, x, a[0]), a[1..], b);
    }
  }

  // ------------------------------------------------------------------ trimming does not change the words

  /** Outside plain code no word is being read. */
  predicate WordInv(x: Reader) { x.mode != Code ==> x.word == "" }

  lemma {:induction false} ReadInv(alnum: Alnum, x: Reader, s: string)
    requires WordInv(x)
    ensures WordInv(Read(alnum, x, s))
    decreases |s|
  {
    if s != [] {
      ReadInv(alnum, Step(alnum, x, s[0]), s[1..]);
    }
  }

  lemma BlankStep(alnum: Alnum, x: Reader, c: char)
    requires WordInv(x) && IsWhitespace(c)
    ensures WordInv(Step(alnum, x, c)) && Flush(Step(alnum, x, c)).words == Flush(x).words
    ensures x == START ==> Step(alnum, x, c) == x
  {
    assert !alnum(c);
  }

  lemma {:induction false} BlankTail(alnum: Alnum, x: Reader, s: string)
    requires WordInv(x) && Blank(s)
    ensures Flush(Read(alnum, x, s)).words == Flush(x).words
    ensures x == START ==> Read(alnum, x, s) == x
    decreases |s|
  {
    if s != [] {
      BlankStep(alnum, x, s[0]);
      BlankTail(alnum, Step(alnum, x, s[0]), s[1..]);
    }
  }

  /** White space around a statement never changes its words, whatever the statement ends in the middle of. */
  lemma WordsAround(alnum: Alnum, before: string, s: string, after: string)
    requires Blank(before) && Blank(after)
    ensures Words(alnum, before + s + after) == Words(alnum, s)
  {
    ReadConcat(alnum, START, before + s, after);
    ReadConcat(alnum, START, before, s);
    BlankTail(alnum, START, before);
    ReadInv(alnum, START, s);
    BlankTail(alnum, Read(alnum, START, s), after);
  }

  lemma WordsOfTrim(alnum: Alnum, s: string)
    ensures Words(alnum, Trim(s)) == Words(alnum, s)
  {
    var from := SkipLeft(s, 0, |s|);
    var end := SkipRight(s, from, |s|);
    assert s == s[..from] + s[from..end] + s[end..];
    SkipLeftIs(s, 0, |s|);
    SkipRightIs(s, from, |s|);
    WordsAround(alnum, s[..from], s[from..end], s[end..]);
  }

  // ------------------------------------------------------------------ what is inside a literal does not count

  /** Inside quotes, text whose quotes are doubled is read over, whatever it is. */
  lemma {:induction false} QuotedRun(alnum: Alnum, x: Reader, body: string)
    requires x.mode.Quote?
    ensures Read(alnum, x, Doubled(body, x.mode.quote)) == x
    decreases |body|
  {
    if body != [] {
      var q, rest := x.mode.quote, Doubled(body[1..], x.mode.quote);
      QuotedRun(alnum, x, body[1..]);
      if body[0] == q {
        ReadConcat(alnum, x, [q, q], rest);
        assert [q, q][1..] == [q] && [q][1..] == [];
      } else {
        ReadConcat(alnum, x, [body[0]], rest);
        assert [body[0]][1..] == [];
      }
    }
  }

  /** Where a quote `q` opens a literal: in code, and behind another literal if that has other quotes. */
  predicate OpensLiteral(mode: Mode, q: char) {
    mode == Code || mode == Dash || mode == Slash || (mode.QuoteEnd? && mode.quote != q)
  }

  /**
  What a literal says never counts. Its quotes doubled, any text may stand in it, and any other gives
  the same words, so a WHERE in a literal cannot pass for a clause.
  */
  lemma LiteralsDoNotCount(alnum: Alnum, before: string, q: char, body: string, other: string, after: string)
    requires IsQuote(q) && OpensLiteral(Read(alnum, START, before).mode, q)
    ensures Words(alnum, before + [q] + Doubled(body, q) + [q] + after) ==
      Words(alnum, before + [q] + Doubled(other, q) + [q] + after)
  {
    LiteralRead(alnum, before, q, body, after);
    LiteralRead(alnum, before, q, other, after);
  }

  lemma LiteralRead(alnum: Alnum, before: string, q: char, body: string, after: string)
    requires IsQuote(q) && OpensLiteral(Read(alnum, START, before).mode, q)
    ensures Read(alnum, START, before + [q] + Doubled(body, q) + [q] + after) ==
      Read(alnum, Flush(Read(alnum, START, before)).(mode := QuoteEnd(q)), after)
  {
    var x := Read(alnum, START, before);
    var y := Flush(x).(mode := Quote(q));
    ReadConcat(alnum, START, before + [q] + Doubled(body, q) + [q], after);
    ReadConcat(alnum, START, before + [q] + Doubled(body, q), [q]);
    ReadConcat(alnum, START, before + [q], Doubled(body, q));
    ReadConcat(alnum, START, before, [q]);
    assert !alnum(q);
    assert Read(alnum, x, [q]) == y by {
      assert [q][1..] == [];
    }
    QuotedRun(alnum, y, body);
    assert Read(alnum, y, [q]) == y.(mode := QuoteEnd(q)) by {
      assert [q][1..] == [];
    }
  }

  /** Nothing read while the parentheses stay unbalanced counts: a WHERE in a subquery is not the statement's. */
  lemma {:induction false} NestedDoesNotCount(alnum: Alnum, x: Reader, s: string)
    requires forall n :: 0 <= n <= |s| ==> Read(alnum, x, s[..n]).depth != 0
    ensures Read(alnum, x, s).words == x.words
    decreases |s|
  {
    assert Read(alnum, x, s[..0]) == x;
    if s != [] {
      var y := Step(alnum, x, s[0]);
      forall n | 0 <= n <= |s[1..]| ensures Read(alnum, y, s[1..][..n]).depth != 0 {
        assert s[..n + 1][1..] == s[1..][..n] && s[..n + 1][0] == s[0];
        assert Read(alnum, x, s[..n + 1]) == Read(alnum, y, s[1..][..n]);
      }
      NestedDoesNotCount(alnum, y, s[1..]);
    }
  }

  // ------------------------------------------------------------------ as the source computes it

  /** The words, if reading goes on from position `i` in state `x`. */
  function WordsFrom(alnum: Alnum, s: string, i: nat, x: Reader): seq<string>
    decreases |s| - i
  {
    if i >= |s| then Flush(x).words else WordsFrom(alnum, s, i + 1, Step(alnum, x, s[i]))
  }

  lemma {:induction false} WordsFromRead(alnum: Alnum, s: string, i: nat, x: Reader)
    requires i <= |s|
    ensures WordsFrom(alnum, s, i, x) == Flush(Read(alnum, x, s[i..])).words
    decreases |s| - i
  {
    if i < |s| {
      assert s[i..][1..] == s[i + 1..];
      WordsFromRead(alnum, s, i + 1, Step(alnum, x, s[i]));
    }
  }

  /** Modes that treat the next character alike go on alike; so do all modes at the end. */
  lemma Alike(alnum: Alnum, s: string, i: nat, x: Reader, mode: Mode)
    requires i < |s| ==> Step(alnum, x, s[i]) == Step(alnum, x.(mode := mode), s[i])
    ensures WordsFrom(alnum, s, i, x) == WordsFrom(alnum, s, i, x.(mode := mode))
  {
  }

  method SkipQuote(alnum: Alnum, s: string, at: nat, x: Reader) returns (i: nat)
    requires at < |s| && IsQuote(s[at]) && x.mode == Quote(s[at])
    ensures at < i && WordsFrom(alnum, s, at + 1, x) == WordsFrom(alnum, s, i, x.(mode := Code))
  {
    var quote := s[at];
    i := at + 1;
    while i < |s|
      invariant at < i <= |s|
      invariant WordsFrom(alnum, s, at + 1, x) == WordsFrom(alnum, s, i, x)
    {
      if s[i] == quote {
        if NextIs(s, i, quote) {
          assert WordsFrom(alnum, s, i, x) == WordsFrom(alnum, s, i + 1, x.(mode := QuoteEnd(quote)));
          i := i + 2;
          continue;
        }
        break;
      }
      i := i + 1;
    }
    if i < |s| {
      Alike(alnum, s, i + 1, x.(mode := QuoteEnd(quote)), Code);
    }
    i := i + 1;
  }

  method SkipLine(alnum: Alnum, s: string, at: nat, x: Reader) returns (i: nat)
    requires at < |s| && s[at] == '-' && NextIs(s, at, '-') && x.mode == Line && x.word == ""
    ensures at < i && WordsFrom(alnum, s, at + 2, x) == WordsFrom(alnum, s, i, x.(mode := Code))
  {
    i := at;
    while i < |s| && s[i] != '\n'
      invariant at <= i <= |s|
      invariant i <= at + 2 ==> s[at] != '\n' && s[at + 1] != '\n'
      invariant WordsFrom(alnum, s, at + 2, x) == WordsFrom(alnum, s, if i < at + 2 then at + 2 else i, x)
    {
      i := i + 1;
    }
    assert i >= at + 2;
    assert !alnum('\n');
    Alike(alnum, s, i, x, Code);
  }

  method SkipBlock(alnum: Alnum, s: string, at: nat, x: Reader) returns (i: nat)
    requires at < |s| && s[at] == '/' && NextIs(s, at, '*') && x.mode == Block
    ensures at < i && WordsFrom(alnum, s, at + 2, x) == WordsFrom(alnum, s, i, x.(mode := Code))
  {
    i := at + 2;
    while i < |s| && !(s[i] == '*' && NextIs(s, i, '/'))
      invariant at + 2 <= i <= |s|
      invariant WordsFrom(alnum, s, at + 2, x) == WordsFrom(alnum, s, i, x)
    {
      if s[i] == '*' {
        Alike(alnum, s, i + 1, x.(mode := BlockStar), Block);
      }
      i := i + 1;
    }
    if i < |s| {
      assert WordsFrom(alnum, s, i, x) == WordsFrom(alnum, s, i + 1, x.(mode := BlockStar));
    }
    i := i + 2;
  }

  method TopLevelWords(alnum: Alnum, s: string) returns (words: seq<string>)
    ensures words == Words(alnum, s)
  {
    words := [];
    var word := "";
    var depth := 0;
    var i := 0;
    WordsFromRead(alnum, s, 0, START);
    assert s[0..] == s;
    while i < |s|
      invariant Words(alnum, s) == WordsFrom(alnum, s, i, Reader(Code, word, depth, words))
      decreases |s| - i
    {
      var c := s[i];
      ghost var x := Reader(Code, word, depth, words);
      if IsQuote(c) || (c == '-' && NextIs(s, i, '-')) || (c == '/' && NextIs(s, i, '*')) {
        assert !alnum(c);
        words := if word != "" && depth == 0 then words + [AsciiUpper(word)] else words;
        word := "";
        if IsQuote(c) {
          i := SkipQuote(alnum, s, i, Reader(Quote(c), word, depth, words));
        } else if c == '-' {
          i := SkipLine(alnum, s, i, Reader(Line, word, depth, words));
        } else {
          i := SkipBlock(alnum, s, i, Reader(Block, word, depth, words));
        }
      } else if alnum(c) || c == '_' {
        word := word + [c];
        i := i + 1;
      } else {
        words := if word != "" && depth == 0 then words + [AsciiUpper(word)] else words;
        word := "";
        ghost var y := Step(alnum, x, c);
        depth := if c == '(' then depth + 1 else if c == ')' then depth - 1 else depth;
        i := i + 1;
        Alike(alnum, s, i, y, Code);
      }
    }
    words := if word != "" && depth == 0 then words + [AsciiUpper(word)] else words;
  }
}
