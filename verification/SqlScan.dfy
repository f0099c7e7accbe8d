/**
`scan`, the index-jumping statement splitter of src-tauri/src/guard/destructive.rs, proved to
cut where the one-character lexer cuts. Each inner loop is a method of its own; its contract
says that jumping over the construct is what the lexer does step by step.
*/
module SqlScan {
  import opened Text
  import opened SqlLexer

  predicate StartsShellCommand(s: string, i: nat)
    requires i < |s|
  {
    s[i] == '\\' || (s[i] == '.' && i + 1 < |s| && IsAsciiAlpha(s[i + 1]))
  }

  /** The lexer goes on from `i` in mode `m` as it goes on from `j` in mode `n`. */
  ghost predicate Same(alnum: Alnum, s: string, i: nat, m: Mode, j: nat, n: Mode) {
    forall start: nat, out: seq<Range> :: start <= i && start <= j && start <= |s| ==>
      LexFrom(alnum, s, i, Lexer(m, start, out)) == LexFrom(alnum, s, j, Lexer(n, start, out))
  }

  /** Two modes that treat the next character alike, neither of them a shell line, go on alike. */
  lemma SameNow(alnum: Alnum, s: string, i: nat, m: Mode, n: Mode)
    requires !m.Shell? && !n.Shell?
    requires i < |s| ==> (CutsAt(m, s[i]) <==> CutsAt(n, s[i])) && StepMode(alnum, m, s[i]) == StepMode(alnum, n, s[i])
    ensures Same(alnum, s, i, m, i, n)
  {
    forall start: nat, out: seq<Range> | start <= i && start <= |s|
      ensures LexFrom(alnum, s, i, Lexer(m, start, out)) == LexFrom(alnum, s, i, Lexer(n, start, out)) {
      if i < |s| {
        assert Step(alnum, Lexer(m, start, out), s[i], i) == Step(alnum, Lexer(n, start, out), s[i], i);
      }
    }
  }

  /** One step without a cut. */
  lemma SameStep(alnum: Alnum, s: string, i: nat, m: Mode)
    requires i < |s| && !CutsAt(m, s[i])
    ensures Same(alnum, s, i, m, i + 1, StepMode(alnum, m, s[i]))
  {
  }

  lemma SameTrans(alnum: Alnum, s: string, i: nat, m: Mode, j: nat, n: Mode, k: nat, p: Mode)
    requires i <= j <= k && Same(alnum, s, i, m, j, n) && Same(alnum, s, j, n, k, p)
    ensures Same(alnum, s, i, m, k, p)
  {
  }

  // ------------------------------------------------------------------ quotes

  /** Jumps over a whole quoted text. Two quotes in a row stay inside it. */
  method SkipQuote(alnum: Alnum, s: string, at: nat) returns (i: nat)
    requires at < |s| && IsQuote(s[at])
    ensures at < i && Same(alnum, s, at, Normal, i, Normal)
  {
    var quote := s[at];
    i := at + 1;
    SameStep(alnum, s, at, Normal);
    while i < |s|
      invariant at < i <= |s|
      invariant Same(alnum, s, at, Normal, i, Quote(quote))
    {
      SameStep(alnum, s, i, Quote(quote));
      if s[i] == quote {
        if NextIs(s, i, quote) {
          SameTrans(alnum, s, at, Normal, i, Quote(quote), i + 1, QuoteEnd(quote));
          SameStep(alnum, s, i + 1, QuoteEnd(quote));
          SameTrans(alnum, s, at, Normal, i + 1, QuoteEnd(quote), i + 2, Quote(quote));
          i := i + 2;
          continue;
        }
        SameTrans(alnum, s, at, Normal, i, Quote(quote), i + 1, QuoteEnd(quote));
        SameNow(alnum, s, i + 1, QuoteEnd(quote), Normal);
        SameTrans(alnum, s, at, Normal, i + 1, QuoteEnd(quote), i + 1, Normal);
        return i + 1;
      }
      SameTrans(alnum, s, at, Normal, i, Quote(quote), i + 1, Quote(quote));
      i := i + 1;
    }
    EndsAlike(alnum, s, i, i + 1, Quote(quote), Normal);
    SameTrans(alnum, s, at, Normal, i, Quote(quote), i + 1, Normal);
    i := i + 1;
  }

  /** At the end of the script no mode but a shell line matters. */
  lemma EndsAlike(alnum: Alnum, s: string, i: nat, j: nat, m: Mode, n: Mode)
    requires i >= |s| && j >= |s| && !m.Shell? && !n.Shell?
    ensures Same(alnum, s, i, m, j, n)
  {
  }

  // ------------------------------------------------------------------ comments

  /** To the end of the line a `--` comment opens on. */
  method SkipLine(alnum: Alnum, s: string, at: nat, clean: bool) returns (i: nat)
    requires at < |s| && s[at] == '-' && NextIs(s, at, '-')
    ensures at < i && Same(alnum, s, at, Code(clean), i, Code(clean))
  {
    SameStep(alnum, s, at, Code(clean));
    SameStep(alnum, s, at + 1, Dash(clean));
    SameTrans(alnum, s, at, Code(clean), at + 1, Dash(clean), at + 2, Line(clean));
    i := at;
    while i < |s| && s[i] != '\n'
      invariant at <= i <= |s|
      invariant i <= at + 2 ==> s[at] != '\n' && s[at + 1] != '\n'
      invariant Same(alnum, s, at, Code(clean), if i < at + 2 then at + 2 else i, Line(clean))
    {
      if i >= at + 2 {
        SameStep(alnum, s, i, Line(clean));
        SameTrans(alnum, s, at, Code(clean), i, Line(clean), i + 1, Line(clean));
      }
      i := i + 1;
    }
    assert i >= at + 2;
    SameNow(alnum, s, i, Line(clean), Code(clean));
    SameTrans(alnum, s, at, Code(clean), i, Line(clean), i, Code(clean));
  }

  /** Inside a block comment only the two characters that close it matter. */
  lemma BlockStep(alnum: Alnum, s: string, i: nat, clean: bool)
    requires i < |s|
    ensures if s[i] == '*' && NextIs(s, i, '/')
      then Same(alnum, s, i, Block(clean), i + 2, Code(clean))
      else Same(alnum, s, i, Block(clean), i + 1, Block(clean))
  {
    SameStep(alnum, s, i, Block(clean));
    if s[i] == '*' {
      if NextIs(s, i, '/') {
        SameStep(alnum, s, i + 1, BlockStar(clean));
        SameTrans(alnum, s, i, Block(clean), i + 1, BlockStar(clean), i + 2, Code(clean));
      } else {
        SameNow(alnum, s, i + 1, BlockStar(clean), Block(clean));
        SameTrans(alnum, s, i, Block(clean), i + 1, BlockStar(clean), i + 1, Block(clean));
      }
    }
  }

  /** Past the end of a block comment. */
  method SkipBlock(alnum: Alnum, s: string, at: nat, clean: bool) returns (i: nat)
    requires at < |s| && s[at] == '/' && NextIs(s, at, '*')
    ensures at < i && Same(alnum, s, at, Code(clean), i, Code(clean))
  {
    SameStep(alnum, s, at, Code(clean));
    SameStep(alnum, s, at + 1, Slash(clean));
    SameTrans(alnum, s, at, Code(clean), at + 1, Slash(clean), at + 2, Block(clean));
    i := at + 2;
    while i < |s|
      invariant at + 2 <= i <= |s|
      invariant Same(alnum, s, at, Code(clean), i, Block(clean))
    {
      BlockStep(alnum, s, i, clean);
      if s[i] == '*' && NextIs(s, i, '/') {
        SameTrans(alnum, s, at, Code(clean), i, Block(clean), i + 2, Code(clean));
        return i + 2;
      }
      SameTrans(alnum, s, at, Code(clean), i, Block(clean), i + 1, Block(clean));
      i := i + 1;
    }
    EndsAlike(alnum, s, i, i, Block(clean), Code(clean));
    SameTrans(alnum, s, at, Code(clean), i, Block(clean), i, Code(clean));
  }

  // ------------------------------------------------------------------ dollar quotes

  predicate StartsWithAt(s: string, i: nat, tag: string) {
    i + |tag| <= |s| && s[i..i + |tag|] == tag
  }

  lemma EndIsStart(s: string, b: nat, e: nat, tag: string)
    requires b <= e <= |s|
    ensures EndsWith(s[b..e], tag) <==> b + |tag| <= e && StartsWithAt(s, e - |tag|, tag)
  {
    if b + |tag| <= e {
      assert s[b..e][e - b - |tag|..] == s[e - |tag|..e];
    }
  }

  /** One more character of the body. */
  lemma BodyStep(alnum: Alnum, s: string, b: nat, e: nat, tag: string)
    requires b <= e < |s|
    ensures Same(alnum, s, e, Body(tag, s[b..e]), e + 1,
      if EndsWith(s[b..e + 1], tag) then Normal else Body(tag, s[b..e + 1]))
  {
    assert s[b..e] + [s[e]] == s[b..e + 1];
    SameStep(alnum, s, e, Body(tag, s[b..e]));
  }

  /** Until the tag first ends, the body goes on. */
  lemma {:induction false} BodyGoesOn(alnum: Alnum, s: string, b: nat, e: nat, tag: string)
    requires b <= e <= |s| && |tag| > 0
    requires forall p :: b <= p && p + |tag| <= e ==> !StartsWithAt(s, p, tag)
    ensures Same(alnum, s, b, Body(tag, ""), e, Body(tag, s[b..e]))
  {
    if e > b {
      BodyGoesOn(alnum, s, b, e - 1, tag);
      BodyStays(alnum, s, b, e, tag);
      SameTrans(alnum, s, b, Body(tag, ""), e - 1, Body(tag, s[b..e - 1]), e, Body(tag, s[b..e]));
    } else {
      assert s[b..e] == "";
    }
  }

  lemma BodyStays(alnum: Alnum, s: string, b: nat, e: nat, tag: string)
    requires b < e <= |s|
    requires b + |tag| <= e ==> !StartsWithAt(s, e - |tag|, tag)
    ensures Same(alnum, s, e - 1, Body(tag, s[b..e - 1]), e, Body(tag, s[b..e]))
  {
    EndIsStart(s, b, e, tag);
    BodyStep(alnum, s, b, e - 1, tag);
  }

  /** The body ends where the tag first occurs. */
  lemma BodyEnds(alnum: Alnum, s: string, b: nat, i: nat, tag: string)
    requires b <= i && |tag| > 0 && StartsWithAt(s, i, tag)
    requires forall p :: b <= p < i ==> !StartsWithAt(s, p, tag)
    ensures Same(alnum, s, b, Body(tag, ""), i + |tag|, Normal)
  {
    var e := i + |tag|;
    BodyGoesOn(alnum, s, b, e - 1, tag);
    EndIsStart(s, b, e, tag);
    BodyStep(alnum, s, b, e - 1, tag);
    SameTrans(alnum, s, b, Body(tag, ""), e - 1, Body(tag, s[b..e - 1]), e, Normal);
  }

  /** Tag characters are inert in code, so a `$` that opens nothing can be passed over alone. */
  lemma {:induction false} TagIsInert(alnum: Alnum, s: string, i: nat, j: nat)
    requires i <= j <= |s| && forall k :: i <= k < j ==> IsTagChar(alnum, s[k])
    ensures Same(alnum, s, i, Normal, j, Normal)
    decreases j - i
  {
    if i < j {
      assert s[i] as int >= 128 || IsAsciiAlnum(s[i]) || s[i] == '_';
      SameStep(alnum, s, i, Normal);
      TagIsInert(alnum, s, i + 1, j);
      SameTrans(alnum, s, i, Normal, i + 1, Normal, j, Normal);
    }
  }

  /** Past the first occurrence of the tag at or after `b`. */
  method SkipBody(alnum: Alnum, s: string, b: nat, tag: string) returns (i: nat)
    requires b <= |s| && |tag| > 0
    ensures b <= i && Same(alnum, s, b, Body(tag, ""), i, Normal)
  {
    i := b;
    while i < |s|
      invariant b <= i <= |s|
      invariant forall p :: b <= p < i ==> !StartsWithAt(s, p, tag)
    {
      if StartsWithAt(s, i, tag) {
        BodyEnds(alnum, s, b, i, tag);
        return i + |tag|;
      }
      i := i + 1;
    }
    BodyGoesOn(alnum, s, b, i, tag);
    EndsAlike(alnum, s, i, i, Body(tag, s[b..i]), Normal);
    SameTrans(alnum, s, b, Body(tag, ""), i, Body(tag, s[b..i]), i, Normal);
  }

  lemma TagStep(alnum: Alnum, s: string, at: nat, j: nat)
    requires at < j < |s| && IsTagChar(alnum, s[j])
    ensures Same(alnum, s, j, Tag(s[at..j]), j + 1, Tag(s[at..j + 1]))
  {
    assert s[at..j + 1] == s[at..j] + [s[j]];
    assert !alnum(';');
    SameStep(alnum, s, j, Tag(s[at..j]));
  }

  /** The end of the run of tag characters after a `$`. */
  method TagEnd(alnum: Alnum, s: string, at: nat) returns (j: nat)
    requires at < |s| && s[at] == '$'
    ensures at < j <= |s| && forall k :: at < k < j ==> IsTagChar(alnum, s[k])
    ensures j < |s| ==> !IsTagChar(alnum, s[j])
    ensures Same(alnum, s, at, Normal, j, Tag(s[at..j]))
  {
    SameStep(alnum, s, at, Normal);
    assert s[at..at + 1] == "$";
    j := at + 1;
    while j < |s| && IsTagChar(alnum, s[j])
      invariant at < j <= |s|
      invariant forall k :: at < k < j ==> IsTagChar(alnum, s[k])
      invariant Same(alnum, s, at, Normal, j, Tag(s[at..j]))
    {
      TagStep(alnum, s, at, j);
      SameTrans(alnum, s, at, Normal, j, Tag(s[at..j]), j + 1, Tag(s[at..j + 1]));
      j := j + 1;
    }
  }

  /** A `$` alone is one character; `$tag$` opens a body that is skipped whole. */
  method SkipDollar(alnum: Alnum, s: string, at: nat) returns (i: nat)
    requires at < |s| && s[at] == '$'
    ensures at < i && Same(alnum, s, at, Normal, i, Normal)
  {
    var j := TagEnd(alnum, s, at);
    if j < |s| && s[j] == '$' {
      SameStep(alnum, s, j, Tag(s[at..j]));
      assert s[at..j + 1] == s[at..j] + "$";
      SameTrans(alnum, s, at, Normal, j, Tag(s[at..j]), j + 1, Body(s[at..j + 1], ""));
      i := SkipBody(alnum, s, j + 1, s[at..j + 1]);
      SameTrans(alnum, s, at, Normal, j + 1, Body(s[at..j + 1], ""), i, Normal);
    } else {
      i := at + 1;
      TagIsInert(alnum, s, at + 1, j);
      SameNow(alnum, s, j, Tag(s[at..j]), Normal);
      Rewind(alnum, s, at, j);
    }
  }

  lemma Rewind(alnum: Alnum, s: string, at: nat, j: nat)
    requires at < j <= |s|
    requires Same(alnum, s, at, Normal, j, Tag(s[at..j]))
    requires Same(alnum, s, j, Tag(s[at..j]), j, Normal)
    requires Same(alnum, s, at + 1, Normal, j, Normal)
    ensures Same(alnum, s, at, Normal, at + 1, Normal)
  {
  }

  // ------------------------------------------------------------------ the scanner

  /** The end of the line a shell command stands on. */
  method ShellEnd(s: string, at: nat) returns (end: nat)
    requires at <= |s|
    ensures at <= end <= |s|
    ensures end < |s| ==> s[end] == '\n'
    ensures forall k :: at <= k < end ==> s[k] != '\n'
  {
    end := at;
    while end < |s| && s[end] != '\n'
      invariant at <= end <= |s|
      invariant forall k :: at <= k < end ==> s[k] != '\n'
    {
      end := end + 1;
    }
  }

  lemma {:induction false} ShellGoesOn(alnum: Alnum, s: string, i: nat, end: nat)
    requires i <= end <= |s| && forall k :: i <= k < end ==> s[k] != '\n'
    ensures Same(alnum, s, i, Shell, end, Shell)
    decreases end - i
  {
    if i < end {
      SameStep(alnum, s, i, Shell);
      ShellGoesOn(alnum, s, i + 1, end);
      SameTrans(alnum, s, i, Shell, i + 1, Shell, end, Shell);
    }
  }

  /** The lexer reads a shell command through to the line feed, and cuts there. */
  lemma ShellLine(alnum: Alnum, s: string, i: nat, end: nat, start: nat, out: seq<Range>)
    requires start <= i < |s| && StartsShellCommand(s, i)
    requires i <= end <= |s| && (end < |s| ==> s[end] == '\n') && forall k :: i <= k < end ==> s[k] != '\n'
    ensures i < end
    ensures LexFrom(alnum, s, i, Lexer(Fresh, start, out)) ==
      LexFrom(alnum, s, end, Lexer(Fresh, end, out + [(start, end)]))
  {
    SameStep(alnum, s, i, Fresh);
    if s[i] == '\\' {
      ShellGoesOn(alnum, s, i + 1, end);
    } else {
      SameStep(alnum, s, i + 1, Dot);
      SameTrans(alnum, s, i, Fresh, i + 1, Dot, i + 2, Shell);
      ShellGoesOn(alnum, s, i + 2, end);
    }
    if end < |s| {
      var cut := Lexer(Fresh, end, out + [(start, end)]);
      assert Step(alnum, Lexer(Shell, start, out), s[end], end) == cut == Step(alnum, cut, s[end], end);
    } else {
      assert s[end..] == [];
    }
  }

  /** A character that opens nothing, in code: one step, and what follows is code. */
  lemma PlainStep(alnum: Alnum, s: string, i: nat, m: Mode)
    requires i < |s| && (m == Normal || (m == Fresh && !IsWhitespace(s[i]) && !StartsShellCommand(s, i)))
    requires !IsQuote(s[i]) && s[i] != '$' && s[i] != ';'
    requires !(s[i] == '-' && NextIs(s, i, '-')) && !(s[i] == '/' && NextIs(s, i, '*'))
    ensures Same(alnum, s, i, m, i + 1, Normal)
  {
    SameStep(alnum, s, i, m);
    var n := StepMode(alnum, m, s[i]);
    SameNow(alnum, s, i + 1, n, Normal);
    SameTrans(alnum, s, i, m, i + 1, n, i + 1, Normal);
  }

  /** Where a shell command cannot start, a fresh lexer treats code as any other does. */
  lemma FreshIsNormal(alnum: Alnum, s: string, i: nat)
    requires i < |s| && (IsQuote(s[i]) || s[i] == '$')
    ensures Same(alnum, s, i, Fresh, i, Normal)
  {
    SameNow(alnum, s, i, Fresh, Normal);
  }

  method Scan(alnum: Alnum, s: string) returns (out: seq<Range>)
    ensures out == Lex(alnum, s)
  {
    out := [];
    var start := 0;
    var i := 0;
    var clean := true;
    while i < |s|
      invariant start <= i && start <= |s|
      invariant Lex(alnum, s) == LexFrom(alnum, s, i, Lexer(Code(clean), start, out))
      decreases |s| - i
    {
      var c := s[i];
      if clean && IsWhitespace(c) {
        SameStep(alnum, s, i, Fresh);
        i := i + 1;
        continue;
      }
      if clean && StartsShellCommand(s, i) {
        var end := ShellEnd(s, i);
        ShellLine(alnum, s, i, end, start, out);
        out, start, i := out + [(start, end)], end, end;
        continue;
      }
      if c == '-' && NextIs(s, i, '-') {
        i := SkipLine(alnum, s, i, clean);
      } else if c == '/' && NextIs(s, i, '*') {
        i := SkipBlock(alnum, s, i, clean);
      } else if c == ';' {
        assert Step(alnum, Lexer(Code(clean), start, out), c, i) == Lexer(Fresh, i + 1, out + [(start, i)]);
        out, start, i, clean := out + [(start, i)], i + 1, i + 1, true;
      } else {
        i := SkipCode(alnum, s, i, clean);
        clean := false;
      }
    }
    if exists k :: start <= k < |s| && !IsWhitespace(s[k]) {
      out := out + [(start, |s|)];
    }
  }

  /** Any other character: a quote or a dollar body is skipped whole, the rest one at a time. */
  method SkipCode(alnum: Alnum, s: string, at: nat, clean: bool) returns (i: nat)
    requires at < |s| && s[at] != ';'
    requires clean ==> !IsWhitespace(s[at]) && !StartsShellCommand(s, at)
    requires !(s[at] == '-' && NextIs(s, at, '-')) && !(s[at] == '/' && NextIs(s, at, '*'))
    ensures at < i && Same(alnum, s, at, Code(clean), i, Normal)
  {
    if IsQuote(s[at]) {
      i := SkipQuote(alnum, s, at);
    } else if s[at] == '$' {
      i := SkipDollar(alnum, s, at);
    } else {
      PlainStep(alnum, s, at, Code(clean));
      return at + 1;
    }
    if clean {
      FreshIsNormal(alnum, s, at);
      SameTrans(alnum, s, at, Fresh, at, Normal, i, Normal);
    }
  }
}
