/**
What a script is made of, told without a lexer: literals, comments, dollar bodies, shell lines,
and single characters between them. The statements are what those pieces make them, so a `;`
that stands inside a piece ends nothing.
*/
module SqlPieces {
  import opened Prelude
  import opened Text
  import opened SqlLexer
  import opened SqlScan

  datatype Kind = Literal | LineComment | BlockComment | DollarBody | ShellCommand | Single

  datatype Piece = Piece(kind: Kind, text: string)

  // ------------------------------------------------------------------ what a piece is, with `rest` behind it

  predicate LiteralOf(t: string, q: char, body: string, rest: string) {
    || (t == [q] + Doubled(body, q) + [q] && (rest != [] ==> rest[0] != q))
    || (t == [q] + Doubled(body, q) && rest == [])
  }

  /** Quotes around a text whose own quotes are doubled, or such a text to the end of the script. */
  ghost predicate IsLiteral(t: string, rest: string) {
    t != [] && IsQuote(t[0]) && exists body :: LiteralOf(t, t[0], body, rest)
  }

  predicate ToLineEnd(t: string, rest: string) {
    '\n' !in t && (rest != [] ==> rest[0] == '\n')
  }

  predicate Closes(t: string, k: nat) {
    k + 1 < |t| && t[k] == '*' && t[k + 1] == '/'
  }

  predicate StartsBlock(s: string) { |s| >= 2 && s[0] == '/' && s[1] == '*' }

  /** From the opening pair to the first closing one behind it, or to the end of the script. */
  predicate IsBlock(t: string, rest: string) {
    && StartsBlock(t)
    && (|| (|t| >= 4 && Closes(t, |t| - 2) && forall k :: 2 <= k < |t| - 2 ==> !Closes(t, k))
        || (rest == [] && forall k :: 2 <= k < |t| ==> !Closes(t, k)))
  }

  predicate StartsLine(s: string) { |s| >= 2 && s[0] == '-' && s[1] == '-' }

  predicate IsTag(alnum: Alnum, tag: string) {
    && |tag| >= 2 && tag[0] == '$' && tag[|tag| - 1] == '$'
    && forall k :: 0 < k < |tag| - 1 ==> IsTagChar(alnum, tag[k])
  }

  /** From a tag of `n` characters to its first repetition, or to the end of the script. */
  predicate BodyOf(t: string, n: nat, rest: string)
    requires n <= |t|
  {
    || (&& n + n <= |t| && StartsWithAt(t, |t| - n, t[..n])
        && forall p :: n <= p < |t| - n ==> !StartsWithAt(t, p, t[..n]))
    || (rest == [] && forall p :: n <= p <= |t| ==> !StartsWithAt(t, p, t[..n]))
  }

  ghost predicate IsDollar(alnum: Alnum, t: string, rest: string) {
    exists n :: 2 <= n <= |t| && IsTag(alnum, t[..n]) && BodyOf(t, n, rest)
  }

  ghost predicate StartsDollar(alnum: Alnum, s: string) {
    exists n :: 2 <= n <= |s| && IsTag(alnum, s[..n])
  }

  /** Some piece of more than one character begins here. `clean`: only white space and comments since the last end. */
  ghost predicate Opens(alnum: Alnum, s: string, clean: bool)
    requires s != []
  {
    || IsQuote(s[0]) || StartsLine(s) || StartsBlock(s) || StartsDollar(alnum, s)
    || (clean && StartsShellCommand(s, 0))
  }

  ghost predicate IsPiece(alnum: Alnum, p: Piece, rest: string, clean: bool) {
    p.text != [] && (
      || (p.kind.Literal? && IsLiteral(p.text, rest))
      || (p.kind.LineComment? && StartsLine(p.text) && ToLineEnd(p.text, rest))
      || (p.kind.BlockComment? && IsBlock(p.text, rest))
      || (p.kind.DollarBody? && IsDollar(alnum, p.text, rest))
      || (p.kind.ShellCommand? && clean && StartsShellCommand(p.text, 0) && ToLineEnd(p.text, rest))
      || (p.kind.Single? && |p.text| == 1 && !Opens(alnum, p.text + rest, clean)))
  }

  predicate IsSemicolon(p: Piece) { p.kind.Single? && p.text == ";" }

  /** Whether a shell command could begin behind `p`. */
  predicate FreshAfter(p: Piece, clean: bool)
    requires p.text != []
  {
    match p.kind
    case Literal => false
    case DollarBody => false
    case LineComment => clean
    case BlockComment => clean
    case ShellCommand => true
    case Single => IsSemicolon(p) || (clean && IsWhitespace(p.text[0]))
  }

  ghost predicate IsCut(alnum: Alnum, s: string, clean: bool, ps: seq<Piece>) {
    if ps == [] then s == []
    else
      var p := ps[0];
      && p.text <= s && IsPiece(alnum, p, s[|p.text|..], clean)
      && IsCut(alnum, s[|p.text|..], FreshAfter(p, clean), ps[1..])
  }

  /** The statements the pieces make: one up to each `;`, one to the end of each shell line, and what is left. */
  function Statements(ps: seq<Piece>, start: nat, held: string): seq<Range> {
    var at := start + |held|;
    if ps == [] then if Blank(held) then [] else [(start, at)]
    else if IsSemicolon(ps[0]) then [(start, at)] + Statements(ps[1..], at + 1, "")
    else if ps[0].kind.ShellCommand?
      then [(start, at + |ps[0].text|)] + Statements(ps[1..], at + |ps[0].text|, "")
    else Statements(ps[1..], start, held + ps[0].text)
  }

  // ------------------------------------------------------------------ the lexer reads each piece whole

  /** `t` stands in `s` at position `i`. */
  predicate StandsAt(s: string, i: nat, t: string) {
    i + |t| <= |s| && forall k {:trigger t[k]} :: 0 <= k < |t| ==> s[i + k] == t[k]
  }

  lemma DoubledTail(s: string, i: nat, q: char, body: string)
    requires body != [] && StandsAt(s, i, Doubled(body, q))
    ensures var n := if body[0] == q then 2 else 1;
      && |Doubled(body, q)| == n + |Doubled(body[1..], q)|
      && StandsAt(s, i + n, Doubled(body[1..], q))
  {
    var n, rest := if body[0] == q then 2 else 1, Doubled(body[1..], q);
    forall k {:trigger rest[k]} | 0 <= k < |rest| ensures s[i + n + k] == rest[k] {
      assert Doubled(body, q)[n + k] == rest[k];
    }
  }

  lemma DoubledFirst(alnum: Alnum, s: string, i: nat, q: char, body: string)
    requires q != ';' && body != [] && StandsAt(s, i, Doubled(body, q))
    ensures Same(alnum, s, i, Quote(q), i + (if body[0] == q then 2 else 1), Quote(q))
  {
    var d := Doubled(body, q);
    assert s[i + 0] == d[0] == body[0];
    SameStep(alnum, s, i, Quote(q));
    if body[0] == q {
      assert s[i + 1] == d[1] == q;
      SameStep(alnum, s, i + 1, QuoteEnd(q));
      SameTrans(alnum, s, i, Quote(q), i + 1, QuoteEnd(q), i + 2, Quote(q));
    }
  }

  /** Inside quotes, text with its quotes doubled is read over. */
  lemma {:induction false} DoubledRead(alnum: Alnum, s: string, i: nat, q: char, body: string)
    requires q != ';' && StandsAt(s, i, Doubled(body, q))
    ensures Same(alnum, s, i, Quote(q), i + |Doubled(body, q)|, Quote(q))
    decreases |body|
  {
    if body != [] {
      var d := Doubled(body, q);
      var n := if body[0] == q then 2 else 1;
      DoubledTail(s, i, q, body);
      DoubledRead(alnum, s, i + n, q, body[1..]);
      DoubledFirst(alnum, s, i, q, body);
      SameTrans(alnum, s, i, Quote(q), i + n, Quote(q), i + |d|, Quote(q));
    }
  }

  lemma StandsPart(s: string, i: nat, a: string, b: string)
    requires StandsAt(s, i, a + b)
    ensures StandsAt(s, i, a) && StandsAt(s, i + |a|, b)
  {
    forall k {:trigger a[k]} | 0 <= k < |a| ensures s[i + k] == a[k] {
      assert (a + b)[k] == a[k];
    }
    forall k {:trigger b[k]} | 0 <= k < |b| ensures s[i + |a| + k] == b[k] {
      assert (a + b)[|a| + k] == b[k];
    }
  }

  /** A literal, up to its closing quote. */
  lemma LiteralInside(alnum: Alnum, s: string, i: nat, q: char, body: string)
    requires IsQuote(q) && StandsAt(s, i, [q] + Doubled(body, q))
    ensures Same(alnum, s, i, Normal, i + 1 + |Doubled(body, q)|, Quote(q))
  {
    StandsPart(s, i, [q], Doubled(body, q));
    assert s[i + 0] == [q][0];
    SameStep(alnum, s, i, Normal);
    DoubledRead(alnum, s, i + 1, q, body);
    SameTrans(alnum, s, i, Normal, i + 1, Quote(q), i + 1 + |Doubled(body, q)|, Quote(q));
  }

  lemma LiteralClosed(alnum: Alnum, s: string, i: nat, q: char, body: string)
    requires IsQuote(q) && StandsAt(s, i, [q] + Doubled(body, q) + [q])
    requires var j := i + 2 + |Doubled(body, q)|; j < |s| ==> s[j] != q
    ensures Same(alnum, s, i, Normal, i + 2 + |Doubled(body, q)|, Normal)
  {
    var j := i + 1 + |Doubled(body, q)|;
    StandsPart(s, i, [q] + Doubled(body, q), [q]);
    assert s[j + 0] == [q][0];
    LiteralInside(alnum, s, i, q, body);
    SameStep(alnum, s, j, Quote(q));
    SameTrans(alnum, s, i, Normal, j, Quote(q), j + 1, QuoteEnd(q));
    SameNow(alnum, s, j + 1, QuoteEnd(q), Normal);
    SameTrans(alnum, s, i, Normal, j + 1, QuoteEnd(q), j + 1, Normal);
  }

  lemma LiteralOpen(alnum: Alnum, s: string, i: nat, q: char, body: string)
    requires IsQuote(q) && StandsAt(s, i, [q] + Doubled(body, q)) && i + 1 + |Doubled(body, q)| == |s|
    ensures Same(alnum, s, i, Normal, |s|, Normal)
  {
    LiteralInside(alnum, s, i, q, body);
    EndsAlike(alnum, s, |s|, |s|, Quote(q), Normal);
    SameTrans(alnum, s, i, Normal, |s|, Quote(q), |s|, Normal);
  }

  lemma LiteralRead(alnum: Alnum, s: string, i: nat, t: string)
    requires StandsAt(s, i, t) && IsLiteral(t, s[i + |t|..])
    ensures Same(alnum, s, i, Normal, i + |t|, Normal)
  {
    var body :| LiteralOf(t, t[0], body, s[i + |t|..]);
    if t == [t[0]] + Doubled(body, t[0]) + [t[0]] && (i + |t| < |s| ==> s[i + |t|] != t[0]) {
      LiteralClosed(alnum, s, i, t[0], body);
    } else {
      LiteralOpen(alnum, s, i, t[0], body);
    }
  }

  // ------------------------------------------------------------------ comments

  lemma {:induction false} LineGoesOn(alnum: Alnum, s: string, i: nat, end: nat, clean: bool)
    requires i <= end <= |s| && forall k :: i <= k < end ==> s[k] != '\n'
    ensures Same(alnum, s, i, Line(clean), end, Line(clean))
    decreases end - i
  {
    if i < end {
      SameStep(alnum, s, i, Line(clean));
      LineGoesOn(alnum, s, i + 1, end, clean);
      SameTrans(alnum, s, i, Line(clean), i + 1, Line(clean), end, Line(clean));
    }
  }

  lemma NoLineFeed(s: string, i: nat, t: string)
    requires StandsAt(s, i, t) && '\n' !in t
    ensures forall k :: i <= k < i + |t| ==> s[k] != '\n'
  {
    forall k | i <= k < i + |t| ensures s[k] != '\n' {
      assert s[i + (k - i)] == t[k - i];
    }
  }

  lemma LineRead(alnum: Alnum, s: string, i: nat, t: string, clean: bool)
    requires StandsAt(s, i, t) && StartsLine(t) && ToLineEnd(t, s[i + |t|..])
    ensures Same(alnum, s, i, Code(clean), i + |t|, Code(clean))
  {
    var end := i + |t|;
    NoLineFeed(s, i, t);
    assert s[i + 0] == t[0] && s[i + 1] == t[1];
    SameStep(alnum, s, i, Code(clean));
    SameStep(alnum, s, i + 1, Dash(clean));
    SameTrans(alnum, s, i, Code(clean), i + 1, Dash(clean), i + 2, Line(clean));
    LineGoesOn(alnum, s, i + 2, end, clean);
    SameTrans(alnum, s, i, Code(clean), i + 2, Line(clean), end, Line(clean));
    SameNow(alnum, s, end, Line(clean), Code(clean));
    SameTrans(alnum, s, i, Code(clean), end, Line(clean), end, Code(clean));
  }

  lemma {:induction false} BlockGoesOn(alnum: Alnum, s: string, i: nat, end: nat, clean: bool)
    requires i <= end <= |s| && forall k :: i <= k < end ==> !Closes(s, k)
    ensures Same(alnum, s, i, Block(clean), end, Block(clean))
    decreases end - i
  {
    if i < end {
      BlockStep(alnum, s, i, clean);
      assert !Closes(s, i);
      BlockGoesOn(alnum, s, i + 1, end, clean);
      SameTrans(alnum, s, i, Block(clean), i + 1, Block(clean), end, Block(clean));
    }
  }

  lemma BlockOpens(alnum: Alnum, s: string, i: nat, clean: bool)
    requires i + 1 < |s| && s[i] == '/' && s[i + 1] == '*'
    ensures Same(alnum, s, i, Code(clean), i + 2, Block(clean))
  {
    SameStep(alnum, s, i, Code(clean));
    SameStep(alnum, s, i + 1, Slash(clean));
    SameTrans(alnum, s, i, Code(clean), i + 1, Slash(clean), i + 2, Block(clean));
  }

  lemma ClosesInside(s: string, i: nat, t: string, k: nat)
    requires StandsAt(s, i, t) && k + 1 < |t|
    ensures Closes(s, i + k) <==> Closes(t, k)
  {
    assert s[i + k] == t[k] && s[i + (k + 1)] == t[k + 1];
  }

  /** A block comment that is closed. */
  lemma BlockClosed(alnum: Alnum, s: string, i: nat, t: string, clean: bool)
    requires StandsAt(s, i, t) && StartsBlock(t)
    requires |t| >= 4 && Closes(t, |t| - 2) && forall k :: 2 <= k < |t| - 2 ==> !Closes(t, k)
    ensures Same(alnum, s, i, Code(clean), i + |t|, Code(clean))
  {
    var end := i + |t|;
    assert s[i + 0] == t[0] && s[i + 1] == t[1];
    BlockOpens(alnum, s, i, clean);
    forall k | i + 2 <= k < end - 2 ensures !Closes(s, k) {
      ClosesInside(s, i, t, k - i);
    }
    BlockGoesOn(alnum, s, i + 2, end - 2, clean);
    SameTrans(alnum, s, i, Code(clean), i + 2, Block(clean), end - 2, Block(clean));
    ClosesInside(s, i, t, |t| - 2);
    BlockStep(alnum, s, end - 2, clean);
    SameTrans(alnum, s, i, Code(clean), end - 2, Block(clean), end, Code(clean));
  }

  /** A block comment that is not. */
  lemma BlockOpen(alnum: Alnum, s: string, i: nat, t: string, clean: bool)
    requires StandsAt(s, i, t) && StartsBlock(t) && i + |t| == |s|
    requires forall k :: 2 <= k < |t| ==> !Closes(t, k)
    ensures Same(alnum, s, i, Code(clean), |s|, Code(clean))
  {
    assert s[i + 0] == t[0] && s[i + 1] == t[1];
    BlockOpens(alnum, s, i, clean);
    forall k | i + 2 <= k < |s| ensures !Closes(s, k) {
      if k + 1 < |s| {
        ClosesInside(s, i, t, k - i);
      }
    }
    BlockGoesOn(alnum, s, i + 2, |s|, clean);
    SameTrans(alnum, s, i, Code(clean), i + 2, Block(clean), |s|, Block(clean));
    EndsAlike(alnum, s, |s|, |s|, Block(clean), Code(clean));
    SameTrans(alnum, s, i, Code(clean), |s|, Block(clean), |s|, Code(clean));
  }

  lemma BlockRead(alnum: Alnum, s: string, i: nat, t: string, clean: bool)
    requires StandsAt(s, i, t) && IsBlock(t, s[i + |t|..])
    ensures Same(alnum, s, i, Code(clean), i + |t|, Code(clean))
  {
    if |t| >= 4 && Closes(t, |t| - 2) && forall k :: 2 <= k < |t| - 2 ==> !Closes(t, k) {
      BlockClosed(alnum, s, i, t, clean);
    } else {
      BlockOpen(alnum, s, i, t, clean);
    }
  }

  // ------------------------------------------------------------------ dollar bodies

  lemma {:induction false} TagRun(alnum: Alnum, s: string, at: nat, j: nat)
    requires at < j <= |s| && s[at] == '$' && forall k :: at < k < j ==> IsTagChar(alnum, s[k])
    ensures Same(alnum, s, at, Normal, j, Tag(s[at..j]))
    decreases j
  {
    if j == at + 1 {
      SameStep(alnum, s, at, Normal);
      assert s[at..j] == "$";
    } else {
      TagRun(alnum, s, at, j - 1);
      TagStep(alnum, s, at, j - 1);
      SameTrans(alnum, s, at, Normal, j - 1, Tag(s[at..j - 1]), j, Tag(s[at..j]));
    }
  }

  lemma StandsSlice(s: string, i: nat, t: string)
    requires i + |t| <= |s|
    ensures StandsAt(s, i, t) <==> s[i..i + |t|] == t
  {
    if StandsAt(s, i, t) {
      forall k | 0 <= k < |t| ensures s[i..i + |t|][k] == t[k] {
        assert s[i + k] == t[k];
      }
    } else {
      var k :| 0 <= k < |t| && s[i + k] != t[k];
      assert s[i..i + |t|][k] == s[i + k];
    }
  }

  lemma TagOpens(alnum: Alnum, s: string, i: nat, tag: string)
    requires StandsAt(s, i, tag) && IsTag(alnum, tag)
    ensures Same(alnum, s, i, Normal, i + |tag|, Body(tag, ""))
  {
    var j := i + |tag| - 1;
    forall k | i < k < j ensures IsTagChar(alnum, s[k]) {
      assert s[i + (k - i)] == tag[k - i];
    }
    assert s[i + 0] == tag[0] && s[i + (|tag| - 1)] == tag[|tag| - 1];
    TagRun(alnum, s, i, j);
    StandsSlice(s, i, tag);
    assert s[i..j + 1] == s[i..j] + "$";
    SameStep(alnum, s, j, Tag(s[i..j]));
    SameTrans(alnum, s, i, Normal, j, Tag(s[i..j]), j + 1, Body(tag, ""));
  }

  /** Where a tag stands in a piece it stands in the script. */
  lemma TagInside(s: string, i: nat, t: string, p: nat, tag: string)
    requires StandsAt(s, i, t) && p + |tag| <= |t|
    ensures StartsWithAt(t, p, tag) <==> StartsWithAt(s, i + p, tag)
  {
    StandsSlice(t, p, tag);
    StandsSlice(s, i + p, tag);
    if StandsAt(t, p, tag) {
      forall k {:trigger tag[k]} | 0 <= k < |tag| ensures s[i + p + k] == tag[k] {
        assert s[i + (p + k)] == t[p + k] == tag[k];
      }
    }
    if StandsAt(s, i + p, tag) {
      forall k {:trigger tag[k]} | 0 <= k < |tag| ensures t[p + k] == tag[k] {
        assert s[i + (p + k)] == t[p + k];
        assert s[i + p + k] == tag[k];
      }
    }
  }

  lemma DollarOpens(alnum: Alnum, s: string, i: nat, t: string, n: nat)
    requires StandsAt(s, i, t) && n <= |t| && IsTag(alnum, t[..n])
    ensures Same(alnum, s, i, Normal, i + n, Body(t[..n], ""))
  {
    assert t[..n] + t[n..] == t;
    StandsPart(s, i, t[..n], t[n..]);
    TagOpens(alnum, s, i, t[..n]);
  }

  lemma TagFirst(s: string, i: nat, t: string, n: nat, tag: string)
    requires StandsAt(s, i, t) && n + |tag| <= |t| && StartsWithAt(t, |t| - |tag|, tag)
    requires forall p :: n <= p < |t| - |tag| ==> !StartsWithAt(t, p, tag)
    ensures StartsWithAt(s, i + |t| - |tag|, tag)
    ensures forall p :: i + n <= p < i + |t| - |tag| ==> !StartsWithAt(s, p, tag)
  {
    TagInside(s, i, t, |t| - |tag|, tag);
    forall p | i + n <= p < i + |t| - |tag| ensures !StartsWithAt(s, p, tag) {
      TagInside(s, i, t, p - i, tag);
    }
  }

  lemma DollarClosed(alnum: Alnum, s: string, i: nat, t: string, n: nat)
    requires StandsAt(s, i, t) && 2 <= n && n + n <= |t| && IsTag(alnum, t[..n])
    requires StartsWithAt(t, |t| - n, t[..n]) && forall p :: n <= p < |t| - n ==> !StartsWithAt(t, p, t[..n])
    ensures Same(alnum, s, i, Normal, i + |t|, Normal)
  {
    var tag := t[..n];
    DollarOpens(alnum, s, i, t, n);
    TagFirst(s, i, t, n, tag);
    BodyEnds(alnum, s, i + n, i + |t| - n, tag);
    SameTrans(alnum, s, i, Normal, i + n, Body(tag, ""), i + |t|, Normal);
  }

  lemma TagNowhere(s: string, i: nat, t: string, n: nat, tag: string)
    requires StandsAt(s, i, t) && i + |t| == |s| && forall p :: n <= p <= |t| ==> !StartsWithAt(t, p, tag)
    ensures forall p :: i + n <= p && p + |tag| <= |s| ==> !StartsWithAt(s, p, tag)
  {
    forall p | i + n <= p && p + |tag| <= |s| ensures !StartsWithAt(s, p, tag) {
      TagInside(s, i, t, p - i, tag);
    }
  }

  lemma DollarOpen(alnum: Alnum, s: string, i: nat, t: string, n: nat)
    requires StandsAt(s, i, t) && 2 <= n <= |t| && IsTag(alnum, t[..n]) && i + |t| == |s|
    requires forall p :: n <= p <= |t| ==> !StartsWithAt(t, p, t[..n])
    ensures Same(alnum, s, i, Normal, |s|, Normal)
  {
    var tag := t[..n];
    DollarOpens(alnum, s, i, t, n);
    TagNowhere(s, i, t, n, tag);
    BodyGoesOn(alnum, s, i + n, |s|, tag);
    EndsAlike(alnum, s, |s|, |s|, Body(tag, s[i + n..|s|]), Normal);
    SameTrans(alnum, s, i + n, Body(tag, ""), |s|, Body(tag, s[i + n..|s|]), |s|, Normal);
    SameTrans(alnum, s, i, Normal, i + n, Body(tag, ""), |s|, Normal);
  }

  lemma DollarRead(alnum: Alnum, s: string, i: nat, t: string)
    requires StandsAt(s, i, t) && IsDollar(alnum, t, s[i + |t|..])
    ensures Same(alnum, s, i, Normal, i + |t|, Normal)
  {
    var n :| 2 <= n <= |t| && IsTag(alnum, t[..n]) && BodyOf(t, n, s[i + |t|..]);
    if && n + n <= |t| && StartsWithAt(t, |t| - n, t[..n])
       && forall p :: n <= p < |t| - n ==> !StartsWithAt(t, p, t[..n]) {
      DollarClosed(alnum, s, i, t, n);
    } else {
      DollarOpen(alnum, s, i, t, n);
    }
  }

  // ------------------------------------------------------------------ single characters

  /** How far the tag characters behind position `at` go. */
  lemma {:induction false} TagReach(alnum: Alnum, s: string, at: nat, j: nat) returns (e: nat)
    requires at < j <= |s| && forall k :: at < k < j ==> IsTagChar(alnum, s[k])
    ensures j <= e <= |s| && forall k :: at < k < e ==> IsTagChar(alnum, s[k])
    ensures e < |s| ==> !IsTagChar(alnum, s[e])
    decreases |s| - j
  {
    if j < |s| && IsTagChar(alnum, s[j]) {
      e := TagReach(alnum, s, at, j + 1);
    } else {
      e := j;
    }
  }

  lemma NoTagHere(alnum: Alnum, s: string, i: nat, j: nat)
    requires i < j < |s| && s[i] == '$' && forall k :: i < k < j ==> IsTagChar(alnum, s[k])
    requires !StartsDollar(alnum, s[i..])
    ensures s[j] != '$'
  {
    var n := j + 1 - i;
    var tag := s[i..][..n];
    forall k | 0 < k < n - 1 ensures IsTagChar(alnum, tag[k]) {
      assert tag[k] == s[i + k];
    }
    assert !IsTag(alnum, tag);
    assert tag[0] == s[i] && tag[|tag| - 1] == s[j];
  }

  /** A `$` that opens no body is read as one character. */
  lemma DollarAlone(alnum: Alnum, s: string, i: nat)
    requires i < |s| && s[i] == '$' && !StartsDollar(alnum, s[i..])
    ensures Same(alnum, s, i, Normal, i + 1, Normal)
  {
    var j := TagReach(alnum, s, i, i + 1);
    TagRun(alnum, s, i, j);
    if j < |s| {
      NoTagHere(alnum, s, i, j);
    }
    TagIsInert(alnum, s, i + 1, j);
    SameNow(alnum, s, j, Tag(s[i..j]), Normal);
    Rewind(alnum, s, i, j);
  }

  lemma SingleRead(alnum: Alnum, s: string, i: nat, clean: bool)
    requires i < |s| && s[i] != ';' && !Opens(alnum, s[i..], clean)
    ensures Same(alnum, s, i, Code(clean), i + 1, Code(clean && IsWhitespace(s[i])))
  {
    var t := s[i..];
    assert t[0] == s[i];
    assert |t| > 1 ==> t[1] == s[i + 1];
    if clean && IsWhitespace(s[i]) {
      SameStep(alnum, s, i, Fresh);
    } else if s[i] == '$' {
      DollarAlone(alnum, s, i);
      if clean {
        FreshIsNormal(alnum, s, i);
        SameTrans(alnum, s, i, Fresh, i, Normal, i + 1, Normal);
      }
    } else {
      PlainStep(alnum, s, i, Code(clean));
    }
  }

  // ------------------------------------------------------------------ one piece after the other

  lemma DollarFirst(alnum: Alnum, t: string, rest: string)
    requires IsDollar(alnum, t, rest)
    ensures t != [] && t[0] == '$'
  {
    var n :| 2 <= n <= |t| && IsTag(alnum, t[..n]) && BodyOf(t, n, rest);
    assert t[..n][0] == t[0];
  }

  lemma FromCode(alnum: Alnum, s: string, i: nat, j: nat, clean: bool)
    requires i < |s| && i <= j && (IsQuote(s[i]) || s[i] == '$') && Same(alnum, s, i, Normal, j, Normal)
    ensures Same(alnum, s, i, Code(clean), j, Normal)
  {
    if clean {
      FreshIsNormal(alnum, s, i);
      SameTrans(alnum, s, i, Fresh, i, Normal, j, Normal);
    }
  }

  lemma DollarPieceRead(alnum: Alnum, s: string, i: nat, t: string, clean: bool)
    requires StandsAt(s, i, t) && IsDollar(alnum, t, s[i + |t|..])
    ensures Same(alnum, s, i, Code(clean), i + |t|, Normal)
  {
    DollarRead(alnum, s, i, t);
    DollarFirst(alnum, t, s[i + |t|..]);
    assert s[i + 0] == t[0];
    FromCode(alnum, s, i, i + |t|, clean);
  }

  lemma SinglePieceRead(alnum: Alnum, s: string, i: nat, p: Piece, clean: bool)
    requires StandsAt(s, i, p.text) && |p.text| == 1 && !Opens(alnum, p.text + s[i + 1..], clean)
    requires p.kind.Single? && !IsSemicolon(p)
    ensures Same(alnum, s, i, Code(clean), i + 1, Code(FreshAfter(p, clean)))
  {
    assert s[i + 0] == p.text[0];
    assert s[i..] == p.text + s[i + 1..];
    SingleRead(alnum, s, i, clean);
  }

  /** A piece that ends nothing is read over. */
  lemma PieceRead(alnum: Alnum, s: string, i: nat, p: Piece, clean: bool)
    requires StandsAt(s, i, p.text) && IsPiece(alnum, p, s[i + |p.text|..], clean)
    requires !IsSemicolon(p) && !p.kind.ShellCommand?
    ensures Same(alnum, s, i, Code(clean), i + |p.text|, Code(FreshAfter(p, clean)))
  {
    var t := p.text;
    assert s[i + 0] == t[0];
    match p.kind
    case Literal =>
      LiteralRead(alnum, s, i, t);
      FromCode(alnum, s, i, i + |t|, clean);
    case DollarBody => DollarPieceRead(alnum, s, i, t, clean);
    case LineComment => LineRead(alnum, s, i, t, clean);
    case BlockComment => BlockRead(alnum, s, i, t, clean);
    case Single => SinglePieceRead(alnum, s, i, p, clean);
  }

  lemma PrefixStands(s: string, i: nat, t: string)
    requires i <= |s| && t <= s[i..]
    ensures StandsAt(s, i, t) && s[i..][|t|..] == s[i + |t|..]
    ensures s[i..i + |t|] == t
  {
    forall k {:trigger t[k]} | 0 <= k < |t| ensures s[i + k] == t[k] {
      assert s[i..][k] == t[k];
    }
    StandsSlice(s, i, t);
  }

  /** The lexer behind a piece that begins at `at`: in which statement it is, and with which statements done. */
  function Behind(at: nat, clean: bool, p: Piece, start: nat, out: seq<Range>): Lexer
    requires p.text != []
  {
    var next := at + |p.text|;
    if IsSemicolon(p) then Lexer(Fresh, next, out + [(start, at)])
    else if p.kind.ShellCommand? then Lexer(Fresh, next, out + [(start, next)])
    else Lexer(Code(FreshAfter(p, clean)), start, out)
  }

  /** Whatever statement it is in, the lexer reads `p`, which stands at position `at`, whole. */
  ghost predicate ReadsOver(alnum: Alnum, s: string, at: nat, clean: bool, p: Piece)
    requires p.text != [] && at + |p.text| <= |s|
  {
    forall start: nat, out: seq<Range> :: start <= at ==>
      LexFrom(alnum, s, at, Lexer(Code(clean), start, out)) ==
      LexFrom(alnum, s, at + |p.text|, Behind(at, clean, p, start, out))
  }

  lemma SemicolonStep(alnum: Alnum, s: string, at: nat, clean: bool, start: nat, out: seq<Range>, p: Piece)
    requires start <= at && StandsAt(s, at, p.text) && IsSemicolon(p)
    ensures LexFrom(alnum, s, at, Lexer(Code(clean), start, out)) ==
      LexFrom(alnum, s, at + 1, Lexer(Fresh, at + 1, out + [(start, at)]))
  {
    assert s[at + 0] == p.text[0];
  }

  lemma ShellStep(alnum: Alnum, s: string, at: nat, p: Piece, start: nat, out: seq<Range>)
    requires start <= at && StandsAt(s, at, p.text) && p.text != [] && StartsShellCommand(p.text, 0)
    requires ToLineEnd(p.text, s[at + |p.text|..])
    ensures LexFrom(alnum, s, at, Lexer(Fresh, start, out)) ==
      LexFrom(alnum, s, at + |p.text|, Lexer(Fresh, at + |p.text|, out + [(start, at + |p.text|)]))
  {
    NoLineFeed(s, at, p.text);
    assert s[at + 0] == p.text[0];
    assert |p.text| > 1 ==> s[at + 1] == p.text[1];
    ShellLine(alnum, s, at, at + |p.text|, start, out);
  }

  lemma PieceStep(alnum: Alnum, s: string, at: nat, clean: bool, p: Piece, start: nat, out: seq<Range>)
    requires start <= at && StandsAt(s, at, p.text) && IsPiece(alnum, p, s[at + |p.text|..], clean)
    ensures LexFrom(alnum, s, at, Lexer(Code(clean), start, out)) ==
      LexFrom(alnum, s, at + |p.text|, Behind(at, clean, p, start, out))
  {
    if IsSemicolon(p) {
      SemicolonStep(alnum, s, at, clean, start, out, p);
    } else if p.kind.ShellCommand? {
      ShellStep(alnum, s, at, p, start, out);
    } else {
      PieceRead(alnum, s, at, p, clean);
    }
  }

  /** The lexer reads the pieces one by one, from position `at` to the end. */
  ghost predicate ReadsAll(alnum: Alnum, s: string, at: nat, clean: bool, ps: seq<Piece>)
    requires at <= |s|
    decreases |ps|
  {
    if ps == [] then at == |s|
    else
      var p := ps[0];
      && p.text != [] && at + |p.text| <= |s| && s[at..at + |p.text|] == p.text
      && ReadsOver(alnum, s, at, clean, p)
      && ReadsAll(alnum, s, at + |p.text|, FreshAfter(p, clean), ps[1..])
  }

  lemma FirstIsRead(alnum: Alnum, s: string, at: nat, clean: bool, ps: seq<Piece>)
    requires at <= |s| && IsCut(alnum, s[at..], clean, ps) && ps != []
    ensures ps[0].text != [] && at + |ps[0].text| <= |s| && s[at..at + |ps[0].text|] == ps[0].text
    ensures ReadsOver(alnum, s, at, clean, ps[0])
    ensures IsCut(alnum, s[at + |ps[0].text|..], FreshAfter(ps[0], clean), ps[1..])
  {
    PrefixStands(s, at, ps[0].text);
    forall start: nat, out: seq<Range> | start <= at
      ensures LexFrom(alnum, s, at, Lexer(Code(clean), start, out)) ==
        LexFrom(alnum, s, at + |ps[0].text|, Behind(at, clean, ps[0], start, out)) {
      PieceStep(alnum, s, at, clean, ps[0], start, out);
    }
  }

  lemma {:induction false} CutIsRead(alnum: Alnum, s: string, at: nat, clean: bool, ps: seq<Piece>)
    requires at <= |s| && IsCut(alnum, s[at..], clean, ps)
    ensures ReadsAll(alnum, s, at, clean, ps)
    decreases |ps|
  {
    if ps != [] {
      FirstIsRead(alnum, s, at, clean, ps);
      CutIsRead(alnum, s, at + |ps[0].text|, FreshAfter(ps[0], clean), ps[1..]);
    }
  }

  /** From position `at` on, in code, the lexer makes the statements of the pieces that are left. */
  ghost predicate Makes(alnum: Alnum, s: string, at: nat, clean: bool, ps: seq<Piece>, start: nat, out: seq<Range>)
    requires start <= at <= |s|
  {
    LexFrom(alnum, s, at, Lexer(Code(clean), start, out)) == out + Statements(ps, start, s[start..at])
  }

  lemma MakesEnd(alnum: Alnum, s: string, at: nat, clean: bool, start: nat, out: seq<Range>)
    requires start <= at == |s|
    ensures Makes(alnum, s, at, clean, [], start, out)
  {
    assert s[start..] == s[start..at];
  }

  lemma ReadOne(alnum: Alnum, s: string, at: nat, clean: bool, p: Piece, start: nat, out: seq<Range>)
    requires start <= at && p.text != [] && at + |p.text| <= |s| && ReadsOver(alnum, s, at, clean, p)
    ensures LexFrom(alnum, s, at, Lexer(Code(clean), start, out)) ==
      LexFrom(alnum, s, at + |p.text|, Behind(at, clean, p, start, out))
  {
  }

  lemma StatementsStep(ps: seq<Piece>, start: nat, held: string)
    requires ps != []
    ensures var at := start + |held|;
      var next := at + |ps[0].text|;
      Statements(ps, start, held) ==
        if IsSemicolon(ps[0]) then [(start, at)] + Statements(ps[1..], next, "")
        else if ps[0].kind.ShellCommand? then [(start, next)] + Statements(ps[1..], next, "")
        else Statements(ps[1..], start, held + ps[0].text)
  {
  }

  lemma MakesCut(alnum: Alnum, s: string, at: nat, clean: bool, ps: seq<Piece>, start: nat, out: seq<Range>)
    requires start <= at && ps != [] && ps[0].text != [] && at + |ps[0].text| <= |s|
    requires ReadsOver(alnum, s, at, clean, ps[0]) && (IsSemicolon(ps[0]) || ps[0].kind.ShellCommand?)
    requires var next, x := at + |ps[0].text|, Behind(at, clean, ps[0], start, out);
      Makes(alnum, s, next, FreshAfter(ps[0], clean), ps[1..], x.start, x.out)
    ensures Makes(alnum, s, at, clean, ps, start, out)
  {
    var next := at + |ps[0].text|;
    ReadOne(alnum, s, at, clean, ps[0], start, out);
    StatementsStep(ps, start, s[start..at]);
    assert s[next..next] == "";
    AppendAssoc(out, [(start, if IsSemicolon(ps[0]) then at else next)], Statements(ps[1..], next, ""));
  }

  lemma HeldGrows(s: string, start: nat, at: nat, t: string)
    requires start <= at <= at + |t| <= |s| && s[at..at + |t|] == t
    ensures s[start..at] + t == s[start..at + |t|]
  {
  }

  lemma MakesOn(alnum: Alnum, s: string, at: nat, clean: bool, ps: seq<Piece>, start: nat, out: seq<Range>)
    requires start <= at && ps != [] && ps[0].text != [] && at + |ps[0].text| <= |s|
    requires s[at..at + |ps[0].text|] == ps[0].text
    requires ReadsOver(alnum, s, at, clean, ps[0]) && !IsSemicolon(ps[0]) && !ps[0].kind.ShellCommand?
    requires Makes(alnum, s, at + |ps[0].text|, FreshAfter(ps[0], clean), ps[1..], start, out)
    ensures Makes(alnum, s, at, clean, ps, start, out)
  {
    ReadOne(alnum, s, at, clean, ps[0], start, out);
    StatementsStep(ps, start, s[start..at]);
    HeldGrows(s, start, at, ps[0].text);
  }

  lemma {:induction false} LexFromPieces(alnum: Alnum, s: string, at: nat, clean: bool, ps: seq<Piece>, start: nat,
    out: seq<Range>)
    requires start <= at <= |s| && ReadsAll(alnum, s, at, clean, ps)
    ensures Makes(alnum, s, at, clean, ps, start, out)
    decreases |ps|
  {
    if ps == [] {
      MakesEnd(alnum, s, at, clean, start, out);
    } else {
      var p := ps[0];
      var x := Behind(at, clean, p, start, out);
      LexFromPieces(alnum, s, at + |p.text|, FreshAfter(p, clean), ps[1..], x.start, x.out);
      if IsSemicolon(p) || p.kind.ShellCommand? {
        MakesCut(alnum, s, at, clean, ps, start, out);
      } else {
        MakesOn(alnum, s, at, clean, ps, start, out);
      }
    }
  }

  /** The statements of a script are those its pieces make, whichever way it is cut into pieces. */
  lemma LexIsStatements(alnum: Alnum, s: string, ps: seq<Piece>)
    requires IsCut(alnum, s, true, ps)
    ensures Lex(alnum, s) == Statements(ps, 0, "")
  {
    assert s[0..] == s && s[0..0] == "";
    CutIsRead(alnum, s, 0, true, ps);
    LexFromPieces(alnum, s, 0, true, ps, 0, []);
  }

  // ------------------------------------------------------------------ every script is made of pieces

  lemma SplitCons(s: string, q: char, front: string, c: char, body: string, closed: bool, rest: string)
    requires front <= s && front == (if c == q then [q, q] else [c])
    requires s[|front|..] == Doubled(body, q) + (if closed then [q] else []) + rest
    ensures s == Doubled([c] + body, q) + (if closed then [q] else []) + rest
  {
    assert s == front + s[|front|..];
    assert ([c] + body)[1..] == body;
    AppendAssoc(front, Doubled(body, q) + (if closed then [q] else []), rest);
    AppendAssoc(front, Doubled(body, q), if closed then [q] else []);
  }

  /** What is behind an opening quote: a text with its quotes doubled, and its closing quote if there is one. */
  lemma {:induction false} QuoteSplits(s: string, q: char) returns (body: string, closed: bool, rest: string)
    ensures s == Doubled(body, q) + (if closed then [q] else []) + rest
    ensures if closed then rest != [] ==> rest[0] != q else rest == []
  {
    if s == [] {
      body, closed, rest := [], false, [];
    } else if s[0] != q {
      body, closed, rest := QuoteSplits(s[1..], q);
      SplitCons(s, q, [s[0]], s[0], body, closed, rest);
      body := [s[0]] + body;
    } else if |s| > 1 && s[1] == q {
      body, closed, rest := QuoteSplits(s[2..], q);
      SplitCons(s, q, [q, q], q, body, closed, rest);
      body := [q] + body;
    } else {
      body, closed, rest := [], true, s[1..];
    }
  }

  lemma LiteralThere(alnum: Alnum, s: string, clean: bool) returns (p: Piece)
    requires s != [] && IsQuote(s[0])
    ensures p.text <= s && IsPiece(alnum, p, s[|p.text|..], clean)
  {
    var q := s[0];
    var body, closed, rest := QuoteSplits(s[1..], q);
    var t := [q] + Doubled(body, q) + if closed then [q] else [];
    assert s == t + rest;
    assert s[|t|..] == rest;
    assert LiteralOf(t, t[0], body, rest);
    p := Piece(Literal, t);
  }

  /** A line up to its line feed. */
  lemma {:induction false} LineThere(s: string) returns (n: nat)
    ensures n <= |s| && ToLineEnd(s[..n], s[n..])
  {
    if s == [] || s[0] == '\n' {
      n := 0;
    } else {
      var m := LineThere(s[1..]);
      n := m + 1;
      assert s[..n] == [s[0]] + s[1..][..m] && s[n..] == s[1..][m..];
    }
  }

  lemma {:induction false} CloseThere(s: string, i: nat) returns (n: nat, closed: bool)
    requires i <= |s|
    ensures if closed then i <= n && Closes(s, n) && forall k :: i <= k < n ==> !Closes(s, k)
      else n == |s| && forall k :: i <= k < |s| ==> !Closes(s, k)
    decreases |s| - i
  {
    if i == |s| || Closes(s, i) {
      n, closed := i, i < |s|;
    } else {
      n, closed := CloseThere(s, i + 1);
    }
  }

  lemma BlockThere(alnum: Alnum, s: string, clean: bool) returns (p: Piece)
    requires StartsBlock(s)
    ensures p.text <= s && IsPiece(alnum, p, s[|p.text|..], clean)
  {
    var n, closed := CloseThere(s, 2);
    var t := if closed then s[..n + 2] else s;
    assert forall k :: 0 <= k && k + 1 < |t| ==> (Closes(t, k) <==> Closes(s, k));
    p := Piece(BlockComment, t);
  }

  lemma {:induction false} TagThere(s: string, i: nat, tag: string) returns (n: nat, closed: bool)
    requires i <= |s| && tag != []
    ensures if closed then i <= n && StartsWithAt(s, n, tag) && forall k :: i <= k < n ==> !StartsWithAt(s, k, tag)
      else n == |s| && forall k :: i <= k <= |s| ==> !StartsWithAt(s, k, tag)
    decreases |s| - i
  {
    if i == |s| || StartsWithAt(s, i, tag) {
      n, closed := i, i < |s|;
    } else {
      n, closed := TagThere(s, i + 1, tag);
    }
  }

  lemma DollarThere(alnum: Alnum, s: string, clean: bool) returns (p: Piece)
    requires StartsDollar(alnum, s)
    ensures p.text <= s && IsPiece(alnum, p, s[|p.text|..], clean)
  {
    var n :| 2 <= n <= |s| && IsTag(alnum, s[..n]);
    var m, closed := TagThere(s, n, s[..n]);
    var t := if closed then s[..m + n] else s;
    assert t[..n] == s[..n];
    forall k: nat | k + n <= |t| ensures StartsWithAt(t, k, t[..n]) <==> StartsWithAt(s, k, s[..n]) {
      assert t[k..k + n] == s[k..k + n];
    }
    assert BodyOf(t, n, s[|t|..]);
    p := Piece(DollarBody, t);
  }

  lemma LineFeedBehind(s: string, n: nat)
    requires n <= |s| && ToLineEnd(s[..n], s[n..]) && s != [] && s[0] != '\n'
    ensures n > 0 && (|s| > 1 && s[1] != '\n' ==> n > 1)
  {
    assert n < |s| ==> s[n..][0] == s[n];
  }

  lemma NextPiece(alnum: Alnum, s: string, clean: bool) returns (p: Piece)
    requires s != []
    ensures p.text <= s && IsPiece(alnum, p, s[|p.text|..], clean)
  {
    if IsQuote(s[0]) {
      p := LiteralThere(alnum, s, clean);
    } else if StartsLine(s) || (clean && StartsShellCommand(s, 0)) {
      var n := LineThere(s);
      LineFeedBehind(s, n);
      p := Piece(if StartsLine(s) then LineComment else ShellCommand, s[..n]);
    } else if StartsBlock(s) {
      p := BlockThere(alnum, s, clean);
    } else if StartsDollar(alnum, s) {
      p := DollarThere(alnum, s, clean);
    } else {
      assert s[..1] + s[1..] == s;
      p := Piece(Single, s[..1]);
    }
  }

  /** Every script can be cut into pieces. */
  lemma {:induction false} CutExists(alnum: Alnum, s: string, clean: bool) returns (ps: seq<Piece>)
    ensures IsCut(alnum, s, clean, ps)
    decreases |s|
  {
    if s == [] {
      ps := [];
    } else {
      var p := NextPiece(alnum, s, clean);
      var rest := CutExists(alnum, s[|p.text|..], FreshAfter(p, clean));
      ps := [p] + rest;
      assert ps[1..] == rest;
    }
  }
}
