/**
What follows from how a script is made of pieces: where its statements end, and that what
stands in a literal, a comment, a dollar body or on a shell line ends none.
*/
module SqlHidden {
  import opened Prelude
  import opened Text
  import opened SqlLexer
  import opened SqlPieces

  function TextOf(ps: seq<Piece>): string {
    if ps == [] then "" else ps[0].text + TextOf(ps[1..])
  }

  /** A statement ends at `e` when the pieces stand from `at` on: at a `;` between them, or behind a shell line. */
  predicate EndsAt(ps: seq<Piece>, at: nat, e: nat) {
    ps != [] && (
      || (IsSemicolon(ps[0]) && e == at)
      || (ps[0].kind.ShellCommand? && e == at + |ps[0].text|)
      || EndsAt(ps[1..], at + |ps[0].text|, e))
  }

  lemma {:induction false} EndsLater(ps: seq<Piece>, at: nat, e: nat)
    requires EndsAt(ps, at, e)
    ensures at <= e
    decreases |ps|
  {
    if !(IsSemicolon(ps[0]) && e == at) && !(ps[0].kind.ShellCommand? && e == at + |ps[0].text|) {
      EndsLater(ps[1..], at + |ps[0].text|, e);
    }
  }

  lemma EndsInCons(r: Range, out: seq<Range>, e: nat)
    ensures EndsIn([r] + out, e) <==> r.1 == e || EndsIn(out, e)
  {
    var more := [r] + out;
    assert more[0] == r;
    if EndsIn(out, e) {
      var k :| 0 <= k < |out| && out[k].1 == e;
      assert more[k + 1].1 == e;
    }
    if EndsIn(more, e) {
      var k :| 0 <= k < |more| && more[k].1 == e;
      assert k > 0 ==> out[k - 1].1 == e;
    }
  }

  lemma {:induction false} StatementsEnd(ps: seq<Piece>, start: nat, held: string, e: nat)
    requires e < start + |held| + |TextOf(ps)|
    ensures EndsIn(Statements(ps, start, held), e) <==> EndsAt(ps, start + |held|, e)
    decreases |ps|
  {
    if ps != [] {
      var p, at := ps[0], start + |held|;
      var next := at + |p.text|;
      if IsSemicolon(p) || p.kind.ShellCommand? {
        var end := if IsSemicolon(p) then at else next;
        EndsInCons((start, end), Statements(ps[1..], next, ""), e);
        if e < next + |TextOf(ps[1..])| {
          StatementsEnd(ps[1..], next, "", e);
        }
      } else {
        StatementsEnd(ps[1..], start, held + p.text, e);
      }
    }
  }

  lemma {:induction false} CutText(alnum: Alnum, s: string, clean: bool, ps: seq<Piece>)
    requires IsCut(alnum, s, clean, ps)
    ensures TextOf(ps) == s
    decreases |ps|
  {
    if ps != [] {
      CutText(alnum, s[|ps[0].text|..], FreshAfter(ps[0], clean), ps[1..]);
    }
  }

  /**
  Within a script a statement ends at a `;` that is a piece by itself, and behind a shell line, and
  nowhere else.
  */
  lemma EndsExactly(alnum: Alnum, s: string, ps: seq<Piece>, e: nat)
    requires IsCut(alnum, s, true, ps) && e < |s|
    ensures EndsIn(Lex(alnum, s), e) <==> EndsAt(ps, 0, e)
  {
    LexIsStatements(alnum, s, ps);
    CutText(alnum, s, true, ps);
    StatementsEnd(ps, 0, "", e);
  }

  // ------------------------------------------------------------------ plain text around a piece

  /** No character that could open a piece of more than itself. */
  predicate Plain(s: string) {
    forall k :: 0 <= k < |s| ==> !IsQuote(s[k]) && s[k] !in {'-', '/', '$', '\\', '.'}
  }

  /** Behind `s`, only white space has stood since the last `;`. */
  predicate CleanBehind(s: string, clean: bool)
    decreases |s|
  {
    if s == [] then clean else CleanBehind(s[1..], s[0] == ';' || (clean && IsWhitespace(s[0])))
  }

  function Singles(s: string): seq<Piece> {
    if s == [] then [] else [Piece(Single, s[..1])] + Singles(s[1..])
  }

  lemma PieceThenCut(alnum: Alnum, p: Piece, after: string, clean: bool, b: seq<Piece>)
    requires IsPiece(alnum, p, after, clean) && IsCut(alnum, after, FreshAfter(p, clean), b)
    ensures IsCut(alnum, p.text + after, clean, [p] + b)
  {
    assert (p.text + after)[|p.text|..] == after && ([p] + b)[1..] == b;
  }

  lemma PrependNothing(s: string, tail: string, ps: seq<Piece>)
    requires s == []
    ensures s + tail == tail && Singles(s) + ps == ps
  {
  }

  lemma NoTag(alnum: Alnum, s: string)
    requires s != [] && s[0] != '$'
    ensures !StartsDollar(alnum, s)
  {
    forall n | 2 <= n <= |s| ensures !IsTag(alnum, s[..n]) {
      assert s[..n][0] == s[0];
    }
  }

  lemma PlainOpensNothing(alnum: Alnum, s: string, tail: string, clean: bool)
    requires Plain(s) && s != []
    ensures !Opens(alnum, s + tail, clean)
  {
    var t := s + tail;
    assert t[0] == s[0];
    NoTag(alnum, t);
  }

  lemma PlainSingle(alnum: Alnum, s: string, tail: string, clean: bool)
    requires Plain(s) && s != []
    ensures IsPiece(alnum, Piece(Single, s[..1]), s[1..] + tail, clean)
  {
    PlainOpensNothing(alnum, s, tail, clean);
    assert s[..1] + (s[1..] + tail) == s + tail;
  }

  lemma PlainFirst(alnum: Alnum, s: string, tail: string, clean: bool, row: seq<Piece>)
    requires Plain(s) && s != []
    requires IsCut(alnum, s[1..] + tail, s[0] == ';' || (clean && IsWhitespace(s[0])), row)
    ensures IsCut(alnum, s + tail, clean, [Piece(Single, s[..1])] + row)
  {
    PlainSingle(alnum, s, tail, clean);
    PieceThenCut(alnum, Piece(Single, s[..1]), s[1..] + tail, clean, row);
    assert s[..1] + s[1..] == s;
    AppendAssoc(s[..1], s[1..], tail);
  }

  lemma {:induction false} PlainCut(alnum: Alnum, s: string, tail: string, clean: bool, ps: seq<Piece>)
    requires Plain(s) && IsCut(alnum, tail, CleanBehind(s, clean), ps)
    ensures IsCut(alnum, s + tail, clean, Singles(s) + ps)
    decreases |s|
  {
    if s == [] {
      PrependNothing(s, tail, ps);
    } else {
      PlainCut(alnum, s[1..], tail, s[0] == ';' || (clean && IsWhitespace(s[0])), ps);
      PlainFirst(alnum, s, tail, clean, Singles(s[1..]) + ps);
      AppendAssoc([Piece(Single, s[..1])], Singles(s[1..]), ps);
    }
  }

  lemma {:induction false} EndsConcat(a: seq<Piece>, b: seq<Piece>, at: nat, e: nat)
    ensures EndsAt(a + b, at, e) <==> EndsAt(a, at, e) || EndsAt(b, at + |TextOf(a)|, e)
    decreases |a|
  {
    if a == [] {
      assert a + b == b;
    } else {
      assert (a + b)[1..] == a[1..] + b;
      EndsConcat(a[1..], b, at + |a[0].text|, e);
    }
  }

  lemma {:induction false} EndsShifted(ps: seq<Piece>, at: nat, other: nat, e: nat)
    ensures EndsAt(ps, at, at + e) <==> EndsAt(ps, other, other + e)
    decreases |ps|
  {
    if ps != [] {
      var n := |ps[0].text|;
      if n <= e {
        EndsShifted(ps[1..], at + n, other + n, e - n);
      } else {
        if EndsAt(ps[1..], at + n, at + e) {
          EndsLater(ps[1..], at + n, at + e);
        }
        if EndsAt(ps[1..], other + n, other + e) {
          EndsLater(ps[1..], other + n, other + e);
        }
      }
    }
  }

  lemma {:induction false} EndsOfSingles(s: string, at: nat, e: nat)
    ensures EndsAt(Singles(s), at, e) <==> at <= e < at + |s| && s[e - at] == ';'
    ensures TextOf(Singles(s)) == s
    decreases |s|
  {
    if s != [] {
      assert Singles(s)[1..] == Singles(s[1..]);
      EndsOfSingles(s[1..], at + 1, e);
    }
  }

  lemma EndsOfRow(before: string, p: Piece, b: seq<Piece>, e: nat)
    requires !p.kind.Single?
    ensures EndsAt(Singles(before) + ([p] + b), 0, e) <==>
      || (e < |before| && before[e] == ';')
      || (p.kind.ShellCommand? && e == |before| + |p.text|)
      || EndsAt(b, |before| + |p.text|, e)
  {
    assert ([p] + b)[1..] == b;
    EndsConcat(Singles(before), [p] + b, 0, e);
    EndsOfSingles(before, 0, e);
  }

  /** The ends of plain text, a piece, and anything behind them, by the pieces of what is behind. */
  lemma EndsAround(alnum: Alnum, before: string, p: Piece, after: string, b: seq<Piece>, e: nat)
    requires Plain(before) && !p.kind.Single?
    requires IsCut(alnum, p.text + after, CleanBehind(before, true), [p] + b)
    requires e < |before + p.text + after|
    ensures EndsIn(Lex(alnum, before + p.text + after), e) <==>
      || (e < |before| && before[e] == ';')
      || (p.kind.ShellCommand? && e == |before| + |p.text|)
      || EndsAt(b, |before| + |p.text|, e)
  {
    PlainCut(alnum, before, p.text + after, true, [p] + b);
    AppendAssoc(before, p.text, after);
    EndsExactly(alnum, before + p.text + after, Singles(before) + ([p] + b), e);
    EndsOfRow(before, p, b, e);
  }

  /**
  What stands in a literal, a comment, a dollar body or a shell line ends no statement; the ends
  before it are exactly the `;` there.
  */
  lemma HiddenEndsNothing(alnum: Alnum, before: string, p: Piece, after: string, e: nat)
    requires Plain(before) && !p.kind.Single? && IsPiece(alnum, p, after, CleanBehind(before, true))
    requires e < |before| + |p.text| && e < |before + p.text + after|
    ensures EndsIn(Lex(alnum, before + p.text + after), e) <==> e < |before| && before[e] == ';'
  {
    var b := CutExists(alnum, after, FreshAfter(p, CleanBehind(before, true)));
    PieceThenCut(alnum, p, after, CleanBehind(before, true), b);
    EndsAround(alnum, before, p, after, b, e);
    if EndsAt(b, |before| + |p.text|, e) {
      EndsLater(b, |before| + |p.text|, e);
    }
  }

  /** The ends behind such a piece, counted from its end, wherever the pieces behind it are thought to stand. */
  lemma EndsBehind(alnum: Alnum, before: string, p: Piece, after: string, b: seq<Piece>, from: nat, e: nat)
    requires Plain(before) && !p.kind.Single? && e < |after|
    requires IsCut(alnum, p.text + after, CleanBehind(before, true), [p] + b)
    ensures EndsIn(Lex(alnum, before + p.text + after), |before| + |p.text| + e) <==>
      (p.kind.ShellCommand? && e == 0) || EndsAt(b, from, from + e)
  {
    var at := |before| + |p.text|;
    EndsAround(alnum, before, p, after, b, at + e);
    EndsShifted(b, at, from, e);
  }

  /** The ends of a text in plain surroundings, by its pieces. */
  lemma EndsBehindPlain(alnum: Alnum, before: string, after: string, b: seq<Piece>, from: nat, e: nat)
    requires Plain(before) && IsCut(alnum, after, CleanBehind(before, true), b) && e < |after|
    ensures EndsIn(Lex(alnum, before + after), |before| + e) <==> EndsAt(b, from, from + e)
  {
    PlainCut(alnum, before, after, true, b);
    EndsExactly(alnum, before + after, Singles(before) + b, |before| + e);
    EndsConcat(Singles(before), b, 0, |before| + e);
    EndsOfSingles(before, 0, |before| + e);
    EndsShifted(b, |before|, from, e);
  }

  /** Nothing, or a character of code: what a text must stand behind to be read as it is behind a given piece. */
  function Lead(clean: bool): (s: string)
    ensures Plain(s) && CleanBehind(s, true) == clean
  {
    if clean then "" else "x"
  }

  /**
  The ends behind such a piece do not depend on what it says. They are those of what is behind it, read by
  itself where a shell command could begin as well, or could not either.
  */
  lemma HiddenShiftsOnly(alnum: Alnum, before: string, p: Piece, after: string, e: nat)
    requires Plain(before) && !p.kind.Single? && IsPiece(alnum, p, after, CleanBehind(before, true)) && e < |after|
    ensures var lead := Lead(FreshAfter(p, CleanBehind(before, true)));
      EndsIn(Lex(alnum, before + p.text + after), |before| + |p.text| + e) <==>
        (p.kind.ShellCommand? && e == 0) || EndsIn(Lex(alnum, lead + after), |lead| + e)
  {
    var clean := CleanBehind(before, true);
    var b := CutExists(alnum, after, FreshAfter(p, clean));
    PieceThenCut(alnum, p, after, clean, b);
    EndsBehind(alnum, before, p, after, b, |after|, e);
    EndsBehindPlain(alnum, Lead(FreshAfter(p, clean)), after, b, |after|, e);
  }

  // ------------------------------------------------------------------ literals, whatever is behind them

  /** A text in quotes, its own quotes doubled. */
  function Quoted(body: string, q: char): (t: string)
    ensures |t| >= 2
  {
    [q] + Doubled(body, q) + [q]
  }

  /** What `after` goes on with, when a quote has just been read, and what is behind that. */
  ghost predicate GoesOn(after: string, q: char, on: string, rest: string) {
    after == on + rest && forall body :: IsLiteral(Quoted(body, q) + on, rest)
  }

  lemma Regroup(q: string, a: string, d: string, c: string)
    ensures q + (a + (q + q) + d) + c == q + a + q + (q + d + c)
  {
  }

  lemma LiteralIs(t: string, q: char, body: string, closed: bool, rest: string)
    requires IsQuote(q) && t == [q] + Doubled(body, q) + (if closed then [q] else [])
    requires if closed then rest != [] ==> rest[0] != q else rest == []
    ensures IsLiteral(t, rest)
  {
    assert LiteralOf(t, q, body, rest);
  }

  lemma {:induction false} DoubledConcat(a: string, q: char, b: string)
    ensures Doubled(a + [q] + b, q) == Doubled(a, q) + ([q] + [q]) + Doubled(b, q)
    decreases |a|
  {
    if a == [] {
      assert a + [q] + b == [q] + b && ([q] + b)[1..] == b;
    } else {
      assert (a + [q] + b)[1..] == a[1..] + [q] + b;
      DoubledConcat(a[1..], q, b);
    }
  }

  lemma LongerLiteral(q: char, body: string, more: string, closed: bool, rest: string)
    requires IsQuote(q) && if closed then rest != [] ==> rest[0] != q else rest == []
    ensures IsLiteral(Quoted(body, q) + ([q] + Doubled(more, q) + if closed then [q] else []), rest)
  {
    var c := if closed then [q] else [];
    DoubledConcat(body, q, more);
    Regroup([q], Doubled(body, q), Doubled(more, q), c);
    LiteralIs([q] + Doubled(body + [q] + more, q) + c, q, body + [q] + more, closed, rest);
  }

  lemma Regrouped(q: string, d: string, c: string, rest: string)
    ensures q + (d + c + rest) == q + d + c + rest
  {
  }

  /** A literal goes on when its quote stands right behind it. How it does so does not depend on what it says. */
  lemma LiteralGoesOn(after: string, q: char) returns (on: string, rest: string)
    requires IsQuote(q)
    ensures GoesOn(after, q, on, rest)
  {
    if after == [] || after[0] != q {
      on, rest := "", after;
      forall body ensures IsLiteral(Quoted(body, q) + on, rest) {
        assert Quoted(body, q) + on == Quoted(body, q);
        LiteralIs(Quoted(body, q), q, body, true, rest);
      }
    } else {
      var more, closed, behind := QuoteSplits(after[1..], q);
      on, rest := [q] + Doubled(more, q) + (if closed then [q] else []), behind;
      assert after == [q] + after[1..];
      Regrouped([q], Doubled(more, q), if closed then [q] else [], rest);
      forall body ensures IsLiteral(Quoted(body, q) + on, rest) {
        LongerLiteral(q, body, more, closed, rest);
      }
    }
  }

  /** The ends in and behind a literal that goes on with `on`. */
  lemma EndsOfLiteral(alnum: Alnum, before: string, q: char, body: string, on: string, rest: string, e: nat)
    requires Plain(before) && IsLiteral(Quoted(body, q) + on, rest) && e < |Quoted(body, q)| + |on| + |rest|
    ensures EndsIn(Lex(alnum, before + Quoted(body, q) + (on + rest)), |before| + e) <==>
      var n := |Quoted(body, q)| + |on|;
      e >= n && EndsIn(Lex(alnum, Lead(false) + rest), 1 + (e - n))
  {
    var p, n := Piece(Literal, Quoted(body, q) + on), |Quoted(body, q)| + |on|;
    AppendAssoc(before, Quoted(body, q), on);
    AppendAssoc(before + Quoted(body, q), on, rest);
    if e < n {
      HiddenEndsNothing(alnum, before, p, rest, |before| + e);
    } else {
      HiddenShiftsOnly(alnum, before, p, rest, e - n);
    }
  }

  lemma EndsBeforeLiteral(alnum: Alnum, before: string, q: char, body: string, on: string, rest: string, e: nat)
    requires Plain(before) && IsLiteral(Quoted(body, q) + on, rest) && e < |before|
    ensures EndsIn(Lex(alnum, before + Quoted(body, q) + (on + rest)), e) <==> before[e] == ';'
  {
    AppendAssoc(before, Quoted(body, q), on);
    AppendAssoc(before + Quoted(body, q), on, rest);
    HiddenEndsNothing(alnum, before, Piece(Literal, Quoted(body, q) + on), rest, e);
  }

  /**
  A literal in plain text, with anything behind it. Statements end before it at each `;` there and in it
  nowhere, and where they end behind it does not depend on what it says.
  */
  lemma LiteralHides(alnum: Alnum, before: string, q: char, body: string, other: string, after: string, e: nat)
    requires Plain(before) && IsQuote(q)
    ensures e < |before| ==> (EndsIn(Lex(alnum, before + Quoted(body, q) + after), e) <==> before[e] == ';')
    ensures e < |Quoted(body, q)| ==> !EndsIn(Lex(alnum, before + Quoted(body, q) + after), |before| + e)
    ensures e < |after| ==>
      (EndsIn(Lex(alnum, before + Quoted(body, q) + after), |before| + |Quoted(body, q)| + e) <==>
       EndsIn(Lex(alnum, before + Quoted(other, q) + after), |before| + |Quoted(other, q)| + e))
  {
    var on, rest := LiteralGoesOn(after, q);
    if e < |before| {
      EndsBeforeLiteral(alnum, before, q, body, on, rest, e);
    }
    if e < |Quoted(body, q)| {
      EndsOfLiteral(alnum, before, q, body, on, rest, e);
    }
    if e < |after| {
      EndsOfLiteral(alnum, before, q, body, on, rest, |Quoted(body, q)| + e);
      EndsOfLiteral(alnum, before, q, other, on, rest, |Quoted(other, q)| + e);
    }
  }
}
