/**
What the scanner's cut of a script is, said without the scanner: at each place either something
opens there, and then all of it is one piece, or nothing does, and then the piece is one character.
There is only one such cut.
*/
module ParamCut {
  import opened Prelude
  import opened Text
  import opened Params

  // ------------------------------------------------------------------ what may open

  /** Text inside quotes `q`: doubled quotes, and inside single quotes a backslash takes along what follows it. */
  predicate IsBody(t: string, q: char)
    decreases |t|
  {
    t == "" ||
    (if t[0] == '\\' && q == '\'' then |t| > 1 && IsBody(t[2..], q)
     else if t[0] == q then |t| > 1 && t[1] == q && IsBody(t[2..], q)
     else IsBody(t[1..], q))
  }

  predicate IsClosed(t: string, q: char, after: string) {
    t != "" && Last(t) == q && IsBody(t[..|t| - 1], q) && (after != "" ==> after[0] != q)
  }

  predicate IsCut(t: string, q: char) {
    t != "" && q == '\'' && Last(t) == '\\' && IsBody(t[..|t| - 1], q)
  }

  /**
  `t`, behind an opening quote `q` and in front of `after`, is the rest of a quoted text: closed by a
  quote that no quote follows, or by the end of the script, which may cut off an escape.
  */
  ghost predicate Taken(t: string, q: char, after: string) {
    IsClosed(t, q, after) || (after == "" && (IsBody(t, q) || IsCut(t, q)))
  }

  ghost predicate QuotedAt(s: string, i: nat, end: nat) {
    i < end <= |s| && IsQuote(s[i]) && Taken(s[i + 1..end], s[i], s[end..])
  }

  /** `end` is just past the first `close` from `from` on, or the end of the script if there is none. */
  ghost predicate ClosedBy(s: string, from: nat, close: string, end: nat) {
    || (from + |close| <= end && At(s, end - |close|, close) && forall k ::
      from <= k < end - |close| ==> !At(s, k, close))
    || (end == |s| && forall k: nat :: from <= k ==> !At(s, k, close))
  }

  predicate IsTag(tag: string) {
    |tag| >= 2 && tag[0] == '$' && Last(tag) == '$' && forall k :: 1 <= k < |tag| - 1 ==> IsIdentStart(tag[k])
  }

  ghost predicate DollarAt(s: string, i: nat, end: nat) {
    exists tag :: IsTag(tag) && At(s, i, tag) && ClosedBy(s, i + |tag|, tag, end)
  }

  /** `{{name}}` with white space around the name. */
  ghost predicate InBraces(s: string, i: nat, end: nat, name: string) {
    && i + 4 <= end <= |s| && Two(s, i, '{', '{') && At(s, end - 2, "}}") && ClosedBy(s, i + 2, "}}", end)
    && JsTrim(s[i + 2..end - 2]) == name
  }

  /** `:name`, where a name may begin, and the whole of it. */
  predicate BehindColon(s: string, i: nat, end: nat, name: string) {
    && i < end <= |s| && s[i] == ':' && s[i + 1..end] == name && OpenBefore(s, i)
    && (end < |s| ==> !IsWordChar(s[end]) && s[end] != '=')
  }

  /** The piece opens at `i`, and is all of what does. */
  ghost predicate OpensAt(s: string, i: nat, p: Piece, colon: bool) {
    p.text != "" && At(s, i, p.text) && (p.kind != Param ==> p.name == "") && var end := i + |p.text|;
    match p.kind
    case Quote => QuotedAt(s, i, end)
    case LineComment => Two(s, i, '-', '-') && ClosedBy(s, i, "\n", end)
    case BlockComment => Two(s, i, '/', '*') && ClosedBy(s, i + 2, "*/", end)
    case Dollar => DollarAt(s, i, end)
    case Param => IsName(p.name) && (InBraces(s, i, end, p.name) || (colon && BehindColon(s, i, end, p.name)))
    case Plain => false
  }

  // ------------------------------------------------------------------ one thing opens, and the scanner finds it

  /** The scanner reads through text inside quotes to what follows it. */
  lemma {:induction false} BodyThen(t: string, q: char, rest: string)
    requires IsBody(t, q)
    ensures QuoteLength(t + rest, q) == |t| + QuoteLength(rest, q)
    decreases |t|
  {
    if t == "" {
      assert t + rest == rest;
    } else if (t[0] == '\\' && q == '\'') || t[0] == q {
      assert (t + rest)[2..] == t[2..] + rest;
      BodyThen(t[2..], q, rest);
    } else {
      assert (t + rest)[1..] == t[1..] + rest;
      BodyThen(t[1..], q, rest);
    }
  }

  lemma ClosingQuote(q: char, after: string)
    requires after != "" ==> after[0] != q
    ensures QuoteLength([q] + after, q) == 1
  {
  }

  lemma LastApart(t: string, after: string)
    requires t != ""
    ensures t + after == t[..|t| - 1] + ([Last(t)] + after)
  {
  }

  lemma ClosedIsWhole(body: string, q: char, after: string)
    requires IsBody(body, q) && (after != "" ==> after[0] != q)
    ensures QuoteLength(body + ([q] + after), q) == |body| + 1
  {
    BodyThen(body, q, [q] + after);
    ClosingQuote(q, after);
  }

  lemma ClosedTaken(t: string, q: char, after: string)
    requires IsClosed(t, q, after)
    ensures QuoteLength(t + after, q) == |t|
  {
    ClosedIsWhole(t[..|t| - 1], q, after);
    LastApart(t, after);
  }

  lemma CutEscapeIsWhole(body: string, q: char)
    requires IsBody(body, q) && q == '\''
    ensures QuoteLength(body + ['\\'], q) == |body| + 1
  {
    BodyThen(body, q, ['\\']);
  }

  lemma CutEscapeTaken(t: string, q: char)
    requires IsCut(t, q)
    ensures QuoteLength(t, q) == |t|
  {
    CutEscapeIsWhole(t[..|t| - 1], q);
    assert t == t[..|t| - 1] + ['\\'];
  }

  lemma {:induction false} WholeBody(t: string, q: char)
    requires IsBody(t, q)
    ensures QuoteLength(t, q) == |t|
    decreases |t|
  {
    if t != "" {
      WholeBody(if (t[0] == '\\' && q == '\'') || t[0] == q then t[2..] else t[1..], q);
    }
  }

  lemma UnclosedTaken(t: string, q: char)
    requires IsBody(t, q) || IsCut(t, q)
    ensures QuoteLength(t, q) == |t|
  {
    if IsBody(t, q) {
      WholeBody(t, q);
    } else {
      CutEscapeTaken(t, q);
    }
  }

  lemma TakenIsWhole(t: string, q: char, after: string)
    requires Taken(t, q, after)
    ensures QuoteLength(t + after, q) == |t|
  {
    if IsClosed(t, q, after) {
      ClosedTaken(t, q, after);
    } else {
      UnclosedTaken(t, q);
      assert t + after == t;
    }
  }

  /** One step of the scanner inside quotes: a character, a doubled quote, or an escape. */
  predicate IsUnit(unit: string, q: char) {
    if |unit| == 1 then unit[0] != q && !(unit[0] == '\\' && q == '\'')
    else |unit| == 2 && ((unit[0] == '\\' && q == '\'') || (unit[0] == q && unit[1] == q))
  }

  lemma UnitThen(unit: string, t: string, q: char)
    requires IsBody(t, q) && IsUnit(unit, q)
    ensures IsBody(unit + t, q)
  {
    assert (unit + t)[|unit|..] == t;
  }

  lemma TakenMore(unit: string, t: string, q: char, after: string)
    requires Taken(t, q, after) && IsUnit(unit, q)
    ensures Taken(unit + t, q, after)
  {
    if t != "" {
      assert (unit + t)[..|unit + t| - 1] == unit + t[..|t| - 1];
      assert Last(unit + t) == Last(t);
      if IsBody(t[..|t| - 1], q) {
        UnitThen(unit, t[..|t| - 1], q);
      }
    }
    if IsBody(t, q) {
      UnitThen(unit, t, q);
    }
  }

  /** What the scanner takes is such a text. */
  lemma {:induction false} ScannedIsTaken(s: string, q: char)
    ensures var n := QuoteLength(s, q); Taken(s[..n], q, s[n..])
    decreases |s|
  {
    if s == "" {
    } else if s[0] == '\\' && q == '\'' {
      if |s| > 1 {
        ScannedMore(s, q, 2);
      } else {
        assert s[..1][..0] == "";
      }
    } else if s[0] == q {
      if |s| > 1 && s[1] == q {
        ScannedMore(s, q, 2);
      } else {
        assert s[..1][..0] == "" && Last(s[..1]) == q;
      }
    } else {
      ScannedMore(s, q, 1);
    }
  }

  lemma {:induction false} ScannedMore(s: string, q: char, k: nat)
    requires 0 < k <= |s| && QuoteLength(s, q) == k + QuoteLength(s[k..], q) && IsUnit(s[..k], q)
    ensures var n := QuoteLength(s, q); Taken(s[..n], q, s[n..])
    decreases |s|, 0
  {
    var n, m := QuoteLength(s, q), QuoteLength(s[k..], q);
    ScannedIsTaken(s[k..], q);
    assert s[..n] == s[..k] + s[k..][..m] && s[n..] == s[k..][m..];
    TakenMore(s[..k], s[k..][..m], q, s[n..]);
  }

  lemma QuotedExactly(s: string, i: nat, end: nat)
    requires i < end <= |s|
    ensures QuotedAt(s, i, end) <==> IsQuote(s[i]) && end == i + 1 + QuoteLength(s[i + 1..], s[i])
  {
    var t, after := s[i + 1..end], s[end..];
    assert s[i + 1..] == t + after;
    if Taken(t, s[i], after) {
      TakenIsWhole(t, s[i], after);
    }
    if end == i + 1 + QuoteLength(s[i + 1..], s[i]) {
      ScannedIsTaken(s[i + 1..], s[i]);
      assert s[i + 1..][..end - i - 1] == t && s[i + 1..][end - i - 1..] == after;
    }
  }

  lemma ClosedExactly(s: string, from: nat, close: string, end: nat)
    requires from <= |s| && close != ""
    ensures ClosedBy(s, from, close, end) <==> end == Past(s, close, from)
  {
    FindIsFirst(s, close, from);
    var at := Find(s, close, from);
    if ClosedBy(s, from, close, end) && at.Some? && end != at.value + |close| {
      assert At(s, at.value, close);
      assert at.value >= end - |close| && At(s, end - |close|, close);
    }
  }

  lemma {:induction false} TagEndAt(s: string, i: nat, end: nat)
    requires i <= end <= |s| && (forall k :: i <= k < end ==> IsIdentStart(s[k])) &&
      (end < |s| ==> !IsIdentStart(s[end]))
    ensures TagEnd(s, i) == end
    decreases end - i
  {
    if i < end {
      TagEndAt(s, i + 1, end);
    }
  }

  lemma {:induction false} NameEndAt(s: string, i: nat, end: nat)
    requires i <= end <= |s| && (forall k :: i <= k < end ==> IsWordChar(s[k])) && (end < |s| ==> !IsWordChar(s[end]))
    ensures NameEnd(s, i) == end
    decreases end - i
  {
    if i < end {
      NameEndAt(s, i + 1, end);
    }
  }

  lemma TagExactly(s: string, i: nat, tag: string)
    requires i < |s|
    ensures IsTag(tag) && At(s, i, tag) <==> TagAt(s, i).Some? && tag == s[i..TagAt(s, i).value]
  {
    if IsTag(tag) && At(s, i, tag) {
      var end := i + |tag|;
      forall k | i <= k < end ensures s[k] == tag[k - i] {
        assert s[i..end][k - i] == s[k];
      }
      TagEndAt(s, i + 1, end - 1);
    } else if TagAt(s, i).Some? {
      TagEndIs(s, i + 1);
    }
  }

  lemma BodyOpened(s: string, i: nat, tag: string, end: nat)
    requires i < |s| && IsTag(tag) && At(s, i, tag) && ClosedBy(s, i + |tag|, tag, end)
    ensures TagAt(s, i).Some? && end == DollarEnd(s, i)
  {
    TagExactly(s, i, tag);
    ClosedExactly(s, i + |tag|, tag, end);
  }

  lemma BodyOpens(s: string, i: nat)
    requires i < |s| && TagAt(s, i).Some?
    ensures DollarAt(s, i, DollarEnd(s, i))
  {
    var tag := s[i..TagAt(s, i).value];
    TagExactly(s, i, tag);
    ClosedExactly(s, i + |tag|, tag, DollarEnd(s, i));
  }

  lemma DollarExactly(s: string, i: nat, end: nat)
    requires i < |s|
    ensures DollarAt(s, i, end) <==> TagAt(s, i).Some? && end == DollarEnd(s, i)
  {
    if DollarAt(s, i, end) {
      var tag :| IsTag(tag) && At(s, i, tag) && ClosedBy(s, i + |tag|, tag, end);
      BodyOpened(s, i, tag, end);
    } else if TagAt(s, i).Some? {
      BodyOpens(s, i);
    }
  }

  lemma BracesClose(s: string, i: nat, end: nat)
    requires Two(s, i, '{', '{')
    ensures ClosedBy(s, i + 2, "}}", end) && i + 4 <= end <= |s| && At(s, end - 2, "}}") <==>
      Find(s, "}}", i + 2).Some? && end == Find(s, "}}", i + 2).value + 2
  {
    ClosedExactly(s, i + 2, "}}", end);
    FindIsFirst(s, "}}", i + 2);
  }

  lemma BracesExactly(s: string, i: nat, end: nat, name: string)
    ensures InBraces(s, i, end, name) && IsName(name) <==>
      BracesAt(s, i).Some? && end == BracesAt(s, i).value + 2 && name == JsTrim(s[i + 2..BracesAt(s, i).value])
  {
    if Two(s, i, '{', '{') {
      BracesClose(s, i, end);
    }
  }

  lemma ColonExactly(s: string, i: nat, end: nat, name: string)
    requires i < |s|
    ensures BehindColon(s, i, end, name) && IsName(name) <==>
      ColonAt(s, i).Some? && end == ColonAt(s, i).value && name == s[i + 1..end]
  {
    if BehindColon(s, i, end, name) && IsName(name) {
      forall k | i + 1 <= k < end ensures IsWordChar(s[k]) {
        assert s[i + 1..end][k - i - 1] == s[k];
      }
      assert s[i + 1] == name[0];
      NameEndAt(s, i + 1, end);
    } else if ColonAt(s, i).Some? {
      NameEndIs(s, i + 1);
    }
  }

  lemma ParamExactly(s: string, i: nat, end: nat, name: string, colon: bool)
    requires i < |s|
    ensures IsName(name) && (InBraces(s, i, end, name) || (colon && BehindColon(s, i, end, name))) <==>
      ParamAt(s, i, colon) == Some(Hit(name, i, end))
  {
    BracesExactly(s, i, end, name);
    ColonExactly(s, i, end, name);
  }

  lemma QuoteOpens(s: string, i: nat, end: nat, p: Piece, colon: bool)
    requires i < end <= |s| && p.text == s[i..end] && p.kind == Quote
    ensures OpensAt(s, i, p, colon) <==> p == PieceAt(s, i, colon)
  {
    PieceIs(s, i, end, p, colon);
    QuotedExactly(s, i, end);
  }

  lemma LineOpens(s: string, i: nat, end: nat, p: Piece, colon: bool)
    requires i < end <= |s| && p.text == s[i..end] && p.kind == LineComment
    ensures OpensAt(s, i, p, colon) <==> p == PieceAt(s, i, colon)
  {
    PieceIs(s, i, end, p, colon);
    ClosedExactly(s, i, "\n", end);
  }

  lemma BlockOpens(s: string, i: nat, end: nat, p: Piece, colon: bool)
    requires i < end <= |s| && p.text == s[i..end] && p.kind == BlockComment
    ensures OpensAt(s, i, p, colon) <==> p == PieceAt(s, i, colon)
  {
    PieceIs(s, i, end, p, colon);
    if Two(s, i, '/', '*') {
      ClosedExactly(s, i + 2, "*/", end);
    }
  }

  lemma DollarOpens(s: string, i: nat, end: nat, p: Piece, colon: bool)
    requires i < end <= |s| && p.text == s[i..end] && p.kind == Dollar
    ensures OpensAt(s, i, p, colon) <==> p == PieceAt(s, i, colon)
  {
    if TagAt(s, i).Some? {
      DollarHere(s, i, end, p, colon);
    } else {
      DollarNotHere(s, i, end, p, colon);
    }
  }

  lemma ParamOpens(s: string, i: nat, end: nat, p: Piece, colon: bool)
    requires i < end <= |s| && p.text == s[i..end] && p.kind == Param
    ensures OpensAt(s, i, p, colon) <==> p == PieceAt(s, i, colon)
  {
    PieceIs(s, i, end, p, colon);
    ParamKind(s, i, colon);
    ParamExactly(s, i, end, p.name, colon);
  }

  lemma KindExactly(s: string, i: nat, end: nat, p: Piece, colon: bool)
    requires i < end <= |s| && p.text == s[i..end]
    ensures OpensAt(s, i, p, colon) <==> KindAt(s, i, colon) != Plain && p == PieceAt(s, i, colon)
  {
    match p.kind
    case Quote => QuoteOpens(s, i, end, p, colon);
    case LineComment => LineOpens(s, i, end, p, colon);
    case BlockComment => BlockOpens(s, i, end, p, colon);
    case Dollar => DollarOpens(s, i, end, p, colon);
    case Param => ParamOpens(s, i, end, p, colon);
    case Plain =>
  }

  /** What opens, if anything does, is the piece that the scanner finds. */
  lemma OpensExactly(s: string, i: nat, p: Piece, colon: bool)
    requires i < |s|
    ensures OpensAt(s, i, p, colon) <==> KindAt(s, i, colon) != Plain && p == PieceAt(s, i, colon)
  {
    var end := i + |p.text|;
    if p.text != "" && At(s, i, p.text) {
      KindExactly(s, i, end, p, colon);
    }
    assert p == PieceAt(s, i, colon) ==> end == EndAt(s, i, colon) && p.text != "" && At(s, i, p.text);
  }

  /** The kind, the end and the name say which piece it is. */
  lemma PieceIs(s: string, i: nat, end: nat, p: Piece, colon: bool)
    requires i < end <= |s| && p.text == s[i..end]
    ensures p == PieceAt(s, i, colon) <==>
      && p.kind == KindAt(s, i, colon) && end == EndAt(s, i, colon)
      && p.name == if p.kind == Param then ParamAt(s, i, colon).value.name else ""
  {
    assert |s[i..EndAt(s, i, colon)]| == EndAt(s, i, colon) - i;
  }

  lemma DollarKind(s: string, i: nat, colon: bool)
    requires i < |s|
    ensures KindAt(s, i, colon) == Dollar <==> TagAt(s, i).Some?
  {
  }

  lemma DollarNotHere(s: string, i: nat, end: nat, p: Piece, colon: bool)
    requires i < end <= |s| && p.kind == Dollar && TagAt(s, i).None?
    ensures !OpensAt(s, i, p, colon) && p != PieceAt(s, i, colon)
  {
    DollarKind(s, i, colon);
    DollarExactly(s, i, i + |p.text|);
  }

  lemma DollarHere(s: string, i: nat, end: nat, p: Piece, colon: bool)
    requires i < end <= |s| && p.text == s[i..end] && p.kind == Dollar && TagAt(s, i).Some?
    ensures OpensAt(s, i, p, colon) <==> p == PieceAt(s, i, colon)
  {
    PieceIs(s, i, end, p, colon);
    DollarKind(s, i, colon);
    DollarExactly(s, i, end);
  }

  lemma ParamKind(s: string, i: nat, colon: bool)
    requires i < |s|
    ensures KindAt(s, i, colon) == Param <==> ParamAt(s, i, colon).Some?
  {
  }

  // ------------------------------------------------------------------ the one cut

  ghost predicate NothingOpens(s: string, i: nat, colon: bool) {
    forall p :: !OpensAt(s, i, p, colon)
  }

  /** The piece belongs at `i`: it opens there, or nothing does and it is one character. */
  ghost predicate Belongs(s: string, i: nat, p: Piece, colon: bool) {
    || OpensAt(s, i, p, colon)
    || (p.kind == Plain && p.name == "" && |p.text| == 1 && At(s, i, p.text) && NothingOpens(s, i, colon))
  }

  /** From `i` on the script is these pieces, each of them where it belongs. */
  ghost predicate IsCutFrom(s: string, i: nat, pieces: seq<Piece>, colon: bool)
    decreases |pieces|
  {
    if pieces == [] then i == |s|
    else Belongs(s, i, pieces[0], colon) && IsCutFrom(s, i + |pieces[0].text|, pieces[1..], colon)
  }

  lemma BelongsExactly(s: string, i: nat, p: Piece, colon: bool)
    requires i < |s|
    ensures Belongs(s, i, p, colon) <==> p == PieceAt(s, i, colon)
  {
    OpensExactly(s, i, p, colon);
    OpensExactly(s, i, PieceAt(s, i, colon), colon);
    if KindAt(s, i, colon) == Plain {
      forall q ensures !OpensAt(s, i, q, colon) {
        OpensExactly(s, i, q, colon);
      }
      assert p.kind == Plain && p.name == "" && |p.text| == 1 && At(s, i, p.text) <==> p == PieceAt(s, i, colon);
    }
  }

  lemma NothingAtEnd(s: string, p: Piece, colon: bool)
    ensures !Belongs(s, |s|, p, colon)
  {
  }

  /** A script has exactly one cut, and the scanner makes it. */
  lemma {:induction false} CutExactly(s: string, i: nat, pieces: seq<Piece>, colon: bool)
    requires i <= |s|
    ensures IsCutFrom(s, i, pieces, colon) <==> pieces == PiecesFrom(s, i, colon)
    decreases |s| - i, |pieces|
  {
    if i == |s| {
      if pieces != [] {
        NothingAtEnd(s, pieces[0], colon);
      }
    } else if pieces != [] {
      var p, rest := PieceAt(s, i, colon), PiecesFrom(s, EndAt(s, i, colon), colon);
      BelongsExactly(s, i, pieces[0], colon);
      assert |p.text| == EndAt(s, i, colon) - i;
      if pieces[0] == p {
        CutExactly(s, EndAt(s, i, colon), pieces[1..], colon);
        assert pieces == [p] + pieces[1..];
      }
      assert ([p] + rest)[0] == p && ([p] + rest)[1..] == rest;
    }
  }

  // ------------------------------------------------------------------ what follows for texts and hits

  lemma BelongsText(s: string, i: nat, p: Piece, colon: bool)
    requires Belongs(s, i, p, colon)
    ensures p.text != "" && At(s, i, p.text)
  {
  }

  lemma {:induction false} CutTexts(s: string, i: nat, pieces: seq<Piece>, colon: bool)
    requires i <= |s| && IsCutFrom(s, i, pieces, colon)
    ensures Texts(pieces) == s[i..]
    decreases |pieces|
  {
    if pieces != [] {
      var end := i + |pieces[0].text|;
      BelongsText(s, i, pieces[0], colon);
      CutTexts(s, end, pieces[1..], colon);
      assert s[i..] == s[i..end] + s[end..];
    }
  }

  lemma TextBehind(s: string, i: nat, text: string, rest: string)
    requires i <= |s| && s[i..] == text + rest
    ensures i + |text| <= |s| && s[i..i + |text|] == text && s[i + |text|..] == rest
  {
    assert |s[i..]| == |text| + |rest|;
    assert s[i..][..|text|] == s[i..i + |text|];
    assert s[i..][|text|..] == s[i + |text|..];
  }

  lemma HitsOfCons(p: Piece, rest: seq<Piece>, at: nat)
    ensures HitsOf([p] + rest, at) ==
      (if p.kind == Param then [Hit(p.name, at, at + |p.text|)] else []) + HitsOf(rest, at + |p.text|)
  {
    assert ([p] + rest)[1..] == rest;
  }

  lemma NothingBefore(hits: seq<Hit>)
    ensures [] + hits == hits
  {
  }

  /** Where a piece starts. */
  function StartOf(pieces: seq<Piece>, at: nat, k: nat): nat
    requires k <= |pieces|
  {
    if k == 0 then at else StartOf(pieces[1..], at + |pieces[0].text|, k - 1)
  }

  /** The hit is a parameter that opens where it starts. */
  ghost predicate IsHit(s: string, h: Hit, colon: bool) {
    h.start < h.end <= |s| && OpensAt(s, h.start, Piece(Param, s[h.start..h.end], h.name), colon)
  }

  lemma HitHere(s: string, i: nat, p: Piece, rest: seq<Hit>, colon: bool)
    requires Belongs(s, i, p, colon) && p.kind == Param && i + |p.text| <= |s| && InOrder(rest, i + |p.text|, |s|)
    requires forall h :: h in rest ==> IsHit(s, h, colon)
    ensures var hits := [Hit(p.name, i, i + |p.text|)] + rest;
      InOrder(hits, i, |s|) && forall h :: h in hits ==> IsHit(s, h, colon)
  {
    var hit := Hit(p.name, i, i + |p.text|);
    BelongsText(s, i, p, colon);
    assert ([hit] + rest)[1..] == rest;
    assert p == Piece(Param, s[i..i + |p.text|], p.name);
  }

  lemma {:induction false} CutHits(s: string, i: nat, pieces: seq<Piece>, colon: bool)
    requires i <= |s| && IsCutFrom(s, i, pieces, colon)
    ensures InOrder(HitsOf(pieces, i), i, |s|)
    ensures forall h :: h in HitsOf(pieces, i) ==> IsHit(s, h, colon)
    decreases |pieces|
  {
    if pieces != [] {
      var p := pieces[0];
      var end := i + |p.text|;
      var rest := HitsOf(pieces[1..], end);
      BelongsText(s, i, p, colon);
      CutHits(s, end, pieces[1..], colon);
      if p.kind == Param {
        HitHere(s, i, p, rest, colon);
      } else {
        assert [] + rest == rest;
        InOrderEarlier(rest, end, i, |s|);
      }
    }
  }

  lemma {:induction false} HitsFrom(pieces: seq<Piece>, at: nat, h: Hit)
    requires h in HitsOf(pieces, at)
    ensures at <= h.start
    decreases |pieces|
  {
    var rest := HitsOf(pieces[1..], at + |pieces[0].text|);
    if h in rest {
      HitsFrom(pieces[1..], at + |pieces[0].text|, h);
    }
  }

  lemma {:induction false} StartsAfter(pieces: seq<Piece>, at: nat, k: nat)
    requires k <= |pieces|
    ensures at <= StartOf(pieces, at, k)
    decreases k
  {
    if k > 0 {
      StartsAfter(pieces[1..], at + |pieces[0].text|, k - 1);
    }
  }

  /** No hit reaches into a piece that is not a parameter: into no quoted text, comment or dollar body. */
  lemma {:induction false} HitsAreOutside(pieces: seq<Piece>, at: nat, k: nat, h: Hit)
    requires k < |pieces| && pieces[k].kind != Param && h in HitsOf(pieces, at)
    ensures h.end <= StartOf(pieces, at, k) || StartOf(pieces, at, k) + |pieces[k].text| <= h.start
    decreases |pieces|
  {
    var p := pieces[0];
    var end := at + |p.text|;
    var rest := HitsOf(pieces[1..], end);
    if p.kind != Param {
      assert [] + rest == rest;
    }
    if h in rest {
      if k == 0 {
        HitsFrom(pieces[1..], end, h);
      } else {
        HitsAreOutside(pieces[1..], end, k - 1, h);
      }
    } else {
      assert h == Hit(p.name, at, end) && k > 0;
      StartsAfter(pieces[1..], end, k - 1);
    }
  }

  /**
  Put together, the pieces are the script, and they are the one cut of it. The hits are in order, do
  not overlap, and each is a parameter that opens where it starts.
  */
  lemma PiecesAndHits(s: string, colon: bool)
    ensures Texts(Pieces(s, colon)) == s
    ensures forall pieces :: IsCutFrom(s, 0, pieces, colon) <==> pieces == Pieces(s, colon)
    ensures InOrder(Hits(s, colon), 0, |s|)
    ensures forall h :: h in Hits(s, colon) ==> IsHit(s, h, colon)
  {
    forall pieces ensures IsCutFrom(s, 0, pieces, colon) <==> pieces == Pieces(s, colon) {
      CutExactly(s, 0, pieces, colon);
    }
    CutTexts(s, 0, Pieces(s, colon), colon);
    CutHits(s, 0, Pieces(s, colon), colon);
    assert s[0..] == s;
  }
}
