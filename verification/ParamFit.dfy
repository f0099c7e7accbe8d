/**
A piece in its place: what it takes for a piece that is all there is to say about its own text to stay
what it is where it stands in a script, said by the characters next to it.
*/
module ParamFit {
  import opened Prelude
  import opened Text
  import opened Params
  import opened ParamCut

  // ------------------------------------------------------------------ a piece by itself

  /** One plain character, or text all of which opens when it stands alone. */
  ghost predicate Shaped(p: Piece, colon: bool) {
    if p.kind == Plain then |p.text| == 1 && !IsQuote(p.text[0]) && p.name == ""
    else OpensAt(p.text, 0, p, colon)
  }

  ghost predicate EndsBehind(text: string, from: nat, close: string) {
    from + |close| <= |text| && At(text, |text| - |close|, close)
  }

  function OpeningTag(text: string): string {
    if text != "" && TagAt(text, 0).Some? then text[..TagAt(text, 0).value] else ""
  }

  /** It is closed by its own text, and not only by the end of the script. */
  ghost predicate Closed(p: Piece) {
    p.text != "" &&
    match p.kind
    case Quote => IsClosed(p.text[1..], p.text[0], "")
    case LineComment => EndsBehind(p.text, 0, "\n")
    case BlockComment => EndsBehind(p.text, 2, "*/")
    case Dollar => EndsBehind(p.text, |OpeningTag(p.text)|, OpeningTag(p.text))
    case _ => true
  }

  /** What may stand before `:name`. */
  predicate IsOpen(c: char) { c != ':' && !IsWordChar(c) && c != ']' && c != ')' }

  /** `:name`, as opposed to `{{name}}`. */
  predicate IsColonName(p: Piece) { p.kind == Param && p.text != "" && p.text[0] == ':' }

  // ------------------------------------------------------------------ a piece in its place

  /** Letters and a dollar sign follow, the sign at `n`. */
  ghost predicate TagFollows(s: string, i: nat, n: nat) {
    i < n < |s| && s[n] == '$' && forall k :: i < k < n ==> IsIdentStart(s[k])
  }

  /** A brace, a name with white space around it, and two closing braces follow, the braces at `n`. */
  ghost predicate BracesFollow(s: string, i: nat, n: nat) {
    && i + 2 <= n < |s| - 1 && s[i + 1] == '{' && s[n] == '}' && s[n + 1] == '}'
    && IsName(JsTrim(s[i + 2..n]))
  }

  predicate EndsName(c: char) { !IsWordChar(c) && c != '=' }

  /** A name follows up to `n`, and no equals sign behind it. */
  ghost predicate NameFollows(s: string, i: nat, n: nat) {
    && i + 1 < n <= |s| && IsIdentStart(s[i + 1]) && (forall k :: i < k < n ==> IsWordChar(s[k]))
    && (n < |s| ==> EndsName(s[n]))
  }

  ghost predicate PlainOpens(s: string, i: nat, colon: bool)
    requires i < |s|
  {
    || Two(s, i, '-', '-')
    || Two(s, i, '/', '*')
    || (s[i] == '$' && exists n: nat :: TagFollows(s, i, n))
    || (s[i] == '{' && exists n: nat :: BracesFollow(s, i, n))
    || (colon && s[i] == ':' && OpenBefore(s, i) && exists n: nat :: NameFollows(s, i, n))
  }

  /** The piece stays what it is where it stands. */
  ghost predicate Fits(s: string, i: nat, p: Piece, colon: bool)
    requires p.text != "" && At(s, i, p.text)
  {
    var end := i + |p.text|;
    match p.kind
    case Plain => !PlainOpens(s, i, colon)
    case Param => p.text[0] == ':' ==> OpenBefore(s, i) && (end < |s| ==> EndsName(s[end]))
    case Quote => end == |s| || (Closed(p) && s[end] != p.text[0])
    case _ => end == |s| || Closed(p)
  }

  lemma SliceInside<T>(s: seq<T>, a: nat, b: nat, c: nat, d: nat)
    requires a <= b <= |s| && c <= d <= b - a
    ensures s[a..b][c..d] == s[a + c..a + d]
  {
    forall k | 0 <= k < d - c ensures s[a..b][c..d][k] == s[a + c..a + d][k] {
      assert s[a..b][c + k] == s[a + (c + k)];
    }
  }

  lemma AtInside(s: string, i: nat, text: string, k: nat, close: string)
    requires At(s, i, text) && k + |close| <= |text|
    ensures At(s, i + k, close) <==> At(text, k, close)
  {
    SliceInside(s, i, i + |text|, k, k + |close|);
  }

  /** What closes by itself, or at the end of its own text, closes in its place if it is closed or ends the script. */
  lemma ClosedInPlace(s: string, i: nat, text: string, from: nat, close: string)
    requires At(s, i, text) && from <= |text| && close != "" && ClosedBy(text, from, close, |text|)
    ensures ClosedBy(s, i + from, close, i + |text|) <==> i + |text| == |s| || EndsBehind(text, from, close)
  {
    var end := i + |text|;
    forall k: nat | from <= k && k + |close| <= |text| ensures At(s, i + k, close) <==> At(text, k, close) {
      AtInside(s, i, text, k, close);
    }
    if EndsBehind(text, from, close) {
      forall k | i + from <= k < end - |close| ensures !At(s, k, close) {
        assert At(s, i + (k - i), close) <==> At(text, k - i, close);
      }
    } else if end == |s| {
      forall k: nat | i + from <= k ensures !At(s, k, close) {
        if k + |close| <= end {
          assert At(s, i + (k - i), close) <==> At(text, k - i, close);
        }
      }
    } else if from + |close| <= |text| {
      assert At(s, i + (|text| - |close|), close) <==> At(text, |text| - |close|, close);
    }
  }

  lemma QuoteFits(s: string, i: nat, p: Piece, colon: bool)
    requires Shaped(p, colon) && At(s, i, p.text) && p.kind == Quote
    ensures OpensAt(s, i, p, colon) <==> Fits(s, i, p, colon)
  {
    var n := |p.text|;
    assert s[i + 1..i + n] == s[i..i + n][1..] == p.text[1..n] && p.text[n..] == "";
    assert s[i] == s[i..i + n][0];
  }

  /** A text begins with at most one tag. */
  lemma OneTag(s: string, i: nat, a: string, b: string)
    requires IsTag(a) && At(s, i, a) && IsTag(b) && At(s, i, b)
    ensures a == b
  {
    TagExactly(s, i, a);
    TagExactly(s, i, b);
  }

  lemma OfTag(s: string, i: nat, tag: string, end: nat)
    requires IsTag(tag) && At(s, i, tag)
    ensures DollarAt(s, i, end) <==> ClosedBy(s, i + |tag|, tag, end)
  {
    if DollarAt(s, i, end) {
      var other :| IsTag(other) && At(s, i, other) && ClosedBy(s, i + |other|, other, end);
      OneTag(s, i, tag, other);
    }
  }

  lemma OpensDollar(s: string, i: nat, p: Piece, colon: bool)
    requires p.kind == Dollar && p.text != "" && p.name == "" && At(s, i, p.text)
    ensures OpensAt(s, i, p, colon) <==> DollarAt(s, i, i + |p.text|)
  {
  }

  /** The text opens with this tag, and is all of what does. */
  ghost predicate IsTagOf(text: string, tag: string) {
    IsTag(tag) && At(text, 0, tag) && ClosedBy(text, |tag|, tag, |text|)
  }

  lemma TagOpens(text: string)
    requires DollarAt(text, 0, |text|)
    ensures IsTagOf(text, OpeningTag(text))
  {
    var tag :| IsTag(tag) && At(text, 0, tag) && ClosedBy(text, 0 + |tag|, tag, |text|);
    TagExactly(text, 0, tag);
    assert text[0..|tag|] == text[..|tag|];
  }

  lemma BodyCloses(s: string, i: nat, text: string, tag: string)
    requires IsTagOf(text, tag) && At(s, i, text)
    ensures ClosedBy(s, i + |tag|, tag, i + |text|) <==> i + |text| == |s| || EndsBehind(text, |tag|, tag)
  {
    ClosedInPlace(s, i, text, |tag|, tag);
  }

  lemma BodyInPlace(s: string, i: nat, text: string, tag: string)
    requires IsTagOf(text, tag) && At(s, i, text)
    ensures DollarAt(s, i, i + |text|) <==> i + |text| == |s| || EndsBehind(text, |tag|, tag)
  {
    AtInside(s, i, text, 0, tag);
    OfTag(s, i, tag, i + |text|);
    BodyCloses(s, i, text, tag);
  }

  lemma BodyFits(s: string, i: nat, text: string)
    requires DollarAt(text, 0, |text|) && At(s, i, text)
    ensures DollarAt(s, i, i + |text|) <==> i + |text| == |s| || EndsBehind(text, |OpeningTag(text)|, OpeningTag(text))
  {
    TagOpens(text);
    BodyInPlace(s, i, text, OpeningTag(text));
  }

  lemma FittingDollar(s: string, i: nat, p: Piece, colon: bool)
    requires DollarAt(p.text, 0, |p.text|) && At(s, i, p.text) && p.kind == Dollar && p.text != "" && p.name == ""
    requires i + |p.text| == |s| || Closed(p)
    ensures OpensAt(s, i, p, colon)
  {
    BodyFits(s, i, p.text);
    OpensDollar(s, i, p, colon);
  }

  lemma UnclosedBody(s: string, i: nat, text: string)
    requires DollarAt(text, 0, |text|) && At(s, i, text) && i + |text| != |s|
    requires !EndsBehind(text, |OpeningTag(text)|, OpeningTag(text))
    ensures !DollarAt(s, i, i + |text|)
  {
    BodyFits(s, i, text);
  }

  lemma UnfitDollar(s: string, i: nat, p: Piece, colon: bool)
    requires DollarAt(p.text, 0, |p.text|) && At(s, i, p.text) && p.kind == Dollar && p.text != "" && p.name == ""
    requires !(i + |p.text| == |s| || Closed(p))
    ensures !OpensAt(s, i, p, colon)
  {
    UnclosedBody(s, i, p.text);
    OpensDollar(s, i, p, colon);
  }

  lemma ShapedDollar(p: Piece, colon: bool)
    requires Shaped(p, colon) && p.kind == Dollar
    ensures DollarAt(p.text, 0, |p.text|) && p.name == ""
  {
  }

  lemma DollarFits(s: string, i: nat, p: Piece, colon: bool)
    requires Shaped(p, colon) && At(s, i, p.text) && p.kind == Dollar
    ensures OpensAt(s, i, p, colon) <==> Fits(s, i, p, colon)
  {
    ShapedDollar(p, colon);
    if Fits(s, i, p, colon) {
      FittingDollar(s, i, p, colon);
    } else {
      UnfitDollar(s, i, p, colon);
    }
  }

  lemma TwoInside(s: string, i: nat, text: string)
    requires At(s, i, text) && |text| >= 2
    ensures s[i] == text[0] && s[i + 1] == text[1]
  {
    assert s[i] == s[i..i + |text|][0] && s[i + 1] == s[i..i + |text|][1];
  }

  lemma LineFits(s: string, i: nat, p: Piece, colon: bool)
    requires Shaped(p, colon) && At(s, i, p.text) && p.kind == LineComment
    ensures OpensAt(s, i, p, colon) <==> Fits(s, i, p, colon)
  {
    TwoInside(s, i, p.text);
    ClosedInPlace(s, i, p.text, 0, "\n");
  }

  lemma BlockFits(s: string, i: nat, p: Piece, colon: bool)
    requires Shaped(p, colon) && At(s, i, p.text) && p.kind == BlockComment
    ensures OpensAt(s, i, p, colon) <==> Fits(s, i, p, colon)
  {
    TwoInside(s, i, p.text);
    ClosedInPlace(s, i, p.text, 2, "*/");
  }

  lemma ColonFits(s: string, i: nat, p: Piece, colon: bool)
    requires Shaped(p, colon) && At(s, i, p.text) && IsColonName(p)
    ensures OpensAt(s, i, p, colon) <==> Fits(s, i, p, colon)
  {
    var n := |p.text|;
    assert s[i] == s[i..i + n][0] && s[i + 1..i + n] == s[i..i + n][1..] == p.text[1..n];
  }

  lemma BracesInPlace(s: string, i: nat, text: string, name: string)
    requires InBraces(text, 0, |text|, name) && At(s, i, text)
    ensures InBraces(s, i, i + |text|, name)
  {
    TwoInside(s, i, text);
    SliceInside(s, i, i + |text|, 2, |text| - 2);
    AtInside(s, i, text, |text| - 2, "}}");
    ClosedInPlace(s, i, text, 2, "}}");
  }

  lemma BracesFit(s: string, i: nat, p: Piece, colon: bool)
    requires Shaped(p, colon) && At(s, i, p.text) && p.kind == Param && !IsColonName(p)
    ensures OpensAt(s, i, p, colon)
  {
    BracesInPlace(s, i, p.text, p.name);
  }

  // ------------------------------------------------------------------ a plain character in its place

  lemma {:induction false} TrimLeftChars(s: string, c: char)
    requires c in s
    ensures IsJsSpace(c) || c in TrimLeft(s)
  {
    if IsJsSpace(s[0]) && c != s[0] {
      assert c in s[1..];
      TrimLeftChars(s[1..], c);
    }
  }

  lemma {:induction false} TrimRightChars(s: string, c: char)
    requires c in s
    ensures IsJsSpace(c) || c in TrimRight(s)
  {
    if IsJsSpace(Last(s)) && c != Last(s) {
      var k :| 0 <= k < |s| && s[k] == c;
      assert s[..|s| - 1][k] == c;
      TrimRightChars(s[..|s| - 1], c);
    }
  }

  lemma TrimmedChars(s: string, c: char)
    requires c in s
    ensures IsJsSpace(c) || c in JsTrim(s)
  {
    TrimLeftChars(s, c);
    if c in TrimLeft(s) {
      TrimRightChars(TrimLeft(s), c);
    }
  }

  lemma TagPlain(s: string, i: nat)
    requires i < |s| && s[i] == '$'
    ensures TagAt(s, i).Some? <==> exists n: nat :: TagFollows(s, i, n)
  {
    if n: nat :| TagFollows(s, i, n) {
      TagEndAt(s, i + 1, n);
    } else if TagAt(s, i).Some? {
      TagEndIs(s, i + 1);
      assert TagFollows(s, i, TagEnd(s, i + 1));
    }
  }

  /** Braces around a name close with the first closing brace. */
  lemma NoBraceInside(s: string, i: nat, n: nat, k: nat)
    requires BracesFollow(s, i, n) && i + 2 <= k < n
    ensures s[k] != '}'
  {
    assert s[k] == s[i + 2..n][k - i - 2];
    TrimmedChars(s[i + 2..n], s[k]);
  }

  lemma NotBrace(s: string, k: nat)
    requires k < |s| && s[k] != '}'
    ensures !At(s, k, "}}")
  {
    assert k + 2 <= |s| ==> s[k..k + 2][0] == s[k];
  }

  lemma FirstBraces(s: string, i: nat, n: nat)
    requires BracesFollow(s, i, n)
    ensures Find(s, "}}", i + 2) == Some(n)
  {
    FindIsFirst(s, "}}", i + 2);
    assert s[n..n + 2] == "}}";
    assert At(s, n, "}}");
    forall k | i + 2 <= k < n ensures !At(s, k, "}}") {
      NoBraceInside(s, i, n, k);
      NotBrace(s, k);
    }
  }

  lemma BracesPlain(s: string, i: nat)
    requires i < |s| && s[i] == '{'
    ensures BracesAt(s, i).Some? <==> exists n: nat :: BracesFollow(s, i, n)
  {
    if n: nat :| BracesFollow(s, i, n) {
      FirstBraces(s, i, n);
    } else if BracesAt(s, i).Some? {
      FindIsFirst(s, "}}", i + 2);
      var n := BracesAt(s, i).value;
      assert s[n..n + 2][0] == s[n] && s[n..n + 2][1] == s[n + 1];
      assert BracesFollow(s, i, n);
    }
  }

  lemma NamePlain(s: string, i: nat)
    requires i < |s| && s[i] == ':'
    ensures ColonAt(s, i).Some? <==> OpenBefore(s, i) && exists n: nat :: NameFollows(s, i, n)
  {
    if n: nat :| NameFollows(s, i, n) {
      NameEndAt(s, i + 1, n);
    } else if ColonAt(s, i).Some? {
      NameEndIs(s, i + 1);
      assert NameFollows(s, i, NameEnd(s, i + 1));
    }
  }

  lemma PlainFits(s: string, i: nat, colon: bool)
    requires i < |s| && !IsQuote(s[i])
    ensures KindAt(s, i, colon) == Plain <==> !PlainOpens(s, i, colon)
  {
    if s[i] == '$' {
      TagPlain(s, i);
    } else if s[i] == '{' {
      BracesPlain(s, i);
    } else if s[i] == ':' {
      NamePlain(s, i);
    }
  }

  lemma PlainBelongs(s: string, i: nat, p: Piece, colon: bool)
    requires i < |s| && p == Piece(Plain, [s[i]], "")
    ensures Belongs(s, i, p, colon) <==> KindAt(s, i, colon) == Plain
  {
    BelongsExactly(s, i, p, colon);
  }

  /** A piece belongs where it stands if and only if it fits there. */
  lemma FitsExactly(s: string, i: nat, p: Piece, colon: bool)
    requires Shaped(p, colon) && At(s, i, p.text)
    ensures Belongs(s, i, p, colon) <==> Fits(s, i, p, colon)
  {
    match p.kind
    case Quote => QuoteFits(s, i, p, colon);
    case LineComment => LineFits(s, i, p, colon);
    case BlockComment => BlockFits(s, i, p, colon);
    case Dollar => DollarFits(s, i, p, colon);
    case Param =>
      if IsColonName(p) {
        ColonFits(s, i, p, colon);
      } else {
        BracesFit(s, i, p, colon);
      }
    case Plain =>
      assert s[i] == s[i..i + 1][0];
      PlainBelongs(s, i, p, colon);
      PlainFits(s, i, colon);
  }

  // ------------------------------------------------------------------ the pieces of a script

  lemma ClosedAlone(s: string, i: nat, text: string, from: nat, close: string)
    requires At(s, i, text) && from <= |text| && close != "" && ClosedBy(s, i + from, close, i + |text|)
    ensures ClosedBy(text, from, close, |text|)
  {
    forall k: nat | from <= k && k + |close| <= |text| ensures At(s, i + k, close) <==> At(text, k, close) {
      AtInside(s, i, text, k, close);
    }
    if from + |close| <= |text| && At(s, i + (|text| - |close|), close) {
      assert At(text, |text| - |close|, close);
    }
  }

  lemma QuoteAlone(s: string, i: nat, p: Piece, colon: bool)
    requires OpensAt(s, i, p, colon) && p.kind == Quote
    ensures Shaped(p, colon)
  {
    var n := |p.text|;
    assert s[i + 1..i + n] == s[i..i + n][1..] == p.text[1..n] && p.text[n..] == "";
    assert s[i] == s[i..i + n][0];
  }

  lemma FeedAt(s: string, i: nat)
    requires i < |s|
    ensures At(s, i, "\n") <==> s[i] == '\n'
  {
    assert s[i..i + 1] == [s[i]];
  }

  lemma TwoLong(s: string, i: nat, p: Piece, colon: bool)
    requires OpensAt(s, i, p, colon) && (p.kind == LineComment || p.kind == BlockComment)
    ensures |p.text| >= 2
  {
    FeedAt(s, i);
  }

  lemma CommentAlone(s: string, i: nat, p: Piece, colon: bool)
    requires OpensAt(s, i, p, colon) && (p.kind == LineComment || p.kind == BlockComment)
    ensures Shaped(p, colon)
  {
    TwoLong(s, i, p, colon);
    TwoInside(s, i, p.text);
    ClosedAlone(s, i, p.text, if p.kind == LineComment then 0 else 2, if p.kind == LineComment then "\n" else "*/");
  }

  lemma TagAlone(s: string, i: nat, text: string, tag: string)
    requires IsTag(tag) && At(s, i, tag) && ClosedBy(s, i + |tag|, tag, i + |text|) && At(s, i, text)
    ensures IsTagOf(text, tag)
  {
    AtInside(s, i, text, 0, tag);
    ClosedAlone(s, i, text, |tag|, tag);
  }

  lemma BodyAlone(s: string, i: nat, text: string)
    requires DollarAt(s, i, i + |text|) && At(s, i, text)
    ensures DollarAt(text, 0, |text|)
  {
    var tag :| IsTag(tag) && At(s, i, tag) && ClosedBy(s, i + |tag|, tag, i + |text|);
    TagAlone(s, i, text, tag);
    assert ClosedBy(text, 0 + |tag|, tag, |text|);
  }

  lemma DollarAlone(s: string, i: nat, p: Piece, colon: bool)
    requires OpensAt(s, i, p, colon) && p.kind == Dollar
    ensures Shaped(p, colon)
  {
    BodyAlone(s, i, p.text);
  }

  lemma BracesAlone(s: string, i: nat, text: string, name: string)
    requires InBraces(s, i, i + |text|, name) && At(s, i, text)
    ensures InBraces(text, 0, |text|, name)
  {
    TwoInside(s, i, text);
    SliceInside(s, i, i + |text|, 2, |text| - 2);
    AtInside(s, i, text, |text| - 2, "}}");
    ClosedAlone(s, i, text, 2, "}}");
  }

  lemma ColonAlone(s: string, i: nat, text: string, name: string)
    requires BehindColon(s, i, i + |text|, name) && At(s, i, text)
    ensures BehindColon(text, 0, |text|, name)
  {
    var n := |text|;
    assert s[i] == s[i..i + n][0] && s[i + 1..i + n] == s[i..i + n][1..] == text[1..n];
  }

  lemma ParamAlone(s: string, i: nat, p: Piece, colon: bool)
    requires OpensAt(s, i, p, colon) && p.kind == Param
    ensures Shaped(p, colon)
  {
    if InBraces(s, i, i + |p.text|, p.name) {
      BracesAlone(s, i, p.text, p.name);
    } else {
      ColonAlone(s, i, p.text, p.name);
    }
  }

  lemma BelongsShaped(s: string, i: nat, p: Piece, colon: bool)
    requires i < |s| && Belongs(s, i, p, colon)
    ensures Shaped(p, colon)
  {
    match p.kind
    case Quote => QuoteAlone(s, i, p, colon);
    case LineComment => CommentAlone(s, i, p, colon);
    case BlockComment => CommentAlone(s, i, p, colon);
    case Dollar => DollarAlone(s, i, p, colon);
    case Param => ParamAlone(s, i, p, colon);
    case Plain =>
      BelongsExactly(s, i, p, colon);
      assert p.text == [s[i]];
  }

  ghost predicate AllShaped(list: seq<Piece>, colon: bool) {
    forall k :: 0 <= k < |list| ==> Shaped(list[k], colon)
  }

  lemma ShapedCons(list: seq<Piece>, colon: bool)
    requires list != [] && Shaped(list[0], colon) && AllShaped(list[1..], colon)
    ensures AllShaped(list, colon)
  {
    assert forall k :: 0 < k < |list| ==> list[k] == list[1..][k - 1];
  }

  lemma {:induction false} CutShaped(s: string, i: nat, list: seq<Piece>, colon: bool)
    requires i <= |s| && IsCutFrom(s, i, list, colon)
    ensures AllShaped(list, colon)
    decreases |list|
  {
    if list != [] {
      BelongsText(s, i, list[0], colon);
      BelongsShaped(s, i, list[0], colon);
      CutShaped(s, i + |list[0].text|, list[1..], colon);
      ShapedCons(list, colon);
    }
  }
}
