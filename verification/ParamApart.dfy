/**
Parameters that stand apart: with white space or nothing on both sides, and not behind a brace. There
binding a value that is not written raw never changes how the rest of the script is read.
*/
module ParamApart {
  import opened Prelude
  import opened Text
  import opened Params
  import opened ParamCut
  import opened ParamFit
  import opened ParamSeams
  import opened ParamReplaced
  import opened ParamBinding
  import opened ParamBound

  // ------------------------------------------------------------------ what a caller can see

  /** The last thing before the white space at the end is a brace. */
  predicate BehindBrace(s: string) { TrimRight(s) != "" && Last(TrimRight(s)) == '{' }

  /** White space or nothing on both sides, and no brace before that. */
  predicate Apart(sql: string, h: Hit) {
    && h.start <= h.end <= |sql|
    && (h.start > 0 ==> IsJsSpace(sql[h.start - 1]))
    && (h.end < |sql| ==> IsJsSpace(sql[h.end]))
    && !BehindBrace(sql[..h.start])
  }

  /** Not written raw, and skipped whole if it is quoted. */
  predicate Proper(param: ParamValue) {
    param.mode != Raw && (ParamLiteral(param) == QuotedLiteral(param.value) ==> Clean(param.value))
  }

  // ------------------------------------------------------------------ the pieces of a literal

  predicate IsBarePiece(p: Piece) { IsSingle(p) && (IsNumberChar(p.text[0]) || IsAsciiAlpha(p.text[0])) }

  ghost predicate Bare(m: seq<Piece>) { m != [] && forall k :: 0 <= k < |m| ==> IsBarePiece(m[k]) }

  /** One quoted text in single quotes, closed. */
  ghost predicate Quoted(m: seq<Piece>) {
    && |m| == 1 && m[0].kind == Quote && m[0].text != "" && m[0].text[0] == '\'' && Last(m[0].text) == '\''
    && Closed(m[0])
  }

  lemma {:induction false} TamePieces(s: string, i: nat, colon: bool)
    requires Tame(s) && i <= |s|
    ensures forall k :: 0 <= k < |PiecesFrom(s, i, colon)| ==> IsBarePiece(PiecesFrom(s, i, colon)[k])
    ensures i < |s| ==> PiecesFrom(s, i, colon) != []
    decreases |s| - i
  {
    if i < |s| {
      TameIsPlain(s, i, colon);
      TamePieces(s, i + 1, colon);
      assert IsNumberChar(s[i]) || IsAsciiAlpha(s[i]);
    }
  }

  lemma {:induction false} CleanBody(v: string)
    requires Clean(v)
    ensures IsBody(Doubled(v, '\''), '\'')
    decreases |v|
  {
    if v != "" {
      var rest := Doubled(v[1..], '\'');
      if v[0] == '\\' {
        CleanBody(v[2..]);
        assert v[1..][1..] == v[2..];
        assert Doubled(v, '\'')[2..] == Doubled(v[2..], '\'');
      } else {
        CleanBody(v[1..]);
        assert Doubled(v, '\'')[if v[0] == '\'' then 2 else 1..] == rest;
      }
    }
  }

  lemma QuotedTail(v: string)
    requires IsBody(Doubled(v, '\''), '\'')
    ensures IsClosed(QuotedLiteral(v)[1..], '\'', "") && Last(QuotedLiteral(v)) == '\''
  {
    var t := QuotedLiteral(v)[1..];
    assert t == Doubled(v, '\'') + ['\''];
    assert t[..|t| - 1] == Doubled(v, '\'');
  }

  lemma QuotedPieces(v: string, colon: bool)
    requires Clean(v)
    ensures Quoted(Pieces(QuotedLiteral(v), colon))
  {
    var s := QuotedLiteral(v);
    var p := Piece(Quote, s, "");
    CleanBody(v);
    QuotedTail(v);
    assert s[0..|s|] == s && s[|s|..] == "" && s[1..|s|] == s[1..];
    assert Belongs(s, 0, p, colon);
    assert [p][1..] == [];
    assert IsCutFrom(s, 0 + |p.text|, [], colon);
    assert IsCutFrom(s, 0, [p], colon);
    CutExactly(s, 0, [p], colon);
  }

  lemma KeywordTame(s: string)
    requires s in {"NULL", "TRUE", "FALSE"}
    ensures Tame(s) && s != ""
  {
  }

  lemma NumberHasText(s: string)
    requires IsNumber(s)
    ensures s != ""
  {
  }

  lemma LiteralPieces(param: ParamValue, colon: bool)
    requires Proper(param)
    ensures var m := Pieces(ParamLiteral(param), colon); Bare(m) || Quoted(m)
  {
    var trimmed := JsTrim(param.value);
    if param.mode == Auto && IsNumber(trimmed) {
      NumberTame(trimmed);
      NumberHasText(trimmed);
      TamePieces(trimmed, 0, colon);
    } else if param.mode == Auto && IsKeyword(trimmed) {
      KeywordTame(AsciiUpper(trimmed));
      TamePieces(AsciiUpper(trimmed), 0, colon);
    } else {
      QuotedPieces(param.value, colon);
    }
  }

  /** A literal has no parameter of its own. */
  lemma ProperHasNoHit(param: ParamValue, colon: bool)
    requires Proper(param)
    ensures Hits(ParamLiteral(param), colon) == []
  {
    if ParamLiteral(param) == QuotedLiteral(param.value) {
      CleanIsWhole(param.value);
    }
    BoundValueIsInert(param, colon);
  }

  // ------------------------------------------------------------------ a name has no white space in it

  lemma {:induction false} TrimLeftIs(s: string) returns (p: nat)
    ensures p <= |s| && TrimLeft(s) == s[p..] && (forall k :: 0 <= k < p ==> IsJsSpace(s[k]))
    ensures p < |s| ==> !IsJsSpace(s[p])
    decreases |s|
  {
    p := 0;
    if s != "" && IsJsSpace(s[0]) {
      var q := TrimLeftIs(s[1..]);
      p := q + 1;
      assert s[1..][q..] == s[p..];
      assert forall k :: 0 < k < p ==> s[k] == s[1..][k - 1];
    } else {
      assert s[0..] == s;
    }
  }

  lemma {:induction false} TrimRightIs(s: string) returns (q: nat)
    ensures q <= |s| && TrimRight(s) == s[..q] && (forall k :: q <= k < |s| ==> IsJsSpace(s[k]))
    ensures q > 0 ==> !IsJsSpace(s[q - 1])
    decreases |s|
  {
    q := |s|;
    if s != "" && IsJsSpace(Last(s)) {
      var front := s[..|s| - 1];
      q := TrimRightIs(front);
      assert front[..q] == s[..q];
      assert forall k :: q <= k < |front| ==> s[k] == front[k];
    } else {
      assert s[..|s|] == s;
    }
  }

  lemma SpaceIsNoWord(c: char)
    requires IsJsSpace(c)
    ensures !IsWordChar(c) && IsOpen(c) && IsQuiet(c) && EndsName(c) && c != '*' && !IsNumberChar(c)
  {
  }

  /** White space, and something behind it, in what is a name when trimmed: all before is white space. */
  lemma OnlySpaceBefore(s: string, i: nat, j: nat)
    requires IsName(JsTrim(s)) && i < j < |s| && IsJsSpace(s[i]) && !IsJsSpace(s[j])
    ensures forall t :: 0 <= t < i ==> IsJsSpace(s[t])
  {
    var p := TrimLeftIs(s);
    var tail := s[p..];
    var q := TrimRightIs(tail);
    assert p <= j && tail[j - p] == s[j];
    if p <= i {
      assert JsTrim(s)[i - p] == tail[i - p] == s[i];
      SpaceIsNoWord(s[i]);
    }
  }

  // ------------------------------------------------------------------ nothing clashes with a literal that stands apart

  predicate IsBlank(p: Piece) { IsSingle(p) && IsJsSpace(p.text[0]) }

  /** No brace with nothing but white space behind it. */
  ghost predicate NoBraceLast(a: seq<Piece>) {
    forall i :: 0 <= i < |a| && IsChar(a[i], '{') ==> exists j :: i < j < |a| && !IsBlank(a[j])
  }

  /** What may stand before a literal. */
  ghost predicate Before(a: seq<Piece>) {
    && NoBraceLast(a)
    && (a != [] ==>
        var p := Last(a); p.kind != Param && p.text != "" && IsJsSpace(Last(p.text)) && Closed(p))
  }

  /** What may stand behind it. */
  predicate After(z: seq<Piece>) { z != [] ==> IsBlank(z[0]) }

  ghost predicate IsLiteral(m: seq<Piece>) { Bare(m) || Quoted(m) }

  lemma LiteralPiece(m: seq<Piece>, k: nat)
    requires IsLiteral(m) && k < |m|
    ensures !IsChar(m[k], ':') && !IsChar(m[k], '{') && !IsChar(m[k], '}') && !IsChar(m[k], '$')
    ensures m[k].kind != Param && m[k].text != "" && Closed(m[k]) && !IsBlank(m[k])
    ensures !IsJsSpace(m[k].text[0]) && !IsJsSpace(Last(m[k].text))
    ensures m[k].kind != Plain ==> Quoted(m)
  {
    if Bare(m) {
      assert IsBarePiece(m[k]);
    }
  }

  lemma BlankPiece(p: Piece)
    requires p.text != "" && IsJsSpace(Last(p.text))
    ensures !IsLetter(p) && !IsWordPiece(p) && !IsChar(p, ':') && !IsChar(p, '$') && !IsChar(p, '{') && !IsChar(p, '}')
  {
    SpaceIsNoWord(Last(p.text));
  }

  lemma TouchFree(a: Piece, b: Piece)
    requires a.kind != Param && a.text != "" && Closed(a) && b.kind != Param && b.text != ""
    requires IsJsSpace(Last(a.text)) || IsJsSpace(b.text[0])
    requires a.kind == Quote ==> a.text[0] != b.text[0]
    ensures !Touch(a, b)
  {
  }

  /** The last piece before the literal, and the first of it. */
  lemma TouchBefore(p: Piece, q: Piece, m: seq<Piece>)
    requires p.kind != Param && p.text != "" && IsJsSpace(Last(p.text)) && Closed(p)
    requires IsLiteral(m) && q == m[0]
    ensures !Touch(p, q)
  {
    LiteralPiece(m, 0);
    if p.kind == Quote {
      assert Last(p.text) == Last(p.text[1..]) == p.text[0];
    }
    TouchFree(p, q);
  }

  lemma TouchAfter(m: seq<Piece>, q: Piece)
    requires IsLiteral(m) && IsBlank(q)
    ensures !Touch(Last(m), q)
  {
    LiteralPiece(m, |m| - 1);
    TouchFree(Last(m), q);
  }

  /** Two pieces next to each other, one of which ends or begins with white space, in a row that clashes. */
  lemma NotTagged(w: seq<Piece>, i: nat)
    requires i + 1 < |w| && w[i].text != "" && w[i + 1].text != ""
    requires IsJsSpace(Last(w[i].text)) || IsJsSpace(w[i + 1].text[0])
    ensures !IsTagged(w)
  {
    if IsJsSpace(Last(w[i].text)) {
      BlankPiece(w[i]);
    } else {
      SpaceIsNoWord(w[i + 1].text[0]);
      assert !IsLetter(w[i + 1]);
    }
  }

  lemma NotNamed(w: seq<Piece>, i: nat, last: bool)
    requires i + 1 < |w| && w[i].text != "" && IsJsSpace(Last(w[i].text))
    ensures !IsNamed(w, last)
  {
    BlankPiece(w[i]);
  }

  /** White space before the literal: a name in this row would have to begin with the literal. */
  lemma NotNamedBefore(w: seq<Piece>, i: nat, first: bool, last: bool)
    requires i + 1 < |w| && w[i].text != "" && IsJsSpace(Last(w[i].text)) && !IsChar(w[i + 1], ':')
    ensures !IsNamedHere(w, first, last)
  {
    NotNamed(w, i, last);
    assert w[1..][0] == w[1];
    if i > 0 {
      assert w[1..][i - 1] == w[i];
      NotNamed(w[1..], i - 1, last);
    }
  }

  /** A row that begins neither with a colon nor with a piece before one. */
  lemma NotNamedFrom(w: seq<Piece>, first: bool, last: bool)
    requires |w| > 1 && !IsChar(w[0], ':') && !IsChar(w[1], ':')
    ensures !IsNamedHere(w, first, last)
  {
    assert w[1..][0] == w[1];
  }

  /** What the rows that meet the literal have in common. */
  ghost predicate Around(list: seq<Piece>, a: seq<Piece>, m: seq<Piece>, z: seq<Piece>) {
    list == a + m + z && Before(a) && IsLiteral(m) && After(z)
  }

  lemma NoTouch(list: seq<Piece>, a: seq<Piece>, m: seq<Piece>, z: seq<Piece>, lo: nat)
    requires Around(list, a, m, z) && lo + 2 <= |list|
    requires lo + 1 == |a| || lo + 1 == |a| + |m|
    ensures !Touch(list[lo], list[lo + 1])
  {
    if lo + 1 == |a| {
      assert list[lo] == Last(a) && list[lo + 1] == m[0];
      TouchBefore(Last(a), m[0], m);
    } else {
      assert list[lo] == Last(m) && list[lo + 1] == z[0];
      TouchAfter(m, z[0]);
    }
  }

  /** The pieces on both sides of a border. */
  lemma AtBorder(list: seq<Piece>, a: seq<Piece>, m: seq<Piece>, z: seq<Piece>, k: nat)
    requires Around(list, a, m, z) && 0 < k < |list| && (k == |a| || k == |a| + |m|)
    ensures list[k - 1].text != "" && list[k].text != ""
    ensures IsJsSpace(Last(list[k - 1].text)) || IsJsSpace(list[k].text[0])
    ensures !IsChar(list[k], ':')
    ensures k == |a| ==> IsJsSpace(Last(list[k - 1].text))
  {
    if k == |a| {
      assert list[k - 1] == Last(a) && list[k] == m[0];
      LiteralPiece(m, 0);
    } else {
      assert list[k - 1] == Last(m) && list[k] == z[0];
      LiteralPiece(m, |m| - 1);
      SpaceIsNoWord(z[0].text[0]);
    }
  }

  lemma NoTag(list: seq<Piece>, a: seq<Piece>, m: seq<Piece>, z: seq<Piece>, lo: nat, hi: nat, k: nat)
    requires Around(list, a, m, z) && lo < k < hi <= |list| && (k == |a| || k == |a| + |m|)
    ensures !IsTagged(list[lo..hi])
  {
    var w := list[lo..hi];
    AtBorder(list, a, m, z, k);
    assert w[k - 1 - lo] == list[k - 1] && w[k - lo] == list[k];
    NotTagged(w, k - 1 - lo);
  }

  lemma NoName(list: seq<Piece>, a: seq<Piece>, m: seq<Piece>, z: seq<Piece>, lo: nat, hi: nat, k: nat,
    first: bool, last: bool)
    requires Around(list, a, m, z) && lo < k < hi <= |list| && (k == |a| || (k == |a| + |m| && |a| <= lo))
    ensures !IsNamedHere(list[lo..hi], first, last)
  {
    var w := list[lo..hi];
    AtBorder(list, a, m, z, k);
    assert w[k - 1 - lo] == list[k - 1] && w[k - lo] == list[k];
    if k == |a| {
      NotNamedBefore(w, k - 1 - lo, first, last);
    } else {
      assert w[0] == list[lo] == m[lo - |a|] && w[1] == list[lo + 1];
      LiteralPiece(m, lo - |a|);
      if lo + 1 < k {
        assert list[lo + 1] == m[lo + 1 - |a|];
        LiteralPiece(m, lo + 1 - |a|);
      }
      NotNamedFrom(w, first, last);
    }
  }

  lemma {:induction false} TextOfSingles(v: seq<Piece>)
    requires AllSingle(v)
    ensures |Texts(v)| == |v| && forall k :: 0 <= k < |v| ==> Texts(v)[k] == v[k].text[0]
  {
    if v != [] {
      assert AllSingle(v[1..]) && v[0].kind == Plain;
      TextOfSingles(v[1..]);
      assert forall k :: 0 < k < |v| ==> v[k] == v[1..][k - 1];
    }
  }

  /** In braces a blank piece, and another one behind it, have only blank ones before them. */
  lemma BlanksBefore(v: seq<Piece>, i: nat)
    requires AllSingle(v) && IsName(JsTrim(Texts(v))) && i + 1 < |v| && IsBlank(v[i]) && !IsBlank(v[i + 1])
    ensures forall t :: 0 <= t < i ==> IsBlank(v[t])
  {
    TextOfSingles(v);
    OnlySpaceBefore(Texts(v), i, i + 1);
    forall t | 0 <= t < i ensures IsBlank(v[t]) {
      assert Texts(v)[t] == v[t].text[0] && v[t].kind == Plain;
    }
  }

  /** The last piece before the literal and the first of it are both between the braces. */
  lemma MiddlePieces(list: seq<Piece>, a: seq<Piece>, m: seq<Piece>, z: seq<Piece>, lo: nat, hi: nat, colon: bool)
    requires AllShaped(list, colon) && Around(list, a, m, z) && lo < |a| && |a| + |m| < hi <= |list|
    requires IsBraced(list[lo..hi])
    ensures lo + 2 < |a| && |a| + 2 < hi && IsBlank(list[|a| - 1]) && !IsBlank(list[|a|])
    ensures forall j :: lo <= j < hi ==> IsSingle(list[j])
    ensures IsChar(a[lo + 1], '{')
  {
    var w := list[lo..hi];
    forall j | lo <= j < hi ensures IsSingle(list[j]) {
      assert list[j] == w[j - lo] && Shaped(list[j], colon);
    }
    assert list[|a| - 1] == Last(a) && list[|a|] == m[0];
    BlankPiece(Last(a));
    LiteralPiece(m, 0);
    assert w[0] == list[lo] && w[1] == list[lo + 1] && w[|w| - 2] == list[hi - 2] && w[|w| - 1] == list[hi - 1];
  }

  lemma BraceLast(list: seq<Piece>, a: seq<Piece>, lo: nat, hi: nat)
    requires lo + 2 < |a| && |a| + 2 < hi <= |list| && IsBraced(list[lo..hi])
    requires forall j :: 0 <= j < |a| ==> list[j] == a[j]
    requires IsBlank(list[|a| - 1]) && !IsBlank(list[|a|]) && (forall j :: lo <= j < hi ==> IsSingle(list[j]))
    requires IsChar(a[lo + 1], '{')
    ensures !NoBraceLast(a)
  {
    var v := list[lo + 2..hi - 2];
    SliceInside(list, lo, hi, 2, hi - lo - 2);
    forall k | 0 <= k < |v| ensures v[k] == list[lo + 2 + k] && v[k].kind == Plain && |v[k].text| == 1 {
      assert IsSingle(list[lo + 2 + k]);
    }
    BlanksBefore(v, |a| - lo - 3);
    forall j | lo + 1 < j < |a| ensures IsBlank(a[j]) {
      assert a[j] == list[j];
      assert j < |a| - 1 ==> IsBlank(v[j - lo - 2]);
    }
  }

  lemma NoBracesAround(
    list: seq<Piece>, a: seq<Piece>, m: seq<Piece>, z: seq<Piece>, lo: nat, hi: nat, colon: bool)
    requires AllShaped(list, colon) && Around(list, a, m, z) && lo < |a| && |a| + |m| < hi <= |list|
    ensures !IsBraced(list[lo..hi])
  {
    assert forall j :: 0 <= j < |a| ==> list[j] == a[j];
    if IsBraced(list[lo..hi]) {
      MiddlePieces(list, a, m, z, lo, hi, colon);
      BraceLast(list, a, lo, hi);
    }
  }

  lemma NoBraces(list: seq<Piece>, a: seq<Piece>, m: seq<Piece>, z: seq<Piece>, lo: nat, hi: nat, colon: bool)
    requires AllShaped(list, colon) && Around(list, a, m, z) && lo < hi <= |list|
    requires lo < |a| < hi || lo < |a| + |m| < hi
    ensures !IsBraced(list[lo..hi])
  {
    var w := list[lo..hi];
    if lo >= |a| {
      LiteralPiece(m, lo - |a|);
      assert w[0] == list[lo] == m[lo - |a|];
    } else if hi <= |a| + |m| {
      LiteralPiece(m, hi - 1 - |a|);
      assert w[|w| - 1] == list[hi - 1] == m[hi - 1 - |a|];
    } else {
      NoBracesAround(list, a, m, z, lo, hi, colon);
    }
  }

  lemma NoClashAround(
    list: seq<Piece>, a: seq<Piece>, m: seq<Piece>, z: seq<Piece>, lo: nat, hi: nat, colon: bool)
    requires AllShaped(list, colon) && Around(list, a, m, z) && (lo < |a| < hi || lo < |a| + |m| < hi)
    ensures !ClashesIn(list, lo, hi, colon)
  {
    if hi <= |list| {
      var w, k := list[lo..hi], if lo < |a| < hi then |a| else |a| + |m|;
      if |w| == 2 {
        NoTouch(list, a, m, z, lo);
        assert w[0] == list[lo] && w[1] == list[lo + 1];
      }
      NoTag(list, a, m, z, lo, hi, k);
      NoBraces(list, a, m, z, lo, hi, colon);
      NoName(list, a, m, z, lo, hi, k, lo == 0, hi == |list|);
    }
  }

  lemma ApartIsSeamless(a: seq<Piece>, m: seq<Piece>, z: seq<Piece>, colon: bool)
    requires AllShaped(a, colon) && AllShaped(m, colon) && AllShaped(z, colon)
    requires Before(a) && IsLiteral(m) && After(z)
    ensures Seamless(a, m, z, colon)
  {
    var list := a + m + z;
    ShapedConcat(a, m, colon);
    ShapedConcat(a + m, z, colon);
    forall lo: nat, hi: nat | AtSeam(lo, hi, |a|, |a| + |m|, |list|) ensures !ClashesIn(list, lo, hi, colon) {
      NoClashAround(list, a, m, z, lo, hi, colon);
    }
  }

  // ------------------------------------------------------------------ what stands apart in the script does so here

  lemma JoinedSnoc(pieces: seq<Piece>, p: Piece, b: Becoming)
    ensures Joined(pieces + [p], b) == Joined(pieces, b) + b(p)
  {
    JoinedAround(pieces + [p], |pieces|, b);
    assert (pieces + [p])[..|pieces|] == pieces && (pieces + [p])[|pieces| + 1..] == [];
    assert Joined(pieces, b) + b(p) + [] == Joined(pieces, b) + b(p);
  }

  predicate IsBraceOrBlank(p: Piece) { IsChar(p, '{') || IsBlank(p) }

  /** What is new does not end with a brace or white space. */
  ghost predicate EndsFirm(p: Piece, b: Becoming) {
    IsReplaced(p, b) ==> b(p) != [] && !IsBraceOrBlank(Last(b(p)))
  }

  /** Braces and white space at the end were there before. */
  lemma {:induction false} EndKept(pieces: seq<Piece>, b: Becoming, i: nat)
    requires forall p :: p in pieces ==> EndsFirm(p, b)
    requires i <= |Joined(pieces, b)| && forall j ::
      i <= j < |Joined(pieces, b)| ==> IsBraceOrBlank(Joined(pieces, b)[j])
    ensures var n := |Joined(pieces, b)|;
      && n - i <= |pieces|
      && forall j :: i <= j < n ==> Joined(pieces, b)[j] == pieces[|pieces| - n + j]
    decreases |pieces|
  {
    var list := Joined(pieces, b);
    if i < |list| {
      var front, p := pieces[..|pieces| - 1], Last(pieces);
      assert pieces == front + [p] && p in pieces;
      JoinedSnoc(front, p, b);
      assert IsBraceOrBlank(Last(list));
      if b(p) != [] {
        assert Last(list) == Last(b(p));
      }
      var before := Joined(front, b);
      forall j | i <= j < |before| ensures IsBraceOrBlank(before[j]) {
        assert before[j] == list[j];
      }
      EndKept(front, b, i);
      forall j | i <= j < |list| ensures list[j] == pieces[|pieces| - |list| + j] {
        if j < |before| {
          assert list[j] == before[j] == front[|front| - |before| + j];
        }
      }
    }
  }

  lemma {:induction false} TrimBehind(u: string, c: char, blanks: string)
    requires !IsJsSpace(c) && forall k :: 0 <= k < |blanks| ==> IsJsSpace(blanks[k])
    ensures TrimRight(u + [c] + blanks) == u + [c]
    decreases |blanks|
  {
    var s := u + [c] + blanks;
    if blanks == "" {
      assert s == u + [c];
    } else {
      var front := blanks[..|blanks| - 1];
      TrimBehind(u, c, front);
      assert s[..|s| - 1] == u + [c] + front;
    }
  }

  /** A brace with nothing but blank pieces up to the k-th is a brace with nothing but white space behind it. */
  lemma BraceInText(pieces: seq<Piece>, at: seq<nat>, s: string, c: nat, k: nat)
    requires Laid(pieces, at, s) && c < k <= |pieces| && IsChar(pieces[c], '{')
    requires forall j :: c < j < k ==> IsBlank(pieces[j])
    ensures at[k] <= |s| && BehindBrace(s[..at[k]])
  {
    var w := pieces[c..k];
    forall j | 0 <= j < |w| ensures pieces[c + j] == w[j] && w[j].kind == Plain && |w[j].text| == 1 {
      assert j > 0 ==> IsBlank(pieces[c + j]);
    }
    Spelled(pieces, at, s, c, w);
    InBounds(pieces, at, s, k);
    var i := at[c];
    var blanks := s[i + 1..at[k]];
    forall j | 0 <= j < |blanks| ensures IsJsSpace(blanks[j]) {
      assert s[i + (j + 1)] == w[j + 1].text[0] && IsBlank(pieces[c + (j + 1)]);
    }
    assert s[i + 0] == w[0].text[0];
    TrimBehind(s[..i], '{', blanks);
    assert s[..at[k]] == s[..i] + ['{'] + blanks;
  }

  lemma {:induction false} ParamEnds(p: Piece, colon: bool)
    requires Shaped(p, colon) && p.kind == Param
    ensures !IsJsSpace(Last(p.text)) && !IsJsSpace(p.text[0])
  {
    var n := |p.text|;
    if InBraces(p.text, 0, n, p.name) {
      assert p.text[n - 2..n][1] == p.text[n - 1];
    } else {
      assert p.text[1..n] == p.name;
      assert Last(p.text) == p.name[n - 2];
      if IsJsSpace(Last(p.text)) {
        SpaceIsNoWord(Last(p.text));
      }
    }
  }

  /** The bound pieces are those of hits that stand apart, and what they become is proper. */
  ghost predicate AllApart(sql: string, hits: seq<Hit>, values: Values) {
    forall h :: h in hits && h.name in values ==> Apart(sql, h) && Proper(values[h.name])
  }

  lemma BoundIsLiteral(p: Piece, values: Values, colon: bool)
    requires IsBound(p, values) && Proper(values[p.name])
    ensures IsLiteral(Replacement(values, colon)(p))
    ensures EndsFirm(p, Replacement(values, colon))
  {
    var m := Replacement(values, colon)(p);
    LiteralPieces(values[p.name], colon);
    LiteralPiece(m, |m| - 1);
  }

  lemma AllEndFirm(pieces: seq<Piece>, values: Values, colon: bool)
    requires forall p :: p in pieces && IsBound(p, values) ==> Proper(values[p.name])
    ensures forall p :: p in pieces ==> EndsFirm(p, Replacement(values, colon))
  {
    forall p | p in pieces ensures EndsFirm(p, Replacement(values, colon)) {
      if IsBound(p, values) {
        BoundIsLiteral(p, values, colon);
      }
    }
  }

  /** The piece before a parameter that stands apart. */
  lemma NoParamEnds(p: Piece, colon: bool)
    requires Shaped(p, colon) && p.text != "" && IsJsSpace(Last(p.text))
    ensures p.kind != Param
  {
    if p.kind == Param {
      ParamEnds(p, colon);
    }
  }

  /** A piece with another behind it in the same cut is closed. */
  lemma ClosedInCut(pieces: seq<Piece>, k: nat, colon: bool)
    requires NoClash(pieces, colon) && k + 1 < |pieces| && pieces[k].text != "" && pieces[k + 1].text != ""
    ensures Closed(pieces[k])
  {
    if Touch(pieces[k], pieces[k + 1]) {
      SideClash(pieces, k, colon);
    }
  }

  lemma PieceBefore(pieces: seq<Piece>, at: seq<nat>, s: string, k: nat, colon: bool)
    requires AllShaped(pieces, colon) && NoClash(pieces, colon) && Laid(pieces, at, s) && 0 < k < |pieces|
    requires 0 < at[k] <= |s| && IsJsSpace(s[at[k] - 1])
    ensures var p := pieces[k - 1];
      p.kind != Param && p.text != "" && IsJsSpace(Last(p.text)) && Closed(p)
  {
    var p := pieces[k - 1];
    assert Shaped(p, colon) && Stands(s, at[k - 1], p, at[k]) && Stands(s, at[k], pieces[k], at[k + 1]);
    NoParamEnds(p, colon);
    ClosedInCut(pieces, k - 1, colon);
  }

  lemma PieceAfter(pieces: seq<Piece>, at: seq<nat>, s: string, k: nat, colon: bool)
    requires AllShaped(pieces, colon) && Laid(pieces, at, s) && k + 1 < |pieces|
    requires at[k + 1] < |s| && IsJsSpace(s[at[k + 1]])
    ensures IsBlank(pieces[k + 1])
  {
    var p := pieces[k + 1];
    assert Shaped(p, colon) && Stands(s, at[k + 1], p, at[k + 2]);
    SpaceIsNoWord(p.text[0]);
    QuietIsPlain(p, colon);
  }

  lemma BraceBehind(pieces: seq<Piece>, at: seq<nat>, s: string, k: nat, a: seq<Piece>, i: nat)
    requires Laid(pieces, at, s) && k <= |pieces| && i < |a| && |a| - i <= k
    requires forall j :: i <= j < |a| ==> a[j] == pieces[..k][k - |a| + j]
    requires IsChar(a[i], '{') && forall j :: i < j < |a| ==> IsBlank(a[j])
    ensures at[k] <= |s| && BehindBrace(s[..at[k]])
  {
    var c := k - |a| + i;
    assert pieces[c] == a[i];
    forall j | c < j < k ensures IsBlank(pieces[j]) {
      assert pieces[..k][k - |a| + (j - k + |a|)] == a[j - k + |a|];
    }
    BraceInText(pieces, at, s, c, k);
  }

  lemma BraceSeen(pieces: seq<Piece>, at: seq<nat>, s: string, k: nat, b: Becoming, i: nat)
    requires Laid(pieces, at, s) && k <= |pieces| && forall p :: p in pieces[..k] ==> EndsFirm(p, b)
    requires var a := Joined(pieces[..k], b);
      i < |a| && IsChar(a[i], '{') && forall j :: i < j < |a| ==> IsBlank(a[j])
    ensures at[k] <= |s| && BehindBrace(s[..at[k]])
  {
    EndKept(pieces[..k], b, i);
    BraceBehind(pieces, at, s, k, Joined(pieces[..k], b), i);
  }

  lemma NoBraceBefore(pieces: seq<Piece>, at: seq<nat>, s: string, k: nat, b: Becoming)
    requires Laid(pieces, at, s) && k <= |pieces| && forall p :: p in pieces[..k] ==> EndsFirm(p, b)
    requires at[k] <= |s| && !BehindBrace(s[..at[k]])
    ensures NoBraceLast(Joined(pieces[..k], b))
  {
    var a := Joined(pieces[..k], b);
    forall i | 0 <= i < |a| && IsChar(a[i], '{') ensures exists j :: i < j < |a| && !IsBlank(a[j]) {
      if forall j :: i < j < |a| ==> IsBlank(a[j]) {
        BraceSeen(pieces, at, s, k, b, i);
      }
    }
  }

  lemma LastJoined(pieces: seq<Piece>, k: nat, b: Becoming)
    requires 0 < k <= |pieces| && b(pieces[k - 1]) == [pieces[k - 1]]
    ensures Joined(pieces[..k], b) != [] && Last(Joined(pieces[..k], b)) == pieces[k - 1]
  {
    assert pieces[..k] == pieces[..k - 1] + [pieces[k - 1]];
    JoinedSnoc(pieces[..k - 1], pieces[k - 1], b);
  }

  lemma ApartBefore(pieces: seq<Piece>, at: seq<nat>, s: string, k: nat, b: Becoming, colon: bool)
    requires AllShaped(pieces, colon) && NoClash(pieces, colon) && Laid(pieces, at, s) && k < |pieces|
    requires forall p :: p in pieces ==> EndsFirm(p, b) && (p.kind != Param ==> b(p) == [p])
    requires at[k] <= |s| && (at[k] > 0 ==> IsJsSpace(s[at[k] - 1])) && !BehindBrace(s[..at[k]])
    ensures Before(Joined(pieces[..k], b))
  {
    assert forall p :: p in pieces[..k] ==> p in pieces;
    NoBraceBefore(pieces, at, s, k, b);
    if k > 0 {
      assert pieces[k - 1] in pieces && Stands(s, at[k - 1], pieces[k - 1], at[k]);
      PieceBefore(pieces, at, s, k, colon);
      LastJoined(pieces, k, b);
    }
  }

  lemma ApartAfter(pieces: seq<Piece>, at: seq<nat>, s: string, k: nat, b: Becoming, colon: bool)
    requires AllShaped(pieces, colon) && Laid(pieces, at, s) && k < |pieces|
    requires forall p :: p in pieces && p.kind != Param ==> b(p) == [p]
    requires at[k + 1] <= |s| && (at[k + 1] < |s| ==> IsJsSpace(s[at[k + 1]]))
    ensures After(Joined(pieces[k + 1..], b))
  {
    InBounds(pieces, at, s, k + 1);
    if k + 1 < |pieces| {
      PieceAfter(pieces, at, s, k, colon);
      assert pieces[k + 1..][0] == pieces[k + 1] && pieces[k + 1] in pieces;
    }
  }

  lemma PlacesAre(pieces: seq<Piece>, k: nat)
    requires k <= |pieces|
    ensures Places(pieces)[k] == StartOf(pieces, 0, k)
  {
  }

  lemma HitHere(pieces: seq<Piece>, k: nat)
    requires k < |pieces| && pieces[k].kind == Param
    ensures Hit(pieces[k].name, Places(pieces)[k], Places(pieces)[k + 1]) in HitsOf(pieces, 0)
  {
    PlacesAre(pieces, k);
    PlacesAre(pieces, k + 1);
    HitOfPiece(pieces, 0, k);
  }

  lemma AsApart(sql: string, h: Hit, hits: seq<Hit>, values: Values)
    requires AllApart(sql, hits, values) && h in hits && h.name in values
    ensures Apart(sql, h) && Proper(values[h.name])
  {
  }

  lemma BoundStandsApart(pieces: seq<Piece>, sql: string, k: nat, values: Values)
    requires AllApart(sql, HitsOf(pieces, 0), values) && k < |pieces| && IsBound(pieces[k], values)
    ensures var at := Places(pieces);
      && at[k] <= at[k + 1] <= |sql| && (at[k] > 0 ==> IsJsSpace(sql[at[k] - 1]))
      && (at[k + 1] < |sql| ==> IsJsSpace(sql[at[k + 1]])) && !BehindBrace(sql[..at[k]])
    ensures Proper(values[pieces[k].name])
  {
    HitHere(pieces, k);
    AsApart(sql, Hit(pieces[k].name, Places(pieces)[k], Places(pieces)[k + 1]), HitsOf(pieces, 0), values);
  }

  lemma BoundAreProper(pieces: seq<Piece>, sql: string, values: Values)
    requires AllApart(sql, HitsOf(pieces, 0), values)
    ensures forall p :: p in pieces && IsBound(p, values) ==> Proper(values[p.name])
  {
    forall p | p in pieces && IsBound(p, values) ensures Proper(values[p.name]) {
      var k :| 0 <= k < |pieces| && pieces[k] == p;
      BoundStandsApart(pieces, sql, k, values);
    }
  }

  lemma PartsShaped(pieces: seq<Piece>, k: nat, values: Values, colon: bool)
    requires AllShaped(pieces, colon) && k < |pieces|
    ensures var b := Replacement(values, colon);
      && AllShaped(Joined(pieces[..k], b), colon) && AllShaped(b(pieces[k]), colon)
      && AllShaped(Joined(pieces[k + 1..], b), colon)
  {
    var b := Replacement(values, colon);
    forall p | p in pieces ensures AllShaped(b(p), colon) {
      ReplacementKept(p, values, colon);
    }
    assert forall p :: p in pieces[..k] ==> p in pieces;
    assert forall p :: p in pieces[k + 1..] ==> p in pieces;
    JoinedShaped(pieces[..k], b, colon);
    JoinedShaped(pieces[k + 1..], b, colon);
    assert pieces[k] in pieces;
  }

  lemma SeamlessIfApart(pieces: seq<Piece>, at: seq<nat>, s: string, k: nat, b: Becoming, colon: bool)
    requires AllShaped(pieces, colon) && NoClash(pieces, colon) && Laid(pieces, at, s) && k < |pieces|
    requires forall p :: p in pieces ==> EndsFirm(p, b) && (p.kind != Param ==> b(p) == [p])
    requires AllShaped(Joined(pieces[..k], b), colon) && AllShaped(b(pieces[k]), colon)
    requires AllShaped(Joined(pieces[k + 1..], b), colon) && IsLiteral(b(pieces[k]))
    requires at[k] <= at[k + 1] <= |s| && (at[k] > 0 ==> IsJsSpace(s[at[k] - 1]))
    requires (at[k + 1] < |s| ==> IsJsSpace(s[at[k + 1]])) && !BehindBrace(s[..at[k]])
    ensures SeamlessAt(pieces, k, b, colon)
  {
    ApartBefore(pieces, at, s, k, b, colon);
    ApartAfter(pieces, at, s, k, b, colon);
    ApartIsSeamless(Joined(pieces[..k], b), b(pieces[k]), Joined(pieces[k + 1..], b), colon);
  }

  lemma SeamlessHere(pieces: seq<Piece>, sql: string, k: nat, values: Values, colon: bool)
    requires AllShaped(pieces, colon) && NoClash(pieces, colon) && Laid(pieces, Places(pieces), sql)
    requires AllApart(sql, HitsOf(pieces, 0), values) && k < |pieces| && IsBound(pieces[k], values)
    ensures SeamlessAt(pieces, k, Replacement(values, colon), colon)
  {
    var b := Replacement(values, colon);
    BoundAreProper(pieces, sql, values);
    BoundStandsApart(pieces, sql, k, values);
    AllEndFirm(pieces, values, colon);
    BoundIsLiteral(pieces[k], values, colon);
    PartsShaped(pieces, k, values, colon);
    SeamlessIfApart(pieces, Places(pieces), sql, k, b, colon);
  }

  lemma PiecesLaid(sql: string, colon: bool)
    ensures Laid(Pieces(sql, colon), Places(Pieces(sql, colon)), sql)
  {
    var pieces := Pieces(sql, colon);
    PiecesShaped(sql, colon);
    PiecesAndHits(sql, colon);
    forall k | 0 <= k < |pieces| ensures pieces[k].text != "" {
      ShapedHasText(pieces[k], colon);
    }
    LaidOut(pieces, sql);
  }

  /**
  Where every bound parameter has white space or nothing on both sides and no brace before that, and its
  value is not written raw and, if quoted, has no backslash that takes a quote along: the rest of the
  script keeps its pieces, and exactly the parameters that were not bound are left, moved accordingly.
  */
  lemma ApartBindingIsSafe(sql: string, colon: bool, values: Values)
    requires forall h :: h in Hits(sql, colon) && h.name in values ==> Apart(sql, h) && Proper(values[h.name])
    ensures Pieces(BindParams(sql, colon, values), colon) == Substituted(Pieces(sql, colon), values, colon)
    ensures InOrder(Hits(sql, colon), 0, |sql|)
    ensures Hits(BindParams(sql, colon, values), colon) == Remaining(Hits(sql, colon), Lengths(values), 0, 0, |sql|)
  {
    var pieces := Pieces(sql, colon);
    PiecesShaped(sql, colon);
    PiecesDoNotClash(sql, colon);
    PiecesLaid(sql, colon);
    forall k | 0 <= k < |pieces| && IsBound(pieces[k], values)
      ensures SeamlessAt(pieces, k, Replacement(values, colon), colon)
    {
      SeamlessHere(pieces, sql, k, values, colon);
    }
    forall h | h in Hits(sql, colon) && h.name in values ensures Hits(ParamLiteral(values[h.name]), colon) == [] {
      ProperHasNoHit(values[h.name], colon);
    }
    BindingKeepsCutExactly(sql, colon, values);
    UnboundHitsStay(sql, colon, values);
  }
}
