/**
Pieces put side by side. Each is all there is to say about its own text; where they stand next to each
other a quote may go on, a comment, a tag or braces may open, or a name may grow. `Clashes` lists what
can go wrong, by kinds and characters of pieces that stand in a row.
*/
module ParamSeams {
  import opened Prelude
  import opened Text
  import opened Params
  import opened ParamCut
  import opened ParamFit

  // ------------------------------------------------------------------ what goes wrong between pieces

  predicate IsChar(p: Piece, c: char) { p.kind == Plain && p.text == [c] }

  predicate IsLetter(p: Piece) { p.kind == Plain && |p.text| == 1 && IsIdentStart(p.text[0]) }

  predicate IsWordPiece(p: Piece) { p.kind == Plain && |p.text| == 1 && IsWordChar(p.text[0]) }

  /** Two pieces that cannot stand side by side. */
  ghost predicate Touch(a: Piece, b: Piece) {
    && a.text != "" && b.text != ""
    && var c, d := Last(a.text), b.text[0];
    || !Closed(a)
    || (a.kind == Quote && a.text[0] == d)
    || (a.kind == Plain && ((c == '-' && d == '-') || (c == '/' && d == '*')))
    || (IsColonName(a) && !EndsName(d))
    || (IsColonName(b) && !IsOpen(c))
  }

  /** A dollar sign, letters and a dollar sign: a tag. */
  ghost predicate IsTagged(w: seq<Piece>) {
    && |w| >= 2 && IsChar(w[0], '$') && Last(w).text != "" && Last(w).text[0] == '$'
    && forall k :: 0 < k < |w| - 1 ==> IsLetter(w[k])
  }

  /** Two braces, a name with white space around it, and two braces: a parameter. */
  ghost predicate IsBraced(w: seq<Piece>) {
    && |w| > 4 && IsChar(w[0], '{') && IsChar(w[1], '{') && IsChar(w[|w| - 2], '}') && IsChar(w[|w| - 1], '}')
    && (forall k :: 2 <= k < |w| - 2 ==> w[k].kind == Plain)
    && IsName(JsTrim(Texts(w[2..|w| - 2])))
  }

  /** A colon and a name, with an end to it: what ends a name, or the end of the script. */
  ghost predicate IsNamed(w: seq<Piece>, last: bool) {
    && |w| >= 2 && IsChar(w[0], ':') && IsLetter(w[1])
    && (|| (last && forall k :: 0 < k < |w| ==> IsWordPiece(w[k]))
        || (Last(w).text != "" && EndsName(Last(w).text[0]) && forall k :: 0 < k < |w| - 1 ==> IsWordPiece(w[k])))
  }

  /** A colon and a name where one may begin: behind what a name may follow, or at the start of the script. */
  ghost predicate IsNamedHere(w: seq<Piece>, first: bool, last: bool) {
    || (first && IsNamed(w, last))
    || (|w| > 2 && w[0].text != "" && IsOpen(Last(w[0].text)) && IsNamed(w[1..], last))
  }

  /**
  Something opens, goes on, or does not open any more because these pieces stand in a row. `first` and
  `last`: nothing stands before them, nothing behind them.
  */
  ghost predicate Clashes(w: seq<Piece>, first: bool, last: bool, colon: bool) {
    || (|w| == 2 && Touch(w[0], w[1]))
    || IsTagged(w)
    || IsBraced(w)
    || (colon && IsNamedHere(w, first, last))
  }

  ghost predicate ClashesIn(list: seq<Piece>, lo: nat, hi: nat, colon: bool) {
    lo < hi <= |list| && Clashes(list[lo..hi], lo == 0, hi == |list|, colon)
  }

  ghost predicate NoClash(list: seq<Piece>, colon: bool) {
    forall lo: nat, hi: nat :: !ClashesIn(list, lo, hi, colon)
  }

  // ------------------------------------------------------------------ where pieces stand in their text

  ghost predicate Stands(s: string, i: nat, p: Piece, end: nat) {
    && p.text != "" && i + |p.text| == end <= |s| && At(s, i, p.text)
    && s[i] == p.text[0] && s[end - 1] == Last(p.text)
  }

  /** The pieces make up the text; the k-th stands at `at[k]`. */
  ghost predicate Laid(list: seq<Piece>, at: seq<nat>, s: string) {
    && |at| == |list| + 1 && at[0] == 0 && at[|list|] == |s|
    && forall k {:trigger list[k]} :: 0 <= k < |list| ==> Stands(s, at[k], list[k], at[k + 1])
  }

  lemma StandsAtText(s: string, i: nat, p: Piece)
    requires p.text != "" && At(s, i, p.text)
    ensures Stands(s, i, p, i + |p.text|)
  {
    assert s[i..i + |p.text|][0] == s[i] && s[i..i + |p.text|][|p.text| - 1] == s[i + |p.text| - 1];
  }

  /** The pieces `w` stand in the list from `lo` on. */
  ghost predicate StandsIn(list: seq<Piece>, lo: nat, w: seq<Piece>) {
    lo + |w| <= |list| && forall k {:trigger w[k]} :: 0 <= k < |w| ==> list[lo + k] == w[k]
  }

  ghost predicate AllSingle(w: seq<Piece>) { forall k :: 0 <= k < |w| ==> w[k].kind == Plain && |w[k].text| == 1 }

  /** Plain pieces stand in the text from `i` on. */
  ghost predicate SpeltAt(s: string, i: nat, w: seq<Piece>) {
    AllSingle(w) && i + |w| <= |s| && forall k :: 0 <= k < |w| ==> s[i + k] == w[k].text[0]
  }

  lemma InBounds(list: seq<Piece>, at: seq<nat>, s: string, k: nat)
    requires Laid(list, at, s) && k <= |list|
    ensures at[k] <= |s| && (at[k] == |s| <==> k == |list|)
  {
    if k < |list| {
      assert Stands(s, at[k], list[k], at[k + 1]);
    }
  }

  lemma {:induction false} Spelled(list: seq<Piece>, at: seq<nat>, s: string, lo: nat, w: seq<Piece>)
    requires Laid(list, at, s) && StandsIn(list, lo, w) && AllSingle(w)
    ensures at[lo + |w|] == at[lo] + |w|
    ensures SpeltAt(s, at[lo], w)
    decreases |w|
  {
    if w == [] {
      InBounds(list, at, s, lo);
    } else {
      var front, k := w[..|w| - 1], |w| - 1;
      assert forall j :: 0 <= j < |front| ==> front[j] == w[j];
      Spelled(list, at, s, lo, front);
      assert list[lo + k] == w[k];
      assert forall j :: 0 <= j < |w| ==> j < k ==> s[at[lo] + j] == front[j].text[0];
    }
  }

  // ------------------------------------------------------------------ a clash is a piece that does not fit

  ghost predicate FitsIn(list: seq<Piece>, at: seq<nat>, s: string, k: nat, colon: bool)
    requires Laid(list, at, s) && k < |list|
  {
    assert Stands(s, at[k], list[k], at[k + 1]);
    Fits(s, at[k], list[k], colon)
  }

  /** Two pieces that stand next to each other at `i` and at `end`. */
  ghost predicate Side(s: string, i: nat, a: Piece, end: nat, b: Piece) {
    && a.text != "" && b.text != "" && i + |a.text| == end < |s| && At(s, i, a.text) && At(s, end, b.text)
    && s[i] == a.text[0] && s[end - 1] == Last(a.text) && s[end] == b.text[0]
  }

  lemma OpenTouch(s: string, i: nat, a: Piece, end: nat, b: Piece, colon: bool)
    requires Side(s, i, a, end, b) && !Closed(a)
    ensures !Fits(s, i, a, colon)
  {
  }

  lemma QuoteTouch(s: string, i: nat, a: Piece, end: nat, b: Piece, colon: bool)
    requires Side(s, i, a, end, b) && a.kind == Quote && a.text[0] == b.text[0]
    ensures !Fits(s, i, a, colon)
  {
  }

  lemma SignTouch(s: string, i: nat, a: Piece, end: nat, b: Piece, colon: bool)
    requires Side(s, i, a, end, b) && a.kind == Plain && |a.text| == 1
    requires (a.text[0] == '-' && b.text[0] == '-') || (a.text[0] == '/' && b.text[0] == '*')
    ensures !Fits(s, i, a, colon)
  {
  }

  lemma NameTouch(s: string, i: nat, a: Piece, end: nat, b: Piece, colon: bool)
    requires Side(s, i, a, end, b) && IsColonName(a) && !EndsName(b.text[0])
    ensures !Fits(s, i, a, colon)
  {
  }

  lemma ColonTouch(s: string, i: nat, a: Piece, end: nat, b: Piece, colon: bool)
    requires Side(s, i, a, end, b) && IsColonName(b) && !IsOpen(Last(a.text))
    ensures !Fits(s, end, b, colon)
  {
  }

  lemma SideMisfits(s: string, i: nat, a: Piece, end: nat, b: Piece, colon: bool)
    requires Side(s, i, a, end, b) && Touch(a, b) && (a.kind == Plain ==> |a.text| == 1)
    ensures !Fits(s, i, a, colon) || !Fits(s, end, b, colon)
  {
    if !Closed(a) {
      OpenTouch(s, i, a, end, b, colon);
    } else if a.kind == Quote && a.text[0] == b.text[0] {
      QuoteTouch(s, i, a, end, b, colon);
    } else if IsColonName(a) && !EndsName(b.text[0]) {
      NameTouch(s, i, a, end, b, colon);
    } else if IsColonName(b) && !IsOpen(Last(a.text)) {
      ColonTouch(s, i, a, end, b, colon);
    } else {
      SignTouch(s, i, a, end, b, colon);
    }
  }

  lemma TouchMisfits(list: seq<Piece>, at: seq<nat>, s: string, k: nat, colon: bool)
    requires AllShaped(list, colon) && Laid(list, at, s) && k + 1 < |list| && Touch(list[k], list[k + 1])
    ensures !FitsIn(list, at, s, k, colon) || !FitsIn(list, at, s, k + 1, colon)
  {
    assert Stands(s, at[k], list[k], at[k + 1]) && Stands(s, at[k + 1], list[k + 1], at[k + 2]);
    assert Shaped(list[k], colon);
    SideMisfits(s, at[k], list[k], at[k + 1], list[k + 1], colon);
  }

  lemma TagSpelled(s: string, i: nat, w: seq<Piece>)
    requires SpeltAt(s, i, w) && i + |w| < |s| && s[i + |w|] == '$'
    requires w != [] && IsChar(w[0], '$') && forall k :: 0 < k < |w| ==> IsLetter(w[k])
    ensures s[i] == '$' && TagFollows(s, i, i + |w|)
  {
    assert s[i + 0] == w[0].text[0];
    forall k | i < k < i + |w| ensures IsIdentStart(s[k]) {
      assert s[i + (k - i)] == w[k - i].text[0] && IsLetter(w[k - i]);
    }
  }

  /** The row without its last piece, and that piece. */
  lemma FrontOf(list: seq<Piece>, at: seq<nat>, s: string, lo: nat, w: seq<Piece>)
    requires Laid(list, at, s) && StandsIn(list, lo, w) && |w| > 1 && AllSingle(w[..|w| - 1])
    ensures SpeltAt(s, at[lo], w[..|w| - 1]) && at[lo] + |w| - 1 < |s| && s[at[lo] + |w| - 1] == Last(w).text[0]
    ensures Last(w).text != "" && list[lo] == w[0]
  {
    var front := w[..|w| - 1];
    assert forall j :: 0 <= j < |front| ==> front[j] == w[j];
    Spelled(list, at, s, lo, front);
    assert list[lo + (|w| - 1)] == w[|w| - 1] && list[lo + 0] == w[0];
    assert Stands(s, at[lo + (|w| - 1)], list[lo + (|w| - 1)], at[lo + |w|]);
  }

  lemma TagMisfits(list: seq<Piece>, at: seq<nat>, s: string, lo: nat, w: seq<Piece>, colon: bool)
    requires Laid(list, at, s) && StandsIn(list, lo, w) && IsTagged(w)
    ensures !FitsIn(list, at, s, lo, colon)
  {
    var front := w[..|w| - 1];
    forall k | 0 <= k < |front| ensures front[k] == w[k] && front[k].kind == Plain && |front[k].text| == 1 {
      assert k > 0 ==> IsLetter(w[k]);
    }
    FrontOf(list, at, s, lo, w);
    TagSpelled(s, at[lo], front);
  }

  /** The text of plain pieces. */
  lemma {:induction false} TextOfRow(s: string, i: nat, w: seq<Piece>)
    requires SpeltAt(s, i, w)
    ensures Texts(w) == s[i..i + |w|]
    decreases |w|
  {
    if w != [] {
      var rest := w[1..];
      forall k | 0 <= k < |rest| ensures rest[k] == w[k + 1] && s[i + 1 + k] == rest[k].text[0] {
        assert s[i + (k + 1)] == w[k + 1].text[0];
      }
      TextOfRow(s, i + 1, rest);
      assert s[i + 0] == w[0].text[0] && w[0].text == [s[i]];
      assert s[i..i + |w|] == [s[i]] + s[i + 1..i + |w|];
    }
  }

  lemma BodySpelled(s: string, i: nat, w: seq<Piece>)
    requires SpeltAt(s, i, w) && |w| >= 4
    ensures Texts(w[2..|w| - 2]) == s[i + 2..i + |w| - 2]
  {
    var body := w[2..|w| - 2];
    forall k | 0 <= k < |body| ensures body[k] == w[k + 2] && s[i + 2 + k] == body[k].text[0] {
      assert s[i + (k + 2)] == w[k + 2].text[0];
    }
    TextOfRow(s, i + 2, body);
  }

  lemma BracesSpelled(s: string, i: nat, w: seq<Piece>)
    requires SpeltAt(s, i, w) && IsBraced(w)
    ensures s[i] == '{' && BracesFollow(s, i, i + |w| - 2)
  {
    BodySpelled(s, i, w);
    assert s[i + 0] == w[0].text[0] && s[i + 1] == w[1].text[0];
    assert s[i + (|w| - 2)] == w[|w| - 2].text[0] && s[i + (|w| - 1)] == w[|w| - 1].text[0];
  }

  lemma BracesMisfit(list: seq<Piece>, at: seq<nat>, s: string, lo: nat, w: seq<Piece>, colon: bool)
    requires AllShaped(w, colon) && Laid(list, at, s) && StandsIn(list, lo, w) && IsBraced(w)
    ensures !FitsIn(list, at, s, lo, colon)
  {
    forall k | 0 <= k < |w| ensures w[k].kind == Plain && |w[k].text| == 1 {
      assert Shaped(w[k], colon);
    }
    assert list[lo + 0] == w[0];
    Spelled(list, at, s, lo, w);
    BracesSpelled(s, at[lo], w);
  }

  /** A colon and a name. */
  ghost predicate IsColonRun(w: seq<Piece>) {
    |w| > 1 && IsChar(w[0], ':') && IsLetter(w[1]) && forall k :: 0 < k < |w| ==> IsWordPiece(w[k])
  }

  lemma RunIsSingle(w: seq<Piece>)
    requires IsColonRun(w)
    ensures AllSingle(w)
  {
    forall k | 0 <= k < |w| ensures w[k].kind == Plain && |w[k].text| == 1 {
      assert k > 0 ==> IsWordPiece(w[k]);
    }
  }

  lemma NameSpelled(s: string, i: nat, w: seq<Piece>)
    requires SpeltAt(s, i, w) && IsColonRun(w) && (i + |w| < |s| ==> EndsName(s[i + |w|]))
    ensures s[i] == ':' && NameFollows(s, i, i + |w|)
  {
    assert s[i + 0] == w[0].text[0] && s[i + 1] == w[1].text[0];
    forall k | i < k < i + |w| ensures IsWordChar(s[k]) {
      assert s[i + (k - i)] == w[k - i].text[0] && IsWordPiece(w[k - i]);
    }
  }

  /** What ends a name is no letter. */
  lemma ColonRunFirst(w: seq<Piece>, last: bool)
    requires IsNamed(w, last) && !(last && IsColonRun(w))
    ensures IsColonRun(w[..|w| - 1]) && Last(w).text != "" && EndsName(Last(w).text[0])
  {
    assert Last(w) == w[|w| - 1];
    assert forall k :: 0 <= k < |w| - 1 ==> w[..|w| - 1][k] == w[k];
  }

  lemma NameMisfits(list: seq<Piece>, at: seq<nat>, s: string, lo: nat, w: seq<Piece>, colon: bool)
    requires Laid(list, at, s) && StandsIn(list, lo, w) && IsNamed(w, lo + |w| == |list|) && colon
    requires at[lo] < |s| && OpenBefore(s, at[lo])
    ensures !FitsIn(list, at, s, lo, colon)
  {
    assert list[lo + 0] == w[0];
    if lo + |w| == |list| && IsColonRun(w) {
      RunIsSingle(w);
      Spelled(list, at, s, lo, w);
      NameSpelled(s, at[lo], w);
    } else {
      ColonRunFirst(w, lo + |w| == |list|);
      RunIsSingle(w[..|w| - 1]);
      FrontOf(list, at, s, lo, w);
      NameSpelled(s, at[lo], w[..|w| - 1]);
    }
  }

  lemma StandsBehind(list: seq<Piece>, lo: nat, w: seq<Piece>)
    requires StandsIn(list, lo, w) && w != []
    ensures StandsIn(list, lo + 1, w[1..])
  {
    forall j | 0 <= j < |w[1..]| ensures list[lo + 1 + j] == w[1..][j] {
      assert list[lo + (j + 1)] == w[j + 1];
    }
  }

  lemma BehindOpen(list: seq<Piece>, at: seq<nat>, s: string, lo: nat, w: seq<Piece>)
    requires Laid(list, at, s) && StandsIn(list, lo, w) && |w| > 1 && w[0].text != "" && IsOpen(Last(w[0].text))
    ensures at[lo + 1] < |s| && OpenBefore(s, at[lo + 1])
  {
    assert list[lo + 0] == w[0] && Stands(s, at[lo], list[lo], at[lo + 1]);
    InBounds(list, at, s, lo + 1);
  }

  lemma NameBehindMisfits(list: seq<Piece>, at: seq<nat>, s: string, lo: nat, w: seq<Piece>, colon: bool)
    requires Laid(list, at, s) && StandsIn(list, lo, w) && |w| > 1 && colon
    requires w[0].text != "" && IsOpen(Last(w[0].text)) && IsNamed(w[1..], lo + |w| == |list|)
    ensures !FitsIn(list, at, s, lo + 1, colon)
  {
    BehindOpen(list, at, s, lo, w);
    StandsBehind(list, lo, w);
    NameMisfits(list, at, s, lo + 1, w[1..], colon);
  }

  lemma TwoMisfit(list: seq<Piece>, at: seq<nat>, s: string, lo: nat, w: seq<Piece>, colon: bool) returns (k: nat)
    requires AllShaped(list, colon) && Laid(list, at, s) && StandsIn(list, lo, w) && |w| == 2 && Touch(w[0], w[1])
    ensures k < |list| && !FitsIn(list, at, s, k, colon)
  {
    assert list[lo + 0] == w[0] && list[lo + 1] == w[1];
    TouchMisfits(list, at, s, lo, colon);
    k := if FitsIn(list, at, s, lo, colon) then lo + 1 else lo;
  }

  lemma NameHereMisfits(list: seq<Piece>, at: seq<nat>, s: string, lo: nat, w: seq<Piece>, colon: bool) returns (k: nat)
    requires Laid(list, at, s) && StandsIn(list, lo, w) && colon
    requires IsNamedHere(w, lo == 0, lo + |w| == |list|)
    ensures k < |list| && !FitsIn(list, at, s, k, colon)
  {
    if lo == 0 && IsNamed(w, lo + |w| == |list|) {
      InBounds(list, at, s, lo);
      NameMisfits(list, at, s, lo, w, colon);
      k := lo;
    } else {
      NameBehindMisfits(list, at, s, lo, w, colon);
      k := lo + 1;
    }
  }

  lemma WindowMisfits(list: seq<Piece>, at: seq<nat>, s: string, lo: nat, w: seq<Piece>, colon: bool) returns (k: nat)
    requires AllShaped(list, colon) && AllShaped(w, colon) && Laid(list, at, s) && StandsIn(list, lo, w)
    requires Clashes(w, lo == 0, lo + |w| == |list|, colon)
    ensures k < |list| && !FitsIn(list, at, s, k, colon)
  {
    k := lo;
    if |w| == 2 && Touch(w[0], w[1]) {
      k := TwoMisfit(list, at, s, lo, w, colon);
    } else if IsTagged(w) {
      TagMisfits(list, at, s, lo, w, colon);
    } else if IsBraced(w) {
      BracesMisfit(list, at, s, lo, w, colon);
    } else {
      k := NameHereMisfits(list, at, s, lo, w, colon);
    }
  }

  lemma ClashMisfits(list: seq<Piece>, at: seq<nat>, s: string, lo: nat, hi: nat, colon: bool) returns (k: nat)
    requires AllShaped(list, colon) && Laid(list, at, s) && ClashesIn(list, lo, hi, colon)
    ensures k < |list| && !FitsIn(list, at, s, k, colon)
  {
    var w := list[lo..hi];
    assert forall j :: 0 <= j < |w| ==> w[j] == list[lo + j];
    k := WindowMisfits(list, at, s, lo, w, colon);
  }

  // ------------------------------------------------------------------ a piece that does not fit is a clash

  /** No piece but a plain one begins with it. */
  predicate IsQuiet(c: char) { !IsQuote(c) && c !in {'-', '/', '$', '{', ':'} }

  lemma QuietIsPlain(p: Piece, colon: bool)
    requires Shaped(p, colon) && IsQuiet(p.text[0])
    ensures p.kind == Plain && |p.text| == 1
  {
  }

  lemma {:induction false} QuietRow(list: seq<Piece>, at: seq<nat>, s: string, lo: nat, m: nat, colon: bool)
    requires AllShaped(list, colon) && Laid(list, at, s) && lo <= |list| && at[lo] + m <= |s|
    requires forall j :: at[lo] <= j < at[lo] + m ==> IsQuiet(s[j])
    ensures lo + m <= |list| && at[lo + m] == at[lo] + m
    ensures forall j :: lo <= j < lo + m ==>
      list[j].kind == Plain && |list[j].text| == 1 && list[j].text[0] == s[at[lo] + (j - lo)]
    decreases m
  {
    if m > 0 {
      QuietRow(list, at, s, lo, m - 1, colon);
      var k := lo + m - 1;
      InBounds(list, at, s, k);
      assert Stands(s, at[k], list[k], at[k + 1]) && Shaped(list[k], colon);
      QuietIsPlain(list[k], colon);
    }
  }

  lemma SideClash(list: seq<Piece>, k: nat, colon: bool)
    requires k + 1 < |list| && Touch(list[k], list[k + 1])
    ensures ClashesIn(list, k, k + 2, colon)
  {
    var w := list[k..k + 2];
    assert w[0] == list[k] && w[1] == list[k + 1];
  }

  lemma NextClash(list: seq<Piece>, at: seq<nat>, s: string, k: nat, colon: bool)
    requires Laid(list, at, s) && k < |list|
    requires at[k + 1] < |s|
    ensures k + 1 < |list| && Stands(s, at[k], list[k], at[k + 1]) && list[k + 1].text != ""
    ensures s[at[k + 1]] == list[k + 1].text[0]
  {
    InBounds(list, at, s, k + 1);
    assert Stands(s, at[k], list[k], at[k + 1]) && Stands(s, at[k + 1], list[k + 1], at[k + 2]);
  }

  /** A piece of its own that is not closed, or goes on. */
  lemma OpenClashes(list: seq<Piece>, at: seq<nat>, s: string, k: nat, colon: bool)
    requires Laid(list, at, s) && k < |list| && !FitsIn(list, at, s, k, colon)
    requires list[k].kind != Plain && list[k].kind != Param
    ensures ClashesIn(list, k, k + 2, colon)
  {
    assert Stands(s, at[k], list[k], at[k + 1]);
    InBounds(list, at, s, k + 1);
    NextClash(list, at, s, k, colon);
    SideClash(list, k, colon);
  }

  lemma NotOpenClash(list: seq<Piece>, at: seq<nat>, s: string, k: nat, colon: bool)
    requires Laid(list, at, s) && 0 < k < |list| && IsColonName(list[k]) && at[k] < |s| && !OpenBefore(s, at[k])
    ensures ClashesIn(list, k - 1, k + 1, colon)
  {
    assert Stands(s, at[k - 1], list[k - 1], at[k]);
    SideClash(list, k - 1, colon);
  }

  lemma ColonClashes(list: seq<Piece>, at: seq<nat>, s: string, k: nat, colon: bool) returns (lo: nat)
    requires Laid(list, at, s) && k < |list| && !FitsIn(list, at, s, k, colon) && list[k].kind == Param
    ensures ClashesIn(list, lo, lo + 2, colon)
  {
    assert Stands(s, at[k], list[k], at[k + 1]);
    if OpenBefore(s, at[k]) {
      InBounds(list, at, s, k + 1);
      NextClash(list, at, s, k, colon);
      SideClash(list, k, colon);
      lo := k;
    } else {
      lo := k - 1;
      NotOpenClash(list, at, s, k, colon);
    }
  }

  predicate IsSingle(p: Piece) { p.kind == Plain && |p.text| == 1 }

  lemma SignClashes(list: seq<Piece>, at: seq<nat>, s: string, k: nat, colon: bool)
    requires Laid(list, at, s) && k < |list| && IsSingle(list[k])
    requires Two(s, at[k], '-', '-') || Two(s, at[k], '/', '*')
    ensures ClashesIn(list, k, k + 2, colon)
  {
    assert Stands(s, at[k], list[k], at[k + 1]);
    NextClash(list, at, s, k, colon);
    SideClash(list, k, colon);
  }

  /** A row of letters and what stands behind it. */
  lemma LettersRow(list: seq<Piece>, at: seq<nat>, s: string, lo: nat, n: nat, colon: bool)
    requires AllShaped(list, colon) && Laid(list, at, s) && lo <= |list| && at[lo] <= n < |s|
    requires forall j :: at[lo] <= j < n ==> IsIdentStart(s[j])
    ensures var z := lo + (n - at[lo]);
      && z < |list| && list[z].text != "" && list[z].text[0] == s[n]
      && forall j :: lo <= j < z ==> IsLetter(list[j])
  {
    var z := lo + (n - at[lo]);
    QuietRow(list, at, s, lo, n - at[lo], colon);
    InBounds(list, at, s, z);
    assert Stands(s, at[z], list[z], at[z + 1]);
    forall j | lo <= j < z ensures IsLetter(list[j]) {
      assert IsIdentStart(s[at[lo] + (j - lo)]);
    }
  }

  lemma TagWindow(list: seq<Piece>, k: nat, z: nat)
    requires k < z < |list| && IsChar(list[k], '$') && list[z].text != "" && list[z].text[0] == '$'
    requires forall j :: k < j < z ==> IsLetter(list[j])
    ensures IsTagged(list[k..z + 1])
  {
    var w := list[k..z + 1];
    assert w[0] == list[k] && Last(w) == w[z - k] == list[z];
    forall j | 0 < j < |w| - 1 ensures IsLetter(w[j]) {
      assert w[j] == list[k + j];
    }
  }

  lemma TagClashes(list: seq<Piece>, at: seq<nat>, s: string, k: nat, n: nat, colon: bool)
    requires AllShaped(list, colon) && Laid(list, at, s) && k < |list| && IsSingle(list[k])
    requires at[k] < |s| && s[at[k]] == '$' && TagFollows(s, at[k], n)
    ensures ClashesIn(list, k, k + 1 + (n - at[k]), colon)
  {
    assert Stands(s, at[k], list[k], at[k + 1]);
    LettersRow(list, at, s, k + 1, n, colon);
    TagWindow(list, k, k + (n - at[k]));
  }

  lemma {:induction false} QuietText(list: seq<Piece>, at: seq<nat>, s: string, lo: nat, hi: nat, colon: bool)
    requires AllShaped(list, colon) && Laid(list, at, s) && lo <= hi <= |list|
    requires at[lo] + (hi - lo) <= |s|
    requires forall j :: lo <= j < hi ==> IsSingle(list[j]) && list[j].text[0] == s[at[lo] + (j - lo)]
    ensures Texts(list[lo..hi]) == s[at[lo]..at[lo] + (hi - lo)]
  {
    var w := list[lo..hi];
    forall j | 0 <= j < |w| ensures IsSingle(w[j]) && s[at[lo] + j] == w[j].text[0] {
      assert w[j] == list[lo + j] && list[lo + j].text[0] == s[at[lo] + (lo + j - lo)];
    }
    TextOfRow(s, at[lo], w);
  }

  lemma BodyIsQuiet(s: string, i: nat, n: nat, k: nat)
    requires BracesFollow(s, i, n) && i + 2 <= k <= n
    ensures IsQuiet(s[k])
  {
    if k < n {
      assert s[k] == s[i + 2..n][k - i - 2];
      TrimmedChars(s[i + 2..n], s[k]);
    }
  }

  /** The second brace is a piece by itself. */
  lemma SecondBrace(list: seq<Piece>, at: seq<nat>, s: string, k: nat, n: nat, colon: bool)
    requires AllShaped(list, colon) && Laid(list, at, s) && k < |list| && IsSingle(list[k])
    requires at[k] < |s| && s[at[k]] == '{' && BracesFollow(s, at[k], n)
    ensures k + 1 < |list| && IsChar(list[k + 1], '{') && at[k + 1] == at[k] + 1 && at[k + 2] == at[k] + 2
  {
    NextClash(list, at, s, k, colon);
    var p := list[k + 1];
    assert Shaped(p, colon) && Stands(s, at[k + 1], p, at[k + 2]);
    if p.kind != Plain {
      assert s[at[k + 1]..at[k + 1] + |p.text|][1] == s[at[k + 1] + 1];
      BodyIsQuiet(s, at[k], n, at[k] + 2);
    }
  }

  lemma BodySingles(list: seq<Piece>, at: seq<nat>, s: string, lo: nat, m: nat, colon: bool)
    requires AllShaped(list, colon) && Laid(list, at, s) && lo <= |list| && m > 2 && at[lo] + m <= |s|
    requires forall j :: at[lo] <= j < at[lo] + m ==> IsQuiet(s[j])
    requires s[at[lo] + m - 2] == s[at[lo] + m - 1] == '}'
    ensures lo + m <= |list| && forall j :: lo <= j < lo + m ==> IsSingle(list[j])
    ensures IsChar(list[lo + m - 2], '}') && IsChar(list[lo + m - 1], '}')
    ensures Texts(list[lo..lo + m - 2]) == s[at[lo]..at[lo] + m - 2]
  {
    QuietRow(list, at, s, lo, m, colon);
    QuietText(list, at, s, lo, lo + m - 2, colon);
    assert list[lo + m - 2].text[0] == s[at[lo] + (lo + m - 2 - lo)];
    assert list[lo + m - 1].text[0] == s[at[lo] + (lo + m - 1 - lo)];
  }

  lemma BodyHasText(s: string, i: nat, n: nat)
    requires BracesFollow(s, i, n)
    ensures i + 2 < n
  {
    TrimShorter(s[i + 2..n]);
  }

  /** All behind the two braces is plain, up to the two that close. */
  lemma BodyRow(list: seq<Piece>, at: seq<nat>, s: string, k: nat, n: nat, colon: bool)
    requires AllShaped(list, colon) && Laid(list, at, s) && k + 1 < |list| && at[k + 2] == at[k] + 2
    requires BracesFollow(s, at[k], n)
    ensures var z := k + (n - at[k]) + 2;
      && k + 4 < z <= |list| && (forall j :: k + 2 <= j < z ==> IsSingle(list[j]))
      && IsChar(list[z - 2], '}') && IsChar(list[z - 1], '}') && Texts(list[k + 2..z - 2]) == s[at[k] + 2..n]
  {
    var m := n - at[k];
    BodyHasText(s, at[k], n);
    forall j | at[k] + 2 <= j < at[k] + 2 + m ensures IsQuiet(s[j]) {
      if j <= n {
        BodyIsQuiet(s, at[k], n, j);
      }
    }
    BodySingles(list, at, s, k + 2, m, colon);
  }

  lemma BracesWindow(list: seq<Piece>, k: nat, z: nat, body: string)
    requires k + 4 < z <= |list| && IsChar(list[k], '{') && IsChar(list[k + 1], '{')
    requires IsChar(list[z - 2], '}') && IsChar(list[z - 1], '}') &&
      (forall j :: k + 2 <= j < z - 2 ==> IsSingle(list[j]))
    requires Texts(list[k + 2..z - 2]) == body && IsName(JsTrim(body))
    ensures IsBraced(list[k..z])
  {
    var w := list[k..z];
    SliceInside(list, k, z, 2, |w| - 2);
    assert w[0] == list[k] && w[1] == list[k + 1] && w[|w| - 2] == list[z - 2] && w[|w| - 1] == list[z - 1];
    forall j | 2 <= j < |w| - 2 ensures w[j].kind == Plain {
      assert w[j] == list[k + j] && IsSingle(list[k + j]);
    }
  }

  lemma BracesClash(list: seq<Piece>, at: seq<nat>, s: string, k: nat, n: nat, colon: bool)
    requires AllShaped(list, colon) && Laid(list, at, s) && k < |list| && IsSingle(list[k])
    requires at[k] < |s| && s[at[k]] == '{' && BracesFollow(s, at[k], n)
    ensures ClashesIn(list, k, k + (n - at[k]) + 2, colon)
  {
    SecondBrace(list, at, s, k, n, colon);
    BodyRow(list, at, s, k, n, colon);
    assert Stands(s, at[k], list[k], at[k + 1]);
    BracesWindow(list, k, k + (n - at[k]) + 2, s[at[k] + 2..n]);
  }

  /** A colon and a name, from the colon on. */
  lemma NameWindow(list: seq<Piece>, k: nat, z: nat)
    requires k + 1 < z <= |list| && IsChar(list[k], ':') && IsLetter(list[k + 1])
    requires forall j :: k < j < z ==> IsWordPiece(list[j])
    requires z < |list| ==> list[z].text != "" && EndsName(list[z].text[0])
    ensures IsNamed(list[k..if z < |list| then z + 1 else z], z == |list|)
  {
    var w := list[k..if z < |list| then z + 1 else z];
    assert w[0] == list[k] && w[1] == list[k + 1] && Last(w) == list[k + |w| - 1];
    forall j | 0 < j < z - k ensures IsWordPiece(w[j]) {
      assert w[j] == list[k + j];
    }
  }

  lemma OpenPrevious(list: seq<Piece>, at: seq<nat>, s: string, k: nat)
    requires Laid(list, at, s) && 0 < k < |list| && at[k] < |s| && OpenBefore(s, at[k])
    ensures list[k - 1].text != "" && IsOpen(Last(list[k - 1].text))
  {
    assert Stands(s, at[k - 1], list[k - 1], at[k]);
  }

  lemma NameClashes(list: seq<Piece>, at: seq<nat>, s: string, k: nat, n: nat, colon: bool) returns (lo: nat, hi: nat)
    requires AllShaped(list, colon) && Laid(list, at, s) && k < |list| && IsSingle(list[k]) && colon
    requires at[k] < |s| && s[at[k]] == ':' && OpenBefore(s, at[k]) && NameFollows(s, at[k], n)
    ensures ClashesIn(list, lo, hi, colon)
  {
    assert Stands(s, at[k], list[k], at[k + 1]);
    var m := n - at[k + 1];
    QuietRow(list, at, s, k + 1, m, colon);
    var z := k + 1 + m;
    InBounds(list, at, s, z);
    if z < |list| {
      assert Stands(s, at[z], list[z], at[z + 1]);
    }
    NameWindow(list, k, z);
    hi := if z < |list| then z + 1 else z;
    lo := if k == 0 then 0 else k - 1;
    if k > 0 {
      OpenPrevious(list, at, s, k);
      assert list[lo..hi][1..] == list[k..hi] && list[lo..hi][0] == list[lo];
    }
  }

  lemma AnyTagClashes(list: seq<Piece>, at: seq<nat>, s: string, k: nat, colon: bool) returns (hi: nat)
    requires AllShaped(list, colon) && Laid(list, at, s) && k < |list| && IsSingle(list[k]) && at[k] < |s|
    requires s[at[k]] == '$' && exists n: nat :: TagFollows(s, at[k], n)
    ensures ClashesIn(list, k, hi, colon)
  {
    var n: nat :| TagFollows(s, at[k], n);
    TagClashes(list, at, s, k, n, colon);
    hi := k + 1 + (n - at[k]);
  }

  lemma AnyBracesClash(list: seq<Piece>, at: seq<nat>, s: string, k: nat, colon: bool) returns (hi: nat)
    requires AllShaped(list, colon) && Laid(list, at, s) && k < |list| && IsSingle(list[k]) && at[k] < |s|
    requires s[at[k]] == '{' && exists n: nat :: BracesFollow(s, at[k], n)
    ensures ClashesIn(list, k, hi, colon)
  {
    var n: nat :| BracesFollow(s, at[k], n);
    BracesClash(list, at, s, k, n, colon);
    hi := k + (n - at[k]) + 2;
  }

  lemma RunClashes(list: seq<Piece>, at: seq<nat>, s: string, k: nat, colon: bool) returns (lo: nat, hi: nat)
    requires AllShaped(list, colon) && Laid(list, at, s) && k < |list| && IsSingle(list[k]) && at[k] < |s|
    requires PlainOpens(s, at[k], colon) && !Two(s, at[k], '-', '-') && !Two(s, at[k], '/', '*')
    ensures ClashesIn(list, lo, hi, colon)
  {
    lo := k;
    if s[at[k]] == '$' {
      hi := AnyTagClashes(list, at, s, k, colon);
    } else if s[at[k]] == '{' {
      hi := AnyBracesClash(list, at, s, k, colon);
    } else {
      var n: nat :| NameFollows(s, at[k], n);
      lo, hi := NameClashes(list, at, s, k, n, colon);
    }
  }

  lemma PlainClashes(list: seq<Piece>, at: seq<nat>, s: string, k: nat, colon: bool) returns (lo: nat, hi: nat)
    requires AllShaped(list, colon) && Laid(list, at, s) && k < |list| && IsSingle(list[k])
    requires at[k] < |s| && PlainOpens(s, at[k], colon)
    ensures ClashesIn(list, lo, hi, colon)
  {
    lo, hi := k, k + 2;
    if Two(s, at[k], '-', '-') || Two(s, at[k], '/', '*') {
      SignClashes(list, at, s, k, colon);
    } else {
      lo, hi := RunClashes(list, at, s, k, colon);
    }
  }

  lemma MisfitClashes(list: seq<Piece>, at: seq<nat>, s: string, k: nat, colon: bool) returns (lo: nat, hi: nat)
    requires AllShaped(list, colon) && Laid(list, at, s) && k < |list| && !FitsIn(list, at, s, k, colon)
    ensures ClashesIn(list, lo, hi, colon)
  {
    assert Shaped(list[k], colon) && Stands(s, at[k], list[k], at[k + 1]);
    if list[k].kind == Plain {
      assert PlainOpens(s, at[k], colon);
      lo, hi := PlainClashes(list, at, s, k, colon);
    } else if list[k].kind == Param {
      lo := ColonClashes(list, at, s, k, colon);
      hi := lo + 2;
    } else {
      OpenClashes(list, at, s, k, colon);
      lo, hi := k, k + 2;
    }
  }

  // ------------------------------------------------------------------ the cut of pieces put side by side

  /** Each piece belongs where it stands if the pieces are put together from `i` on. */
  ghost predicate EachBelongs(s: string, i: nat, pieces: seq<Piece>, colon: bool) {
    forall k :: 0 <= k < |pieces| ==> Belongs(s, StartOf(pieces, i, k), pieces[k], colon)
  }

  lemma EachBelongsStep(s: string, i: nat, pieces: seq<Piece>, colon: bool)
    requires pieces != []
    ensures EachBelongs(s, i, pieces, colon) <==>
      Belongs(s, i, pieces[0], colon) && EachBelongs(s, i + |pieces[0].text|, pieces[1..], colon)
  {
    var end := i + |pieces[0].text|;
    assert StartOf(pieces, i, 0) == i;
    forall k | 0 < k < |pieces| ensures StartOf(pieces, i, k) == StartOf(pieces[1..], end, k - 1) {
    }
    if EachBelongs(s, i, pieces, colon) {
      forall k | 0 <= k < |pieces[1..]| ensures Belongs(s, StartOf(pieces[1..], end, k), pieces[1..][k], colon) {
        assert Belongs(s, StartOf(pieces, i, k + 1), pieces[k + 1], colon);
      }
    }
  }

  lemma {:induction false} PlacedInCut(s: string, i: nat, pieces: seq<Piece>, colon: bool)
    requires IsCutFrom(s, i, pieces, colon)
    ensures EachBelongs(s, i, pieces, colon)
    decreases |pieces|
  {
    if pieces != [] {
      PlacedInCut(s, i + |pieces[0].text|, pieces[1..], colon);
      EachBelongsStep(s, i, pieces, colon);
    }
  }

  lemma {:induction false} CutOfPlaced(s: string, i: nat, pieces: seq<Piece>, colon: bool)
    requires i + |Texts(pieces)| == |s| && EachBelongs(s, i, pieces, colon)
    ensures IsCutFrom(s, i, pieces, colon)
    decreases |pieces|
  {
    if pieces != [] {
      EachBelongsStep(s, i, pieces, colon);
      CutOfPlaced(s, i + |pieces[0].text|, pieces[1..], colon);
    }
  }

  /** The pieces, put together, are cut as they are if and only if each of them belongs where it then stands. */
  lemma CutByPlace(s: string, i: nat, pieces: seq<Piece>, colon: bool)
    requires i <= |s| && Texts(pieces) == s[i..]
    ensures IsCutFrom(s, i, pieces, colon) <==> EachBelongs(s, i, pieces, colon)
  {
    assert |s[i..]| == |s| - i;
    if IsCutFrom(s, i, pieces, colon) {
      PlacedInCut(s, i, pieces, colon);
    } else if EachBelongs(s, i, pieces, colon) {
      CutOfPlaced(s, i, pieces, colon);
    }
  }

  function Places(list: seq<Piece>): seq<nat> {
    seq(|list| + 1, k requires 0 <= k <= |list| => StartOf(list, 0, k))
  }

  lemma {:induction false} StartStep(list: seq<Piece>, at: nat, k: nat)
    requires k < |list|
    ensures StartOf(list, at, k + 1) == StartOf(list, at, k) + |list[k].text|
  {
    if k > 0 {
      StartStep(list[1..], at + |list[0].text|, k - 1);
    }
  }

  lemma {:induction false} StartEnd(list: seq<Piece>, at: nat)
    ensures StartOf(list, at, |list|) == at + |Texts(list)|
    decreases |list|
  {
    if list != [] {
      StartEnd(list[1..], at + |list[0].text|);
    }
  }

  lemma {:induction false} InText(list: seq<Piece>, at: nat, s: string, k: nat)
    requires at <= |s| && s[at..] == Texts(list) && k < |list|
    ensures At(s, StartOf(list, at, k), list[k].text)
    decreases k
  {
    TextBehind(s, at, list[0].text, Texts(list[1..]));
    if k > 0 {
      InText(list[1..], at + |list[0].text|, s, k - 1);
    }
  }

  lemma StandsHere(list: seq<Piece>, s: string, k: nat)
    requires s == Texts(list) && k < |list| && list[k].text != ""
    ensures Stands(s, StartOf(list, 0, k), list[k], StartOf(list, 0, k + 1))
  {
    assert s[0..] == s;
    InText(list, 0, s, k);
    StartStep(list, 0, k);
    StandsAtText(s, StartOf(list, 0, k), list[k]);
  }

  lemma LaidOut(list: seq<Piece>, s: string)
    requires s == Texts(list) && forall k :: 0 <= k < |list| ==> list[k].text != ""
    ensures Laid(list, Places(list), s)
  {
    StartEnd(list, 0);
    forall k | 0 <= k < |list| ensures Stands(s, StartOf(list, 0, k), list[k], StartOf(list, 0, k + 1)) {
      StandsHere(list, s, k);
    }
  }

  lemma ShapedHasText(p: Piece, colon: bool)
    requires Shaped(p, colon)
    ensures p.text != ""
  {
  }

  lemma EachFits(list: seq<Piece>, s: string, colon: bool)
    requires AllShaped(list, colon) && Laid(list, Places(list), s)
    ensures EachBelongs(s, 0, list, colon) <==>
      forall k :: 0 <= k < |list| ==> FitsIn(list, Places(list), s, k, colon)
  {
    var at := Places(list);
    forall k | 0 <= k < |list|
      ensures Belongs(s, StartOf(list, 0, k), list[k], colon) <==> FitsIn(list, at, s, k, colon)
    {
      assert Shaped(list[k], colon) && Stands(s, at[k], list[k], at[k + 1]);
      FitsExactly(s, at[k], list[k], colon);
    }
  }

  lemma NoneMisfit(list: seq<Piece>, at: seq<nat>, s: string, colon: bool)
    requires AllShaped(list, colon) && Laid(list, at, s)
    ensures NoClash(list, colon) <==> forall k :: 0 <= k < |list| ==> FitsIn(list, at, s, k, colon)
  {
    if !NoClash(list, colon) {
      var lo: nat, hi: nat :| ClashesIn(list, lo, hi, colon);
      var k := ClashMisfits(list, at, s, lo, hi, colon);
    } else {
      forall k | 0 <= k < |list| ensures FitsIn(list, at, s, k, colon) {
        if !FitsIn(list, at, s, k, colon) {
          var lo, hi := MisfitClashes(list, at, s, k, colon);
        }
      }
    }
  }

  /** Pieces put side by side are the cut of their text if and only if none of them clash. */
  lemma CutOfPieces(list: seq<Piece>, colon: bool)
    requires AllShaped(list, colon)
    ensures Pieces(Texts(list), colon) == list <==> NoClash(list, colon)
  {
    var s, at := Texts(list), Places(list);
    forall k | 0 <= k < |list| ensures list[k].text != "" {
      ShapedHasText(list[k], colon);
    }
    LaidOut(list, s);
    EachFits(list, s, colon);
    assert s[0..] == s;
    CutByPlace(s, 0, list, colon);
    CutExactly(s, 0, list, colon);
    NoneMisfit(list, at, s, colon);
  }
}
