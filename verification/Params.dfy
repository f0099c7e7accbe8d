/**
Query parameters (src/lib/params.ts): `:name` and `{{name}}` found in a script and replaced by
literals. The scan cuts the script into pieces; the hits are the pieces that are parameters.
*/
module Params {
  import opened Prelude
  import opened Text

  // ------------------------------------------------------------------ pieces of a script

  datatype Kind = Quote | LineComment | BlockComment | Dollar | Param | Plain

  /** `name` is the parameter's name; empty for every other kind. */
  datatype Piece = Piece(kind: Kind, text: string, name: string)

  datatype Hit = Hit(name: string, start: nat, end: nat)

  predicate IsIdentStart(c: char) { IsAsciiAlpha(c) || c == '_' }

  predicate IsName(s: string) {
    s != "" && IsIdentStart(s[0]) && forall k :: 0 <= k < |s| ==> IsWordChar(s[k])
  }

  /** How much the rest of a quoted text takes, closing quote included; `s` follows the opening quote. */
  function QuoteLength(s: string, q: char): (n: nat)
    ensures n <= |s|
    decreases |s|
  {
    if s == "" then 0
    else if s[0] == '\\' && q == '\'' then if |s| == 1 then 1 else 2 + QuoteLength(s[2..], q)
    else if s[0] == q then if |s| > 1 && s[1] == q then 2 + QuoteLength(s[2..], q) else 1
    else 1 + QuoteLength(s[1..], q)
  }

  predicate At(s: string, i: nat, text: string) {
    i + |text| <= |s| && s[i..i + |text|] == text
  }

  predicate Two(s: string, i: nat, a: char, b: char) {
    i + 1 < |s| && s[i] == a && s[i + 1] == b
  }

  /** JavaScript's `indexOf`. */
  function Find(s: string, text: string, from: nat): (r: Option<nat>)
    ensures r.Some? ==> from <= r.value && r.value + |text| <= |s|
    decreases |s| - from
  {
    if from > |s| then None else if At(s, from, text) then Some(from) else Find(s, text, from + 1)
  }

  lemma {:induction false} FindIsFirst(s: string, text: string, from: nat)
    ensures var r := Find(s, text, from);
      && (r.Some? ==> At(s, r.value, text))
      && forall k: nat :: from <= k && k < (if r.Some? then r.value else |s| + 1) ==> !At(s, k, text)
    decreases |s| - from
  {
    if from <= |s| && !At(s, from, text) {
      FindIsFirst(s, text, from + 1);
    }
  }

  /** Just past the next `text`, or the end. */
  function Past(s: string, text: string, from: nat): (r: nat)
    requires from <= |s| && text != ""
    ensures from <= r <= |s| && (from < |s| ==> from < r)
  {
    var at := Find(s, text, from);
    if at.None? then |s| else at.value + |text|
  }

  function NameEnd(s: string, i: nat): (r: nat)
    requires i <= |s|
    ensures i <= r <= |s|
    decreases |s| - i
  {
    if i < |s| && IsWordChar(s[i]) then NameEnd(s, i + 1) else i
  }

  function TagEnd(s: string, i: nat): (r: nat)
    requires i <= |s|
    ensures i <= r <= |s|
    decreases |s| - i
  {
    if i < |s| && IsIdentStart(s[i]) then TagEnd(s, i + 1) else i
  }

  lemma {:induction false} NameEndIs(s: string, i: nat)
    requires i <= |s|
    ensures forall k :: i <= k < NameEnd(s, i) ==> IsWordChar(s[k])
    ensures NameEnd(s, i) < |s| ==> !IsWordChar(s[NameEnd(s, i)])
    decreases |s| - i
  {
    if i < |s| && IsWordChar(s[i]) {
      NameEndIs(s, i + 1);
    }
  }

  lemma {:induction false} TagEndIs(s: string, i: nat)
    requires i <= |s|
    ensures forall k :: i <= k < TagEnd(s, i) ==> IsIdentStart(s[k])
    decreases |s| - i
  {
    if i < |s| && IsIdentStart(s[i]) {
      TagEndIs(s, i + 1);
    }
  }

  /** Where the dollar tag that opens at `i` ends, `$` included on both sides. */
  function TagAt(s: string, i: nat): (r: Option<nat>)
    requires i < |s|
    ensures r.Some? ==> i + 2 <= r.value <= |s|
  {
    if s[i] != '$' then None
    else
      var end := TagEnd(s, i + 1);
      if end < |s| && s[end] == '$' then Some(end + 1) else None
  }

  /** `{{name}}` at `i`: where the braces close. */
  function BracesAt(s: string, i: nat): (r: Option<nat>)
    ensures r.Some? ==> i + 2 <= r.value <= |s| - 2
  {
    if !Two(s, i, '{', '{') then None
    else
      match Find(s, "}}", i + 2)
      case None => None
      case Some(close) => if IsName(JsTrim(s[i + 2..close])) then Some(close) else None
  }

  /** What may stand before `:name`. */
  predicate OpenBefore(s: string, i: nat)
    requires i < |s|
  {
    i == 0 || (s[i - 1] != ':' && !IsWordChar(s[i - 1]) && s[i - 1] != ']' && s[i - 1] != ')')
  }

  /** `:name` at `i`: where it ends. */
  function ColonAt(s: string, i: nat): (r: Option<nat>)
    requires i < |s|
    ensures r.Some? ==> i < r.value <= |s|
  {
    if s[i] == ':' && i + 1 < |s| && IsIdentStart(s[i + 1]) && OpenBefore(s, i) then
      var end := NameEnd(s, i + 1);
      if end < |s| && s[end] == '=' then None else Some(end)
    else None
  }

  /** Where the body behind the dollar tag at `i` ends. */
  function DollarEnd(s: string, i: nat): (end: nat)
    requires i < |s| && TagAt(s, i).Some?
    ensures i < end <= |s|
  {
    Past(s, s[i..TagAt(s, i).value], TagAt(s, i).value)
  }

  /** The parameter at `i`. */
  function ParamAt(s: string, i: nat, colon: bool): (r: Option<Hit>)
    requires i < |s|
    ensures r.Some? ==> r.value.start == i < r.value.end <= |s|
  {
    if BracesAt(s, i).Some? then Some(Hit(JsTrim(s[i + 2..BracesAt(s, i).value]), i, BracesAt(s, i).value + 2))
    else if colon && ColonAt(s, i).Some? then Some(Hit(s[i + 1..ColonAt(s, i).value], i, ColonAt(s, i).value))
    else None
  }

  function KindAt(s: string, i: nat, colon: bool): Kind
    requires i < |s|
  {
    if IsQuote(s[i]) then Quote
    else if Two(s, i, '-', '-') then LineComment
    else if Two(s, i, '/', '*') then BlockComment
    else if TagAt(s, i).Some? then Dollar
    else if ParamAt(s, i, colon).Some? then Param
    else Plain
  }

  function EndAt(s: string, i: nat, colon: bool): (end: nat)
    requires i < |s|
    ensures i < end <= |s|
  {
    match KindAt(s, i, colon)
    case Quote => i + 1 + QuoteLength(s[i + 1..], s[i])
    case LineComment => Past(s, "\n", i)
    case BlockComment => Past(s, "*/", i + 2)
    case Dollar => DollarEnd(s, i)
    case Param => ParamAt(s, i, colon).value.end
    case Plain => i + 1
  }

  function PieceAt(s: string, i: nat, colon: bool): Piece
    requires i < |s|
  {
    var kind := KindAt(s, i, colon);
    Piece(kind, s[i..EndAt(s, i, colon)], if kind == Param then ParamAt(s, i, colon).value.name else "")
  }

  function PiecesFrom(s: string, i: nat, colon: bool): seq<Piece>
    requires i <= |s|
    decreases |s| - i
  {
    if i == |s| then []
    else
      [PieceAt(s, i, colon)] + PiecesFrom(s, EndAt(s, i, colon), colon)
  }

  function Pieces(s: string, colon: bool): seq<Piece> {
    PiecesFrom(s, 0, colon)
  }

  function Texts(pieces: seq<Piece>): string {
    if pieces == [] then "" else pieces[0].text + Texts(pieces[1..])
  }

  /** The parameters among the pieces, the first of which starts at `at`. */
  function HitsOf(pieces: seq<Piece>, at: nat): seq<Hit> {
    if pieces == [] then []
    else
      var p := pieces[0];
      (if p.kind == Param then [Hit(p.name, at, at + |p.text|)] else []) + HitsOf(pieces[1..], at + |p.text|)
  }

  function Hits(s: string, colon: bool): seq<Hit> {
    HitsOf(Pieces(s, colon), 0)
  }

  /** Hits are in bounds, in order, and do not overlap. */
  ghost predicate InOrder(hits: seq<Hit>, from: nat, end: nat)
    decreases |hits|
  {
    hits == [] || (from <= hits[0].start < hits[0].end <= end && InOrder(hits[1..], hits[0].end, end))
  }

  lemma InOrderEarlier(hits: seq<Hit>, from: nat, earlier: nat, end: nat)
    requires InOrder(hits, from, end) && earlier <= from
    ensures InOrder(hits, earlier, end)
  {
  }
}
