/**
What binding does to the rest of the script. A bound parameter becomes the pieces of its literal, cut by
itself, and the rest keeps its pieces, if and only if nothing clashes where a literal meets what stands
next to it.
*/
module ParamBound {
  import opened Prelude
  import opened Params
  import opened ParamCut
  import opened ParamFit
  import opened ParamSeams
  import opened ParamReplaced
  import opened ParamBinding

  predicate IsBound(p: Piece, values: Values) { p.kind == Param && p.name in values }

  /** A bound parameter becomes the pieces of its literal, cut by itself; every other piece stays. */
  function Replacement(values: Values, colon: bool): Becoming {
    (p: Piece) => if IsBound(p, values) then Pieces(ParamLiteral(values[p.name]), colon) else [p]
  }

  function Substituted(pieces: seq<Piece>, values: Values, colon: bool): seq<Piece> {
    Joined(pieces, Replacement(values, colon))
  }

  lemma ReplacementText(p: Piece, values: Values, colon: bool)
    ensures Texts(Replacement(values, colon)(p)) ==
      if IsBound(p, values) then ParamLiteral(values[p.name]) else p.text
  {
    if IsBound(p, values) {
      PiecesAndHits(ParamLiteral(values[p.name]), colon);
    } else {
      assert p.text + "" == p.text;
    }
  }

  lemma {:induction false} JoinedTexts(pieces: seq<Piece>, b: Becoming, values: Values)
    requires forall p :: Texts(b(p)) == if IsBound(p, values) then ParamLiteral(values[p.name]) else p.text
    ensures Texts(Joined(pieces, b)) == Bound(pieces, values)
  {
    if pieces != [] {
      JoinedTexts(pieces[1..], b, values);
      TextsConcat(b(pieces[0]), Joined(pieces[1..], b));
    }
  }

  lemma SubstitutedTexts(pieces: seq<Piece>, values: Values, colon: bool)
    ensures Texts(Substituted(pieces, values, colon)) == Bound(pieces, values)
  {
    forall p
      ensures Texts(Replacement(values, colon)(p)) ==
        if IsBound(p, values) then ParamLiteral(values[p.name]) else p.text
    {
      ReplacementText(p, values, colon);
    }
    JoinedTexts(pieces, Replacement(values, colon), values);
  }

  lemma PiecesShaped(s: string, colon: bool)
    ensures AllShaped(Pieces(s, colon), colon)
  {
    CutExactly(s, 0, Pieces(s, colon), colon);
    CutShaped(s, 0, Pieces(s, colon), colon);
  }

  /** A script's pieces do not clash. */
  lemma PiecesDoNotClash(s: string, colon: bool)
    ensures NoClash(Pieces(s, colon), colon)
  {
    PiecesShaped(s, colon);
    PiecesAndHits(s, colon);
    CutOfPieces(Pieces(s, colon), colon);
  }

  lemma {:induction false} JoinedShaped(pieces: seq<Piece>, b: Becoming, colon: bool)
    requires forall p :: p in pieces ==> AllShaped(b(p), colon)
    ensures AllShaped(Joined(pieces, b), colon)
  {
    if pieces != [] {
      assert pieces[0] in pieces && forall p :: p in pieces[1..] ==> p in pieces;
      JoinedShaped(pieces[1..], b, colon);
      ShapedConcat(b(pieces[0]), Joined(pieces[1..], b), colon);
    }
  }

  lemma OnePiece(p: Piece, colon: bool)
    requires Shaped(p, colon)
    ensures AllShaped([p], colon) && NoClash([p], colon)
  {
  }

  lemma ReplacementKept(p: Piece, values: Values, colon: bool)
    requires Shaped(p, colon)
    ensures AllShaped(Replacement(values, colon)(p), colon) && NoClash(Replacement(values, colon)(p), colon)
  {
    if IsBound(p, values) {
      PiecesShaped(ParamLiteral(values[p.name]), colon);
      PiecesDoNotClash(ParamLiteral(values[p.name]), colon);
    } else {
      OnePiece(p, colon);
    }
  }

  /** Nothing clashes at a border of a bound literal. */
  ghost predicate AllSeamless(pieces: seq<Piece>, values: Values, colon: bool) {
    forall k :: 0 <= k < |pieces| && IsBound(pieces[k], values) ==>
      SeamlessAt(pieces, k, Replacement(values, colon), colon)
  }

  lemma SeamsOfBound(pieces: seq<Piece>, values: Values, colon: bool)
    requires NoClash(pieces, colon) && AllShaped(pieces, colon)
    ensures NoClash(Substituted(pieces, values, colon), colon) <==> AllSeamless(pieces, values, colon)
    ensures AllShaped(Substituted(pieces, values, colon), colon)
  {
    var b := Replacement(values, colon);
    forall p | p in pieces ensures AllShaped(b(p), colon) && NoClash(b(p), colon) {
      ReplacementKept(p, values, colon);
    }
    JoinedShaped(pieces, b, colon);
    NoClashExactly(pieces, b, colon);
    if NoClash(Joined(pieces, b), colon) {
      forall k | 0 <= k < |pieces| && IsBound(pieces[k], values) ensures SeamlessAt(pieces, k, b, colon) {
        SeamlessIfNoClash(pieces, k, b, colon);
      }
    }
  }

  /**
  Binding leaves the cut of the rest of the script alone if and only if nothing clashes at a border of a
  bound literal. The pieces of the script and those of each literal are there before; what clashes is a
  matter of the kinds and the characters of pieces that come to stand next to each other.
  */
  lemma BindingKeepsCutExactly(sql: string, colon: bool, values: Values)
    ensures Pieces(BindParams(sql, colon, values), colon) == Substituted(Pieces(sql, colon), values, colon) <==>
      AllSeamless(Pieces(sql, colon), values, colon)
  {
    var pieces := Pieces(sql, colon);
    PiecesShaped(sql, colon);
    PiecesDoNotClash(sql, colon);
    SeamsOfBound(pieces, values, colon);
    SubstitutedTexts(pieces, values, colon);
    CutOfPieces(Substituted(pieces, values, colon), colon);
  }

  // ------------------------------------------------------------------ the parameters that are left

  /** No value that takes the place of a parameter holds one of its own. */
  ghost predicate Inert(hits: seq<Hit>, values: Values, colon: bool) {
    forall h :: h in hits && h.name in values ==> Hits(ParamLiteral(values[h.name]), colon) == []
  }

  function Lengths(values: Values): map<string, nat> {
    map name | name in values :: |ParamLiteral(values[name])|
  }

  /** The hit that is the k-th piece. */
  lemma {:induction false} HitOfPiece(pieces: seq<Piece>, at: nat, k: nat)
    requires k < |pieces| && pieces[k].kind == Param
    ensures Hit(pieces[k].name, StartOf(pieces, at, k), StartOf(pieces, at, k + 1)) in HitsOf(pieces, at)
    decreases k
  {
    var next := at + |pieces[0].text|;
    if k > 0 {
      HitOfPiece(pieces[1..], next, k - 1);
    } else {
      assert StartOf(pieces[1..], next, 0) == next;
    }
  }

  lemma InertReplaces(pieces: seq<Piece>, values: Values, colon: bool)
    requires Inert(HitsOf(pieces, 0), values, colon)
    ensures Replaces(pieces, Replacement(values, colon), Lengths(values))
  {
    var b, lengths := Replacement(values, colon), Lengths(values);
    forall p | p in pieces
      ensures if p.kind == Param && p.name in lengths then |Texts(b(p))| == lengths[p.name] && HitsOf(b(p), 0) == []
        else b(p) == [p]
    {
      if IsBound(p, values) {
        var k :| 0 <= k < |pieces| && pieces[k] == p;
        HitOfPiece(pieces, 0, k);
        ReplacementText(p, values, colon);
      }
    }
  }

  lemma HitsInOrder(sql: string, colon: bool)
    ensures InOrder(HitsOf(Pieces(sql, colon), 0), 0, |sql|)
  {
    PiecesAndHits(sql, colon);
  }

  lemma SubstitutedHits(pieces: seq<Piece>, values: Values, colon: bool, end: nat)
    requires Inert(HitsOf(pieces, 0), values, colon) && InOrder(HitsOf(pieces, 0), 0, end)
    ensures HitsOf(Substituted(pieces, values, colon), 0) ==
      Remaining(HitsOf(pieces, 0), Lengths(values), 0, 0, end)
  {
    InertReplaces(pieces, values, colon);
    HitsRemain(pieces, 0, Replacement(values, colon), Lengths(values), 0, 0, end);
  }

  /**
  Where no seam clashes, the parameters of the bound script are those that were not bound, each moved by
  what the literals before it are longer or shorter than the parameters they replace.
  */
  lemma UnboundHitsStay(sql: string, colon: bool, values: Values)
    requires Inert(Hits(sql, colon), values, colon) && AllSeamless(Pieces(sql, colon), values, colon)
    ensures InOrder(Hits(sql, colon), 0, |sql|)
    ensures Hits(BindParams(sql, colon, values), colon) == Remaining(Hits(sql, colon), Lengths(values), 0, 0, |sql|)
  {
    BindingKeepsCutExactly(sql, colon, values);
    HitsInOrder(sql, colon);
    SubstitutedHits(Pieces(sql, colon), values, colon, |sql|);
  }
}
