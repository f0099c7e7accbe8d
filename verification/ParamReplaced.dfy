/**
Pieces some of which are replaced by others. What comes to clash then lies at a border of what is new.
*/
module ParamReplaced {
  import opened Prelude
  import opened Params
  import opened ParamCut
  import opened ParamFit
  import opened ParamSeams

  /** What pieces become. */
  type Becoming = Piece -> seq<Piece>

  function Joined(pieces: seq<Piece>, b: Becoming): seq<Piece> {
    if pieces == [] then [] else b(pieces[0]) + Joined(pieces[1..], b)
  }

  lemma {:induction false} TextsConcat(a: seq<Piece>, b: seq<Piece>)
    ensures Texts(a + b) == Texts(a) + Texts(b)
  {
    if a == [] {
      assert a + b == b;
    } else {
      assert (a + b)[0] == a[0] && (a + b)[1..] == a[1..] + b;
      TextsConcat(a[1..], b);
    }
  }

  lemma Regroup<T>(a: seq<T>, b: seq<T>, c: seq<T>, d: seq<T>)
    ensures a + (b + c + d) == a + b + c + d
  {
  }

  lemma JoinedFront(pieces: seq<Piece>, k: nat, b: Becoming)
    requires 0 < k <= |pieces|
    ensures Joined(pieces[..k], b) == b(pieces[0]) + Joined(pieces[1..][..k - 1], b)
  {
    assert pieces[..k][1..] == pieces[1..][..k - 1];
  }

  /** The pieces around those that the k-th one becomes. */
  lemma {:induction false} JoinedAround(pieces: seq<Piece>, k: nat, b: Becoming)
    requires k < |pieces|
    ensures Joined(pieces, b) == Joined(pieces[..k], b) + b(pieces[k]) + Joined(pieces[k + 1..], b)
    decreases k
  {
    if k == 0 {
      assert pieces[..0] == [] && [] + b(pieces[0]) == b(pieces[0]);
    } else {
      JoinedAround(pieces[1..], k - 1, b);
      JoinedFront(pieces, k, b);
      assert pieces[1..][k - 1 + 1..] == pieces[k + 1..];
      Regroup(b(pieces[0]), Joined(pieces[1..][..k - 1], b), b(pieces[k]), Joined(pieces[k + 1..], b));
    }
  }

  lemma ShapedConcat(a: seq<Piece>, b: seq<Piece>, colon: bool)
    requires AllShaped(a, colon) && AllShaped(b, colon)
    ensures AllShaped(a + b, colon)
  {
  }

  // ------------------------------------------------------------------ seams

  /**
  Pieces in a row, some of them new ones that stand from `from` to `to` among `n`, and some not: a border
  lies between them. Where nothing has come in it may also be the start or the end of the list that
  they have come to stand at.
  */
  predicate AtSeam(lo: nat, hi: nat, from: nat, to: nat, n: nat) {
    || lo < from < hi
    || lo < to < hi
    || (from == to && (lo == from == 0 || hi == to == n))
  }

  /** Nothing clashes where the new pieces meet what stands before and behind them. */
  ghost predicate Seamless(before: seq<Piece>, added: seq<Piece>, after: seq<Piece>, colon: bool) {
    var list := before + added + after;
    forall lo: nat, hi: nat ::
      AtSeam(lo, hi, |before|, |before| + |added|, |list|) ==> !ClashesIn(list, lo, hi, colon)
  }

  ghost predicate SeamlessAt(pieces: seq<Piece>, k: nat, b: Becoming, colon: bool)
    requires k < |pieces|
  {
    Seamless(Joined(pieces[..k], b), b(pieces[k]), Joined(pieces[k + 1..], b), colon)
  }

  /** Where what the k-th one becomes begins. */
  function From(pieces: seq<Piece>, k: nat, b: Becoming): nat
    requires k <= |pieces|
  {
    |Joined(pieces[..k], b)|
  }

  lemma FromStep(pieces: seq<Piece>, k: nat, b: Becoming)
    requires k < |pieces|
    ensures From(pieces, k + 1, b) == |b(pieces[0])| + From(pieces[1..], k, b)
    ensures From(pieces, 0, b) == 0
  {
    JoinedFront(pieces, k + 1, b);
    assert pieces[..0] == [];
  }

  predicate IsReplaced(p: Piece, b: Becoming) { b(p) != [p] }

  // ------------------------------------------------------------------ what does not meet new pieces is as it was

  /** From `lo` to `hi` the list is what the pieces are from `k` on. */
  ghost predicate SameRow(list: seq<Piece>, lo: nat, hi: nat, pieces: seq<Piece>, k: nat) {
    && lo <= hi <= |list| && k + (hi - lo) <= |pieces|
    && forall j {:trigger list[j]} :: lo <= j < hi ==> list[j] == pieces[k + (j - lo)]
  }

  lemma SameSlice(list: seq<Piece>, lo: nat, hi: nat, pieces: seq<Piece>, k: nat)
    requires SameRow(list, lo, hi, pieces, k)
    ensures list[lo..hi] == pieces[k..k + (hi - lo)]
  {
    forall j | 0 <= j < hi - lo ensures list[lo..hi][j] == pieces[k..k + (hi - lo)][j] {
      assert list[lo + j] == pieces[k + (lo + j - lo)];
    }
  }

  /** The pieces were in this row from `k` on; what starts or ends the list did so before. */
  ghost predicate Untouched(pieces: seq<Piece>, list: seq<Piece>, k: nat, lo: nat, hi: nat, start: bool) {
    && SameRow(list, lo, hi, pieces, k)
    && (start && lo == 0 ==> k == 0) && (hi == |list| ==> k + (hi - lo) == |pieces|)
  }

  /** They meet what the k-th one has become, or are part of it; `start`: the list is all there is before. */
  ghost predicate Meets(pieces: seq<Piece>, k: nat, lo: nat, hi: nat, b: Becoming, start: bool) {
    && k < |pieces| && IsReplaced(pieces[k], b)
    && var from := From(pieces, k, b);
    var to, n := from + |b(pieces[k])|, |Joined(pieces, b)|;
    || lo < from < hi || lo < to < hi || from <= lo <= hi <= to
    || (from == to && ((start && lo == from == 0) || hi == to == n))
  }

  /** New pieces that begin before `hi`, or none at the end, meet a row that began further before. */
  ghost predicate Reaches(pieces: seq<Piece>, k: nat, hi: nat, b: Becoming) {
    && k < |pieces| && IsReplaced(pieces[k], b)
    && var from := From(pieces, k, b);
    from < hi || (hi == from == |Joined(pieces, b)| && b(pieces[k]) == [])
  }

  lemma FrontKept(p: Piece, list: seq<Piece>, pieces: seq<Piece>, hi: nat)
    requires 0 < hi && SameRow(list, 0, hi - 1, pieces, 0)
    ensures SameRow([p] + list, 0, hi, [p] + pieces, 0)
  {
    forall j | 0 <= j < hi ensures ([p] + list)[j] == ([p] + pieces)[j] {
      if j > 0 {
        assert list[j - 1] == pieces[j - 1];
      }
    }
  }

  lemma {:induction false} FollowOn(pieces: seq<Piece>, hi: nat, b: Becoming) returns (k: nat)
    requires hi <= |Joined(pieces, b)|
    ensures Reaches(pieces, k, hi, b)
      || (SameRow(Joined(pieces, b), 0, hi, pieces, 0) && (hi == |Joined(pieces, b)| ==> hi == |pieces|))
    decreases |pieces|
  {
    k := 0;
    if pieces != [] {
      FromStep(pieces, 0, b);
      if !IsReplaced(pieces[0], b) && hi > 0 {
        k := FollowOn(pieces[1..], hi - 1, b);
        if Reaches(pieces[1..], k, hi - 1, b) {
          FromStep(pieces, k, b);
          k := k + 1;
        } else {
          FrontKept(pieces[0], Joined(pieces[1..], b), pieces[1..], hi);
          assert [pieces[0]] + pieces[1..] == pieces;
        }
      }
    }
  }

  lemma LocateHere(pieces: seq<Piece>, hi: nat, b: Becoming, start: bool) returns (k: nat)
    requires pieces != [] && !IsReplaced(pieces[0], b) && 0 < hi <= |Joined(pieces, b)|
    ensures Meets(pieces, k, 0, hi, b, start) || Untouched(pieces, Joined(pieces, b), k, 0, hi, start)
  {
    k := FollowOn(pieces, hi, b);
    if Reaches(pieces, k, hi, b) {
      if k > 0 {
        FromStep(pieces, k - 1, b);
      }
    } else {
      k := 0;
    }
  }

  lemma UntouchedMore(
    pieces: seq<Piece>, here: seq<Piece>, rest: seq<Piece>, k: nat, lo: nat, hi: nat, start: bool)
    requires pieces != [] && |here| <= lo < hi && (start ==> lo > 0)
    requires Untouched(pieces[1..], rest, k, lo - |here|, hi - |here|, false)
    ensures Untouched(pieces, here + rest, k + 1, lo, hi, start)
  {
    forall j | lo <= j < hi ensures (here + rest)[j] == pieces[k + 1 + (j - lo)] {
      assert rest[j - |here|] == pieces[1..][k + (j - lo)];
    }
  }

  lemma LocatedBehind(pieces: seq<Piece>, k: nat, lo: nat, hi: nat, b: Becoming, start: bool)
    requires pieces != [] && |b(pieces[0])| <= lo < hi && !(IsReplaced(pieces[0], b) && start && lo == 0)
    requires var h := |b(pieces[0])|;
      || Meets(pieces[1..], k, lo - h, hi - h, b, false)
      || Untouched(pieces[1..], Joined(pieces[1..], b), k, lo - h, hi - h, false)
    ensures Meets(pieces, k + 1, lo, hi, b, start) || Untouched(pieces, Joined(pieces, b), k + 1, lo, hi, start)
  {
    if Meets(pieces[1..], k, lo - |b(pieces[0])|, hi - |b(pieces[0])|, b, false) {
      FromStep(pieces, k, b);
    } else {
      UntouchedMore(pieces, b(pieces[0]), Joined(pieces[1..], b), k, lo, hi, start);
    }
  }

  lemma {:induction false} LocateBehind(pieces: seq<Piece>, lo: nat, hi: nat, b: Becoming, start: bool) returns (k: nat)
    requires pieces != [] && |b(pieces[0])| <= lo < hi <= |Joined(pieces, b)|
    requires !(IsReplaced(pieces[0], b) && start && lo == 0)
    ensures Meets(pieces, k, lo, hi, b, start) || Untouched(pieces, Joined(pieces, b), k, lo, hi, start)
    decreases |pieces|, 0
  {
    var h := |b(pieces[0])|;
    k := Locate(pieces[1..], lo - h, hi - h, b, false);
    LocatedBehind(pieces, k, lo, hi, b, start);
    k := k + 1;
  }

  lemma {:induction false} Locate(pieces: seq<Piece>, lo: nat, hi: nat, b: Becoming, start: bool) returns (k: nat)
    requires lo < hi <= |Joined(pieces, b)|
    ensures Meets(pieces, k, lo, hi, b, start) || Untouched(pieces, Joined(pieces, b), k, lo, hi, start)
    decreases |pieces|, 1
  {
    var h := |b(pieces[0])|;
    FromStep(pieces, 0, b);
    k := 0;
    if lo >= h && !(IsReplaced(pieces[0], b) && start && lo == h == 0) {
      k := LocateBehind(pieces, lo, hi, b, start);
    } else if !IsReplaced(pieces[0], b) {
      k := LocateHere(pieces, hi, b, start);
    }
  }

  // ------------------------------------------------------------------ nothing else can go wrong

  /** What stands at the start, or at the end, can only do more harm. */
  lemma ClashesMore(w: seq<Piece>, first: bool, last: bool, first': bool, last': bool, colon: bool)
    requires Clashes(w, first, last, colon) && (first ==> first') && (last ==> last')
    ensures Clashes(w, first', last', colon)
  {
  }

  /** Pieces that were in this row before and clash now did so then. */
  lemma UntouchedClash(pieces: seq<Piece>, list: seq<Piece>, k: nat, lo: nat, hi: nat, colon: bool)
    requires Untouched(pieces, list, k, lo, hi, true) && ClashesIn(list, lo, hi, colon)
    ensures ClashesIn(pieces, k, k + (hi - lo), colon)
  {
    SameSlice(list, lo, hi, pieces, k);
    ClashesMore(list[lo..hi], lo == 0, hi == |list|, k == 0, k + (hi - lo) == |pieces|, colon);
  }

  /** Pieces that clash meet new ones, or are part of what one piece has become. */
  lemma ClashMeetsNew(pieces: seq<Piece>, lo: nat, hi: nat, b: Becoming, colon: bool) returns (k: nat)
    requires NoClash(pieces, colon) && ClashesIn(Joined(pieces, b), lo, hi, colon)
    ensures Meets(pieces, k, lo, hi, b, true)
  {
    k := Locate(pieces, lo, hi, b, true);
    if Untouched(pieces, Joined(pieces, b), k, lo, hi, true) {
      UntouchedClash(pieces, Joined(pieces, b), k, lo, hi, colon);
    }
  }

  lemma MiddleSlice<T>(a: seq<T>, m: seq<T>, z: seq<T>, lo: nat, hi: nat)
    requires |a| <= lo <= hi <= |a| + |m|
    ensures (a + m + z)[lo..hi] == m[lo - |a|..hi - |a|]
  {
    forall k | 0 <= k < hi - lo ensures (a + m + z)[lo..hi][k] == m[lo - |a|..hi - |a|][k] {
    }
  }

  lemma WithinClashes(before: seq<Piece>, added: seq<Piece>, after: seq<Piece>, lo: nat, hi: nat, colon: bool)
    requires |before| <= lo <= hi <= |before| + |added| && ClashesIn(before + added + after, lo, hi, colon)
    ensures ClashesIn(added, lo - |before|, hi - |before|, colon)
  {
    var list, from := before + added + after, |before|;
    MiddleSlice(before, added, after, lo, hi);
    ClashesMore(list[lo..hi], lo == 0, hi == |list|, lo - from == 0, hi - from == |added|, colon);
  }

  /** Within the new pieces nothing clashes that does not clash among them alone. */
  lemma WithinNew(before: seq<Piece>, added: seq<Piece>, after: seq<Piece>, lo: nat, hi: nat, colon: bool)
    requires NoClash(added, colon) && |before| <= lo <= hi <= |before| + |added|
    ensures !ClashesIn(before + added + after, lo, hi, colon)
  {
    if ClashesIn(before + added + after, lo, hi, colon) {
      WithinClashes(before, added, after, lo, hi, colon);
    }
  }

  lemma NoClashAt(pieces: seq<Piece>, k: nat, lo: nat, hi: nat, b: Becoming, colon: bool)
    requires Meets(pieces, k, lo, hi, b, true) && SeamlessAt(pieces, k, b, colon) && NoClash(b(pieces[k]), colon)
    ensures !ClashesIn(Joined(pieces, b), lo, hi, colon)
  {
    JoinedAround(pieces, k, b);
    var before, added, after := Joined(pieces[..k], b), b(pieces[k]), Joined(pieces[k + 1..], b);
    if |before| <= lo <= hi <= |before| + |added| {
      WithinNew(before, added, after, lo, hi, colon);
    }
  }

  lemma SeamlessIfNoClash(pieces: seq<Piece>, k: nat, b: Becoming, colon: bool)
    requires k < |pieces| && NoClash(Joined(pieces, b), colon)
    ensures SeamlessAt(pieces, k, b, colon)
  {
    JoinedAround(pieces, k, b);
  }

  /** What the pieces become does not clash if and only if nothing clashes at the seams. */
  lemma NoClashExactly(pieces: seq<Piece>, b: Becoming, colon: bool)
    requires NoClash(pieces, colon) && forall p :: p in pieces ==> NoClash(b(p), colon)
    ensures NoClash(Joined(pieces, b), colon) <==>
      forall k :: 0 <= k < |pieces| && IsReplaced(pieces[k], b) ==> SeamlessAt(pieces, k, b, colon)
  {
    if NoClash(Joined(pieces, b), colon) {
      forall k | 0 <= k < |pieces| ensures SeamlessAt(pieces, k, b, colon) {
        SeamlessIfNoClash(pieces, k, b, colon);
      }
    } else {
      var lo: nat, hi: nat :| ClashesIn(Joined(pieces, b), lo, hi, colon);
      var k := ClashMeetsNew(pieces, lo, hi, b, colon);
      if SeamlessAt(pieces, k, b, colon) {
        NoClashAt(pieces, k, lo, hi, b, colon);
      }
    }
  }

  // ------------------------------------------------------------------ the parameters that are left

  lemma OneThenConcat(p: Piece, a: seq<Piece>, b: seq<Piece>, at: nat)
    requires var next := at + |p.text|; HitsOf(a + b, next) == HitsOf(a, next) + HitsOf(b, next + |Texts(a)|)
    ensures HitsOf([p] + (a + b), at) == HitsOf([p] + a, at) + HitsOf(b, at + |Texts([p] + a)|)
  {
    var next := at + |p.text|;
    HitsOfCons(p, a + b, at);
    HitsOfCons(p, a, at);
    TextsConcat([p], a);
    assert Texts([p]) == p.text + "";
    AppendAssoc(if p.kind == Param then [Hit(p.name, at, next)] else [], HitsOf(a, next), HitsOf(b, next + |Texts(a)|));
  }

  lemma {:induction false} HitsOfConcat(a: seq<Piece>, b: seq<Piece>, at: nat)
    ensures HitsOf(a + b, at) == HitsOf(a, at) + HitsOf(b, at + |Texts(a)|)
    decreases |a|
  {
    if a == [] {
      assert a + b == b;
    } else {
      HitsOfConcat(a[1..], b, at + |a[0].text|);
      OneThenConcat(a[0], a[1..], b, at);
      assert a == [a[0]] + a[1..] && a + b == [a[0]] + (a[1..] + b);
    }
  }

  lemma {:induction false} NoHitAnywhere(pieces: seq<Piece>, at: nat, there: nat)
    requires HitsOf(pieces, at) == []
    ensures HitsOf(pieces, there) == []
    decreases |pieces|
  {
    if pieces != [] {
      NoHitAnywhere(pieces[1..], at + |pieces[0].text|, there + |pieces[0].text|);
    }
  }

  /**
  The hits that are not replaced, moved by what has changed before them: what was there up to `from` is
  now `to` characters. `lengths` are those of what the others have become.
  */
  function Remaining(hits: seq<Hit>, lengths: map<string, nat>, from: nat, to: nat, end: nat): seq<Hit>
    requires InOrder(hits, from, end)
    decreases |hits|
  {
    if hits == [] then []
    else
      var hit := hits[0];
      var start := to + (hit.start - from);
      if hit.name in lengths then Remaining(hits[1..], lengths, hit.end, start + lengths[hit.name], end)
      else
        var now := start + (hit.end - hit.start);
        [Hit(hit.name, start, now)] + Remaining(hits[1..], lengths, hit.end, now, end)
  }

  /** These names become pieces of these lengths without a parameter, and nothing else changes. */
  ghost predicate Replaces(pieces: seq<Piece>, b: Becoming, lengths: map<string, nat>) {
    forall p :: p in pieces ==>
      if p.kind == Param && p.name in lengths then |Texts(b(p))| == lengths[p.name] && HitsOf(b(p), 0) == []
      else b(p) == [p]
  }

  lemma ReplacesRest(pieces: seq<Piece>, b: Becoming, lengths: map<string, nat>)
    requires pieces != [] && Replaces(pieces, b, lengths)
    ensures Replaces([pieces[0]], b, lengths) && Replaces(pieces[1..], b, lengths)
    ensures pieces[0].kind != Param ==> b(pieces[0]) == [pieces[0]]
  {
    assert pieces[0] in pieces && forall p :: p in pieces[1..] ==> p in pieces;
  }

  /** New pieces, before the rest, add no hit. */
  lemma NewHasNoHit(p: Piece, left: seq<Piece>, now: nat, b: Becoming)
    requires HitsOf(b(p), 0) == []
    ensures HitsOf(b(p) + left, now) == HitsOf(left, now + |Texts(b(p))|)
  {
    HitsOfConcat(b(p), left, now);
    NoHitAnywhere(b(p), 0, now);
    NothingBefore(HitsOf(left, now + |Texts(b(p))|));
  }

  lemma NoHitHere(p: Piece, left: seq<Piece>, now: nat)
    requires p.kind != Param
    ensures HitsOf([p] + left, now) == HitsOf(left, now + |p.text|)
  {
    HitsOfCons(p, left, now);
    NothingBefore(HitsOf(left, now + |p.text|));
  }

  /** What a parameter adds to the hits of what stands behind it. */
  lemma HitBecomes(p: Piece, left: seq<Piece>, now: nat, next: nat, b: Becoming, lengths: map<string, nat>)
    requires Replaces([p], b, lengths) && p.kind == Param
    requires next == now + if p.name in lengths then lengths[p.name] else |p.text|
    ensures HitsOf(b(p) + left, now) ==
      (if p.name in lengths then [] else [Hit(p.name, now, next)]) + HitsOf(left, next)
  {
    assert p in [p];
    if p.name in lengths {
      NewHasNoHit(p, left, now, b);
      NothingBefore(HitsOf(left, now + lengths[p.name]));
    } else {
      HitsOfCons(p, left, now);
    }
  }

  lemma RemainingStep(
    hit: Hit, hits: seq<Hit>, lengths: map<string, nat>, from: nat, to: nat, end: nat, now: nat, next: nat)
    requires InOrder([hit] + hits, from, end) && now == to + (hit.start - from)
    requires next == now + if hit.name in lengths then lengths[hit.name] else hit.end - hit.start
    ensures InOrder(hits, hit.end, end)
    ensures Remaining([hit] + hits, lengths, from, to, end) ==
      (if hit.name in lengths then [] else [Hit(hit.name, now, next)]) + Remaining(hits, lengths, hit.end, next, end)
  {
    assert ([hit] + hits)[1..] == hits;
    NothingBefore(Remaining(hits, lengths, hit.end, next, end));
  }

  lemma {:induction false} HitRemains(
    p: Piece, rest: seq<Piece>, at: nat, b: Becoming, lengths: map<string, nat>, from: nat, to: nat, end: nat)
    requires Replaces([p], b, lengths) && Replaces(rest, b, lengths) && from <= at && p.kind == Param
    requires InOrder([Hit(p.name, at, at + |p.text|)] + HitsOf(rest, at + |p.text|), from, end)
    ensures HitsOf(b(p) + Joined(rest, b), to + (at - from)) ==
      Remaining([Hit(p.name, at, at + |p.text|)] + HitsOf(rest, at + |p.text|), lengths, from, to, end)
    decreases |rest|, 1
  {
    var hit, now := Hit(p.name, at, at + |p.text|), to + (at - from);
    var next := now + if p.name in lengths then lengths[p.name] else |p.text|;
    RemainingStep(hit, HitsOf(rest, hit.end), lengths, from, to, end, now, next);
    HitsRemain(rest, hit.end, b, lengths, hit.end, next, end);
    HitBecomes(p, Joined(rest, b), now, next, b, lengths);
  }

  lemma {:induction false} HitsRemain(
    pieces: seq<Piece>, at: nat, b: Becoming, lengths: map<string, nat>, from: nat, to: nat, end: nat)
    requires Replaces(pieces, b, lengths) && from <= at && InOrder(HitsOf(pieces, at), from, end)
    ensures HitsOf(Joined(pieces, b), to + (at - from)) == Remaining(HitsOf(pieces, at), lengths, from, to, end)
    decreases |pieces|, 0
  {
    if pieces != [] {
      var p, rest, now := pieces[0], pieces[1..], to + (at - from);
      var next := at + |p.text|;
      ReplacesRest(pieces, b, lengths);
      if p.kind == Param {
        HitRemains(p, rest, at, b, lengths, from, to, end);
      } else {
        NothingBefore(HitsOf(rest, next));
        HitsRemain(rest, next, b, lengths, from, to, end);
        NoHitHere(p, Joined(rest, b), now);
      }
    }
  }
}
