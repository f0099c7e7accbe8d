/**
Statements labelled by intent, and the spans the editor runs them by
(`classify`, `split_statements` and `spans` of src-tauri/src/guard/destructive.rs).
*/
module SqlSpans {
  import opened Prelude
  import opened Text
  import opened SqlLexer
  import SqlScan
  import SqlWords

  datatype Kind = Read | Write | Destructive

  datatype Reason = DropRemoves | TruncateRemoves | DeletesEveryRow | RewritesEveryRow | AlterDrops

  datatype Statement = Statement(text: string, kind: Kind, reason: Option<Reason>)

  datatype Span = Span(start: nat, end: nat, intent: Kind)

  const READ_LEADERS: seq<string> := [
    "SELECT", "EXPLAIN", "SHOW", "VALUES", "TABLE", "DESCRIBE", "DESC", "BEGIN", "START", "COMMIT",
    "END", "ROLLBACK", "SAVEPOINT", "RELEASE", "SET", "RESET", "DISCARD", "LISTEN", "UNLISTEN"]
  const DML_WRITERS: seq<string> := ["INSERT", "UPDATE", "DELETE", "MERGE", "REPLACE", "UPSERT"]

  function ClassifyWords(words: seq<string>): (Kind, Option<Reason>) {
    if words == [] then (Read, None)
    else
      var first := words[0];
      if first == "DROP" then (Destructive, Some(DropRemoves))
      else if first == "TRUNCATE" then (Destructive, Some(TruncateRemoves))
      else if first == "DELETE" && "WHERE" !in words then (Destructive, Some(DeletesEveryRow))
      else if first == "UPDATE" && "WHERE" !in words then (Destructive, Some(RewritesEveryRow))
      else if first == "ALTER" && "DROP" in words then (Destructive, Some(AlterDrops))
      else if first == "WITH"
        then (if exists k :: 0 <= k < |DML_WRITERS| && DML_WRITERS[k] in words then Write else Read, None)
      else if first == "PRAGMA" then (if |words| > 2 then Write else Read, None)
      else if first in READ_LEADERS then (Read, None)
      else (Write, None)
  }

  function Label(alnum: Alnum, text: string): Statement {
    var (kind, reason) := ClassifyWords(SqlWords.Words(alnum, text));
    Statement(Trim(text), kind, reason)
  }

  function Texts(s: string, ranges: seq<Range>): seq<string>
    requires forall k :: 0 <= k < |ranges| ==> ranges[k].0 <= ranges[k].1 <= |s|
  {
    seq(|ranges|, k requires 0 <= k < |ranges| => s[ranges[k].0..ranges[k].1])
  }

  lemma LexInBounds(alnum: Alnum, s: string)
    ensures forall k :: 0 <= k < |Lex(alnum, s)| ==> Lex(alnum, s)[k].0 <= Lex(alnum, s)[k].1 <= |s|
  {
    LexLossless(alnum, s);
  }

  function SplitStatements(alnum: Alnum, s: string): seq<string> {
    LexInBounds(alnum, s);
    Texts(s, Lex(alnum, s))
  }

  /** The labels of the texts that hold something. */
  function Labels(alnum: Alnum, texts: seq<string>): seq<Statement> {
    if texts == [] then []
    else (if Trim(texts[0]) == [] then [] else [Label(alnum, texts[0])]) + Labels(alnum, texts[1..])
  }

  function Classify(alnum: Alnum, s: string): seq<Statement> {
    Labels(alnum, SplitStatements(alnum, s))
  }

  // ------------------------------------------------------------------ spans

  /** The range without the white space around it. */
  function Bounds(s: string, r: Range): (b: Range)
    requires r.0 <= r.1 <= |s|
    ensures r.0 <= b.0 <= b.1 <= r.1
  {
    var from := SkipLeft(s, r.0, r.1);
    (from, SkipRight(s, from, r.1))
  }

  /** The trimmed ranges of the statements that hold something. */
  function Pieces(s: string, ranges: seq<Range>): (p: seq<Range>)
    requires forall k :: 0 <= k < |ranges| ==> ranges[k].0 <= ranges[k].1 <= |s|
    ensures forall k :: 0 <= k < |p| ==> p[k].0 < p[k].1 <= |s|
  {
    if ranges == [] then []
    else
      var b := Bounds(s, ranges[0]);
      (if b.0 == b.1 then [] else [b]) + Pieces(s, ranges[1..])
  }

  function PiecesOf(alnum: Alnum, s: string): (p: seq<Range>)
    ensures forall k :: 0 <= k < |p| ==> p[k].0 < p[k].1 <= |s|
  {
    LexInBounds(alnum, s);
    Pieces(s, Lex(alnum, s))
  }

  /** What running this piece of the script would do. */
  function IntentAt(alnum: Alnum, s: string, p: Range): Kind
    requires p.0 < p.1 <= |s|
  {
    if SqlScan.StartsShellCommand(s, p.0) then Read
    else ClassifyWords(SqlWords.Words(alnum, s[p.0..p.1])).0
  }

  // ------------------------------------------------------------------ UTF-16

  /** A character's code units (section 2.1 of RFC 2781). */
  function EncodeChar(c: char): (u: seq<nat>)
    ensures |u| == if c as int >= 0x10000 then 2 else 1
    ensures forall k :: 0 <= k < |u| ==> u[k] < 0x10000
  {
    var n := c as int;
    if n < 0x10000 then [n] else [0xD800 + (n - 0x10000) / 0x400, 0xDC00 + (n - 0x10000) % 0x400]
  }

  function Encode(s: string): seq<nat> {
    if s == [] then [] else Encode(s[..|s| - 1]) + EncodeChar(s[|s| - 1])
  }

  lemma {:induction false} EncodeConcat(a: string, b: string)
    ensures Encode(a + b) == Encode(a) + Encode(b)
  {
    if b == [] {
      assert a + b == a;
    } else {
      assert (a + b)[..|a + b| - 1] == a + b[..|b| - 1];
      EncodeConcat(a, b[..|b| - 1]);
    }
  }

  /** The UTF-16 offset of a character position, exactly. */
  function Offset(s: string, i: nat): nat
    requires i <= |s|
  {
    |Encode(s[..i])|
  }

  function Saturated(n: nat): nat { if n > U32_MAX then U32_MAX else n }

  lemma OffsetStep(s: string, i: nat)
    requires i < |s|
    ensures Offset(s, i + 1) == Offset(s, i) + (if s[i] as int >= 0x10000 then 2 else 1)
  {
    assert s[..i + 1][..i] == s[..i];
  }

  lemma OffsetSlice(s: string, i: nat, j: nat)
    requires i <= j <= |s|
    ensures Offset(s, j) <= |Encode(s)|
    ensures Offset(s, j) == Offset(s, i) + |Encode(s[i..j])|
    ensures Encode(s)[Offset(s, i)..Offset(s, j)] == Encode(s[i..j])
  {
    assert s == s[..i] + s[i..j] + s[j..] && s[..j] == s[..i] + s[i..j];
    EncodeConcat(s[..i] + s[i..j], s[j..]);
    EncodeConcat(s[..i], s[i..j]);
  }

  function SpanOf(alnum: Alnum, s: string, p: Range): Span
    requires p.0 < p.1 <= |s|
  {
    Span(Saturated(Offset(s, p.0)), Saturated(Offset(s, p.1)), IntentAt(alnum, s, p))
  }

  function Spans(alnum: Alnum, s: string): (r: seq<Span>)
    ensures |r| == |PiecesOf(alnum, s)|
    ensures forall k :: 0 <= k < |r| ==> r[k] == SpanOf(alnum, s, PiecesOf(alnum, s)[k])
  {
    var p := PiecesOf(alnum, s);
    seq(|p|, k requires 0 <= k < |p| => SpanOf(alnum, s, p[k]))
  }

  lemma EncodeGrows(s: string)
    ensures |Encode(s)| >= |s|
  {
  }

  /**
  A span's offsets cut the statement out of the script's UTF-16 text exactly when the
  statement's true end fits in 32 bits; past that they are clamped and cut something else.
  */
  lemma SpanIsExact(alnum: Alnum, s: string, p: Range)
    requires p.0 < p.1 <= |s|
    ensures var x := SpanOf(alnum, s, p);
      && x.start <= x.end <= |Encode(s)|
      && (Encode(s)[x.start..x.end] == Encode(s[p.0..p.1]) <==> Offset(s, p.1) <= U32_MAX)
  {
    OffsetSlice(s, p.0, p.1);
    EncodeGrows(s[p.0..p.1]);
  }

  // ------------------------------------------------------------------ pieces in order

  lemma {:induction false} PiecesOrdered(alnum: Alnum, s: string, ranges: seq<Range>)
    requires RangesOrdered(s, ranges)
    ensures var p := Pieces(s, ranges);
      && (forall k :: 0 <= k < |p| - 1 ==> p[k].1 <= p[k + 1].0)
      && (p != [] ==> ranges[0].0 <= p[0].0)
  {
    if ranges != [] {
      var rest := ranges[1..];
      assert RangesOrdered(s, rest) by {
        forall k | 0 <= k < |rest| ensures rest[k] == ranges[k + 1] {
        }
      }
      PiecesOrdered(alnum, s, rest);
      if rest != [] {
        assert ranges[0].1 <= ranges[1].0;
      }
    }
  }

  ghost predicate RangesOrdered(s: string, ranges: seq<Range>) {
    && (forall k :: 0 <= k < |ranges| ==> ranges[k].0 <= ranges[k].1 <= |s|)
    && (forall k :: 0 <= k < |ranges| - 1 ==> ranges[k].1 <= ranges[k + 1].0)
  }

  lemma OffsetGrows(s: string, i: nat, j: nat)
    requires i < j <= |s|
    ensures Offset(s, i) < Offset(s, j) <= |Encode(s)|
  {
    OffsetSlice(s, i, j);
    EncodeGrows(s[i..j]);
  }

  /** Spans do not overlap and come in the order of the script. */
  lemma SpansOrdered(alnum: Alnum, s: string)
    ensures var r := Spans(alnum, s);
      && (forall k :: 0 <= k < |r| ==> r[k].start <= r[k].end)
      && (forall k :: 0 <= k < |r| - 1 ==> r[k].end <= r[k + 1].start)
      && (|Encode(s)| <= U32_MAX ==> forall k :: 0 <= k < |r| ==> r[k].start < r[k].end)
  {
    LexLossless(alnum, s);
    var ranges, p := Lex(alnum, s), PiecesOf(alnum, s);
    assert RangesOrdered(s, ranges);
    PiecesOrdered(alnum, s, ranges);
    forall k | 0 <= k < |p|
      ensures Offset(s, p[k].0) < Offset(s, p[k].1) <= |Encode(s)| {
      OffsetGrows(s, p[k].0, p[k].1);
    }
    forall k | 0 <= k < |p| - 1
      ensures Offset(s, p[k].1) <= Offset(s, p[k + 1].0) {
      OffsetSlice(s, p[k].1, p[k + 1].0);
    }
  }

  // ------------------------------------------------------------------ one statement out of a script

  lemma TrimOfRange(s: string, r: Range)
    requires r.0 <= r.1 <= |s|
    ensures Trim(s[r.0..r.1]) == s[Bounds(s, r).0..Bounds(s, r).1]
  {
    var a, end := r.0, r.1;
    var from := SkipLeft(s, a, end);
    var upto := SkipRight(s, from, end);
    var t := s[a..end];
    assert SkipLeft(t, 0, |t|) == from - a by {
      SkipLeftShift(s, a, a, end);
    }
    assert SkipRight(t, from - a, |t|) == upto - a by {
      SkipRightShift(s, a, from, end);
    }
    SliceOfSlice(s, a, end, from, upto);
  }

  lemma SliceOfSlice(s: string, a: nat, end: nat, b: nat, e: nat)
    requires a <= b <= e <= end <= |s|
    ensures s[a..end][b - a..e - a] == s[b..e]
  {
    var t, u := s[a..end][b - a..e - a], s[b..e];
    forall k | 0 <= k < e - b ensures t[k] == u[k] {
      assert t[k] == s[a..end][b - a + k];
    }
  }

  lemma {:induction false} SkipLeftShift(s: string, a: nat, from: nat, end: nat)
    requires a <= from <= end <= |s|
    ensures SkipLeft(s[a..end], from - a, end - a) == SkipLeft(s, from, end) - a
    decreases end - from
  {
    if from < end && IsWhitespace(s[from]) {
      SkipLeftShift(s, a, from + 1, end);
    }
  }

  lemma {:induction false} SkipRightShift(s: string, a: nat, from: nat, end: nat)
    requires a <= from <= end <= |s|
    ensures SkipRight(s[a..end], from - a, end - a) == SkipRight(s, from, end) - a
    decreases end
  {
    var t := s[a..end];
    if end > from && IsWhitespace(s[end - 1]) {
      SkipRightShift(s, a, from, end - 1);
      SkipRightPrefix(t, s[a..end - 1], from - a, end - 1 - a);
    }
  }

  /** Looking back from `end` does not see what follows. */
  lemma {:induction false} SkipRightPrefix(t: string, u: string, from: nat, end: nat)
    requires from <= end <= |u| <= |t| && t[..|u|] == u
    ensures SkipRight(t, from, end) == SkipRight(u, from, end)
    decreases end
  {
    if end > from {
      assert t[..|u|][end - 1] == t[end - 1];
      if IsWhitespace(t[end - 1]) {
        SkipRightPrefix(t, u, from, end - 1);
      }
    }
  }

  /** The labels of a script are the labels of its pieces. */
  lemma {:induction false} LabelsArePieces(alnum: Alnum, s: string, ranges: seq<Range>)
    requires forall k :: 0 <= k < |ranges| ==> ranges[k].0 <= ranges[k].1 <= |s|
    ensures LabelsOf(alnum, s, Labels(alnum, Texts(s, ranges)), Pieces(s, ranges))
  {
    if ranges != [] {
      var r, rest := ranges[0], ranges[1..];
      var text, b := s[r.0..r.1], Bounds(s, r);
      LabelsArePieces(alnum, s, rest);
      assert Texts(s, ranges) == [text] + Texts(s, rest) && ([text] + Texts(s, rest))[1..] == Texts(s, rest);
      TrimOfRange(s, r);
      LabelOfTrim(alnum, text);
      var c, p := Labels(alnum, Texts(s, rest)), Pieces(s, rest);
      if b.0 == b.1 {
        assert [] + c == c && [] + p == p;
      } else {
        LabelsCons(alnum, s, Label(alnum, text), b, c, p);
      }
    }
  }

  /** Each label is that of its piece. */
  ghost predicate LabelsOf(alnum: Alnum, s: string, c: seq<Statement>, p: seq<Range>) {
    && |c| == |p|
    && forall k :: 0 <= k < |p| ==> p[k].0 <= p[k].1 <= |s| && c[k] == Label(alnum, s[p[k].0..p[k].1])
  }

  lemma LabelsCons(alnum: Alnum, s: string, first: Statement, b: Range, c: seq<Statement>, p: seq<Range>)
    requires LabelsOf(alnum, s, c, p) && b.0 <= b.1 <= |s| && first == Label(alnum, s[b.0..b.1])
    ensures LabelsOf(alnum, s, [first] + c, [b] + p)
  {
  }

  lemma LabelOfTrim(alnum: Alnum, text: string)
    ensures Label(alnum, Trim(text)) == Label(alnum, text)
  {
    SqlWords.WordsOfTrim(alnum, text);
    TrimTwice(text);
  }

  lemma TrimTwice(s: string)
    ensures Trim(Trim(s)) == Trim(s)
  {
    var t := Trim(s);
    SkipLeftIs(s, 0, |s|);
    SkipRightIs(s, SkipLeft(s, 0, |s|), |s|);
    if t != [] {
      assert !IsWhitespace(t[0]) && !IsWhitespace(t[|t| - 1]);
      assert SkipLeft(t, 0, |t|) == 0 && SkipRight(t, 0, |t|) == |t|;
    }
  }

  /** A piece read on its own is one statement, itself. */
  lemma PieceIsWhole(alnum: Alnum, s: string, r: Range)
    requires r.0 <= r.1 <= |s| && NoCut(alnum, Fresh, s[r.0..r.1])
    requires Bounds(s, r).0 < Bounds(s, r).1
    ensures Lex(alnum, s[Bounds(s, r).0..Bounds(s, r).1]) == [(0, Bounds(s, r).1 - Bounds(s, r).0)]
  {
    var b := Bounds(s, r);
    var t := s[b.0..b.1];
    PieceUncut(alnum, s, r);
    SkipLeftIs(s, r.0, r.1);
    assert t[0] == s[b.0] && !IsWhitespace(t[0]);
    LexWhole(alnum, t, 0);
    assert t[..0] == [];
  }

  lemma PieceUncut(alnum: Alnum, s: string, r: Range)
    requires r.0 <= r.1 <= |s| && NoCut(alnum, Fresh, s[r.0..r.1])
    ensures NoCut(alnum, Fresh, s[Bounds(s, r).0..Bounds(s, r).1])
  {
    var b := Bounds(s, r);
    var n := b.0 - r.0;
    LeadIsBlank(s, r.0, r.1);
    NoCutAfterBlank(alnum, s[r.0..r.1], n);
    assert s[r.0..r.1][n..] == s[b.0..r.1];
    NoCutPrefix(alnum, Fresh, s[b.0..r.1], b.1 - b.0);
    assert s[b.0..r.1][..b.1 - b.0] == s[b.0..b.1];
  }

  lemma LeadIsBlank(s: string, from: nat, end: nat)
    requires from <= end <= |s|
    ensures Blank(s[from..end][..SkipLeft(s, from, end) - from])
  {
    SkipLeftIs(s, from, end);
    var lead := s[from..end][..SkipLeft(s, from, end) - from];
    forall k | 0 <= k < |lead| ensures IsWhitespace(lead[k]) {
      assert lead[k] == s[from + k];
    }
  }

  /** The character after a range, if there is one, is what cut it. */
  predicate EndsClean(s: string, e: nat) {
    e >= |s| || s[e] == ';' || s[e] == '\n'
  }

  ghost predicate Readable(alnum: Alnum, s: string, r: Range) {
    r.0 <= r.1 <= |s| && NoCut(alnum, Fresh, s[r.0..r.1]) && EndsClean(s, r.1)
  }

  lemma RangesReadable(alnum: Alnum, s: string)
    ensures forall k :: 0 <= k < |Lex(alnum, s)| ==> Readable(alnum, s, Lex(alnum, s)[k])
  {
    LexLossless(alnum, s);
    var out := Lex(alnum, s);
    forall k | 0 <= k < |out| ensures Readable(alnum, s, out[k]) {
      if k < |out| - 1 {
        assert Follows(s, out[k].1, out[k + 1].0);
      }
    }
  }

  lemma PiecesIndex(s: string, ranges: seq<Range>, k: nat)
    requires forall j :: 0 <= j < |ranges| ==> ranges[j].0 <= ranges[j].1 <= |s|
    requires k < |Pieces(s, ranges)|
    ensures ranges != []
    ensures var b, p, rest := Bounds(s, ranges[0]), Pieces(s, ranges), Pieces(s, ranges[1..]);
      if b.0 == b.1 then k < |rest| && p[k] == rest[k] else if k == 0 then p[k] == b
        else k - 1 < |rest| && p[k] == rest[k - 1]
  {
    KeptIndex(Bounds(s, ranges[0]), Pieces(s, ranges[1..]), k);
  }

  lemma KeptIndex(b: Range, rest: seq<Range>, k: nat)
    ensures var p := (if b.0 == b.1 then [] else [b]) + rest;
      k < |p| ==> if b.0 == b.1 then k < |rest| && p[k] == rest[k] else if k == 0 then p[k] == b
        else k - 1 < |rest| && p[k] == rest[k - 1]
  {
  }

  /** Every piece comes from a range that was read without a cut. */
  lemma {:induction false} PieceOrigin(alnum: Alnum, s: string, ranges: seq<Range>, k: nat) returns (r: Range)
    requires forall j :: 0 <= j < |ranges| ==> ranges[j].0 <= ranges[j].1 <= |s| && Readable(alnum, s, ranges[j])
    requires k < |Pieces(s, ranges)|
    ensures Readable(alnum, s, r) && Bounds(s, r) == Pieces(s, ranges)[k]
    decreases |ranges|
  {
    PiecesIndex(s, ranges, k);
    var b := Bounds(s, ranges[0]);
    if b.0 != b.1 && k == 0 {
      r := ranges[0];
    } else {
      assert forall j :: 0 <= j < |ranges| - 1 ==> ranges[1..][j] == ranges[j + 1];
      r := PieceOrigin(alnum, s, ranges[1..], if b.0 == b.1 then k else k - 1);
    }
  }

  /** Spans and classified statements correspond one to one, and the text of each is the span's. */
  lemma SpansMatchStatements(alnum: Alnum, s: string)
    ensures |Spans(alnum, s)| == |Classify(alnum, s)|
    ensures forall k :: 0 <= k < |Classify(alnum, s)| ==>
      Classify(alnum, s)[k] == Label(alnum, s[PiecesOf(alnum, s)[k].0..PiecesOf(alnum, s)[k].1])
  {
    LexInBounds(alnum, s);
    LabelsArePieces(alnum, s, Lex(alnum, s));
  }

  /**
  Running one statement out of a script is faithful. The text t of any span is, on its own, the
  one statement t; it is classified as the script's statement at that position is; and that is
  the span's intent unless t opens with a shell command, which the editor treats as a read.
  */
  lemma RunningOneStatement(alnum: Alnum, s: string, k: nat)
    requires k < |Spans(alnum, s)|
    ensures var p := PiecesOf(alnum, s)[k];
      var t := s[p.0..p.1];
      && |Classify(alnum, s)| == |Spans(alnum, s)|
      && SplitStatements(alnum, t) == [t]
      && Classify(alnum, t) == [Classify(alnum, s)[k]]
      && Classify(alnum, s)[k].text == t
      && (if SqlScan.StartsShellCommand(t, 0) then Spans(alnum, s)[k].intent == Read
          else Spans(alnum, s)[k].intent == Classify(alnum, s)[k].kind)
  {
    SpansMatchStatements(alnum, s);
    RangesReadable(alnum, s);
    LexInBounds(alnum, s);
    var r := PieceOrigin(alnum, s, Lex(alnum, s), k);
    PieceStands(alnum, s, r);
  }

  /** What a piece is when read on its own. */
  lemma PieceStands(alnum: Alnum, s: string, r: Range)
    requires Readable(alnum, s, r) && Bounds(s, r).0 < Bounds(s, r).1
    ensures var p := Bounds(s, r);
      var t := s[p.0..p.1];
      && SplitStatements(alnum, t) == [t]
      && Classify(alnum, t) == [Label(alnum, t)]
      && Label(alnum, t).text == t
      && (SqlScan.StartsShellCommand(s, p.0) <==> SqlScan.StartsShellCommand(t, 0))
  {
    var p := Bounds(s, r);
    PieceIsWhole(alnum, s, r);
    PieceIsTrimmed(s, r);
    Alone(alnum, s[p.0..p.1]);
    ShellInPiece(alnum, s, r);
  }

  /** Text that lexes as one statement and is trimmed already. */
  lemma Alone(alnum: Alnum, t: string)
    requires Lex(alnum, t) == [(0, |t|)] && Trim(t) == t && t != []
    ensures SplitStatements(alnum, t) == [t]
    ensures Classify(alnum, t) == [Label(alnum, t)]
    ensures Label(alnum, t).text == t
  {
    assert t[0..|t|] == t;
    assert SplitStatements(alnum, t) == [t];
    assert [t][1..] == [];
    assert Labels(alnum, [t][1..]) == [];
  }

  lemma PieceIsTrimmed(s: string, r: Range)
    requires r.0 <= r.1 <= |s|
    ensures Trim(s[Bounds(s, r).0..Bounds(s, r).1]) == s[Bounds(s, r).0..Bounds(s, r).1]
  {
    TrimOfRange(s, r);
    TrimTwice(s[r.0..r.1]);
  }

  /** The character after a piece is no letter, so whether a shell command opens it is told by the piece alone. */
  lemma ShellInPiece(alnum: Alnum, s: string, r: Range)
    requires Readable(alnum, s, r) && Bounds(s, r).0 < Bounds(s, r).1
    ensures var p := Bounds(s, r);
      SqlScan.StartsShellCommand(s, p.0) <==> SqlScan.StartsShellCommand(s[p.0..p.1], 0)
  {
    var p := Bounds(s, r);
    SkipRightIs(s, p.0, r.1);
    if p.1 < |s| {
      assert IsWhitespace(s[p.1]) || EndsClean(s, p.1);
      assert !IsAsciiAlpha(s[p.1]);
    }
  }

  // ------------------------------------------------------------------ as the source computes it

  /** The table of UTF-16 offsets, one for each character position, clamped to 32 bits. */
  method Utf16Table(s: string) returns (table: seq<nat>)
    ensures |table| == |s| + 1
    ensures forall i :: 0 <= i <= |s| ==> table[i] == Saturated(Offset(s, i))
  {
    assert s[..0] == [];
    table := [0];
    var total: nat := 0;
    for i := 0 to |s|
      invariant |table| == i + 1 && total == Saturated(Offset(s, i))
      invariant forall k :: 0 <= k <= i ==> table[k] == Saturated(Offset(s, k))
    {
      OffsetStep(s, i);
      total := Saturated(total + if s[i] as int >= 0x10000 then 2 else 1);
      table := table + [total];
    }
  }

  method TrimRange(s: string, r: Range) returns (b: Range)
    requires r.0 <= r.1 <= |s|
    ensures b == Bounds(s, r)
  {
    var from, end := r.0, r.1;
    while from < end && IsWhitespace(s[from])
      invariant r.0 <= from <= end
      invariant SkipLeft(s, from, end) == SkipLeft(s, r.0, r.1)
    {
      from := from + 1;
    }
    while end > from && IsWhitespace(s[end - 1])
      invariant from <= end <= r.1
      invariant SkipRight(s, from, end) == SkipRight(s, from, r.1)
    {
      end := end - 1;
    }
    b := (from, end);
  }

  lemma PiecesSnoc(s: string, ranges: seq<Range>, k: nat)
    requires forall j :: 0 <= j < |ranges| ==> ranges[j].0 <= ranges[j].1 <= |s|
    requires k < |ranges|
    ensures Pieces(s, ranges[k..]) == Kept(s, ranges[k]) + Pieces(s, ranges[k + 1..])
  {
    assert ranges[k..][0] == ranges[k] && ranges[k..][1..] == ranges[k + 1..];
  }

  method ComputeIntent(alnum: Alnum, s: string, p: Range) returns (intent: Kind)
    requires p.0 < p.1 <= |s|
    ensures intent == IntentAt(alnum, s, p)
  {
    if SqlScan.StartsShellCommand(s, p.0) {
      return Read;
    }
    var words := SqlWords.TopLevelWords(alnum, s[p.0..p.1]);
    intent := ClassifyWords(words).0;
  }

  /** What is kept of one range: its trimmed bounds, or nothing. */
  function Kept(s: string, r: Range): seq<Range>
    requires r.0 <= r.1 <= |s|
  {
    if Bounds(s, r).0 == Bounds(s, r).1 then [] else [Bounds(s, r)]
  }

  method TrimAll(s: string, ranges: seq<Range>) returns (pieces: seq<Range>)
    requires forall k :: 0 <= k < |ranges| ==> ranges[k].0 <= ranges[k].1 <= |s|
    ensures pieces == Pieces(s, ranges)
  {
    pieces := [];
    assert ranges[0..] == ranges;
    var k := 0;
    while k < |ranges|
      invariant k <= |ranges|
      invariant pieces + Pieces(s, ranges[k..]) == Pieces(s, ranges)
    {
      var b := TrimRange(s, ranges[k]);
      PiecesSnoc(s, ranges, k);
      AppendAssoc(pieces, Kept(s, ranges[k]), Pieces(s, ranges[k + 1..]));
      pieces := pieces + if b.0 != b.1 then [b] else [];
      k := k + 1;
    }
    assert ranges[k..] == [];
  }

  method ComputeSpans(alnum: Alnum, s: string) returns (spans: seq<Span>)
    ensures spans == Spans(alnum, s)
  {
    var table := Utf16Table(s);
    var ranges := SqlScan.Scan(alnum, s);
    LexInBounds(alnum, s);
    var pieces := TrimAll(s, ranges);
    spans := [];
    for k := 0 to |pieces|
      invariant |spans| == k && forall j :: 0 <= j < k ==> spans[j] == SpanOf(alnum, s, pieces[j])
    {
      var intent := ComputeIntent(alnum, s, pieces[k]);
      spans := spans + [Span(table[pieces[k].0], table[pieces[k].1], intent)];
    }
  }
}
