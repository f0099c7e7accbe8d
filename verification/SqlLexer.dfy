/**
Where a script is cut into statements, as a lexer that reads one character per step and never
looks ahead. It is the specification of the index-jumping scanner in
src-tauri/src/guard/destructive.rs.
*/
module SqlLexer {
  import opened Prelude
  import opened Text

  /**
  What the characters read since the last cut amount to. `clean`: nothing but white space and
  comments so far, the one place where a shell command can begin.
  */
  datatype Mode =
    | Fresh
    | Normal
    | Dash(clean: bool)
    | Slash(clean: bool)
    | Dot
    | Quote(quote: char)
    | QuoteEnd(quote: char)
    | Line(clean: bool)
    | Block(clean: bool)
    | BlockStar(clean: bool)
    | Tag(tag: string)
    | Body(tag: string, seen: string)
    | Shell

  type Range = (nat, nat)

  datatype Lexer = Lexer(mode: Mode, start: nat, out: seq<Range>)

  predicate IsTagChar(alnum: Alnum, c: char) { alnum(c) || c == '_' }

  function Code(clean: bool): Mode { if clean then Fresh else Normal }

  predicate EndsWith(s: string, suffix: string) {
    |suffix| <= |s| && s[|s| - |suffix|..] == suffix
  }

  /** The modes in which a `;` is code: all but the inside of a quote, comment, body or shell line. */
  predicate IsCode(m: Mode) {
    m.Fresh? || m.Normal? || m.Dash? || m.Slash? || m.Dot? || m.QuoteEnd? || m.Tag?
  }

  /** The statement ends before this character: a `;` in code, or the end of a shell line. */
  predicate CutsAt(m: Mode, c: char) {
    (IsCode(m) && c == ';') || (m.Shell? && c == '\n')
  }

  function StepNormal(c: char): Mode {
    if IsQuote(c) then Quote(c)
    else if c == '-' then Dash(false)
    else if c == '/' then Slash(false)
    else if c == '$' then Tag("$")
    else Normal
  }

  /** The mode after a character that does not cut. */
  function StepMode(alnum: Alnum, m: Mode, c: char): Mode {
    match m
    case Fresh =>
      if IsWhitespace(c) then Fresh
      else if c == '\\' then Shell
      else if c == '.' then Dot
      else if c == '-' then Dash(true)
      else if c == '/' then Slash(true)
      else StepNormal(c)
    case Normal => StepNormal(c)
    case Dash(f) => if c == '-' then Line(f) else StepNormal(c)
    case Slash(f) => if c == '*' then Block(f) else StepNormal(c)
    case Dot => if IsAsciiAlpha(c) then Shell else StepNormal(c)
    case Quote(q) => if c == q then QuoteEnd(q) else m
    case QuoteEnd(q) => if c == q then Quote(q) else StepNormal(c)
    case Line(f) => if c == '\n' then Code(f) else m
    case Block(f) => if c == '*' then BlockStar(f) else m
    case BlockStar(f) => if c == '/' then Code(f) else if c == '*' then m else Block(f)
    case Tag(t) => if IsTagChar(alnum, c) then Tag(t + [c]) else if c == '$' then Body(t + "$", "") else StepNormal(c)
    case Body(t, seen) => if EndsWith(seen + [c], t) then Normal else Body(t, seen + [c])
    case Shell => Shell
  }

  /** One character, at position `at`. A `;` belongs to no statement, a shell line's newline to the next one. */
  function Step(alnum: Alnum, x: Lexer, c: char, at: nat): Lexer {
    if CutsAt(x.mode, c)
    then Lexer(Fresh, if x.mode.Shell? then at else at + 1, x.out + [(x.start, at)])
    else x.(mode := StepMode(alnum, x.mode, c))
  }

  /** The end of the script: a shell line counts, any other tail only if it holds something. */
  function Finish(s: string, x: Lexer): seq<Range>
    requires x.start <= |s|
  {
    if x.mode.Shell? || !Blank(s[x.start..]) then x.out + [(x.start, |s|)] else x.out
  }

  function LexFrom(alnum: Alnum, s: string, i: nat, x: Lexer): seq<Range>
    requires x.start <= i && x.start <= |s|
    decreases |s| - i
  {
    if i >= |s| then Finish(s, x) else LexFrom(alnum, s, i + 1, Step(alnum, x, s[i], i))
  }

  /** The statements of a script, as half-open ranges of its characters. */
  function Lex(alnum: Alnum, s: string): seq<Range> {
    LexFrom(alnum, s, 0, Lexer(Fresh, 0, []))
  }

  // ------------------------------------------------------------------ runs without a cut

  /** The mode after reading `s` from `m`. */
  function RunMode(alnum: Alnum, m: Mode, s: string): Mode {
    if s == [] then m else StepMode(alnum, RunMode(alnum, m, s[..|s| - 1]), s[|s| - 1])
  }

  /** Reading `s` from `m` never cuts. */
  predicate NoCut(alnum: Alnum, m: Mode, s: string) {
    s == [] || (NoCut(alnum, m, s[..|s| - 1]) && !CutsAt(RunMode(alnum, m, s[..|s| - 1]), s[|s| - 1]))
  }

  lemma NoCutSnoc(alnum: Alnum, m: Mode, s: string, c: char)
    ensures NoCut(alnum, m, s + [c]) <==> NoCut(alnum, m, s) && !CutsAt(RunMode(alnum, m, s), c)
    ensures RunMode(alnum, m, s + [c]) == StepMode(alnum, RunMode(alnum, m, s), c)
  {
    assert (s + [c])[..|s + [c]| - 1] == s;
  }

  lemma {:induction false} NoCutPrefix(alnum: Alnum, m: Mode, s: string, n: nat)
    requires n <= |s| && NoCut(alnum, m, s)
    ensures NoCut(alnum, m, s[..n])
  {
    if n < |s| {
      NoCutPrefix(alnum, m, s[..|s| - 1], n);
      assert s[..|s| - 1][..n] == s[..n];
    } else {
      assert s[..n] == s;
    }
  }

  lemma BlankPrefix(s: string, n: nat)
    requires 0 < n <= |s| && Blank(s[..n])
    ensures Blank(s[..n - 1])
  {
    var shorter := s[..n - 1];
    forall k | 0 <= k < |shorter| ensures IsWhitespace(shorter[k]) {
      assert shorter[k] == s[..n][k];
    }
  }

  /** White space in front changes nothing for a lexer that starts fresh. */
  lemma {:induction false} NoCutAfterBlank(alnum: Alnum, s: string, n: nat)
    requires n <= |s| && Blank(s[..n])
    ensures RunMode(alnum, Fresh, s) == RunMode(alnum, Fresh, s[n..])
    ensures NoCut(alnum, Fresh, s) <==> NoCut(alnum, Fresh, s[n..])
  {
    if |s| == n {
      if n > 0 {
        var t := s[..n - 1];
        assert s == t + [s[n - 1]];
        BlankPrefix(s, n);
        assert t[..n - 1] == t && IsWhitespace(s[..n][n - 1]);
        NoCutAfterBlank(alnum, t, n - 1);
        NoCutSnoc(alnum, Fresh, t, s[n - 1]);
        assert t[n - 1..] == [] && s[n..] == [];
      }
    } else {
      var t := s[..|s| - 1];
      assert s == t + [s[|s| - 1]] && s[n..] == t[n..] + [s[|s| - 1]];
      assert t[..n] == s[..n];
      NoCutAfterBlank(alnum, t, n);
      NoCutSnoc(alnum, Fresh, t, s[|s| - 1]);
      NoCutSnoc(alnum, Fresh, t[n..], s[|s| - 1]);
    }
  }

  /** Text that is read without a cut and is not blank is one statement, whole. */
  lemma {:induction false} LexWhole(alnum: Alnum, s: string, i: nat)
    requires i <= |s| && NoCut(alnum, Fresh, s) && !Blank(s)
    ensures LexFrom(alnum, s, i, Lexer(RunMode(alnum, Fresh, s[..i]), 0, [])) == [(0, |s|)]
    decreases |s| - i
  {
    if i < |s| {
      NoCutStep(alnum, s, i);
      LexWhole(alnum, s, i + 1);
    } else {
      assert s[0..] == s;
    }
  }

  lemma NoCutStep(alnum: Alnum, s: string, i: nat)
    requires i < |s| && NoCut(alnum, Fresh, s)
    ensures var m := RunMode(alnum, Fresh, s[..i]);
      !CutsAt(m, s[i]) && RunMode(alnum, Fresh, s[..i + 1]) == StepMode(alnum, m, s[i])
  {
    assert s[..i + 1] == s[..i] + [s[i]];
    NoCutPrefix(alnum, Fresh, s, i + 1);
    NoCutSnoc(alnum, Fresh, s[..i], s[i]);
  }

  // ------------------------------------------------------------------ what every cut keeps

  /** A statement may begin at `from` when the one before it ended at `end`. */
  predicate Follows(s: string, end: nat, from: nat) {
    end < |s| && ((from == end && s[end] == '\n') || (from == end + 1 && s[end] == ';'))
  }

  /** What the lexer knows after reading `at` characters. */
  ghost predicate LexInv(alnum: Alnum, s: string, at: nat, x: Lexer) {
    && x.start <= at <= |s|
    && NoCut(alnum, Fresh, s[x.start..at]) && x.mode == RunMode(alnum, Fresh, s[x.start..at])
    && RangesOk(alnum, s, x.out)
    && (if x.out == [] then x.start == 0 else Follows(s, Last(x.out).1, x.start))
  }

  /** Ranges in order, in bounds, read without a cut, and parted by nothing or by one `;`. */
  ghost predicate RangesOk(alnum: Alnum, s: string, out: seq<Range>) {
    && (forall k :: 0 <= k < |out| ==> out[k].0 <= out[k].1 <= |s| && NoCut(alnum, Fresh, s[out[k].0..out[k].1]))
    && (out != [] ==> out[0].0 == 0)
    && (forall k :: 0 <= k < |out| - 1 ==> Follows(s, out[k].1, out[k + 1].0))
  }

  lemma StepKeeps(alnum: Alnum, s: string, at: nat, x: Lexer)
    requires LexInv(alnum, s, at, x) && at < |s|
    ensures LexInv(alnum, s, at + 1, Step(alnum, x, s[at], at))
  {
    var c := s[at];
    assert s[x.start..at + 1] == s[x.start..at] + [c];
    NoCutSnoc(alnum, Fresh, s[x.start..at], c);
    var y := Step(alnum, x, c, at);
    if CutsAt(x.mode, c) {
      if x.mode.Shell? {
        assert s[at..at + 1] == [] + [c];
        NoCutSnoc(alnum, Fresh, [], c);
      } else {
        assert s[at + 1..at + 1] == [];
      }
      assert forall k :: 0 <= k < |x.out| ==> y.out[k] == x.out[k];
    }
  }

  /**
  The cut is lossless: ranges are ordered, in bounds and read without a cut, the first starts
  at 0, consecutive ones are parted by nothing or by one `;`, and after the last range there is
  at most one `;` and then only white space.
  */
  ghost predicate Lossless(alnum: Alnum, s: string, out: seq<Range>) {
    && RangesOk(alnum, s, out)
    && (out == [] ==> Blank(s))
    && (out != [] ==>
          var end := Last(out).1;
          end == |s| || exists from: nat :: Follows(s, end, from) && Blank(s[from..]))
  }

  lemma FinishLossless(alnum: Alnum, s: string, x: Lexer)
    requires LexInv(alnum, s, |s|, x)
    ensures Lossless(alnum, s, Finish(s, x))
  {
    assert s[x.start..|s|] == s[x.start..];
    assert s[0..] == s;
    var out := Finish(s, x);
    if out != x.out {
      assert forall k :: 0 <= k < |x.out| ==> out[k] == x.out[k];
    }
  }

  lemma {:induction false} LexFromLossless(alnum: Alnum, s: string, i: nat, x: Lexer)
    requires LexInv(alnum, s, i, x)
    ensures Lossless(alnum, s, LexFrom(alnum, s, i, x))
    decreases |s| - i
  {
    if i < |s| {
      StepKeeps(alnum, s, i, x);
      LexFromLossless(alnum, s, i + 1, Step(alnum, x, s[i], i));
    } else {
      FinishLossless(alnum, s, x);
    }
  }

  lemma LexLossless(alnum: Alnum, s: string)
    ensures Lossless(alnum, s, Lex(alnum, s))
  {
    assert s[0..0] == [];
    LexFromLossless(alnum, s, 0, Lexer(Fresh, 0, []));
  }

  // ------------------------------------------------------------------ exactly where it cuts

  /** The lexer just before it reads position `at`. */
  function At(alnum: Alnum, s: string, at: nat): (x: Lexer)
    requires at <= |s|
    ensures x.start <= at
    decreases at
  {
    if at == 0 then Lexer(Fresh, 0, []) else Step(alnum, At(alnum, s, at - 1), s[at - 1], at - 1)
  }

  lemma {:induction false} LexFromAt(alnum: Alnum, s: string, at: nat)
    requires at <= |s|
    ensures Lex(alnum, s) == LexFrom(alnum, s, at, At(alnum, s, at))
  {
    if at > 0 {
      LexFromAt(alnum, s, at - 1);
    }
  }

  /** Some statement ends at `e`. */
  predicate EndsIn(out: seq<Range>, e: nat) {
    exists k :: 0 <= k < |out| && out[k].1 == e
  }

  lemma EndsInSnoc(out: seq<Range>, r: Range, e: nat)
    ensures EndsIn(out + [r], e) <==> EndsIn(out, e) || r.1 == e
  {
    var more := out + [r];
    assert more[|out|] == r;
    if EndsIn(out, e) {
      var k :| 0 <= k < |out| && out[k].1 == e;
      assert more[k].1 == e;
    }
  }

  /** The ends seen before `at` are the cut positions before `at`. */
  lemma {:induction false} CutsBefore(alnum: Alnum, s: string, at: nat, e: nat)
    requires at <= |s|
    ensures EndsIn(At(alnum, s, at).out, e) <==> e < at && CutsAt(At(alnum, s, e).mode, s[e])
    decreases at
  {
    if at > 0 {
      CutsBefore(alnum, s, at - 1, e);
      var x := At(alnum, s, at - 1);
      EndsInSnoc(x.out, (x.start, at - 1), e);
    }
  }

  /** A statement ends before the end of the script exactly at a `;` in code or at the end of a shell line. */
  lemma CutsExactly(alnum: Alnum, s: string, e: nat)
    requires e < |s|
    ensures EndsIn(Lex(alnum, s), e) <==> CutsAt(At(alnum, s, e).mode, s[e])
  {
    LexFromAt(alnum, s, |s|);
    CutsBefore(alnum, s, |s|, e);
    var x := At(alnum, s, |s|);
    EndsInSnoc(x.out, (x.start, |s|), e);
  }
}
