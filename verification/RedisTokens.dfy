/**
The Redis command tokenizer (src-tauri/src/integrations/redis.rs) and what it makes of a printed
line. The two sides disagree on one character, U+0085: white space to the tokenizer, not to the
quoting; and a first argument that starts with `#` turns its line into a comment.
*/
module RedisTokens {
  import opened Prelude
  import opened Text
  import opened RedisLine

  datatype Mode = Outside | Double | Single

  datatype TokenError = UnterminatedDouble | DanglingBackslash | UnterminatedSingle

  function HexValue(c: char): Option<nat> {
    if '0' <= c <= '9' then Some((c - '0') as nat)
    else if 'a' <= c <= 'f' then Some((c - 'a') as nat + 10)
    else if 'A' <= c <= 'F' then Some((c - 'A') as nat + 10)
    else None
  }

  /** A byte in two characters; Rust's parser also takes a plus sign and one digit. */
  function HexByte(a: char, b: char): (r: Option<nat>)
    ensures r.Some? ==> r.value < 256
  {
    var low := HexValue(b);
    if a == '+' then low
    else if HexValue(a).Some? && low.Some? then Some(16 * HexValue(a).value + low.value)
    else None
  }

  /** The character an escape stands for, and how much text it takes. */
  function EscapeAt(s: string): (r: (char, nat))
    requires |s| >= 2
    ensures 2 <= r.1 <= |s|
  {
    if s[1] == 'n' then ('\n', 2)
    else if s[1] == 'r' then ('\r', 2)
    else if s[1] == 't' then ('\t', 2)
    else if s[1] == 'a' then (7 as char, 2)
    else if s[1] == 'b' then (8 as char, 2)
    else if s[1] == 'x' && |s| >= 4 && HexByte(s[2], s[3]).Some? then (HexByte(s[2], s[3]).value as char, 4)
    else (s[1], 2)
  }

  function Push(token: string, rest: Result<seq<string>, TokenError>): Result<seq<string>, TokenError> {
    match rest case Err(e) => Err(e) case Ok(tokens) => Ok([token] + tokens)
  }

  /** The tokens in what is left of a line, with `current` read so far of the one in hand. */
  function Tokens(s: string, current: string, inToken: bool, mode: Mode): Result<seq<string>, TokenError>
    decreases |s|
  {
    match mode
    case Outside =>
      if s == "" then Ok(if inToken then [current] else [])
      else if s[0] == '"' then Tokens(s[1..], current, true, Double)
      else if s[0] == '\'' then Tokens(s[1..], current, true, Single)
      else if IsWhitespace(s[0]) then
        if inToken then Push(current, Tokens(s[1..], "", false, Outside)) else Tokens(s[1..], current, false, Outside)
      else Tokens(s[1..], current + [s[0]], true, Outside)
    case Double =>
      if s == "" then Err(UnterminatedDouble)
      else if s[0] == '"' then Tokens(s[1..], current, true, Outside)
      else if s[0] == '\\' then
        if |s| == 1 then Err(DanglingBackslash) else Tokens(s[EscapeAt(s).1..], current + [EscapeAt(s).0], true, Double)
      else Tokens(s[1..], current + [s[0]], true, Double)
    case Single =>
      if s == "" then Err(UnterminatedSingle)
      else if s[0] == '\'' then Tokens(s[1..], current, true, Outside)
      else if s[0] == '\\' && |s| > 1 && s[1] == '\'' then Tokens(s[2..], current + ['\''], true, Single)
      else Tokens(s[1..], current + [s[0]], true, Single)
  }

  function Tokenized(line: string): Result<seq<string>, TokenError> {
    Tokens(line, "", false, Outside)
  }

  // ------------------------------------------------------------------ a script

  datatype ScriptError = ScriptError(line: nat, error: TokenError)

  function StripReturn(line: string): string {
    if line != "" && Last(line) == '\r' then line[..|line| - 1] else line
  }

  function Lines(script: string): seq<string>
    decreases |script|
  {
    if script == "" then []
    else
      var end := IndexOf(script, '\n');
      if end == -1 then [script] else [StripReturn(script[..end])] + Lines(script[end + 1..])
  }

  predicate Skipped(trimmed: string) { trimmed == "" || trimmed[0] == '#' }

  /** The commands of the lines, `n` lines having been read before. */
  function CommandsFrom(lines: seq<string>, n: nat): Result<seq<seq<string>>, ScriptError> {
    if lines == [] then Ok([])
    else if Skipped(Trim(lines[0])) then CommandsFrom(lines[1..], n + 1)
    else
      match Tokenized(Trim(lines[0]))
      case Err(e) => Err(ScriptError(n + 1, e))
      case Ok(tokens) => AddCommand(tokens, CommandsFrom(lines[1..], n + 1))
  }

  function AddCommand(tokens: seq<string>,
    rest: Result<seq<seq<string>>, ScriptError>): Result<seq<seq<string>>, ScriptError> {
    if rest.Err? || tokens == [] then rest else Ok([tokens] + rest.value)
  }

  function ParseCommands(script: string): Result<seq<seq<string>>, ScriptError> {
    CommandsFrom(Lines(script), 0)
  }

  // ------------------------------------------------------------------ a quoted argument is read back

  lemma HexBack(c: char)
    requires c as int < 128
    ensures HexByte(HexDigit(c as int / 16), HexDigit(c as int % 16)) == Some(c as int)
  {
    var high, low := c as int / 16, c as int % 16;
    assert HexValue(HexDigit(high)) == Some(high) && HexValue(HexDigit(low)) == Some(low);
    assert HexDigit(high) != '+';
  }

  lemma EscapedBack(c: char, rest: string, current: string)
    ensures Tokens(Escaped(c) + rest, current, true, Double) == Tokens(rest, current + [c], true, Double)
  {
    var s := Escaped(c) + rest;
    assert s[|Escaped(c)|..] == rest;
    if |Escaped(c)| == 4 {
      assert s[1] == 'x' && s[2] == HexDigit(c as int / 16) && s[3] == HexDigit(c as int % 16);
      HexBack(c);
    }
  }

  lemma QuoteCloses(rest: string, current: string)
    ensures Tokens(['"'] + rest, current, true, Double) == Tokens(rest, current, true, Outside)
  {
    assert (['"'] + rest)[1..] == rest;
  }

  lemma {:induction false} QuotedBack(raw: string, rest: string, current: string)
    ensures Tokens(EscapedAll(raw) + rest, current, true, Double) == Tokens(rest, current + raw, true, Double)
    decreases |raw|
  {
    if raw == "" {
      assert EscapedAll(raw) + rest == rest && current + raw == current;
    } else {
      var e, more := Escaped(raw[0]), EscapedAll(raw[1..]);
      assert EscapedAll(raw) + rest == e + (more + rest);
      EscapedBack(raw[0], more + rest, current);
      QuotedBack(raw[1..], rest, current + [raw[0]]);
      assert current + [raw[0]] + raw[1..] == current + raw;
    }
  }

  lemma QuotedRead(raw: string, rest: string)
    requires !Bare(raw)
    ensures Tokens(QuoteArg(raw) + rest, "", false, Outside) == Tokens(rest, raw, true, Outside)
  {
    var tail := ['"'] + rest;
    assert (QuoteArg(raw) + rest)[1..] == EscapedAll(raw) + tail;
    QuotedBack(raw, tail, "");
    QuoteCloses(rest, raw);
    assert "" + raw == raw;
  }

  /** Quoting loses nothing: two arguments are written alike only if they are the same. */
  lemma QuoteArgInjective(a: string, b: string)
    requires QuoteArg(a) == QuoteArg(b)
    ensures a == b
  {
    FirstChar(a);
    FirstChar(b);
    if !Bare(a) {
      QuotedRead(a, "");
      QuotedRead(b, "");
      assert Tokens("", a, true, Outside).value[0] == a && Tokens("", b, true, Outside).value[0] == b;
    }
  }

  lemma FirstChar(raw: string)
    ensures Bare(raw) <==> QuoteArg(raw)[0] != '"'
  {
    if Bare(raw) {
      assert !NeedsQuotes(raw[0]);
    }
  }

  /** A line is written by one list of arguments only. */
  lemma LineInjective(a: seq<string>, b: seq<string>)
    requires Line(a) == Line(b)
    ensures a == b
  {
    WordsOfLine(a);
    WordsOfLine(b);
    assert |a| == |QuoteArgs(a)| == |QuoteArgs(b)| == |b|;
    forall k | 0 <= k < |a| ensures a[k] == b[k] {
      assert QuoteArgs(a)[k] == QuoteArgs(b)[k];
      QuoteArgInjective(a[k], b[k]);
    }
  }

  // ------------------------------------------------------------------ what a printed line is read as

  /** How many characters the tokenizer takes for white space. */
  function Blanks(s: string): nat {
    if s == "" then 0 else (if IsWhitespace(s[0]) then 1 else 0) + Blanks(s[1..])
  }

  /** The white space a printed argument shows to the tokenizer. */
  function Exposed(part: string): nat { if Bare(part) then Blanks(part) else 0 }

  function AllExposed(parts: seq<string>): nat {
    if parts == [] then 0 else Exposed(parts[0]) + AllExposed(parts[1..])
  }

  function Chars(parts: seq<string>): nat {
    if parts == [] then 0 else |parts[0]| + Chars(parts[1..])
  }

  function PushAll(tokens: seq<string>, rest: Result<seq<string>, TokenError>): Result<seq<string>, TokenError> {
    match rest case Err(e) => Err(e) case Ok(more) => Ok(tokens + more)
  }

  lemma PushPush(token: string, tokens: seq<string>, rest: Result<seq<string>, TokenError>)
    ensures Push(token, PushAll(tokens, rest)) == PushAll([token] + tokens, rest)
    ensures PushAll([], rest) == rest
  {
    if rest.Ok? {
      assert [token] + (tokens + rest.value) == [token] + tokens + rest.value;
      assert [] + rest.value == rest.value;
    }
  }

  /** Reading bare text: whole tokens, then the one in hand. No character is lost but white space. */
  lemma {:induction false} BareRead(raw: string, rest: string, current: string, inToken: bool)
      returns (tokens: seq<string>, last: string, still: bool)
    requires forall k :: 0 <= k < |raw| ==> !NeedsQuotes(raw[k])
    requires inToken || current == ""
    ensures Tokens(raw + rest, current, inToken, Outside) == PushAll(tokens, Tokens(rest, last, still, Outside))
    ensures Chars(tokens) + |last| + Blanks(raw) == |current| + |raw| && (still || last == "")
    ensures Blanks(raw) == 0 ==> tokens == [] && last == current + raw && still == (inToken || raw != "")
    decreases |raw|
  {
    if raw == "" {
      assert raw + rest == rest && current + raw == current;
      PushPush("", [], Tokens(rest, current, inToken, Outside));
      return [], current, inToken;
    }
    assert (raw + rest)[1..] == raw[1..] + rest && !NeedsQuotes(raw[0]);
    if IsWhitespace(raw[0]) {
      tokens, last, still := BareRead(raw[1..], rest, "", false);
      if inToken {
        PushPush(current, tokens, Tokens(rest, last, still, Outside));
        assert ([current] + tokens)[1..] == tokens;
        tokens := [current] + tokens;
      }
    } else {
      tokens, last, still := BareRead(raw[1..], rest, current + [raw[0]], true);
      assert current + [raw[0]] + raw[1..] == current + raw;
    }
  }

  lemma ArgRead(part: string, rest: string) returns (tokens: seq<string>, last: string, still: bool)
    ensures Tokens(QuoteArg(part) + rest, "", false, Outside) == PushAll(tokens, Tokens(rest, last, still, Outside))
    ensures Chars(tokens) + |last| + Exposed(part) == |part| && (still || last == "")
    ensures Exposed(part) == 0 ==> tokens == [] && last == part && still
  {
    assert "" + part == part;
    if Bare(part) {
      tokens, last, still := BareRead(part, rest, "", false);
    } else {
      QuotedRead(part, rest);
      PushPush("", [], Tokens(rest, part, true, Outside));
      tokens, last, still := [], part, true;
    }
  }

  lemma {:induction false} CharsConcat(a: seq<string>, b: seq<string>)
    ensures Chars(a + b) == Chars(a) + Chars(b)
    decreases |a|
  {
    if a == [] {
      assert a + b == b;
    } else {
      assert (a + b)[1..] == a[1..] + b;
      CharsConcat(a[1..], b);
    }
  }

  /** What follows an argument: its token, if it left one, and the tokens of the rest of the line. */
  lemma RestRead(last: string, still: bool, rest: seq<string>)
    requires Tokenized(Line(rest)).Ok?
    requires still || last == ""
    ensures Tokens(if rest == [] then "" else [' '] + Line(rest), last, still, Outside) ==
      Ok((if still then [last] else []) + Tokenized(Line(rest)).value)
  {
    var more := Tokenized(Line(rest)).value;
    assert [] + more == more;
    if rest != [] {
      assert ([' '] + Line(rest))[1..] == Line(rest);
    } else {
      assert [last] + more == [last];
    }
  }

  /** A printed line is always read without an error, and loses exactly the exposed white space. */
  lemma {:induction false} LineRead(parts: seq<string>)
    ensures Tokenized(Line(parts)).Ok?
    ensures Chars(Tokenized(Line(parts)).value) + AllExposed(parts) == Chars(parts)
    ensures AllExposed(parts) == 0 ==> Tokenized(Line(parts)).value == parts
    decreases |parts|
  {
    if parts != [] {
      var rest := parts[1..];
      LineRead(rest);
      var text := if rest == [] then "" else [' '] + Line(rest);
      assert Line(parts) == QuoteArg(parts[0]) + text;
      var tokens, last, still := ArgRead(parts[0], text);
      RestRead(last, still, rest);
      var hand, more := if still then [last] else [], Tokenized(Line(rest)).value;
      assert Tokenized(Line(parts)) == Ok(tokens + (hand + more));
      CharsConcat(hand, more);
      CharsConcat(tokens, hand + more);
      assert Chars(hand) == |last|;
      if AllExposed(parts) == 0 {
        assert tokens + (hand + more) == [parts[0]] + rest == parts;
      }
    }
  }

  lemma {:induction false} NoBlanks(s: string)
    ensures Blanks(s) == 0 <==> forall k :: 0 <= k < |s| ==> !IsWhitespace(s[k])
  {
    if s != "" {
      NoBlanks(s[1..]);
      assert forall k :: 0 <= k < |s| - 1 ==> s[1..][k] == s[k + 1];
      if Blanks(s) == 0 {
        forall k | 0 <= k < |s| ensures !IsWhitespace(s[k]) {
          if k > 0 {
            assert !IsWhitespace(s[1..][k - 1]);
          }
        }
      }
    }
  }

  /** U+0085 is the one character that the tokenizer splits at and the quoting lets through. */
  predicate Whole(part: string) {
    Bare(part) ==> forall k :: 0 <= k < |part| ==> part[k] != '\U{0085}'
  }

  lemma WholeIsUnexposed(part: string)
    ensures Exposed(part) == 0 <==> Whole(part)
  {
    NoBlanks(part);
    if Bare(part) {
      forall k | 0 <= k < |part| ensures IsWhitespace(part[k]) <==> part[k] == '\U{0085}' {
        assert !NeedsQuotes(part[k]);
      }
    }
  }

  lemma {:induction false} AllWhole(parts: seq<string>)
    ensures AllExposed(parts) == 0 <==> forall k :: 0 <= k < |parts| ==> Whole(parts[k])
  {
    if parts != [] {
      WholeIsUnexposed(parts[0]);
      AllWhole(parts[1..]);
      assert forall k :: 0 <= k < |parts| - 1 ==> parts[1..][k] == parts[k + 1];
      if AllExposed(parts) == 0 {
        forall k | 0 <= k < |parts| ensures Whole(parts[k]) {
          if k > 0 {
            assert Whole(parts[1..][k - 1]);
          }
        }
      }
    }
  }

  /** The tokenizer reads a printed line back verbatim if and only if no bare argument holds U+0085. */
  lemma LineReadBack(parts: seq<string>)
    ensures Tokenized(Line(parts)) == Ok(parts) <==> forall k :: 0 <= k < |parts| ==> Whole(parts[k])
  {
    LineRead(parts);
    AllWhole(parts);
  }

  // ------------------------------------------------------------------ a printed line as a script

  lemma EndBlankEscape(s: string, w: char)
    requires |s| >= 2 && IsWhitespace(w)
    ensures EscapeAt(s + [w]) == EscapeAt(s)
  {
    if |s| == 3 {
      assert HexByte(s[2], w) == None;
    }
  }

  /** The text is read alike with and without white space behind it. */
  ghost predicate SameEnd(s: string, w: char, current: string, inToken: bool, mode: Mode) {
    var short, long := Tokens(s, current, inToken, mode), Tokens(s + [w], current, inToken, mode);
    (long.Ok? <==> short.Ok?) && (short.Ok? ==> long == short)
  }

  lemma EmptyEnd(w: char, current: string, inToken: bool, mode: Mode)
    requires IsWhitespace(w)
    ensures SameEnd("", w, current, inToken, mode)
  {
    assert "" + [w] == [w] && [w][1..] == "";
    assert [current] + [] == [current];
  }

  lemma {:induction false} EndBlank(s: string, w: char, current: string, inToken: bool, mode: Mode)
    requires IsWhitespace(w)
    ensures SameEnd(s, w, current, inToken, mode)
    decreases |s|, 1
  {
    if s == "" {
      EmptyEnd(w, current, inToken, mode);
    } else {
      match mode
      case Outside => EndBlankOutside(s, w, current, inToken);
      case Double => EndBlankDouble(s, w, current, inToken);
      case Single => EndBlankSingle(s, w, current, inToken);
    }
  }

  lemma {:induction false} EndBlankOutside(s: string, w: char, current: string, inToken: bool)
    requires IsWhitespace(w) && s != ""
    ensures SameEnd(s, w, current, inToken, Outside)
    decreases |s|, 0
  {
    assert (s + [w])[1..] == s[1..] + [w];
    if s[0] == '"' {
      EndBlank(s[1..], w, current, true, Double);
    } else if s[0] == '\'' {
      EndBlank(s[1..], w, current, true, Single);
    } else if IsWhitespace(s[0]) {
      EndBlank(s[1..], w, if inToken then "" else current, false, Outside);
    } else {
      EndBlank(s[1..], w, current + [s[0]], true, Outside);
    }
  }

  lemma {:induction false} EndBlankDouble(s: string, w: char, current: string, inToken: bool)
    requires IsWhitespace(w) && s != ""
    ensures SameEnd(s, w, current, inToken, Double)
    decreases |s|, 0
  {
    var t := s + [w];
    assert t[1..] == s[1..] + [w];
    if s[0] == '"' {
      EndBlank(s[1..], w, current, true, Outside);
    } else if s[0] != '\\' {
      EndBlank(s[1..], w, current + [s[0]], true, Double);
    } else if |s| == 1 {
      assert t[2..] == "";
    } else {
      EndBlankEscape(s, w);
      var (c, n) := EscapeAt(s);
      assert t[n..] == s[n..] + [w];
      EndBlank(s[n..], w, current + [c], true, Double);
    }
  }

  lemma {:induction false} EndBlankSingle(s: string, w: char, current: string, inToken: bool)
    requires IsWhitespace(w) && s != ""
    ensures SameEnd(s, w, current, inToken, Single)
    decreases |s|, 0
  {
    var t := s + [w];
    assert t[1..] == s[1..] + [w] && t[1] == if |s| > 1 then s[1] else w;
    if s[0] == '\'' {
      EndBlank(s[1..], w, current, true, Outside);
    } else if s[0] == '\\' && |s| > 1 && s[1] == '\'' {
      assert t[2..] == s[2..] + [w];
      EndBlank(s[2..], w, current + ['\''], true, Single);
    } else {
      EndBlank(s[1..], w, current + [s[0]], true, Single);
    }
  }

  lemma {:induction false} DropRight(s: string, from: nat, end: nat)
    requires from <= end <= |s|
    ensures Tokenized(s[from..end]).Ok? ==> Tokenized(s[from..SkipRight(s, from, end)]) == Tokenized(s[from..end])
    decreases end
  {
    if end > from && IsWhitespace(s[end - 1]) {
      assert s[from..end] == s[from..end - 1] + [s[end - 1]];
      EndBlank(s[from..end - 1], s[end - 1], "", false, Outside);
      DropRight(s, from, end - 1);
    }
  }

  lemma {:induction false} DropLeft(s: string, from: nat)
    requires from <= |s|
    ensures Tokenized(s[SkipLeft(s, from, |s|)..]) == Tokenized(s[from..])
    decreases |s| - from
  {
    if from < |s| && IsWhitespace(s[from]) {
      assert s[from..][1..] == s[from + 1..];
      DropLeft(s, from + 1);
    }
  }

  lemma TrimTokens(s: string)
    requires Tokenized(s).Ok?
    ensures Tokenized(Trim(s)) == Tokenized(s)
  {
    var from := SkipLeft(s, 0, |s|);
    DropLeft(s, 0);
    assert s[0..] == s && s[from..|s|] == s[from..];
    DropRight(s, from, |s|);
  }

  lemma {:induction false} EscapedHasNoNewline(raw: string)
    ensures '\n' !in EscapedAll(raw)
  {
    if raw != "" {
      EscapedHasNoNewline(raw[1..]);
      assert '\n' !in Escaped(raw[0]);
    }
  }

  lemma {:induction false} LineHasNoNewline(parts: seq<string>)
    ensures '\n' !in Line(parts)
    decreases |parts|
  {
    if parts != [] {
      EscapedHasNoNewline(parts[0]);
      assert '\n' !in QuoteArg(parts[0]) by {
        assert NeedsQuotes('\n');
      }
      LineHasNoNewline(parts[1..]);
    }
  }

  predicate Comment(part: string) { Bare(part) && part[0] == '#' }

  lemma TrimmedLine(parts: seq<string>)
    requires parts != [] && Whole(parts[0])
    ensures Skipped(Trim(Line(parts))) <==> Comment(parts[0])
  {
    var line, first := Line(parts), QuoteArg(parts[0]);
    assert line[0] == first[0];
    assert !IsWhitespace(line[0]) by {
      if Bare(parts[0]) {
        WholeIsUnexposed(parts[0]);
        NoBlanks(parts[0]);
      }
    }
    assert SkipLeft(line, 0, |line|) == 0;
    TrimEmpty(line);
  }

  /** A line without a line break, run as a script. */
  lemma OneLine(line: string)
    requires '\n' !in line && Tokenized(line).Ok?
    ensures ParseCommands(line) ==
      Ok(if Skipped(Trim(line)) || Tokenized(line).value == [] then [] else [Tokenized(line).value])
  {
    TrimTokens(line);
    var tokens := Tokenized(line).value;
    if line != "" {
      assert Lines(line) == [line] && [line][1..] == [];
      assert CommandsFrom([line][1..], 1) == Ok([]);
      assert [tokens] + [] == [tokens];
    }
  }

  /**
  A printed line run as a script is exactly the one command it was made from, if and only if it
  has an argument, no bare argument holds U+0085, and the first is not a bare one with `#` in front.
  */
  lemma CommandReadBack(parts: seq<string>)
    ensures ParseCommands(Line(parts)) == Ok([parts]) <==>
      parts != [] && (forall k :: 0 <= k < |parts| ==> Whole(parts[k])) && !Comment(parts[0])
  {
    LineRead(parts);
    LineReadBack(parts);
    LineHasNoNewline(parts);
    OneLine(Line(parts));
    if parts != [] && Whole(parts[0]) {
      TrimmedLine(parts);
    }
  }

  // ------------------------------------------------------------------ the loops

  method ReadDouble(line: string, at: nat, start: string) returns (i: nat, current: string, error: Option<TokenError>)
    requires at <= |line|
    ensures at <= i <= |line|
    ensures Tokens(line[at..], start, true, Double) ==
      if error.Some? then Err(error.value) else Tokens(line[i..], current, true, Outside)
  {
    i, current := at, start;
    while i < |line| && line[i] != '"'
      invariant at <= i <= |line|
      invariant Tokens(line[at..], start, true, Double) == Tokens(line[i..], current, true, Double)
    {
      var rest := line[i..];
      assert rest[0] == line[i] && rest[1..] == line[i + 1..];
      if line[i] == '\\' {
        if i + 1 == |line| {
          return i, current, Some(DanglingBackslash);
        }
        var (c, n) := EscapeAt(rest);
        assert rest[n..] == line[i + n..];
        current, i := current + [c], i + n;
      } else {
        current, i := current + [line[i]], i + 1;
      }
    }
    if i == |line| {
      assert line[i..] == "";
      return i, current, Some(UnterminatedDouble);
    }
    assert line[i..][0] == '"' && line[i..][1..] == line[i + 1..];
    i, error := i + 1, None;
  }

  method ReadSingle(line: string, at: nat, start: string) returns (i: nat, current: string, error: Option<TokenError>)
    requires at <= |line|
    ensures at <= i <= |line|
    ensures Tokens(line[at..], start, true, Single) ==
      if error.Some? then Err(error.value) else Tokens(line[i..], current, true, Outside)
  {
    i, current := at, start;
    while i < |line| && line[i] != '\''
      invariant at <= i <= |line|
      invariant Tokens(line[at..], start, true, Single) == Tokens(line[i..], current, true, Single)
    {
      var rest := line[i..];
      assert rest[0] == line[i] && rest[1..] == line[i + 1..];
      if line[i] == '\\' && i + 1 < |line| && line[i + 1] == '\'' {
        assert rest[1] == '\'' && rest[2..] == line[i + 2..];
        current, i := current + ['\''], i + 2;
      } else {
        assert |rest| > 1 ==> rest[1] == line[i + 1];
        current, i := current + [line[i]], i + 1;
      }
    }
    if i == |line| {
      assert line[i..] == "";
      return i, current, Some(UnterminatedSingle);
    }
    assert line[i..][0] == '\'' && line[i..][1..] == line[i + 1..];
    i, error := i + 1, None;
  }

  lemma PushLast(tokens: seq<string>, token: string, rest: Result<seq<string>, TokenError>)
    ensures PushAll(tokens, Push(token, rest)) == PushAll(tokens + [token], rest)
    ensures PushAll([], rest) == rest
  {
    if rest.Ok? {
      assert tokens + ([token] + rest.value) == tokens + [token] + rest.value;
      assert [] + rest.value == rest.value;
    }
  }

  method Tokenize(line: string) returns (r: Result<seq<string>, TokenError>)
    ensures r == Tokenized(line)
  {
    var tokens: seq<string>, current, inToken := [], "", false;
    var i := 0;
    assert line[0..] == line;
    PushLast([], "", Tokenized(line));
    while i < |line|
      invariant i <= |line|
      invariant Tokenized(line) == PushAll(tokens, Tokens(line[i..], current, inToken, Outside))
    {
      var rest := line[i..];
      assert rest[0] == line[i] && rest[1..] == line[i + 1..];
      if line[i] == '"' || line[i] == '\'' {
        var error: Option<TokenError>;
        inToken := true;
        if line[i] == '"' {
          i, current, error := ReadDouble(line, i + 1, current);
        } else {
          i, current, error := ReadSingle(line, i + 1, current);
        }
        if error.Some? {
          return Err(error.value);
        }
      } else if IsWhitespace(line[i]) {
        if inToken {
          PushLast(tokens, current, Tokens(line[i + 1..], "", false, Outside));
          tokens, current, inToken := tokens + [current], "", false;
        }
        i := i + 1;
      } else {
        inToken := true;
        current, i := current + [line[i]], i + 1;
      }
    }
    assert line[i..] == "";
    if inToken {
      tokens := tokens + [current];
    }
    assert tokens + [] == tokens;
    r := Ok(tokens);
  }

  function Added(commands: seq<seq<string>>,
    rest: Result<seq<seq<string>>, ScriptError>): Result<seq<seq<string>>, ScriptError> {
    match rest case Err(e) => Err(e) case Ok(more) => Ok(commands + more)
  }

  lemma AddedOne(commands: seq<seq<string>>, tokens: seq<string>, rest: Result<seq<seq<string>>, ScriptError>)
    ensures Added(commands, AddCommand(tokens, rest)) ==
      Added(if tokens == [] then commands else commands + [tokens], rest)
    ensures Added([], rest) == rest
  {
    if rest.Ok? {
      assert commands + ([tokens] + rest.value) == commands + [tokens] + rest.value;
      assert [] + rest.value == rest.value;
    }
  }

  method Parse(script: string) returns (r: Result<seq<seq<string>>, ScriptError>)
    ensures r == ParseCommands(script)
  {
    var lines, commands: seq<seq<string>> := Lines(script), [];
    AddedOne([], [], CommandsFrom(lines, 0));
    assert lines[0..] == lines;
    for n := 0 to |lines|
      invariant ParseCommands(script) == Added(commands, CommandsFrom(lines[n..], n))
    {
      assert lines[n..][0] == lines[n] && lines[n..][1..] == lines[n + 1..];
      var trimmed := Trim(lines[n]);
      if Skipped(trimmed) {
        continue;
      }
      var tokens := Tokenize(trimmed);
      if tokens.Err? {
        return Err(ScriptError(n + 1, tokens.error));
      }
      AddedOne(commands, tokens.value, CommandsFrom(lines[n + 1..], n + 1));
      if tokens.value != [] {
        commands := commands + [tokens.value];
      }
    }
    assert commands + [] == commands;
    r := Ok(commands);
  }
}
