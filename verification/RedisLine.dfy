/**
Redis command lines (src/lib/redisCommands.ts): an argument quoted so that it can be read back,
a line made of quoted arguments, and the words the completion list sees in a line.
*/
module RedisLine {
  import opened Prelude
  import opened Text

  // ------------------------------------------------------------------ quoting

  predicate IsControl(c: char) { c as int < 0x20 || c as int == 0x7F }

  predicate NeedsQuotes(c: char) {
    IsJsSpace(c) || c == '"' || c == '\'' || c == '\\' || IsControl(c)
  }

  /** Written as it is, without quotes. */
  predicate Bare(raw: string) {
    raw != "" && forall k :: 0 <= k < |raw| ==> !NeedsQuotes(raw[k])
  }

  function HexDigit(n: nat): char
    requires n < 16
  {
    if n < 10 then '0' + n as char else 'a' + (n - 10) as char
  }

  function Escaped(c: char): string {
    if c == '"' then "\\\""
    else if c == '\\' then "\\\\"
    else if c == '\n' then "\\n"
    else if c == '\r' then "\\r"
    else if c == '\t' then "\\t"
    else if IsControl(c) then ['\\', 'x', HexDigit(c as int / 16), HexDigit(c as int % 16)]
    else [c]
  }

  function EscapedAll(raw: string): string {
    if raw == "" then "" else Escaped(raw[0]) + EscapedAll(raw[1..])
  }

  function QuoteArg(raw: string): string {
    if Bare(raw) then raw else ['"'] + EscapedAll(raw) + ['"']
  }

  function QuoteArgs(parts: seq<string>): (r: seq<string>)
    ensures |r| == |parts| && forall k :: 0 <= k < |parts| ==> r[k] == QuoteArg(parts[k])
  {
    seq(|parts|, k requires 0 <= k < |parts| => QuoteArg(parts[k]))
  }

  function Line(parts: seq<string>): string {
    if parts == [] then ""
    else if |parts| == 1 then QuoteArg(parts[0])
    else QuoteArg(parts[0]) + ([' '] + Line(parts[1..]))
  }

  // ------------------------------------------------------------------ words

  /** `open`: the line stops inside its last word. */
  datatype Split = Split(words: seq<string>, open: bool)

  function Cons(word: string, rest: Split): Split {
    rest.(words := [word] + rest.words)
  }

  /** The words in what is left of a line; `current` is the word being read, `quote` the open quote. */
  function Words(s: string, current: string, quote: Option<char>, inWord: bool): Split
    decreases |s|
  {
    if s == "" then Split(if inWord then [current] else [], inWord)
    else if quote.Some? then
      if s[0] == '\\' && quote.value == '"' then
        if |s| == 1 then Words("", current + s, quote, inWord) else Words(s[2..], current + s[..2], quote, inWord)
      else Words(s[1..], current + [s[0]], if s[0] == quote.value then None else quote, inWord)
    else if s[0] == '"' || s[0] == '\'' then Words(s[1..], current + [s[0]], Some(s[0]), true)
    else if IsJsSpace(s[0]) then
      if inWord then Cons(current, Words(s[1..], "", None, false)) else Words(s[1..], current, None, false)
    else Words(s[1..], current + [s[0]], None, true)
  }

  function WordsOf(line: string): Split {
    Words(line, "", None, false)
  }

  // ------------------------------------------------------------------ the words of a printed line

  lemma {:induction false} BareWord(raw: string, rest: string, current: string, inWord: bool)
    requires raw != "" || inWord
    requires forall k :: 0 <= k < |raw| ==> !NeedsQuotes(raw[k])
    ensures Words(raw + rest, current, None, inWord) == Words(rest, current + raw, None, true)
    decreases |raw|
  {
    if raw == "" {
      assert raw + rest == rest && current + raw == current;
    } else {
      assert (raw + rest)[1..] == raw[1..] + rest;
      BareWord(raw[1..], rest, current + [raw[0]], true);
      assert current + [raw[0]] + raw[1..] == current + raw;
    }
  }

  lemma PlainStep(c: char, rest: string, current: string)
    requires c != '"' && c != '\\'
    ensures Words([c] + rest, current, Some('"'), true) == Words(rest, current + [c], Some('"'), true)
  {
    assert ([c] + rest)[1..] == rest;
  }

  lemma EscapeStep(c: char, rest: string, current: string)
    ensures Words(['\\', c] + rest, current, Some('"'), true) == Words(rest, current + ['\\', c], Some('"'), true)
  {
    assert (['\\', c] + rest)[2..] == rest && (['\\', c] + rest)[..2] == ['\\', c];
  }

  lemma EscapedWord(c: char, rest: string, current: string)
    ensures Words(Escaped(c) + rest, current, Some('"'), true) == Words(rest, current + Escaped(c), Some('"'), true)
  {
    var e := Escaped(c);
    if |e| == 1 {
      PlainStep(c, rest, current);
    } else if |e| == 2 {
      assert e == ['\\', e[1]];
      EscapeStep(e[1], rest, current);
    } else {
      var tail := [e[2]] + ([e[3]] + rest);
      assert e + rest == ['\\', 'x'] + tail;
      EscapeStep('x', tail, current);
      PlainStep(e[2], [e[3]] + rest, current + ['\\', 'x']);
      PlainStep(e[3], rest, current + ['\\', 'x'] + [e[2]]);
      assert current + ['\\', 'x'] + [e[2]] + [e[3]] == current + e;
    }
  }

  lemma {:induction false} QuotedWord(raw: string, rest: string, current: string)
    ensures Words(EscapedAll(raw) + (['"'] + rest), current, Some('"'), true) ==
      Words(rest, current + EscapedAll(raw) + ['"'], None, true)
    decreases |raw|
  {
    if raw == "" {
      assert EscapedAll(raw) + (['"'] + rest) == ['"'] + rest && (['"'] + rest)[1..] == rest;
      assert current + EscapedAll(raw) == current;
    } else {
      var e, more := Escaped(raw[0]), EscapedAll(raw[1..]);
      assert e + more + (['"'] + rest) == e + (more + (['"'] + rest));
      EscapedWord(raw[0], more + (['"'] + rest), current);
      QuotedWord(raw[1..], rest, current + e);
      assert current + e + more == current + (e + more);
    }
  }

  lemma ArgIsWord(raw: string, rest: string)
    ensures Words(QuoteArg(raw) + rest, "", None, false) == Words(rest, QuoteArg(raw), None, true)
  {
    if Bare(raw) {
      BareWord(raw, rest, "", false);
      assert "" + raw == raw;
    } else {
      QuotedWord(raw, rest, ['"']);
      OpenQuote(EscapedAll(raw) + (['"'] + rest));
      QuotedText(EscapedAll(raw), rest);
    }
  }

  lemma OpenQuote(rest: string)
    ensures Words(['"'] + rest, "", None, false) == Words(rest, ['"'], Some('"'), true)
  {
    assert (['"'] + rest)[1..] == rest && "" + ['"'] == ['"'];
  }

  lemma QuotedText(body: string, rest: string)
    ensures ['"'] + body + ['"'] + rest == ['"'] + (body + (['"'] + rest))
  {
  }

  /** A printed line has one word for each argument, and it is that argument quoted. */
  lemma {:induction false} WordsOfLine(parts: seq<string>)
    ensures WordsOf(Line(parts)) == Split(QuoteArgs(parts), parts != [])
    decreases |parts|
  {
    if parts == [] {
    } else if |parts| == 1 {
      ArgIsWord(parts[0], "");
      assert Line(parts) + "" == Line(parts);
      assert QuoteArgs(parts) == [QuoteArg(parts[0])];
    } else {
      var rest := Line(parts[1..]);
      ArgIsWord(parts[0], [' '] + rest);
      assert ([' '] + rest)[1..] == rest;
      WordsOfLine(parts[1..]);
      assert QuoteArgs(parts) == [QuoteArg(parts[0])] + QuoteArgs(parts[1..]);
    }
  }

  // ------------------------------------------------------------------ the loop over a line

  function After(words: seq<string>, rest: Split): Split {
    rest.(words := words + rest.words)
  }

  lemma AfterCons(words: seq<string>, word: string, rest: Split)
    ensures After(words, Cons(word, rest)) == After(words + [word], rest)
    ensures After([], rest) == rest
  {
    assert words + ([word] + rest.words) == (words + [word]) + rest.words;
  }

  lemma WordsAt(line: string, i: nat, current: string, quote: Option<char>, inWord: bool)
    requires i < |line|
    ensures var c := line[i];
      Words(line[i..], current, quote, inWord) ==
        if quote.Some? then
          if c == '\\' && quote.value == '"' then
            if i + 1 == |line| then Words("", current + [c], quote, inWord)
            else Words(line[i + 2..], current + [c, line[i + 1]], quote, inWord)
          else Words(line[i + 1..], current + [c], if c == quote.value then None else quote, inWord)
        else if c == '"' || c == '\'' then Words(line[i + 1..], current + [c], Some(c), true)
        else if IsJsSpace(c) then
          if inWord then Cons(current, Words(line[i + 1..], "", None, false))
            else Words(line[i + 1..], current, None, false)
        else Words(line[i + 1..], current + [c], None, true)
  {
    var s := line[i..];
    assert s[0] == line[i] && s[1..] == line[i + 1..];
    if i + 1 < |line| {
      assert s[..2] == [line[i], line[i + 1]] && s[2..] == line[i + 2..];
    } else {
      assert s == [line[i]];
    }
  }

  method SplitWords(line: string) returns (r: Split)
    ensures r == WordsOf(line)
  {
    var out: seq<string>, current, quote: Option<char>, inWord := [], "", None, false;
    var i := 0;
    assert line[0..] == line;
    AfterCons([], "", WordsOf(line));
    while i < |line|
      invariant i <= |line|
      invariant WordsOf(line) == After(out, Words(line[i..], current, quote, inWord))
    {
      var c := line[i];
      WordsAt(line, i, current, quote, inWord);
      if quote.Some? {
        if c == '\\' && quote.value == '"' {
          if i + 1 < |line| {
            current := current + [c, line[i + 1]];
            i := i + 1;
          } else {
            current := current + [c];
          }
        } else {
          current := current + [c];
          if c == quote.value {
            quote := None;
          }
        }
      } else if c == '"' || c == '\'' {
        quote := Some(c);
        inWord := true;
        current := current + [c];
      } else if IsJsSpace(c) {
        if inWord {
          AfterCons(out, current, Words(line[i + 1..], "", None, false));
          out := out + [current];
          current := "";
          inWord := false;
        }
      } else {
        inWord := true;
        current := current + [c];
      }
      i := i + 1;
    }
    if inWord {
      out := out + [current];
    }
    r := Split(out, inWord);
  }

  method WriteArg(raw: string) returns (out: string)
    ensures out == QuoteArg(raw)
  {
    if Bare(raw) {
      return raw;
    }
    out := ['"'];
    var i := 0;
    assert raw[0..] == raw;
    while i < |raw|
      invariant i <= |raw|
      invariant ['"'] + EscapedAll(raw) == out + EscapedAll(raw[i..])
    {
      assert raw[i..][1..] == raw[i + 1..];
      assert out + (Escaped(raw[i]) + EscapedAll(raw[i + 1..])) == (out + Escaped(raw[i])) + EscapedAll(raw[i + 1..]);
      out := out + Escaped(raw[i]);
      i := i + 1;
    }
    assert raw[i..] == "";
    assert out + "" == out;
    out := out + ['"'];
  }
}
