/**
What the Redis tokenizer makes of text in quotes, and which line of a script it refuses.
*/
module RedisLaws {
  import opened Prelude
  import opened Text
  import opened RedisTokens

  // ------------------------------------------------------------------ single quotes

  /** Text for single quotes: its own quotes get a backslash, and nothing else does. */
  function SingleWritten(body: string): string {
    if body == "" then "" else (if body[0] == '\'' then ['\\', '\''] else [body[0]]) + SingleWritten(body[1..])
  }

  /** A backslash is a backslash in single quotes, unless a quote follows it. */
  lemma SingleStep(body: string, rest: string, current: string)
    requires body != "" && rest != ""
    requires body[0] == '\\' && |body| == 1 ==> rest[0] != '\''
    ensures Tokens(SingleWritten(body) + rest, current, true, Single) ==
      Tokens(SingleWritten(body[1..]) + rest, current + [body[0]], true, Single)
  {
    var s, more := SingleWritten(body) + rest, SingleWritten(body[1..]) + rest;
    if body[0] == '\'' {
      assert s == ['\\', '\''] + more && s[2..] == more;
    } else {
      assert s == [body[0]] + more && s[1..] == more;
      assert |body| > 1 ==> more[0] == if body[1] == '\'' then '\\' else body[1];
      assert |body| == 1 ==> more == rest;
    }
  }

  lemma {:induction false} SingleInside(body: string, rest: string, current: string)
    requires rest != "" && (body != "" && Last(body) == '\\' ==> rest[0] != '\'')
    ensures Tokens(SingleWritten(body) + rest, current, true, Single) == Tokens(rest, current + body, true, Single)
    decreases |body|
  {
    if body == "" {
      assert SingleWritten(body) + rest == rest && current + body == current;
    } else {
      assert |body| > 1 ==> Last(body[1..]) == Last(body);
      SingleStep(body, rest, current);
      SingleInside(body[1..], rest, current + [body[0]]);
      assert current + [body[0]] + body[1..] == current + body;
    }
  }

  /** What stands in single quotes is read verbatim, blanks, double quotes and backslashes included. */
  lemma SingleRead(body: string, rest: string, current: string, inToken: bool)
    requires body != "" ==> Last(body) != '\\'
    ensures Tokens(['\''] + SingleWritten(body) + ['\''] + rest, current, inToken, Outside) ==
      Tokens(rest, current + body, true, Outside)
  {
    var s, close := ['\''] + SingleWritten(body) + ['\''] + rest, ['\''] + rest;
    assert s[1..] == SingleWritten(body) + close;
    SingleInside(body, close, current);
    assert close[1..] == rest;
  }

  lemma {:induction false} WrittenSnoc(a: string, c: char)
    requires c != '\''
    ensures SingleWritten(a + [c]) == SingleWritten(a) + [c]
  {
    if a == "" {
      assert a + [c] == [c] && [c][1..] == "";
      assert SingleWritten([c][1..]) == "";
    } else {
      assert (a + [c])[1..] == a[1..] + [c];
      WrittenSnoc(a[1..], c);
    }
  }

  /** A text that ends in a backslash cannot be closed: its closing quote is read as one of its own. */
  lemma SingleStaysOpen(body: string)
    requires body != "" && Last(body) == '\\'
    ensures Tokenized(['\''] + SingleWritten(body) + ['\'']) == Err(UnterminatedSingle)
  {
    var front := body[..|body| - 1];
    assert body == front + ['\\'];
    var s := ['\''] + SingleWritten(body) + ['\''];
    WrittenSnoc(front, '\\');
    assert s[1..] == SingleWritten(front) + ['\\', '\''];
    SingleInside(front, ['\\', '\''], "");
    assert ['\\', '\''][2..] == "";
  }

  // ------------------------------------------------------------------ double quotes

  /** The escapes of one letter; any other character but `x` stands for itself behind a backslash. */
  const ESCAPES: map<char, char> := map['n' := '\n', 'r' := '\r', 't' := '\t', 'a' := '\U{0007}', 'b' := '\U{0008}']

  lemma EscapeRead(c: char, rest: string, current: string)
    requires c != 'x'
    ensures Tokens(['\\', c] + rest, current, true, Double) ==
      Tokens(rest, current + [if c in ESCAPES then ESCAPES[c] else c], true, Double)
  {
    assert (['\\', c] + rest)[2..] == rest;
  }

  /** The value of a hexadecimal digit, upper or lower case. */
  const DIGITS: string := "0123456789abcdef"

  predicate IsHexDigit(c: char, value: nat) {
    value < 16 && AsciiLowerChar(c) == DIGITS[value]
  }

  lemma HexDigitIs(c: char, value: nat)
    requires IsHexDigit(c, value)
    ensures HexValue(c) == Some(value) && c != '+'
  {
  }

  lemma HexRead(a: char, b: char, high: nat, low: nat, rest: string, current: string)
    requires IsHexDigit(a, high) && IsHexDigit(b, low)
    ensures Tokens(['\\', 'x', a, b] + rest, current, true, Double) ==
      Tokens(rest, current + [(16 * high + low) as char], true, Double)
  {
    var s := ['\\', 'x', a, b] + rest;
    assert s[4..] == rest;
    HexDigitIs(a, high);
    HexDigitIs(b, low);
  }

  /** Only a quote or a backslash is special in double quotes. */
  lemma {:induction false} DoublePlain(body: string, rest: string, current: string)
    requires forall k :: 0 <= k < |body| ==> body[k] != '"' && body[k] != '\\'
    ensures Tokens(body + rest, current, true, Double) == Tokens(rest, current + body, true, Double)
    decreases |body|
  {
    if body == "" {
      assert body + rest == rest && current + body == current;
    } else {
      assert (body + rest)[1..] == body[1..] + rest;
      DoublePlain(body[1..], rest, current + [body[0]]);
      assert current + [body[0]] + body[1..] == current + body;
    }
  }

  // ------------------------------------------------------------------ scripts

  predicate IsCommand(line: string) { !Skipped(Trim(line)) }

  predicate Fails(line: string, error: TokenError) {
    IsCommand(line) && Tokenized(Trim(line)) == Err(error)
  }

  /** A script is refused for the first line that does not tokenize, and that line is named, counted from 1. */
  lemma {:induction false} RefusedAtFirst(lines: seq<string>, n: nat)
    ensures var r := CommandsFrom(lines, n);
      && (r.Ok? <==> forall k :: 0 <= k < |lines| && IsCommand(lines[k]) ==> Tokenized(Trim(lines[k])).Ok?)
      && (r.Err? ==>
            n < r.error.line <= n + |lines| && Fails(lines[r.error.line - n - 1], r.error.error)
            && forall k :: 0 <= k < r.error.line - n - 1 && IsCommand(lines[k]) ==> Tokenized(Trim(lines[k])).Ok?)
  {
    if lines != [] {
      var rest := lines[1..];
      RefusedAtFirst(rest, n + 1);
      assert forall k :: 0 < k < |lines| ==> lines[k] == rest[k - 1];
      if CommandsFrom(rest, n + 1).Ok? && (IsCommand(lines[0]) ==> Tokenized(Trim(lines[0])).Ok?) {
        forall k | 0 <= k < |lines| && IsCommand(lines[k]) ensures Tokenized(Trim(lines[k])).Ok? {
          assert k > 0 ==> IsCommand(rest[k - 1]);
        }
      }
      forall k | 0 <= k < |rest| && IsCommand(rest[k]) ensures IsCommand(lines[k + 1]) {
      }
    }
  }
}
