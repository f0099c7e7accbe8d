/**
Characters and text. A character is a Unicode scalar value, as in Rust; JavaScript's code units
are told apart from it only where offsets are counted.
*/
module Text {
  /** Rust's `char::is_whitespace`: the Unicode White_Space property. */
  predicate IsWhitespace(c: char) {
    var n := c as int;
    || 0x09 <= n <= 0x0D || n == 0x20 || n == 0x85 || n == 0xA0 || n == 0x1680
    || 0x2000 <= n <= 0x200A || n == 0x2028 || n == 0x2029 || n == 0x202F || n == 0x205F || n == 0x3000
  }

  /** JavaScript's `\s`, which is also what `trim` removes: no U+0085, but the byte order mark. */
  predicate IsJsSpace(c: char) {
    var n := c as int;
    || 0x09 <= n <= 0x0D || n == 0x20 || n == 0xA0 || n == 0xFEFF || n == 0x1680
    || 0x2000 <= n <= 0x200A || n == 0x2028 || n == 0x2029 || n == 0x202F || n == 0x205F || n == 0x3000
  }

  predicate IsQuote(c: char) { c == '\'' || c == '"' || c == '`' }

  predicate NextIs(s: string, i: nat, c: char) { i + 1 < |s| && s[i + 1] == c }

  predicate IsDigit(c: char) { '0' <= c <= '9' }

  predicate IsAsciiAlpha(c: char) { 'a' <= c <= 'z' || 'A' <= c <= 'Z' }

  predicate IsAsciiAlnum(c: char) { IsAsciiAlpha(c) || IsDigit(c) }

  predicate IsWordChar(c: char) { IsAsciiAlnum(c) || c == '_' }

  predicate IsAscii(s: string) { forall k :: 0 <= k < |s| ==> s[k] as int < 128 }

  function AsciiUpperChar(c: char): char {
    if 'a' <= c <= 'z' then c - 32 as char else c
  }

  function AsciiUpper(s: string): (r: string)
    ensures |r| == |s| && forall k :: 0 <= k < |s| ==> r[k] == AsciiUpperChar(s[k])
  {
    seq(|s|, k requires 0 <= k < |s| => AsciiUpperChar(s[k]))
  }

  function AsciiLowerChar(c: char): char {
    if 'A' <= c <= 'Z' then c + 32 as char else c
  }

  function AsciiLower(s: string): (r: string)
    ensures |r| == |s| && forall k :: 0 <= k < |s| ==> r[k] == AsciiLowerChar(s[k])
  {
    seq(|s|, k requires 0 <= k < |s| => AsciiLowerChar(s[k]))
  }

  ghost predicate AlnumTable(p: char -> bool) {
    && (forall c: char :: c as int < 128 ==> (p(c) <==> IsAsciiAlnum(c)))
    && (forall c: char :: IsWhitespace(c) ==> !p(c))
  }

  /** Rust's `char::is_alphanumeric`, known only as far as ASCII and white space go. */
  type Alnum = p: char -> bool | AlnumTable(p) witness (c: char) => IsAsciiAlnum(c)

  // ------------------------------------------------------------------ trimming (Rust)

  /** First position in [from, end) that is not white space, or `end`. */
  function SkipLeft(s: string, from: nat, end: nat): (r: nat)
    requires from <= end <= |s|
    ensures from <= r <= end
    decreases end - from
  {
    if from < end && IsWhitespace(s[from]) then SkipLeft(s, from + 1, end) else from
  }

  /** One past the last position in [from, end) that is not white space, or `from`. */
  function SkipRight(s: string, from: nat, end: nat): (r: nat)
    requires from <= end <= |s|
    ensures from <= r <= end
  {
    if end > from && IsWhitespace(s[end - 1]) then SkipRight(s, from, end - 1) else end
  }

  lemma {:induction false} SkipLeftIs(s: string, from: nat, end: nat)
    requires from <= end <= |s|
    ensures forall k :: from <= k < SkipLeft(s, from, end) ==> IsWhitespace(s[k])
    ensures SkipLeft(s, from, end) < end ==> !IsWhitespace(s[SkipLeft(s, from, end)])
    decreases end - from
  {
    if from < end && IsWhitespace(s[from]) {
      SkipLeftIs(s, from + 1, end);
    }
  }

  lemma {:induction false} SkipRightIs(s: string, from: nat, end: nat)
    requires from <= end <= |s|
    ensures forall k :: SkipRight(s, from, end) <= k < end ==> IsWhitespace(s[k])
    ensures SkipRight(s, from, end) > from ==> !IsWhitespace(s[SkipRight(s, from, end) - 1])
    decreases end
  {
    if end > from && IsWhitespace(s[end - 1]) {
      SkipRightIs(s, from, end - 1);
    }
  }

  function Trim(s: string): string {
    var from := SkipLeft(s, 0, |s|);
    s[from..SkipRight(s, from, |s|)]
  }

  predicate Blank(s: string) {
    forall k :: 0 <= k < |s| ==> IsWhitespace(s[k])
  }

  lemma TrimEmpty(s: string)
    ensures Trim(s) == [] <==> Blank(s)
    ensures Trim(s) != [] ==> !IsWhitespace(Trim(s)[0])
  {
    var from := SkipLeft(s, 0, |s|);
    SkipLeftIs(s, 0, |s|);
    SkipRightIs(s, from, |s|);
    if from < |s| {
      assert !IsWhitespace(s[from]);
      assert SkipRight(s, from, |s|) > from;
    }
  }

  // ------------------------------------------------------------------ trimming (JavaScript)

  function TrimLeft(s: string): string {
    if s != [] && IsJsSpace(s[0]) then TrimLeft(s[1..]) else s
  }

  function TrimRight(s: string): string {
    if s != [] && IsJsSpace(s[|s| - 1]) then TrimRight(s[..|s| - 1]) else s
  }

  function JsTrim(s: string): string { TrimRight(TrimLeft(s)) }

  lemma {:induction false} TrimLeftShorter(s: string)
    ensures |TrimLeft(s)| <= |s| && (|TrimLeft(s)| == |s| ==> TrimLeft(s) == s)
  {
    if s != [] && IsJsSpace(s[0]) {
      TrimLeftShorter(s[1..]);
    }
  }

  lemma {:induction false} TrimRightShorter(s: string)
    ensures |TrimRight(s)| <= |s| && (|TrimRight(s)| == |s| ==> TrimRight(s) == s)
  {
    if s != [] && IsJsSpace(s[|s| - 1]) {
      TrimRightShorter(s[..|s| - 1]);
    }
  }

  lemma TrimShorter(s: string)
    ensures |JsTrim(s)| <= |s| && (|JsTrim(s)| == |s| ==> JsTrim(s) == s)
  {
    TrimLeftShorter(s);
    TrimRightShorter(TrimLeft(s));
  }

  lemma TrimTight(s: string)
    requires s != "" && !IsJsSpace(s[0]) && !IsJsSpace(s[|s| - 1])
    ensures JsTrim(s) == s
  {
  }

  // ------------------------------------------------------------------ numbers and doubled quotes

  predicate Digits(s: string) { s != [] && forall k :: 0 <= k < |s| ==> IsDigit(s[k]) }

  predicate Decimal(s: string) {
    Digits(s) || exists k :: 0 < k < |s| && s[k] == '.' && Digits(s[..k]) && Digits(s[k + 1..])
  }

  /** `v` with every `q` in it doubled. */
  function Doubled(v: string, q: char): string {
    if v == [] then [] else (if v[0] == q then [q, q] else [v[0]]) + Doubled(v[1..], q)
  }

  // ------------------------------------------------------------------ upper case (JavaScript)

  ghost predicate UpperTable(f: string -> string) {
    forall s {:trigger IsAscii(s)} :: IsAscii(s) ==> f(s) == AsciiUpper(s)
  }

  /** JavaScript's `toUpperCase`, known only on ASCII text. */
  type Upper = f: string -> string | UpperTable(f) witness (s: string) => AsciiUpper(s)
}
