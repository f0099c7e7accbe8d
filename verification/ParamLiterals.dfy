/**
What a parameter value becomes in the script, by the mode it is given in.
*/
module ParamLiterals {
  import opened Prelude
  import opened Text
  import opened ParamBinding

  /** A text in single quotes that says `value`. */
  ghost predicate Says(literal: string, value: string) {
    && |literal| >= 2 && literal[0] == '\'' && Last(literal) == '\''
    && Undoubled(literal[1..|literal| - 1], '\'') == value
  }

  lemma QuotedSays(value: string)
    ensures Says(QuotedLiteral(value), value)
  {
    var literal := QuotedLiteral(value);
    assert literal[1..|literal| - 1] == Doubled(value, '\'');
    UndoubledBack(value, '\'');
  }

  /** Given as text, any value is quoted, a number or a keyword as well; given raw, none is. */
  lemma TextIsAlwaysQuoted(value: string)
    ensures Says(ParamLiteral(ParamValue(value, AsText)), value)
    ensures ParamLiteral(ParamValue(value, Raw)) == value
  {
    QuotedSays(value);
  }

  lemma UnsignedBegins(s: string)
    requires IsUnsigned(s)
    ensures s != "" && IsDigit(s[0])
  {
    var k :| 0 < k <= |s| && Decimal(s[..k]) && IsExponent(s[k..]);
    var d := s[..k];
    if !Digits(d) {
      var j :| 0 < j < |d| && d[j] == '.' && Digits(d[..j]) && Digits(d[j + 1..]);
      assert d[..j][0] == s[0];
    }
  }

  lemma NumberIsBare(s: string)
    requires IsNumber(s)
    ensures s != "" && (s[0] == '-' || IsDigit(s[0]))
  {
    if s == "" || s[0] != '-' {
      UnsignedBegins(s);
    }
  }

  lemma UpperIs(t: string, upper: string, lower: string)
    requires |upper| == |lower|
    requires forall k :: 0 <= k < |upper| ==> 'A' <= upper[k] <= 'Z' && lower[k] == AsciiLowerChar(upper[k])
    ensures AsciiUpper(t) == upper <==> AsciiLower(t) == lower
    ensures AsciiUpper(t) == upper ==> AsciiLower(AsciiUpper(t)) == lower
  {
    if AsciiUpper(t) == upper {
      forall k | 0 <= k < |t| ensures AsciiLower(t)[k] == lower[k] {
        assert AsciiUpper(t)[k] == upper[k];
      }
    }
    if AsciiLower(t) == lower {
      forall k | 0 <= k < |t| ensures AsciiUpper(t)[k] == upper[k] {
        assert AsciiLower(t)[k] == lower[k];
      }
    }
  }

  /** The keywords, in any case. */
  lemma KeywordIs(t: string)
    ensures IsKeyword(t) <==> AsciiLower(t) in {"null", "true", "false"}
    ensures IsKeyword(t) ==>
      AsciiUpper(t) in {"NULL", "TRUE", "FALSE"} && AsciiLower(AsciiUpper(t)) == AsciiLower(t) && !IsNumber(t)
  {
    UpperIs(t, "NULL", "null");
    UpperIs(t, "TRUE", "true");
    UpperIs(t, "FALSE", "false");
    if IsNumber(t) {
      NumberIsBare(t);
      assert AsciiUpper(t)[0] == t[0];
    }
  }

  /**
  Left to itself, a value is written bare exactly when, trimmed, it is a number or one of the three keywords in any
  case; a number as it stands, a keyword in upper case. Every other value is quoted, with its white space.
  */
  lemma AutoExactly(value: string)
    ensures var literal, t := ParamLiteral(ParamValue(value, Auto)), JsTrim(value);
      && literal != ""
      && (literal[0] != '\'' <==> IsNumber(t) || AsciiLower(t) in {"null", "true", "false"})
      && (IsNumber(t) ==> literal == t)
      && (AsciiLower(t) in {"null", "true", "false"} ==>
            literal in {"NULL", "TRUE", "FALSE"} && AsciiLower(literal) == AsciiLower(t))
      && (literal[0] == '\'' ==> Says(literal, value))
  {
    var t := JsTrim(value);
    QuotedSays(value);
    KeywordIs(t);
    if IsNumber(t) {
      NumberIsBare(t);
    }
  }
}
