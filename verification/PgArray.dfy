/**
Postgres array text (src/lib/pgArray.ts): one-dimensional arrays taken apart and put together
again. A NULL element is `None`.
*/
module PgArray {
  import opened Prelude
  import opened Text

  type Item = Option<string>

  // ------------------------------------------------------------------ taking apart

  function DropSpaces(s: string): (r: string)
    ensures |r| <= |s|
  {
    if s != "" && s[0] == ' ' then DropSpaces(s[1..]) else s
  }

  /** What stands before the closing quote, unescaped, and what follows that quote. */
  function Quoted(s: string): (r: Option<(string, string)>)
    ensures r.Some? ==> |r.value.1| < |s|
    decreases |s|
  {
    if s == "" then None
    else if s[0] == '\\' then
      if |s| == 1 then None
        else (match Quoted(s[2..]) case None => None case Some((text, rest)) => Some(([s[1]] + text, rest)))
    else if s[0] == '"' then Some(("", s[1..]))
    else (match Quoted(s[1..]) case None => None case Some((text, rest)) => Some(([s[0]] + text, rest)))
  }

  /** How far a bare element reaches: to the next comma, or to the end. */
  function BareLength(s: string): (n: nat)
    ensures n <= |s|
  {
    var comma := IndexOf(s, ',');
    if comma == -1 then |s| else comma
  }

  function BareItem(upper: Upper, s: string): Item {
    var raw := JsTrim(s);
    if upper(raw) == "NULL" then None else Some(raw)
  }

  /** The elements in what is left of the body, at the start of an element; None for text that is not an array. */
  function Elements(upper: Upper, s: string): Option<seq<Item>>
    decreases |s|, 1
  {
    var t := DropSpaces(s);
    if t != "" && t[0] == '{' then None
    else if t != "" && t[0] == '"' then
      match Quoted(t[1..])
      case None => None
      case Some((text, rest)) => AfterItem(upper, Some(text), rest)
    else AfterItem(upper, BareItem(upper, t[..BareLength(t)]), t[BareLength(t)..])
  }

  /** The same with the element `item` just read. */
  function AfterItem(upper: Upper, item: Item, rest: string): Option<seq<Item>>
    decreases |rest|, 0
  {
    var t := DropSpaces(rest);
    if t == "" then Some([item])
    else if t[0] != ',' then None
    else Push(item, Elements(upper, t[1..]))
  }

  function Push(item: Item, rest: Option<seq<Item>>): Option<seq<Item>> {
    match rest case None => None case Some(items) => Some([item] + items)
  }

  function Body(source: string): string
    requires source != ""
  {
    if |source| == 1 then "" else source[1..|source| - 1]
  }

  function Parse(upper: Upper, text: string): Option<seq<Item>> {
    var source := JsTrim(text);
    if source == "" || source[0] != '{' || Last(source) != '}' then None
    else if JsTrim(Body(source)) == "" then Some([])
    else Elements(upper, Body(source))
  }

  // ------------------------------------------------------------------ putting together

  predicate IsSpecial(c: char) { IsJsSpace(c) || c == '{' || c == '}' || c == ',' || c == '"' || c == '\\' }

  predicate Plain(upper: Upper, text: string) {
    text != "" && (forall k :: 0 <= k < |text| ==> !IsSpecial(text[k])) && upper(text) != "NULL"
  }

  function Escaped(text: string): string {
    if text == "" then ""
    else (if text[0] == '\\' || text[0] == '"' then ['\\', text[0]] else [text[0]]) + Escaped(text[1..])
  }

  function FormatItem(upper: Upper, item: Item): string {
    match item
    case None => "NULL"
    case Some(text) => if Plain(upper, text) then text else ['"'] + Escaped(text) + ['"']
  }

  function FormatBody(upper: Upper, items: seq<Item>): string {
    if items == [] then ""
    else if |items| == 1 then FormatItem(upper, items[0])
    else FormatItem(upper, items[0]) + ([','] + FormatBody(upper, items[1..]))
  }

  function Format(upper: Upper, items: seq<Item>): string {
    ['{'] + FormatBody(upper, items) + ['}']
  }

  // ------------------------------------------------------------------ the round trip

  lemma {:induction false} QuotedBack(text: string, rest: string)
    ensures Quoted(Escaped(text) + (['"'] + rest)) == Some((text, rest))
  {
    var s := Escaped(text) + (['"'] + rest);
    if text == "" {
      assert s == ['"'] + rest && s[1..] == rest;
    } else {
      var tail := Escaped(text[1..]) + (['"'] + rest);
      QuotedBack(text[1..], rest);
      assert text == [text[0]] + text[1..];
      if text[0] == '\\' || text[0] == '"' {
        assert s == ['\\', text[0]] + tail && s[2..] == tail;
      } else {
        assert s == [text[0]] + tail && s[1..] == tail;
      }
    }
  }

  /** An element written without quotes, before a comma or the end. */
  lemma BareBack(upper: Upper, text: string, rest: string)
    requires text != "" && forall k :: 0 <= k < |text| ==> !IsSpecial(text[k])
    requires rest == "" || rest[0] == ','
    ensures Elements(upper, text + rest) == AfterItem(upper, if upper(text) == "NULL" then None else Some(text), rest)
  {
    var s := text + rest;
    assert s[0] == text[0] && !IsSpecial(s[0]);
    assert ',' !in text by {
      assert IsSpecial(',');
    }
    IndexOfConcat(text, rest, ',');
    assert s[..|text|] == text && s[|text|..] == rest;
    assert BareLength(s) == |text|;
    assert !IsSpecial(text[|text| - 1]);
    TrimTight(text);
  }

  lemma ItemBack(upper: Upper, item: Item, rest: string)
    requires rest == "" || rest[0] == ','
    ensures Elements(upper, FormatItem(upper, item) + rest) == AfterItem(upper, item, rest)
  {
    if item.None? {
      assert IsAscii("NULL") && AsciiUpper("NULL") == "NULL";
      BareBack(upper, "NULL", rest);
    } else if Plain(upper, item.value) {
      BareBack(upper, item.value, rest);
    } else {
      var s := FormatItem(upper, item) + rest;
      assert s[1..] == Escaped(item.value) + (['"'] + rest);
      QuotedBack(item.value, rest);
    }
  }

  lemma {:induction false} BodyBack(upper: Upper, items: seq<Item>)
    requires items != []
    ensures Elements(upper, FormatBody(upper, items)) == Some(items)
  {
    if |items| == 1 {
      assert FormatItem(upper, items[0]) + "" == FormatItem(upper, items[0]);
      ItemBack(upper, items[0], "");
      assert items == [items[0]];
    } else {
      var rest := FormatBody(upper, items[1..]);
      ItemBack(upper, items[0], [','] + rest);
      assert ([','] + rest)[1..] == rest;
      BodyBack(upper, items[1..]);
      assert [items[0]] + items[1..] == items;
    }
  }

  lemma BodyVisible(upper: Upper, items: seq<Item>)
    requires items != []
    ensures JsTrim(FormatBody(upper, items)) != ""
  {
    var body, first := FormatBody(upper, items), FormatItem(upper, items[0]);
    assert body[0] == first[0];
    assert !IsJsSpace(first[0]);
    assert TrimLeft(body) == body;
    TrimRightStops(body);
  }

  lemma {:induction false} TrimRightStops(s: string)
    requires s != "" && !IsJsSpace(s[0])
    ensures TrimRight(s) != ""
  {
    if IsJsSpace(s[|s| - 1]) {
      TrimRightStops(s[..|s| - 1]);
    }
  }

  /** Any list of texts and NULLs is read back from the text it is written as. */
  lemma RoundTrip(upper: Upper, items: seq<Item>)
    ensures Parse(upper, Format(upper, items)) == Some(items)
  {
    var text := Format(upper, items);
    TrimTight(text);
    assert Body(text) == FormatBody(upper, items);
    if items != [] {
      BodyVisible(upper, items);
      BodyBack(upper, items);
    }
  }

  // ------------------------------------------------------------------ the loop over the body

  method SkipSpaces(s: string, at: nat) returns (i: nat)
    requires at <= |s|
    ensures at <= i <= |s| && s[i..] == DropSpaces(s[at..])
  {
    i := at;
    while i < |s| && s[i] == ' '
      invariant at <= i <= |s|
      invariant DropSpaces(s[at..]) == DropSpaces(s[i..])
    {
      assert s[i..][1..] == s[i + 1..];
      i := i + 1;
    }
    assert i < |s| ==> s[i..][0] == s[i];
  }

  function Resume(read: string, r: Option<(string, string)>): Option<(string, string)> {
    match r case None => None case Some((text, rest)) => Some((read + text, rest))
  }

  lemma ResumeStep(read: string, c: char, r: Option<(string, string)>)
    ensures Resume(read, Resume([c], r)) == Resume(read + [c], r)
    ensures Resume("", r) == r
  {
    if r.Some? {
      assert read + ([c] + r.value.0) == read + [c] + r.value.0;
      assert "" + r.value.0 == r.value.0;
    }
  }

  method ReadQuoted(s: string, at: nat) returns (out: string, i: nat, closed: bool)
    requires at <= |s|
    ensures at <= i <= |s|
    ensures Quoted(s[at..]) == if closed then Some((out, s[i..])) else None
  {
    out, i := "", at;
    ResumeStep("", ' ', Quoted(s[at..]));
    while i < |s|
      invariant at <= i <= |s|
      invariant Quoted(s[at..]) == Resume(out, Quoted(s[i..]))
    {
      var rest := s[i..];
      assert rest[0] == s[i] && rest[1..] == s[i + 1..];
      if s[i] == '\\' {
        if i + 1 == |s| {
          return out, i, false;
        }
        assert rest[1] == s[i + 1] && rest[2..] == s[i + 2..];
        ResumeStep(out, s[i + 1], Quoted(s[i + 2..]));
        out, i := out + [s[i + 1]], i + 2;
      } else if s[i] == '"' {
        assert out + "" == out;
        return out, i + 1, true;
      } else {
        ResumeStep(out, s[i], Quoted(s[i + 1..]));
        out, i := out + [s[i]], i + 1;
      }
    }
    assert s[i..] == "";
    closed := false;
  }

  function Before(items: seq<Item>, rest: Option<seq<Item>>): Option<seq<Item>> {
    match rest case None => None case Some(more) => Some(items + more)
  }

  lemma BeforePush(items: seq<Item>, item: Item, rest: Option<seq<Item>>)
    ensures Before(items, Push(item, rest)) == Before(items + [item], rest)
    ensures Before([], rest) == rest
  {
    if rest.Some? {
      assert items + ([item] + rest.value) == items + [item] + rest.value;
      assert [] + rest.value == rest.value;
    }
  }

  /** The element at `at`, and where it ends; None for text that is not an element. */
  method ReadItem(upper: Upper, body: string, at: nat) returns (item: Option<Item>, i: nat)
    requires at <= |body|
    ensures at <= i <= |body|
    ensures Elements(upper, body[at..]) == if item.None? then None else AfterItem(upper, item.value, body[i..])
  {
    i := SkipSpaces(body, at);
    var t := body[i..];
    assert t != "" ==> t[0] == body[i];
    if i < |body| && body[i] == '{' {
      return None, i;
    }
    if i < |body| && body[i] == '"' {
      assert t[1..] == body[i + 1..];
      var text, next, closed := ReadQuoted(body, i + 1);
      return if closed then Some(Some(text)) else None, next;
    }
    var end := i + BareLength(t);
    assert t[..BareLength(t)] == body[i..end] && t[BareLength(t)..] == body[end..];
    item, i := Some(BareItem(upper, body[i..end])), end;
  }

  method ParseArray(upper: Upper, text: string) returns (r: Option<seq<Item>>)
    ensures r == Parse(upper, text)
  {
    var source := JsTrim(text);
    if source == "" || source[0] != '{' || Last(source) != '}' {
      return None;
    }
    var body := Body(source);
    var items: seq<Item> := [];
    var i := 0;
    if JsTrim(body) == "" {
      return Some(items);
    }
    assert body[0..] == body;
    BeforePush([], None, Elements(upper, body));
    while true
      invariant i <= |body|
      invariant Elements(upper, body) == Before(items, Elements(upper, body[i..]))
      decreases |body| - i
    {
      var item, end := ReadItem(upper, body, i);
      if item.None? {
        return None;
      }
      var next := SkipSpaces(body, end);
      if next == |body| {
        return Some(items + [item.value]);
      }
      assert body[next..][0] == body[next] && body[next..][1..] == body[next + 1..];
      if body[next] != ',' {
        return None;
      }
      BeforePush(items, item.value, Elements(upper, body[next + 1..]));
      items, i := items + [item.value], next + 1;
    }
  }
}
