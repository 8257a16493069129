/**
 * How the exporters print a value into Cypher text, and a reader that gets the value back:
 * escape_cypher_string and normalize_unicode (export_to_cypher.py), cypher_string_literal and
 * format_embedding (export_embeddings_to_cypher.py).
 */
module CypherValues {
  import opened Prelude
  import opened CypherSplitter

  // ----- character replacement -----

  /** Python's `s.replace`, for a pattern of one character. */
  function Replace(s: string, from: char, to: string): string {
    if s == "" then "" else (if s[0] == from then to else s[..1]) + Replace(s[1..], from, to)
  }

  lemma {:induction false} ReplaceConcat(a: string, b: string, from: char, to: string)
    ensures Replace(a + b, from, to) == Replace(a, from, to) + Replace(b, from, to)
    decreases |a|
  {
    if a == "" {
      assert a + b == b;
    } else {
      var head := if a[0] == from then to else a[..1];
      var whole := a + b;
      assert whole[1..] == a[1..] + b && whole[..1] == a[..1];
      ReplaceConcat(a[1..], b, from, to);
      assert Replace(whole, from, to) == head + Replace(a[1..] + b, from, to);
      assert head + (Replace(a[1..], from, to) + Replace(b, from, to)) == head + Replace(a[1..], from, to) + Replace(b, from, to);
    }
  }

  /** The characters normalize_unicode rewrites, in the order of its table. */
  const REPLACEMENTS: seq<(char, string)> := [
    ('\U{2018}', "'"), ('\U{2019}', "'"), ('\U{201C}', "\""), ('\U{201D}', "\""), ('\U{2013}', "-"),
    ('\U{2014}', "--"), ('\U{2026}', "..."), ('\U{00A0}', " "), ('\U{00B7}', "-"), ('\U{2022}', "-"),
    ('\U{00AD}', "")]

  function ReplaceAll(s: string, table: seq<(char, string)>): string
    decreases |table|
  {
    if table == [] then s else ReplaceAll(Replace(s, table[0].0, table[0].1), table[1..])
  }

  function NormalizeUnicode(s: string): string { ReplaceAll(s, REPLACEMENTS) }

  /** The three passes that keep line breaks and tabs out of a literal. */
  function FlattenSpace(s: string): string {
    Replace(Replace(Replace(s, '\n', " "), '\r', " "), '\t', " ")
  }

  function EscapeText(s: string): string {
    FlattenSpace(Replace(Replace(s, '\\', "\\\\"), '"', "\\\""))
  }

  function Quote(body: string): string { "\"" + body + "\"" }

  /** cypher_string_literal: a literal of the text as it is. */
  function StringLiteral(s: string): string { Quote(EscapeText(s)) }

  // ----- values -----

  /** The property values an export meets; a number is held as the text Python prints for it. */
  datatype PyValue = PyNone | PyBool(b: bool) | PyNumber(text: string) | PyList(items: seq<PyValue>) | PyStr(text: string)

  function EscapeCypher(v: PyValue): string {
    match v
    case PyNone => "null"
    case PyBool(b) => if b then "true" else "false"
    case PyNumber(text) => text
    case PyList(items) => "[" + EscapeItems(items) + "]"
    case PyStr(text) => StringLiteral(NormalizeUnicode(text))
  }

  function EscapeItems(items: seq<PyValue>): string {
    if |items| == 0 then ""
    else if |items| == 1 then EscapeCypher(items[0])
    else EscapeCypher(items[0]) + ", " + EscapeItems(items[1..])
  }

  /** What Python prints for a number: never empty, no quotes, brackets, commas, spaces and so on. */
  predicate IsNumberChar(c: char) { '0' <= c <= '9' || 'a' <= c <= 'z' || c == '.' || c == '+' || c == '-' }

  predicate IsNumberText(t: string) { t != "" && forall k :: 0 <= k < |t| ==> IsNumberChar(t[k]) }

  predicate WellFormed(v: PyValue) {
    match v
    case PyNumber(text) => IsNumberText(text)
    case PyList(items) => forall k :: 0 <= k < |items| ==> WellFormed(items[k])
    case _ => true
  }

  // ----- reading a literal back -----

  datatype Literal = Bare(word: string) | Quoted(text: string) | Items(items: seq<Literal>)

  /** The text a literal's body stands for. */
  function Unescape(body: string): string
    decreases |body|
  {
    if body == "" then ""
    else if body[0] == '\\' && |body| > 1 then body[1..2] + Unescape(body[2..])
    else body[..1] + Unescape(body[1..])
  }

  function WordLen(s: string): (n: nat)
    ensures n <= |s|
  {
    if s != "" && IsNumberChar(s[0]) then 1 + WordLen(s[1..]) else 0
  }

  /** One literal at the front of `s`, and the text after it. */
  function Read(s: string): (r: Option<(Literal, string)>)
    ensures r.Some? ==> |r.value.1| < |s|
    decreases |s|, 0
  {
    if s == "" then None
    else if s[0] == '"' then
      match StringLen(s[1..], '"')
      case None => None
      case Some(n) => Some((Quoted(Unescape(s[1..n])), s[1 + n..]))
    else if s[0] == '[' then
      if |s| > 1 && s[1] == ']' then Some((Items([]), s[2..]))
      else
        match ReadItems(s[1..])
        case None => None
        case Some(r) => Some((Items(r.0), r.1))
    else if WordLen(s) > 0 then Some((Bare(s[..WordLen(s)]), s[WordLen(s)..]))
    else None
  }

  /** Literals with a comma and a space between them, up to and including the closing bracket. */
  function ReadItems(s: string): (r: Option<(seq<Literal>, string)>)
    ensures r.Some? ==> |r.value.1| < |s|
    decreases |s|, 1
  {
    match Read(s)
    case None => None
    case Some(first) =>
      var rest := first.1;
      if rest != "" && rest[0] == ']' then Some(([first.0], rest[1..]))
      else if |rest| > 1 && rest[0] == ',' && rest[1] == ' ' then
        match ReadItems(rest[2..])
        case None => None
        case Some(r) => Some(([first.0] + r.0, r.1))
      else None
  }

  /** What a printed value should read back as. */
  function Meaning(v: PyValue): Literal {
    match v
    case PyNone => Bare("null")
    case PyBool(b) => Bare(if b then "true" else "false")
    case PyNumber(text) => Bare(text)
    case PyList(items) => Items(Meanings(items))
    case PyStr(text) => Quoted(FlattenSpace(NormalizeUnicode(text)))
  }

  function Meanings(items: seq<PyValue>): seq<Literal> {
    if items == [] then [] else [Meaning(items[0])] + Meanings(items[1..])
  }

  // ----- the string round trip -----

  lemma FlattenConcat(a: string, b: string)
    ensures FlattenSpace(a + b) == FlattenSpace(a) + FlattenSpace(b)
  {
    ReplaceConcat(a, b, '\n', " ");
    ReplaceConcat(Replace(a, '\n', " "), Replace(b, '\n', " "), '\r', " ");
    ReplaceConcat(Replace(Replace(a, '\n', " "), '\r', " "), Replace(Replace(b, '\n', " "), '\r', " "), '\t', " ");
  }

  lemma EscapeConcat(a: string, b: string)
    ensures EscapeText(a + b) == EscapeText(a) + EscapeText(b)
  {
    ReplaceConcat(a, b, '\\', "\\\\");
    ReplaceConcat(Replace(a, '\\', "\\\\"), Replace(b, '\\', "\\\\"), '"', "\\\"");
    FlattenConcat(Replace(Replace(a, '\\', "\\\\"), '"', "\\\""), Replace(Replace(b, '\\', "\\\\"), '"', "\\\""));
  }

  lemma ReplaceOne(c: char, from: char, to: string)
    ensures Replace([c], from, to) == if c == from then to else [c]
  {
    assert [c][1..] == "" && [c][..1] == [c];
  }

  lemma ReplaceTwo(c: char, d: char, from: char, to: string)
    requires c != from && d != from
    ensures Replace([c, d], from, to) == [c, d]
  {
    assert [c, d][1..] == [d] && [c, d][..1] == [c];
    ReplaceOne(d, from, to);
  }

  lemma FlattenChar(c: char)
    ensures FlattenSpace([c]) == if c == '\n' || c == '\r' || c == '\t' then " " else [c]
  {
    ReplaceOne(c, '\n', " ");
    ReplaceOne(if c == '\n' then ' ' else c, '\r', " ");
    ReplaceOne(if c == '\n' || c == '\r' then ' ' else c, '\t', " ");
  }

  lemma EscapeChar(c: char)
    ensures EscapeText([c]) == if c == '\\' || c == '"' then ['\\', c] else FlattenSpace([c])
  {
    ReplaceOne(c, '\\', "\\\\");
    if c == '\\' {
      ReplaceTwo('\\', '\\', '"', "\\\"");
    } else {
      ReplaceOne(c, '"', "\\\"");
    }
    if c == '\\' || c == '"' {
      ReplaceTwo('\\', c, '\n', " ");
      ReplaceTwo('\\', c, '\r', " ");
      ReplaceTwo('\\', c, '\t', " ");
    }
  }

  /** Escaping and flattening read off one character at a time. */
  function FlatChar(c: char): char { if c == '\n' || c == '\r' || c == '\t' then ' ' else c }

  function FlatChars(s: string): string { if s == "" then "" else [FlatChar(s[0])] + FlatChars(s[1..]) }

  function EscapeChars(s: string): string {
    if s == "" then ""
    else (if s[0] == '\\' || s[0] == '"' then ['\\', s[0]] else [FlatChar(s[0])]) + EscapeChars(s[1..])
  }

  lemma {:induction false} ByCharacter(s: string)
    ensures EscapeText(s) == EscapeChars(s) && FlattenSpace(s) == FlatChars(s)
    decreases |s|
  {
    if s != "" {
      assert s == [s[0]] + s[1..];
      ByCharacter(s[1..]);
      EscapeConcat([s[0]], s[1..]);
      FlattenConcat([s[0]], s[1..]);
      EscapeChar(s[0]);
      FlattenChar(s[0]);
    }
  }

  lemma StepPlain(c: char, s: string)
    requires c != '\\' && c != '"'
    ensures StringLen([c] + s, '"') == Plus(1, StringLen(s, '"'))
  {
    assert ([c] + s)[1..] == s;
  }

  lemma StepPair(c: char, s: string)
    ensures StringLen(['\\', c] + s, '"') == Plus(2, StringLen(s, '"'))
  {
    assert (['\\', c] + s)[2..] == s;
  }

  lemma {:induction false} EscapedLen(s: string, rest: string)
    ensures StringLen(EscapeChars(s) + ("\"" + rest), '"') == Some(|EscapeChars(s)| + 1)
    decreases |s|
  {
    if s == "" {
      assert EscapeChars(s) + ("\"" + rest) == "\"" + rest;
    } else {
      var tail := EscapeChars(s[1..]);
      var after := tail + ("\"" + rest);
      EscapedLen(s[1..], rest);
      if s[0] == '\\' || s[0] == '"' {
        StepPair(s[0], after);
        assert ['\\', s[0]] + tail + ("\"" + rest) == ['\\', s[0]] + after;
      } else {
        StepPlain(FlatChar(s[0]), after);
        assert [FlatChar(s[0])] + tail + ("\"" + rest) == [FlatChar(s[0])] + after;
      }
    }
  }

  lemma {:induction false} UnescapeEscaped(s: string)
    ensures Unescape(EscapeChars(s)) == FlatChars(s)
    decreases |s|
  {
    if s != "" {
      var tail := EscapeChars(s[1..]);
      UnescapeEscaped(s[1..]);
      if s[0] == '\\' || s[0] == '"' {
        assert EscapeChars(s)[2..] == tail && EscapeChars(s)[1..2] == [s[0]];
      } else {
        assert EscapeChars(s)[1..] == tail && EscapeChars(s)[..1] == [FlatChar(s[0])];
      }
    }
  }

  /** An escaped text ends at the quote put after it, and unescapes to the text printed. */
  lemma EscapeRoundTrip(s: string, rest: string)
    ensures StringLen(EscapeText(s) + "\"" + rest, '"') == Some(|EscapeText(s)| + 1)
    ensures Unescape(EscapeText(s)) == FlattenSpace(s)
  {
    ByCharacter(s);
    EscapedLen(s, rest);
    UnescapeEscaped(s);
    assert EscapeChars(s) + "\"" + rest == EscapeChars(s) + ("\"" + rest);
  }

  lemma LiteralNeutral(s: string)
    ensures Neutral(StringLiteral(s))
  {
    forall rest: string
      ensures StringLen(EscapeText(s) + "\"" + rest, '"') == Some(|EscapeText(s)| + 1)
    {
      EscapeRoundTrip(s, rest);
    }
    LiteralIsNeutral(EscapeText(s));
  }

  // ----- the value round trip -----

  predicate Stops(rest: string) { rest == "" || !IsNumberChar(rest[0]) }

  lemma {:induction false} WordLenExact(t: string, rest: string)
    requires forall k :: 0 <= k < |t| ==> IsNumberChar(t[k])
    requires Stops(rest)
    ensures WordLen(t + rest) == |t|
    decreases |t|
  {
    if t == "" {
      assert t + rest == rest;
    } else {
      WordLenExact(t[1..], rest);
      assert (t + rest)[1..] == t[1..] + rest;
    }
  }

  lemma ReadWord(t: string, rest: string)
    requires IsNumberText(t) && Stops(rest)
    ensures Read(t + rest) == Some((Bare(t), rest))
  {
    WordLenExact(t, rest);
    assert (t + rest)[0] == t[0];
    assert (t + rest)[..|t|] == t && (t + rest)[|t|..] == rest;
  }

  /** Every printed value reads back as its own meaning, with the text after it untouched. */
  lemma {:induction false} ValueRoundTrip(v: PyValue, rest: string)
    requires WellFormed(v) && Stops(rest)
    ensures Read(EscapeCypher(v) + rest) == Some((Meaning(v), rest))
    decreases v, 0
  {
    hide NormalizeUnicode, EscapeText;
    match v {
      case PyNone => ReadWord("null", rest);
      case PyBool(b) => ReadWord(if b then "true" else "false", rest);
      case PyNumber(text) => ReadWord(text, rest);
      case PyStr(text) => TextRoundTrip(NormalizeUnicode(text), rest);
      case PyList(items) => ListRoundTrip(items, rest);
    }
  }

  lemma {:induction false} ListRoundTrip(items: seq<PyValue>, rest: string)
    requires forall k :: 0 <= k < |items| ==> WellFormed(items[k])
    ensures Read("[" + EscapeItems(items) + "]" + rest) == Some((Items(Meanings(items)), rest))
    decreases items, 2
  {
    hide StringLiteral, NormalizeUnicode;
    if |items| == 0 {
      var s := "[" + EscapeItems(items) + "]" + rest;
      assert s[0] == '[' && s[1] == ']' && s[2..] == rest;
    } else {
      var s := EscapeItems(items) + "]" + rest;
      ItemsRoundTrip(items, rest);
      ItemsFirstChar(items);
      ReadList(s);
      assert "[" + EscapeItems(items) + "]" + rest == "[" + s;
    }
  }

  lemma ReadList(s: string)
    requires s != "" && s[0] != ']' && ReadItems(s).Some?
    ensures Read("[" + s) == Some((Items(ReadItems(s).value.0), ReadItems(s).value.1))
  {
    hide StringLiteral, NormalizeUnicode;
    assert ("[" + s)[1..] == s;
  }

  lemma TextRoundTrip(text: string, rest: string)
    ensures Read(StringLiteral(text) + rest) == Some((Quoted(FlattenSpace(text)), rest))
  {
    var body := EscapeText(text);
    var s := StringLiteral(text) + rest;
    EscapeRoundTrip(text, rest);
    assert s[1..] == body + "\"" + rest;
    assert s[1..|body| + 1] == body && s[|body| + 2..] == rest;
  }

  lemma {:induction false} ItemsRoundTrip(items: seq<PyValue>, rest: string)
    requires |items| > 0 && forall k :: 0 <= k < |items| ==> WellFormed(items[k])
    ensures ReadItems(EscapeItems(items) + "]" + rest) == Some((Meanings(items), rest))
    decreases items, 1
  {
    hide StringLiteral, NormalizeUnicode;
    var s := EscapeItems(items) + "]" + rest;
    if |items| == 1 {
      assert s == EscapeCypher(items[0]) + ("]" + rest);
      ValueRoundTrip(items[0], "]" + rest);
      assert Meanings(items) == [Meaning(items[0])];
      ReadLast(s, Meaning(items[0]), rest);
    } else {
      var after := EscapeItems(items[1..]) + "]" + rest;
      assert s == EscapeCypher(items[0]) + (", " + after);
      ValueRoundTrip(items[0], ", " + after);
      ItemsRoundTrip(items[1..], rest);
      ReadMore(s, Meaning(items[0]), after);
    }
  }

  lemma ReadLast(s: string, first: Literal, rest: string)
    requires Read(s) == Some((first, "]" + rest))
    ensures ReadItems(s) == Some(([first], rest))
  {
    assert ("]" + rest)[1..] == rest;
  }

  lemma ReadMore(s: string, first: Literal, after: string)
    requires Read(s) == Some((first, ", " + after)) && ReadItems(after).Some?
    ensures ReadItems(s) == Some(([first] + ReadItems(after).value.0, ReadItems(after).value.1))
  {
    assert (", " + after)[2..] == after;
  }

  lemma FirstChar(v: PyValue)
    requires WellFormed(v)
    ensures var t := EscapeCypher(v);
            t != "" && t[0] != ']' && !IsSpace(t[0]) && !IsSpace(t[|t| - 1])
  {
    hide NormalizeUnicode, EscapeText;
    match v {
      case PyNumber(text) => assert IsNumberChar(text[0]) && IsNumberChar(text[|text| - 1]);
      case PyBool(b) => assert EscapeCypher(v) == if b then "true" else "false";
      case PyNone =>
      case PyStr(text) =>
      case PyList(items) =>
    }
  }

  lemma ItemsFirstChar(items: seq<PyValue>)
    requires |items| > 0 && WellFormed(items[0])
    ensures EscapeItems(items) != "" && EscapeItems(items)[0] != ']'
  {
    hide EscapeCypher, WellFormed, IsSpace;
    FirstChar(items[0]);
    var first := EscapeCypher(items[0]);
    assert EscapeItems(items)[0] == first[0];
  }

  lemma {:induction false} ValueNeutral(v: PyValue)
    requires WellFormed(v)
    ensures Neutral(EscapeCypher(v))
    decreases v, 0
  {
    hide NormalizeUnicode, EscapeText;
    match v {
      case PyStr(text) => LiteralNeutral(NormalizeUnicode(text));
      case PyList(items) =>
        ItemsNeutral(items);
        NeutralBrackets("[", EscapeItems(items), "]");
      case _ => PlainIsNeutral(EscapeCypher(v));
    }
  }

  lemma {:induction false} ItemsNeutral(items: seq<PyValue>)
    requires forall k :: 0 <= k < |items| ==> WellFormed(items[k])
    ensures Neutral(EscapeItems(items))
    decreases items, 1
  {
    hide StringLiteral, NormalizeUnicode;
    if |items| == 0 {
      PlainIsNeutral("");
    } else {
      ValueNeutral(items[0]);
      if |items| > 1 {
        ItemsNeutral(items[1..]);
        NeutralBetween(EscapeCypher(items[0]), ", ", EscapeItems(items[1..]));
      }
    }
  }
}
