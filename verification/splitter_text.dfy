/**
 * What the splitters do, said on the text alone: where a comment or a string literal ends, what of it
 * is kept, and which inputs the strict splitters refuse. These cover every piece an input is made of.
 */
module CypherSplitText {
  import opened Prelude
  import opened CypherSplitter

  // ----- block comments -----

  /** Nothing in the text closes a block comment. */
  predicate NoClose(body: string) { forall k :: 0 <= k < |body| - 1 ==> !(body[k] == '*' && body[k + 1] == '/') }

  lemma {:induction false} BlockLenClosed(body: string, rest: string)
    requires NoClose(body)
    ensures BlockLen(body + "*/" + rest) == Some(|body| + 2)
    decreases |body|
  {
    var s := body + "*/" + rest;
    if body != "" {
      assert NoClose(body[1..]) by { assert forall k :: 0 <= k < |body| - 1 ==> body[1..][k] == body[k + 1]; }
      BlockLenClosed(body[1..], rest);
      assert s[1..] == body[1..] + "*/" + rest;
      assert !(s[0] == '*' && s[1] == '/') by { if |body| == 1 { assert s[1] == '*'; } else { assert s[1] == body[1]; } }
    }
  }

  lemma {:induction false} BlockLenOpen(body: string)
    requires NoClose(body)
    ensures BlockLen(body) == None
    decreases |body|
  {
    if |body| >= 2 {
      assert NoClose(body[1..]) by { assert forall k :: 0 <= k < |body| - 1 ==> body[1..][k] == body[k + 1]; }
      BlockLenOpen(body[1..]);
    }
  }

  /** All of a block comment goes, its opening and its closing too, and it ends at the first closing after its opening. */
  lemma SplitBlockComment(escapes: bool, body: string, rest: string, current: string)
    requires NoClose(body)
    ensures Split(escapes, "/*" + body + "*/" + rest, current) == Split(escapes, rest, current)
  {
    var s := "/*" + body + "*/" + rest;
    BlockLenClosed(body, rest);
    assert s[2..] == body + "*/" + rest;
    assert s[2 + (|body| + 2)..] == rest;
  }

  /** One that never closes swallows the rest of the input. */
  lemma OpenBlockComment(escapes: bool, body: string, current: string)
    requires NoClose(body)
    ensures Split(escapes, "/*" + body, current) == Outcome(Emit(current), OpenBlock)
  {
    BlockLenOpen(body);
    assert ("/*" + body)[2..] == body;
  }

  /** A line comment at the end of the input needs no line break. */
  lemma LastLineComment(escapes: bool, line: string, current: string)
    requires forall k :: 0 <= k < |line| ==> line[k] != '\n'
    ensures Split(escapes, "//" + line, current) == Outcome(Emit(current), Closed)
  {
    var s := "//" + line;
    LineLenAt(s, 2, |s|);
  }

  // ----- string literals -----

  /** The text between two quotes: a backslash carries the next character, and only a carried quote may be the literal's own. */
  predicate Between(body: string, q: char) {
    body == "" || (if body[0] == '\\' then |body| > 1 && Between(body[2..], q) else body[0] != q && Between(body[1..], q))
  }

  lemma {:induction false} StringLenClosed(body: string, q: char, rest: string)
    requires Between(body, q) && q != '\\'
    ensures StringLen(body + [q] + rest, q) == Some(|body| + 1)
    decreases |body|
  {
    var s := body + [q] + rest;
    if body != "" {
      var n := if body[0] == '\\' then 2 else 1;
      StringLenClosed(body[n..], q, rest);
      assert s[n..] == body[n..] + [q] + rest;
    }
  }

  lemma {:induction false} StringLenOpen(body: string, q: char)
    requires Between(body, q) && q != '\\'
    ensures StringLen(body, q) == None && StringLen(body + "\\", q) == None
    decreases |body|
  {
    if body != "" {
      var n := if body[0] == '\\' then 2 else 1;
      StringLenOpen(body[n..], q);
      assert (body + "\\")[n..] == body[n..] + "\\";
    } else {
      assert (body + "\\")[1..] == "";
    }
  }

  /** A literal in either kind of quotes is kept whole, whatever is in it. */
  lemma SplitLiteral(escapes: bool, q: char, body: string, rest: string, current: string)
    requires (q == '\'' || q == '"') && Between(body, q)
    ensures Split(escapes, [q] + body + [q] + rest, current) == Split(escapes, rest, current + ([q] + body + [q]))
  {
    var s := [q] + body + [q] + rest;
    StringLenClosed(body, q, rest);
    assert s[1..] == body + [q] + rest;
    assert s[1 + (|body| + 1)..] == rest && s[..1 + (|body| + 1)] == [q] + body + [q];
  }

  /** One that never closes is kept to the end of the input, a last backslash included. */
  lemma OpenLiteral(escapes: bool, q: char, body: string, last: string, current: string)
    requires (q == '\'' || q == '"') && Between(body, q) && (last == "" || last == "\\")
    ensures Split(escapes, [q] + body + last, current) == Outcome(Emit(current + ([q] + body + last)), OpenString)
  {
    var s := [q] + body + last;
    StringLenOpen(body, q);
    assert s[1..] == body + last && body + "" == body;
  }

  // ----- every input is made of such pieces -----

  /** What follows a comment's opening holds a first closing or none. */
  lemma {:induction false} FindClose(s: string) returns (body: string, rest: string, closed: bool)
    ensures NoClose(body) && s == if closed then body + "*/" + rest else body
    decreases |s|
  {
    if |s| < 2 {
      body, rest, closed := s, "", false;
    } else if s[0] == '*' && s[1] == '/' {
      body, rest, closed := "", s[2..], true;
    } else {
      var inner: string;
      inner, rest, closed := FindClose(s[1..]);
      body := [s[0]] + inner;
      assert s == [s[0]] + s[1..];
      assert inner != "" ==> inner[0] == s[1];
      assert forall k :: 0 < k < |body| ==> body[k] == inner[k - 1];
    }
  }

  /** What follows a quote closes the literal, or leaves it open with or without a last backslash. */
  lemma {:induction false} FindQuote(s: string, q: char) returns (body: string, rest: string, closed: bool)
    requires q != '\\'
    ensures Between(body, q) && s == (if closed then body + [q] + rest else body + rest) && (!closed ==> rest == "" || rest == "\\")
    decreases |s|
  {
    if s == "" || s == "\\" {
      body, rest, closed := "", s, false;
    } else if s[0] == q {
      body, rest, closed := "", s[1..], true;
      assert s == [q] + s[1..];
    } else {
      var n := if s[0] == '\\' then 2 else 1;
      var inner: string;
      inner, rest, closed := FindQuote(s[n..], q);
      body := s[..n] + inner;
      assert s == s[..n] + s[n..];
      assert body[n..] == inner && body[0] == s[0];
    }
  }

  // ----- the other characters -----

  /** Outside strings the splitters but the loader's carry the character after a backslash; the loader takes it as it is. */
  lemma SplitBackslash(c: char, rest: string, current: string)
    ensures Split(true, ['\\', c] + rest, current) == Split(true, rest, current + ['\\', c])
    ensures Split(false, ['\\', c] + rest, current) == Split(false, [c] + rest, current + "\\")
  {
    var s := ['\\', c] + rest;
    assert s[2..] == rest && s[..2] == ['\\', c] && s[1..] == [c] + rest && s[..1] == "\\";
  }

  lemma SplitPlain(escapes: bool, c: char, rest: string, current: string)
    requires c != '\'' && c != '"' && c != ';' && c != '\\' && (c == '/' ==> rest == "" || (rest[0] != '/' && rest[0] != '*'))
    ensures Split(escapes, [c] + rest, current) == Split(escapes, rest, current + [c])
  {
    var s := [c] + rest;
    assert s[1..] == rest && s[..1] == [c];
  }

  lemma SplitNothing(escapes: bool, current: string)
    ensures Split(escapes, "", current) == Outcome(Emit(current), Closed)
    ensures Split(escapes, "\\", current) == Outcome(Emit(current + "\\"), Closed)
  {
    assert "\\"[1..] == "" && "\\"[..1] == "\\";
  }

  // ----- what the strict splitters refuse -----

  /** After any text read whole, an open string or an open block comment is refused; a line comment is not. */
  lemma StrictRefuses(t: string, q: char, body: string, comment: string)
    requires Neutral(t) && (q == '\'' || q == '"') && Between(body, q) && NoClose(comment)
    ensures Strict(Split(true, t + ([q] + body), "")) == Err(UnterminatedString)
    ensures Strict(Split(true, t + ("/*" + comment), "")) == Err(UnterminatedBlock)
    ensures (forall k :: 0 <= k < |comment| ==> comment[k] != '\n') ==> Strict(Split(true, t + ("//" + comment), "")) == Ok(Emit(t))
  {
    hide Split, Emit;
    OpenLiteral(true, q, body, "", t);
    assert [q] + body + "" == [q] + body;
    OpenBlockComment(true, comment, t);
    if forall k :: 0 <= k < |comment| ==> comment[k] != '\n' { LastLineComment(true, comment, t); }
    assert "" + t == t;
    assert Split(true, t + ([q] + body), "") == Split(true, [q] + body, "" + t);
    assert Split(true, t + ("/*" + comment), "") == Split(true, "/*" + comment, "" + t);
    assert Split(true, t + ("//" + comment), "") == Split(true, "//" + comment, "" + t);
  }

  // ----- what is emitted -----

  /** A blank statement is left out; of any other the white space around it goes, and nothing else. */
  lemma EmitExactly(current: string) returns (before: string, t: string, after: string)
    ensures current == before + t + after && AllSpace(before) && AllSpace(after)
    ensures t == "" || (!IsSpace(t[0]) && !IsSpace(t[|t| - 1]))
    ensures Emit(current) == if t == "" then [] else [t]
  {
    var n := 0;
    while n < |current| && IsSpace(current[n])
      invariant n <= |current| && AllSpace(current[..n])
    {
      n := n + 1;
    }
    var m := |current|;
    while n < m && IsSpace(current[m - 1])
      invariant n <= m <= |current| && AllSpace(current[m..])
    {
      m := m - 1;
    }
    before, t, after := current[..n], current[n..m], current[m..];
    if t == "" {
      assert AllSpace(current);
      TrimBlank(current);
    } else {
      TrimSpaces(before, t, after);
    }
    assert current == before + t + after;
  }
}
