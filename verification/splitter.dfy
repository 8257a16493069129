/**
 * The Cypher statement splitters: the TypeScript reference, its Go and Python ports, and the
 * loader's own version. All four run one character loop over flags; `Split` is the reference
 * they are measured against, which reads whole tokens (a string literal, a comment, an escape
 * pair) at a time.
 */
module CypherSplitter {
  import opened Prelude

  // ----- characters -----

  predicate IsSpace(c: char) {
    c == ' ' || c == '\t' || c == '\n' || c == '\r' || c == '\U{000B}' || c == '\U{000C}'
  }

  predicate IsQuote(c: char) { c == '\'' || c == '"' }

  predicate AllSpace(s: string) { forall k :: 0 <= k < |s| ==> IsSpace(s[k]) }

  function TrimLeft(s: string): string {
    if s != "" && IsSpace(s[0]) then TrimLeft(s[1..]) else s
  }

  function TrimRight(s: string): string {
    if s != "" && IsSpace(s[|s| - 1]) then TrimRight(s[..|s| - 1]) else s
  }

  function Trim(s: string): string { TrimRight(TrimLeft(s)) }

  // A blank statement is left out.
  function Emit(current: string): seq<string> {
    if Trim(current) == "" then [] else [Trim(current)]
  }

  // ----- token lengths, from just inside the token -----

  function Plus(k: nat, n: Option<nat>): Option<nat> {
    match n case None => None case Some(m) => Some(k + m)
  }

  /** Characters up to and including the quote that closes the literal. */
  function StringLen(s: string, q: char): (n: Option<nat>)
    ensures n.Some? ==> 0 < n.value <= |s|
    decreases |s|
  {
    if s == "" then None
    else if s[0] == '\\' && |s| > 1 then Plus(2, StringLen(s[2..], q))
    else if s[0] == q then Some(1)
    else Plus(1, StringLen(s[1..], q))
  }

  /** Characters up to and including the star and slash that close the comment. */
  function BlockLen(s: string): (n: Option<nat>)
    ensures n.Some? ==> 0 < n.value <= |s|
  {
    if |s| < 2 then None
    else if s[0] == '*' && s[1] == '/' then Some(2)
    else Plus(1, BlockLen(s[1..]))
  }

  /** Characters up to and including the newline that ends the comment. */
  function LineLen(s: string): (n: Option<nat>)
    ensures n.Some? ==> 0 < n.value <= |s|
  {
    if s == "" then None else if s[0] == '\n' then Some(1) else Plus(1, LineLen(s[1..]))
  }

  // ----- the reference split -----

  datatype Ending = Closed | OpenString | OpenBlock

  datatype Outcome = Outcome(statements: seq<string>, ending: Ending)

  function Prepend(head: seq<string>, o: Outcome): Outcome { o.(statements := head + o.statements) }

  predicate Opens(s: string, second: char) { |s| > 1 && s[0] == '/' && s[1] == second }

  /**
   * The statements of `s`, read at a point outside strings and comments after `current`.
   * `escapes` says whether a backslash out here carries the next character through.
   */
  function Split(escapes: bool, s: string, current: string): Outcome
    decreases |s|
  {
    if s == "" then Outcome(Emit(current), Closed)
    else if Opens(s, '*') then
      match BlockLen(s[2..])
      case None => Outcome(Emit(current), OpenBlock)
      case Some(n) => Split(escapes, s[2 + n..], current)
    else if Opens(s, '/') then
      match LineLen(s[2..])
      case None => Outcome(Emit(current), Closed)
      case Some(n) => Split(escapes, s[2 + n..], current + "\n")
    else if escapes && s[0] == '\\' && |s| > 1 then Split(escapes, s[2..], current + s[..2])
    else if IsQuote(s[0]) then
      match StringLen(s[1..], s[0])
      case None => Outcome(Emit(current + s), OpenString)
      case Some(n) => Split(escapes, s[1 + n..], current + s[..1 + n])
    else if s[0] == ';' then Prepend(Emit(current), Split(escapes, s[1..], ""))
    else Split(escapes, s[1..], current + s[..1])
  }

  // ----- the character loops -----

  datatype Mode = Code | Str(quote: char) | Line | Block

  /** The reference split resumed in the middle of a token. */
  function Resume(escapes: bool, mode: Mode, s: string, current: string): Outcome {
    match mode
    case Code => Split(escapes, s, current)
    case Line =>
      (match LineLen(s)
       case None => Outcome(Emit(current), Closed)
       case Some(n) => Split(escapes, s[n..], current + "\n"))
    case Block =>
      (match BlockLen(s)
       case None => Outcome(Emit(current), OpenBlock)
       case Some(n) => Split(escapes, s[n..], current))
    case Str(q) =>
      (match StringLen(s, q)
       case None => Outcome(Emit(current + s), OpenString)
       case Some(n) => Split(escapes, s[n..], current + s[..n]))
  }

  lemma ResumeString(escapes: bool, s: string, q: char, k: nat, current: string)
    requires k == if |s| > 1 && s[0] == '\\' then 2 else 1
    requires s != "" && (k == 2 || s[0] != q)
    ensures Resume(escapes, Str(q), s, current) == Resume(escapes, Str(q), s[k..], current + s[..k])
  {
    match StringLen(s[k..], q) {
      case None => assert current + s == current + s[..k] + s[k..];
      case Some(n) =>
        assert s[k..][n..] == s[k + n..];
        assert current + s[..k + n] == current + s[..k] + s[k..][..n];
    }
  }

  lemma ResumeStringEnd(escapes: bool, s: string, current: string)
    requires s != "" && s[0] != '\\'
    ensures Resume(escapes, Str(s[0]), s, current) == Split(escapes, s[1..], current + s[..1])
  {
    assert StringLen(s, s[0]) == Some(1);
  }

  lemma ResumeQuote(escapes: bool, s: string, current: string)
    requires s != "" && IsQuote(s[0])
    ensures Split(escapes, s, current) == Resume(escapes, Str(s[0]), s[1..], current + s[..1])
  {
    match StringLen(s[1..], s[0]) {
      case None => assert current + s == current + s[..1] + s[1..];
      case Some(n) =>
        assert s[1..][n..] == s[1 + n..];
        assert current + s[..1 + n] == current + s[..1] + s[1..][..n];
    }
  }

  lemma ResumeComment(escapes: bool, s: string, current: string)
    requires Opens(s, '*') || Opens(s, '/')
    ensures Split(escapes, s, current) == Resume(escapes, if s[1] == '*' then Block else Line, s[2..], current)
  {
    if Opens(s, '*') {
      match BlockLen(s[2..]) { case None => case Some(n) => assert s[2..][n..] == s[2 + n..]; }
    } else {
      match LineLen(s[2..]) { case None => case Some(n) => assert s[2..][n..] == s[2 + n..]; }
    }
  }

  lemma ResumeSkip(escapes: bool, mode: Mode, s: string, current: string)
    requires s != "" && (mode == Line || mode == Block)
    requires mode == Line ==> s[0] != '\n'
    requires mode == Block ==> !(|s| > 1 && s[0] == '*' && s[1] == '/')
    ensures Resume(escapes, mode, s, current) == Resume(escapes, mode, s[1..], current)
  {
    if mode == Line {
      match LineLen(s[1..]) { case None => case Some(n) => assert s[1..][n..] == s[1 + n..]; }
    } else {
      match BlockLen(s[1..]) { case None => case Some(n) => assert s[1..][n..] == s[1 + n..]; }
    }
  }

  lemma PrependEmit(statements: seq<string>, current: string, s: string, escapes: bool)
    ensures Prepend(statements, Prepend(Emit(current), Split(escapes, s, "")))
         == Prepend(statements + Emit(current), Split(escapes, s, ""))
  {
    var o := Split(escapes, s, "");
    assert statements + (Emit(current) + o.statements) == statements + Emit(current) + o.statements;
  }

  datatype SplitError = UnterminatedString | UnterminatedBlock

  function Strict(o: Outcome): Result<seq<string>, SplitError> {
    match o.ending
    case OpenString => Err(UnterminatedString)
    case OpenBlock => Err(UnterminatedBlock)
    case Closed => Ok(o.statements)
  }

  /** One pass of a character loop: the mode after it, what it reads, what it keeps, whether it ends the statement. */
  datatype Pass = Pass(mode: Mode, read: nat, text: string, ends: bool)

  function NextPass(escapes: bool, mode: Mode, s: string): (p: Pass)
    requires s != ""
    ensures p.read <= |s|
  {
    match mode
    case Block => if |s| > 1 && s[0] == '*' && s[1] == '/' then Pass(Code, 2, "", false) else Pass(Block, 1, "", false)
    case Line => if s[0] == '\n' then Pass(Code, 1, "\n", false) else Pass(Line, 1, "", false)
    case Str(q) =>
      if s[0] == '\\' && |s| > 1 then Pass(mode, 2, s[..2], false)
      else Pass(if s[0] == q then Code else mode, 1, s[..1], false)
    case Code =>
      if Opens(s, '*') then Pass(Block, 2, "", false)
      else if Opens(s, '/') then Pass(Line, 2, "", false)
      else if escapes && s[0] == '\\' && |s| > 1 then Pass(Code, 2, s[..2], false)
      else if IsQuote(s[0]) then Pass(Str(s[0]), 1, s[..1], false)
      else if s[0] == ';' then Pass(Code, 1, "", true)
      else Pass(Code, 1, s[..1], false)
  }

  /** What a loop has put out, with what is left to read, still gives the split of the whole input. */
  predicate OnTrack(escapes: bool, content: string, i: nat, mode: Mode, current: string, statements: seq<string>) {
    i <= |content| && (mode.Str? ==> IsQuote(mode.quote))
    && Prepend(statements, Resume(escapes, mode, content[i..], current)) == Split(escapes, content, "")
  }

  lemma PassKeeps(escapes: bool, mode: Mode, s: string, current: string)
    requires s != "" && (mode.Str? ==> IsQuote(mode.quote))
    ensures var p := NextPass(escapes, mode, s);
            Resume(escapes, mode, s, current)
            == if p.ends then Prepend(Emit(current), Resume(escapes, p.mode, s[p.read..], ""))
               else Resume(escapes, p.mode, s[p.read..], current + p.text)
  {
    hide Split, BlockLen, LineLen, StringLen;
    match mode {
      case Block => BlockPass(escapes, s, current);
      case Line => LinePass(escapes, s, current);
      case Str(q) => StringPass(escapes, q, s, current);
      case Code => CodePass(escapes, s, current);
    }
  }

  lemma BlockPass(escapes: bool, s: string, current: string)
    requires s != ""
    ensures var p := NextPass(escapes, Block, s); Resume(escapes, Block, s, current) == Resume(escapes, p.mode, s[p.read..], current + p.text)
  {
    hide Split;
    assert current + "" == current;
    if !(|s| > 1 && s[0] == '*' && s[1] == '/') { ResumeSkip(escapes, Block, s, current); }
  }

  lemma LinePass(escapes: bool, s: string, current: string)
    requires s != ""
    ensures var p := NextPass(escapes, Line, s); Resume(escapes, Line, s, current) == Resume(escapes, p.mode, s[p.read..], current + p.text)
  {
    hide Split;
    assert current + "" == current;
    if s[0] != '\n' { ResumeSkip(escapes, Line, s, current); }
  }

  lemma StringPass(escapes: bool, q: char, s: string, current: string)
    requires s != "" && IsQuote(q)
    ensures var p := NextPass(escapes, Str(q), s); Resume(escapes, Str(q), s, current) == Resume(escapes, p.mode, s[p.read..], current + p.text)
  {
    hide Split, StringLen;
    if s[0] == '\\' && |s| > 1 {
      ResumeString(escapes, s, q, 2, current);
    } else if s[0] == q {
      ResumeStringEnd(escapes, s, current);
    } else {
      ResumeString(escapes, s, q, 1, current);
    }
  }

  lemma CodePass(escapes: bool, s: string, current: string)
    requires s != ""
    ensures var p := NextPass(escapes, Code, s);
            Split(escapes, s, current)
            == if p.ends then Prepend(Emit(current), Split(escapes, s[p.read..], ""))
               else Resume(escapes, p.mode, s[p.read..], current + p.text)
  {
    assert current + "" == current;
    if Opens(s, '*') || Opens(s, '/') {
      ResumeComment(escapes, s, current);
    } else if IsQuote(s[0]) {
      ResumeQuote(escapes, s, current);
    }
  }

  /** A loop that makes the next pass stays on track. */
  lemma Passed(escapes: bool, content: string, i: nat, mode: Mode, current: string, statements: seq<string>)
    requires OnTrack(escapes, content, i, mode, current, statements) && i < |content|
    ensures var p := NextPass(escapes, mode, content[i..]);
            if p.ends then OnTrack(escapes, content, i + p.read, p.mode, "", statements + Emit(current))
            else OnTrack(escapes, content, i + p.read, p.mode, current + p.text, statements)
  {
    hide Split, Resume;
    var s, p := content[i..], NextPass(escapes, mode, content[i..]);
    PassKeeps(escapes, mode, s, current);
    assert s[p.read..] == content[i + p.read..];
    if p.ends {
      assert p.mode == Code;
      PrependEmit(statements, current, s[p.read..], escapes);
    }
  }

  lemma TrackStarts(escapes: bool, content: string)
    ensures OnTrack(escapes, content, 0, Code, "", [])
  {
    assert content[0..] == content;
  }

  /** At the end of the input only the statement being read is left. */
  lemma TrackEnds(escapes: bool, content: string, mode: Mode, current: string, statements: seq<string>)
    requires OnTrack(escapes, content, |content|, mode, current, statements)
    ensures Split(escapes, content, "")
         == Outcome(statements + Emit(current), match mode case Str(_) => OpenString case Block => OpenBlock case _ => Closed)
  {
    assert content[|content|..] == "" && current + "" == current;
  }

  /** The mode the loop's flags stand for; the loops never raise two of them at once. */
  function ModeOf(inString: bool, stringChar: char, inLine: bool, inBlock: bool): Mode {
    if inBlock then Block else if inLine then Line else if inString then Str(stringChar) else Code
  }

  /** The next one or two characters, as the loops index them. */
  lemma Ahead(content: string, i: nat, current: string)
    requires i < |content|
    ensures content[i..][0] == content[i] && content[i..][..1] == [content[i]] && |content[i..]| == |content| - i
    ensures i + 1 < |content| ==> content[i..][1] == content[i + 1] && content[i..][..2] == content[i..i + 2]
    ensures i + 1 < |content| ==> current + [content[i]] + [content[i + 1]] == current + content[i..][..2]
    ensures current + "" == current
  {
  }

  predicate OneFlag(a: bool, b: bool, c: bool) { !(a && b) && !(a && c) && !(b && c) }

  /** pkg/cypher/parse.go: an input that ends inside a string or a block comment is refused. */
  method ParseStatementsGo(content: string) returns (r: Result<seq<string>, SplitError>)
    ensures r == Strict(Split(true, content, ""))
  {
    hide OnTrack, Split, Emit;
    var statements: seq<string> := [];
    var current := "";
    var inString, stringChar, inLine, inBlock := false, '\0', false, false;
    var i := 0;
    TrackStarts(true, content);
    while i < |content|
      invariant 0 <= i <= |content| && OneFlag(inString, inLine, inBlock)
      invariant OnTrack(true, content, i, ModeOf(inString, stringChar, inLine, inBlock), current, statements)
    {
      Passed(true, content, i, ModeOf(inString, stringChar, inLine, inBlock), current, statements);
      var ch := content[i];
      var next := if i + 1 < |content| then content[i + 1] else '\0';
      Ahead(content, i, current);
      if !inString && !inLine && !inBlock && ch == '/' && next == '*' {
        inBlock := true;
        i := i + 2;
        continue;
      }
      if inBlock && ch == '*' && next == '/' {
        inBlock := false;
        i := i + 2;
        continue;
      }
      if inBlock {
        i := i + 1;
        continue;
      }
      if !inString && !inLine && ch == '/' && next == '/' {
        inLine := true;
        i := i + 2;
        continue;
      }
      if inLine && ch == '\n' {
        inLine := false;
        current := current + "\n";
        i := i + 1;
        continue;
      }
      if inLine {
        i := i + 1;
        continue;
      }
      if ch == '\\' && i + 1 < |content| {
        current := current + [ch] + [content[i + 1]];
        i := i + 2;
        continue;
      }
      if !inString && (ch == '\'' || ch == '"') {
        inString := true;
        stringChar := ch;
        current := current + [ch];
        i := i + 1;
        continue;
      }
      if inString && ch == stringChar {
        inString := false;
        current := current + [ch];
        i := i + 1;
        continue;
      }
      if !inString && ch == ';' {
        statements := statements + Emit(current);
        current := "";
        i := i + 1;
        continue;
      }
      current := current + [ch];
      i := i + 1;
    }
    TrackEnds(true, content, ModeOf(inString, stringChar, inLine, inBlock), current, statements);
    if inString {
      return Err(UnterminatedString);
    }
    if inBlock {
      return Err(UnterminatedBlock);
    }
    statements := statements + Emit(current);
    return Ok(statements);
  }

  /** scripts/module-manager/database.ts: an open string or comment at the end is not an error. */
  method ParseStatementsTs(content: string) returns (r: seq<string>)
    ensures r == Split(true, content, "").statements
  {
    hide OnTrack, Split;
    var statements: seq<string> := [];
    var current := "";
    var inString, stringChar, inLine, inBlock := false, '\0', false, false;
    var i := 0;
    TrackStarts(true, content);
    while i < |content|
      invariant 0 <= i <= |content| && OneFlag(inString, inLine, inBlock)
      invariant OnTrack(true, content, i, ModeOf(inString, stringChar, inLine, inBlock), current, statements)
    {
      Passed(true, content, i, ModeOf(inString, stringChar, inLine, inBlock), current, statements);
      var ch := content[i];
      var next := if i + 1 < |content| then content[i + 1] else '\0';
      Ahead(content, i, current);
      if !inString && !inLine && !inBlock && ch == '/' && next == '*' {
        inBlock := true;
        i := i + 2;
        continue;
      }
      if inBlock && ch == '*' && next == '/' {
        inBlock := false;
        i := i + 2;
        continue;
      }
      if inBlock {
        i := i + 1;
        continue;
      }
      if !inString && !inLine && ch == '/' && next == '/' {
        inLine := true;
        i := i + 2;
        continue;
      }
      if inLine && ch == '\n' {
        inLine := false;
        current := current + "\n";
        i := i + 1;
        continue;
      }
      if inLine {
        i := i + 1;
        continue;
      }
      if ch == '\\' && i + 1 < |content| {
        current := current + [ch] + [content[i + 1]];
        i := i + 2;
        continue;
      }
      if !inString && (ch == '\'' || ch == '"') {
        inString := true;
        stringChar := ch;
        current := current + [ch];
        i := i + 1;
        continue;
      }
      if inString && ch == stringChar {
        inString := false;
        current := current + [ch];
        i := i + 1;
        continue;
      }
      if !inString && ch == ';' {
        assert statements + [] == statements;
        var trimmed := Trim(current);
        if trimmed != "" {
          statements := statements + [trimmed];
        }
        current := "";
        i := i + 1;
        continue;
      }
      current := current + [ch];
      i := i + 1;
    }
    TrackEnds(true, content, ModeOf(inString, stringChar, inLine, inBlock), current, statements);
    var trimmed := Trim(current);
    if trimmed != "" {
      statements := statements + [trimmed];
    }
    return statements;
  }

  /** check_embeddings_files.py: the Python port of the Go splitter. */
  method ParseStatementsPy(content: string) returns (r: Result<seq<string>, SplitError>)
    ensures r == Strict(Split(true, content, ""))
  {
    hide OnTrack, Split, Emit;
    var statements: seq<string> := [];
    var current := "";
    var inString, stringChar, inLine, inBlock := false, '\0', false, false;
    var i := 0;
    TrackStarts(true, content);
    while i < |content|
      invariant 0 <= i <= |content| && OneFlag(inString, inLine, inBlock)
      invariant OnTrack(true, content, i, ModeOf(inString, stringChar, inLine, inBlock), current, statements)
    {
      Passed(true, content, i, ModeOf(inString, stringChar, inLine, inBlock), current, statements);
      var ch := content[i];
      var next := if i + 1 < |content| then content[i + 1] else '\0';
      Ahead(content, i, current);
      if !inString && !inLine && !inBlock && ch == '/' && next == '*' {
        inBlock := true;
        i := i + 2;
        continue;
      }
      if inBlock && ch == '*' && next == '/' {
        inBlock := false;
        i := i + 2;
        continue;
      }
      if inBlock {
        i := i + 1;
        continue;
      }
      if !inString && !inLine && ch == '/' && next == '/' {
        inLine := true;
        i := i + 2;
        continue;
      }
      if inLine && ch == '\n' {
        inLine := false;
        current := current + "\n";
        i := i + 1;
        continue;
      }
      if inLine {
        i := i + 1;
        continue;
      }
      if ch == '\\' && i + 1 < |content| {
        current := current + [ch] + [content[i + 1]];
        i := i + 2;
        continue;
      }
      if !inString && (ch == '\'' || ch == '"') {
        inString, stringChar := true, ch;
      } else if inString && ch == stringChar {
        inString := false;
      } else if !inString && ch == ';' {
        statements := statements + Emit(current);
        current := "";
        i := i + 1;
        continue;
      }
      current := current + [ch];
      i := i + 1;
    }
    TrackEnds(true, content, ModeOf(inString, stringChar, inLine, inBlock), current, statements);
    if inString {
      return Err(UnterminatedString);
    }
    if inBlock {
      return Err(UnterminatedBlock);
    }
    statements := statements + Emit(current);
    return Ok(statements);
  }

  /**
   * load_committed_data.py: two quote flags, a line comment that leaves its newline in the
   * text, and backslashes that escape only inside a string.
   */
  method ParseCypherStatements(content: string) returns (r: seq<string>)
    ensures r == Split(false, content, "").statements
  {
    hide OnTrack, Split;
    var statements: seq<string> := [];
    var current := "";
    var inSingle, inDouble, inBlock := false, false, false;
    var i := 0;
    TrackStarts(false, content);
    while i < |content|
      invariant 0 <= i <= |content| && OneFlag(inSingle, inDouble, inBlock)
      invariant OnTrack(false, content, i, LoaderMode(inSingle, inDouble, inBlock), current, statements)
      decreases |content| - i
    {
      Passed(false, content, i, LoaderMode(inSingle, inDouble, inBlock), current, statements);
      var ch := content[i];
      Ahead(content, i, current);
      if !inSingle && !inDouble {
        if inBlock {
          if ch == '*' && i + 1 < |content| && content[i + 1] == '/' {
            inBlock := false;
            i := i + 2;
          } else {
            i := i + 1;
          }
          continue;
        }
        if ch == '/' && i + 1 < |content| && content[i + 1] == '*' {
          inBlock := true;
          i := i + 2;
          continue;
        }
        if ch == '/' && i + 1 < |content| && content[i + 1] == '/' {
          var j := i;
          while j < |content| && content[j] != '\n'
            invariant i <= j <= |content|
            invariant forall k :: i <= k < j ==> content[k] != '\n'
          {
            j := j + 1;
          }
          LoaderLine(content, i, j, current, statements);
          i := j;
          continue;
        }
      }
      if ch == '\\' && i + 1 < |content| && (inSingle || inDouble) {
        current := current + content[i..i + 2];
        i := i + 2;
        continue;
      }
      if ch == '\'' && !inDouble {
        inSingle := !inSingle;
      } else if ch == '"' && !inSingle {
        inDouble := !inDouble;
      } else if ch == ';' && !inSingle && !inDouble {
        assert statements + [] == statements;
        var stmt := Trim(current);
        if stmt != "" {
          statements := statements + [stmt];
        }
        current := "";
        i := i + 1;
        continue;
      }
      current := current + [ch];
      i := i + 1;
    }
    TrackEnds(false, content, LoaderMode(inSingle, inDouble, inBlock), current, statements);
    var stmt := Trim(current);
    if stmt != "" {
      statements := statements + [stmt];
    }
    return statements;
  }

  function LoaderMode(inSingle: bool, inDouble: bool, inBlock: bool): Mode {
    if inBlock then Block else if inSingle then Str('\'') else if inDouble then Str('"') else Code
  }

  // The loader stops before the newline, which is then read as ordinary text.
  lemma LoaderLine(content: string, i: nat, j: nat, current: string, statements: seq<string>)
    requires i + 1 < j <= |content| && content[i] == content[i + 1] == '/'
    requires forall k :: i <= k < j ==> content[k] != '\n'
    requires j < |content| ==> content[j] == '\n'
    requires OnTrack(false, content, i, Code, current, statements)
    ensures OnTrack(false, content, j, Code, current, statements)
  {
    assert content[i..][2..] == content[i + 2..];
    LineLenAt(content, i + 2, j);
    if j < |content| {
      var n := j + 1 - (i + 2);
      assert content[i..][2 + n..] == content[j + 1..] == content[j..][1..];
      assert content[j..][..1] == "\n";
    }
  }

  lemma LineLenAt(content: string, i: nat, j: nat)
    requires i <= j <= |content|
    requires forall k :: i <= k < j ==> content[k] != '\n'
    requires j < |content| ==> content[j] == '\n'
    ensures LineLen(content[i..]) == if j < |content| then Some(j + 1 - i) else None
    decreases j - i
  {
    if i < j {
      LineLenAt(content, i + 1, j);
      assert content[i..][1..] == content[i + 1..];
    }
  }

  // ----- what the reference does with the pieces of a script -----

  /** `t` is read whole into the statement around it, whatever comes before and after. */
  ghost predicate Neutral(t: string) {
    forall escapes: bool, rest: string, current: string ::
      Split(escapes, t + rest, current) == Split(escapes, rest, current + t)
  }

  lemma NeutralConcat(a: string, b: string)
    requires Neutral(a) && Neutral(b)
    ensures Neutral(a + b)
  {
    forall escapes: bool, rest: string, current: string
      ensures Split(escapes, a + b + rest, current) == Split(escapes, rest, current + (a + b))
    {
      assert a + b + rest == a + (b + rest) && current + (a + b) == current + a + b;
    }
  }

  predicate IsPlain(c: char) { !IsQuote(c) && c != ';' && c != '/' && c != '\\' }

  predicate Plain(t: string) { forall k :: 0 <= k < |t| ==> IsPlain(t[k]) }

  lemma {:induction false} PlainIsNeutral(t: string)
    requires Plain(t)
    ensures Neutral(t)
    decreases |t|
  {
    forall escapes: bool, rest: string, current: string
      ensures Split(escapes, t + rest, current) == Split(escapes, rest, current + t)
    {
      if t == "" {
        assert t + rest == rest && current + t == current;
      } else {
        PlainIsNeutral(t[1..]);
        assert (t + rest)[1..] == t[1..] + rest && (t + rest)[..1] == t[..1];
        assert current + t[..1] + t[1..] == current + t;
      }
    }
  }

  lemma NeutralBetween(a: string, plain: string, b: string)
    requires Neutral(a) && Plain(plain) && Neutral(b)
    ensures Neutral(a + plain + b)
  {
    PlainIsNeutral(plain);
    NeutralConcat(a, plain);
    NeutralConcat(a + plain, b);
  }

  lemma NeutralBrackets(open: string, t: string, close: string)
    requires Plain(open) && Neutral(t) && Plain(close)
    ensures Neutral(open + t + close)
  {
    PlainIsNeutral(open);
    PlainIsNeutral(close);
    NeutralConcat(open, t);
    NeutralConcat(open + t, close);
  }

  /** A string literal whose body closes nowhere early is read whole. */
  lemma LiteralIsNeutral(body: string)
    requires forall rest: string :: StringLen(body + "\"" + rest, '"') == Some(|body| + 1)
    ensures Neutral("\"" + body + "\"")
  {
    var t := "\"" + body + "\"";
    forall escapes: bool, rest: string, current: string
      ensures Split(escapes, t + rest, current) == Split(escapes, rest, current + t)
    {
      var s := t + rest;
      assert s[1..] == body + "\"" + rest && s[0] == '"';
      assert StringLen(s[1..], '"') == Some(|body| + 1);
      assert s[1 + |body| + 1..] == rest && s[..1 + |body| + 1] == t;
    }
  }

  lemma SplitLineComment(escapes: bool, line: string, rest: string, current: string)
    requires forall k :: 0 <= k < |line| ==> line[k] != '\n'
    ensures Split(escapes, "//" + line + "\n" + rest, current) == Split(escapes, rest, current + "\n")
  {
    var s := "//" + line + "\n" + rest;
    LineLenAt(s, 2, 2 + |line|);
    assert s[2 + (|line| + 1)..] == rest;
  }

  lemma SplitDelimiter(escapes: bool, rest: string, current: string)
    ensures Split(escapes, ";" + rest, current) == Prepend(Emit(current), Split(escapes, rest, ""))
  {
    assert (";" + rest)[1..] == rest;
  }

  // ----- trimming -----

  /** Surrounding white space is all that trimming takes off. */
  lemma {:induction false} TrimSpaces(before: string, t: string, after: string)
    requires AllSpace(before) && AllSpace(after)
    requires t != "" && !IsSpace(t[0]) && !IsSpace(t[|t| - 1])
    ensures Trim(before + t + after) == t && Emit(before + t + after) == [t]
    decreases |before| + |after|
  {
    var s := before + t + after;
    if before != "" {
      TrimSpaces(before[1..], t, after);
      assert s[1..] == before[1..] + t + after;
    } else if after != "" {
      TrimSpaces(before, t, after[..|after| - 1]);
      assert s[..|s| - 1] == before + t + after[..|after| - 1];
      assert s[0] == t[0];
      assert TrimLeft(s) == s && TrimLeft(s[..|s| - 1]) == s[..|s| - 1];
    } else {
      assert s == t;
    }
  }

  lemma {:induction false} TrimBlank(s: string)
    requires AllSpace(s)
    ensures Trim(s) == "" && Emit(s) == []
    decreases |s|
  {
    if s != "" { TrimBlank(s[1..]); }
  }
}
