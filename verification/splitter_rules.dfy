/**
 * The one rule on which the loader's splitter differs from the other three: what a backslash does
 * outside strings and comments. Exactly when it makes a difference.
 */
module CypherSplitRules {
  import opened Prelude
  import opened CypherSplitter

  // ----- where the two rules part -----

  /** Where one lexer stands outside comments: in code, past a backslash, in a string, past a backslash there. */
  datatype Reading = InCode | Escaped | InString(quote: char) | StringEscaped(quote: char)

  function Read(escapes: bool, r: Reading, c: char): Reading {
    match r
    case InCode => if escapes && c == '\\' then Escaped else if IsQuote(c) then InString(c) else InCode
    case Escaped => InCode
    case InString(q) => if c == '\\' then StringEscaped(q) else if c == q then InCode else InString(q)
    case StringEscaped(q) => InString(q)
  }

  /**
   * The scan that follows both lexers: it fails at the first separator or comment opener that is
   * read as code by exactly one of them.
   */
  predicate ReadAlike(s: string, reference: Reading, loader: Reading)
    decreases |s|
  {
    if s == "" then true
    else if Opens(s, '*') || Opens(s, '/') then
      if reference.InCode? && loader.InCode? then
        var n := if s[1] == '*' then BlockLen(s[2..]) else LineLen(s[2..]);
        n.Some? ==> ReadAlike(s[2 + n.value..], InCode, InCode)
      else
        !reference.InCode? && !loader.InCode? && ReadAlike(s[1..], Read(true, reference, s[0]), Read(false, loader, s[0]))
    else
      (s[0] == ';' ==> (reference.InCode? <==> loader.InCode?))
      && ReadAlike(s[1..], Read(true, reference, s[0]), Read(false, loader, s[0]))
  }

  /** The statements of `s`, one character at a time. */
  function Scan(escapes: bool, r: Reading, s: string, current: string): seq<string>
    decreases |s|
  {
    if s == "" then Emit(current)
    else if r.InCode? && Opens(s, '*') then
      (match BlockLen(s[2..]) case None => Emit(current) case Some(n) => Scan(escapes, InCode, s[2 + n..], current))
    else if r.InCode? && Opens(s, '/') then
      (match LineLen(s[2..]) case None => Emit(current) case Some(n) => Scan(escapes, InCode, s[2 + n..], current + "\n"))
    else if r.InCode? && s[0] == ';' then Emit(current) + Scan(escapes, InCode, s[1..], "")
    else Scan(escapes, Read(escapes, r, s[0]), s[1..], current + s[..1])
  }

  /** Reading one character at a time gives the statements of the reference split. */
  lemma {:induction false} ScanIsSplit(escapes: bool, s: string, current: string)
    ensures Scan(escapes, InCode, s, current) == Split(escapes, s, current).statements
    decreases |s|, 1
  {
    hide Emit;
    if s == "" {
    } else if Opens(s, '*') {
      match BlockLen(s[2..]) { case None => case Some(n) => ScanIsSplit(escapes, s[2 + n..], current); }
    } else if Opens(s, '/') {
      match LineLen(s[2..]) { case None => case Some(n) => ScanIsSplit(escapes, s[2 + n..], current + "\n"); }
    } else if escapes && s[0] == '\\' && |s| > 1 {
      assert s[1..][1..] == s[2..] && current + s[..1] + s[1..][..1] == current + s[..2];
      assert !Opens(s[1..], '/') || s[1] == '/';
      ScanIsSplit(escapes, s[2..], current + s[..2]);
    } else if IsQuote(s[0]) {
      ScanInString(escapes, s[0], s[1..], current + s[..1]);
      ResumeQuote(escapes, s, current);
    } else if s[0] == ';' {
      ScanIsSplit(escapes, s[1..], "");
    } else if s[0] == '\\' && escapes {
      assert s[1..] == "";
    } else {
      ScanIsSplit(escapes, s[1..], current + s[..1]);
    }
  }

  lemma {:induction false} ScanInString(escapes: bool, q: char, s: string, current: string)
    requires IsQuote(q)
    ensures Scan(escapes, InString(q), s, current) == Resume(escapes, Str(q), s, current).statements
    decreases |s|, 0
  {
    hide Emit, Split;
    if s == "" {
      assert current + s == current;
    } else if s[0] == '\\' && |s| > 1 {
      assert s[1..][1..] == s[2..] && current + s[..1] + s[1..][..1] == current + s[..2];
      ResumeString(escapes, s, q, 2, current);
      ScanInString(escapes, q, s[2..], current + s[..2]);
    } else if s[0] == q {
      ResumeStringEnd(escapes, s, current);
      ScanIsSplit(escapes, s[1..], current + s[..1]);
    } else if s[0] == '\\' {
      assert s[1..] == "" && current + s == current + s[..1];
    } else {
      ResumeString(escapes, s, q, 1, current);
      ScanInString(escapes, q, s[1..], current + s[..1]);
    }
  }

  /** What the statement being read keeps of the text ahead, up to its separator. */
  function Kept(escapes: bool, r: Reading, s: string): string
    decreases |s|
  {
    if s == "" then ""
    else if r.InCode? && Opens(s, '*') then
      (match BlockLen(s[2..]) case None => "" case Some(n) => Kept(escapes, InCode, s[2 + n..]))
    else if r.InCode? && Opens(s, '/') then
      (match LineLen(s[2..]) case None => "" case Some(n) => "\n" + Kept(escapes, InCode, s[2 + n..]))
    else if r.InCode? && s[0] == ';' then ""
    else s[..1] + Kept(escapes, Read(escapes, r, s[0]), s[1..])
  }

  /** The first statement is what has been read with what is kept of the text ahead. */
  lemma {:induction false} FirstScanned(escapes: bool, r: Reading, s: string, current: string)
    requires Trim(current) != ""
    ensures Scan(escapes, r, s, current) != []
    ensures Scan(escapes, r, s, current)[0] == Trim(current + Kept(escapes, r, s))
    decreases |s|
  {
    hide Trim;
    if s == "" || (r.InCode? && s[0] == ';') {
      assert current + "" == current;
    } else if r.InCode? && Opens(s, '*') {
      match BlockLen(s[2..]) { case None => assert current + "" == current; case Some(n) => FirstScanned(escapes, InCode, s[2 + n..], current); }
    } else if r.InCode? && Opens(s, '/') {
      match LineLen(s[2..]) {
        case None => assert current + "" == current;
        case Some(n) =>
          StaysNonBlank(current, "\n");
          FirstScanned(escapes, InCode, s[2 + n..], current + "\n");
          assert current + ("\n" + Kept(escapes, InCode, s[2 + n..])) == current + "\n" + Kept(escapes, InCode, s[2 + n..]);
      }
    } else {
      var next := Read(escapes, r, s[0]);
      StaysNonBlank(current, s[..1]);
      FirstScanned(escapes, next, s[1..], current + s[..1]);
      assert current + (s[..1] + Kept(escapes, next, s[1..])) == current + s[..1] + Kept(escapes, next, s[1..]);
    }
  }

  /** Trimming works from the ends, so a text with something in it keeps it whatever is added. */
  lemma {:induction false} TrimLeftAdd(a: string, b: string)
    requires TrimLeft(a) != ""
    ensures TrimLeft(a + b) == TrimLeft(a) + b
    decreases |a|
  {
    if a != "" && IsSpace(a[0]) {
      assert (a + b)[1..] == a[1..] + b;
      TrimLeftAdd(a[1..], b);
    }
  }

  lemma {:induction false} TrimRightKeeps(a: string, b: string)
    requires a != "" && !IsSpace(a[|a| - 1])
    ensures a <= TrimRight(a + b) <= a + b
    decreases |b|
  {
    var s := a + b;
    if b == "" {
      assert s == a;
    } else if IsSpace(s[|s| - 1]) {
      assert s[..|s| - 1] == a + b[..|b| - 1];
      TrimRightKeeps(a, b[..|b| - 1]);
    }
  }

  lemma {:induction false} TrimRightEnd(s: string)
    ensures TrimRight(s) <= s && (TrimRight(s) != "" ==> !IsSpace(TrimRight(s)[|TrimRight(s)| - 1]))
    ensures s != "" && !IsSpace(s[0]) ==> TrimRight(s) != ""
    decreases |s|
  {
    if s != "" && IsSpace(s[|s| - 1]) { TrimRightEnd(s[..|s| - 1]); }
  }

  lemma {:induction false} TrimLeftStart(s: string)
    ensures TrimLeft(s) != "" ==> !IsSpace(TrimLeft(s)[0])
    decreases |s|
  {
    if s != "" && IsSpace(s[0]) { TrimLeftStart(s[1..]); }
  }

  lemma NonBlank(s: string)
    ensures Trim(s) != "" <==> TrimLeft(s) != ""
  {
    TrimLeftStart(s);
    TrimRightEnd(TrimLeft(s));
  }

  lemma StaysNonBlank(a: string, b: string)
    requires Trim(a) != ""
    ensures Trim(a + b) != ""
  {
    NonBlank(a);
    NonBlank(a + b);
    TrimLeftAdd(a, b);
  }

  lemma {:induction false} AddNonBlank(a: string, c: char)
    requires !IsSpace(c)
    ensures Trim(a + [c]) != ""
    decreases |a|
  {
    NonBlank(a + [c]);
    AddLeft(a, c);
  }

  lemma {:induction false} AddLeft(a: string, c: char)
    requires !IsSpace(c)
    ensures TrimLeft(a + [c]) != ""
    decreases |a|
  {
    if a != "" && IsSpace(a[0]) {
      assert (a + [c])[1..] == a[1..] + [c];
      AddLeft(a[1..], c);
    }
  }

  /** Two texts after the same one trim alike only if what one goes on with, the other does. */
  lemma SameTrim(current: string, p: string, x: string, y: string)
    requires Trim(current) != "" && p != "" && !IsSpace(p[|p| - 1]) && p <= x
    requires Trim(current + x) == Trim(current + y)
    ensures p <= y
  {
    NonBlank(current);
    var t := TrimLeft(current);
    TrimLeftAdd(current, x);
    TrimLeftAdd(current, y);
    var rest := x[|p|..];
    assert t + x == (t + p) + rest;
    TrimRightKeeps(t + p, rest);
    TrimRightEnd(t + y);
    var w := TrimRight(t + x);
    assert t + p <= w && w <= t + y;
    assert p == (t + p)[|t|..] == (t + y)[|t|..|t + p|];
  }

  /** What is kept from code on never starts with a comment opener's star. */
  lemma {:induction false} KeptCode(escapes: bool, s: string)
    ensures !("/*" <= Kept(escapes, InCode, s))
    decreases |s|
  {
    var k := Kept(escapes, InCode, s);
    if s != "" {
      if Opens(s, '*') {
        match BlockLen(s[2..]) { case None => case Some(n) => KeptCode(escapes, s[2 + n..]); }
      } else if Opens(s, '/') {
        match LineLen(s[2..]) { case None => case Some(n) => assert k[0] == '\n'; }
      } else if s[0] == '/' {
        assert k == s[..1] + Kept(escapes, InCode, s[1..]);
        if |s| > 1 && s[1] != ';' {
          assert !Opens(s[1..], '*') && !Opens(s[1..], '/') && s[1..][..1] == [s[1]];
          assert Kept(escapes, InCode, s[1..])[0] == s[1];
          assert k[1] == s[1] && s[1] != '*' && "/*"[1] == '*';
        } else {
          assert Kept(escapes, InCode, s[1..]) == "" && |k| == 1;
        }
      } else {
        assert k == "" || (k[0] == s[0] && "/*"[0] == '/');
      }
    }
  }

  /** One lexer at a separator or a comment opener in code, the other not: the statement being read comes out different. */
  lemma Parting(e: bool, r: Reading, f: bool, s: string, current: string)
    requires s != "" && !r.InCode? && (s[0] == ';' || Opens(s, '*') || Opens(s, '/')) && Trim(current) != ""
    requires r.InString? || r.StringEscaped? ==> IsQuote(r.quote)
    ensures Scan(e, r, s, current) != Scan(f, InCode, s, current)
  {
    hide Trim, Scan;
    FirstScanned(e, r, s, current);
    FirstScanned(f, InCode, s, current);
    var x, y := Kept(e, r, s), Kept(f, InCode, s);
    if Trim(current + x) == Trim(current + y) {
      if s[0] == ';' {
        SameTrim(current, ";", x, y);
      } else if Opens(s, '*') {
        assert Kept(e, Read(e, r, '/'), s[1..])[..1] == "*";
        SameTrim(current, "/*", x, y);
        match BlockLen(s[2..]) { case None => case Some(n) => KeptCode(f, s[2 + n..]); }
      } else {
        SameTrim(current, "/", x, y);
      }
    }
  }

  /** Outside code the statement being read holds at least the quote or the backslash that led there. */
  predicate Fitting(r: Reading, current: string) {
    (!r.InCode? ==> Trim(current) != "") && (r.InString? || r.StringEscaped? ==> IsQuote(r.quote))
  }

  lemma ReadFits(escapes: bool, r: Reading, s: string, current: string)
    requires s != "" && Fitting(r, current)
    ensures Fitting(Read(escapes, r, s[0]), current + s[..1])
  {
    hide Trim;
    if r.InCode? {
      if IsQuote(s[0]) || s[0] == '\\' { AddNonBlank(current, s[0]); assert s[..1] == [s[0]]; }
    } else {
      StaysNonBlank(current, s[..1]);
    }
  }

  /** Followed side by side, the two give the same statements exactly when the scan finds nothing. */
  lemma {:induction false} ScansAgreeIff(s: string, reference: Reading, loader: Reading, current: string)
    requires Fitting(reference, current) && Fitting(loader, current)
    ensures Scan(true, reference, s, current) == Scan(false, loader, s, current) <==> ReadAlike(s, reference, loader)
    decreases |s|
  {
    hide Fitting, Emit;
    var opens := Opens(s, '*') || Opens(s, '/');
    if s == "" {
    } else if opens && reference.InCode? && loader.InCode? {
      Fits(current);
      Fits(current + "\n");
      var n := if s[1] == '*' then BlockLen(s[2..]) else LineLen(s[2..]);
      if n.Some? { ScansAgreeIff(s[2 + n.value..], InCode, InCode, if s[1] == '*' then current else current + "\n"); }
    } else if (opens || s[0] == ';') && (reference.InCode? <==> !loader.InCode?) {
      FitsNonBlank(reference, current);
      FitsNonBlank(loader, current);
      if loader.InCode? { Parting(true, reference, false, s, current); } else { Parting(false, loader, true, s, current); }
    } else if s[0] == ';' && reference.InCode? {
      Fits("");
      ScansAgreeIff(s[1..], InCode, InCode, "");
      var a, b := Scan(true, InCode, s[1..], ""), Scan(false, InCode, s[1..], "");
      assert (Emit(current) + a)[|Emit(current)|..] == a && (Emit(current) + b)[|Emit(current)|..] == b;
    } else {
      ReadFits(true, reference, s, current);
      ReadFits(false, loader, s, current);
      ScansAgreeIff(s[1..], Read(true, reference, s[0]), Read(false, loader, s[0]), current + s[..1]);
    }
  }

  lemma Fits(current: string)
    ensures Fitting(InCode, current)
  {
  }

  lemma FitsNonBlank(r: Reading, current: string)
    requires Fitting(r, current)
    ensures !r.InCode? ==> Trim(current) != ""
    ensures r.InString? || r.StringEscaped? ==> IsQuote(r.quote)
  {
  }

  /**
   * The loader returns the reference's statements exactly when no separator and no comment opener
   * is read as code by one of the two and not by the other.
   */
  lemma LoaderAgrees(s: string)
    ensures Split(false, s, "").statements == Split(true, s, "").statements <==> ReadAlike(s, InCode, InCode)
  {
    ScanIsSplit(true, s, "");
    ScanIsSplit(false, s, "");
    Fits("");
    ScansAgreeIff(s, InCode, InCode, "");
  }

  /** After any text read whole, a backslash in code before a separator or a comment opener parts them. */
  lemma LoaderDisagrees(t: string, opener: string, rest: string)
    requires Neutral(t) && (opener == ";" || opener == "//" || opener == "/*")
    ensures Split(true, t + "\\" + opener + rest, "").statements != Split(false, t + "\\" + opener + rest, "").statements
  {
    hide Split, Scan;
    var s := "\\" + opener + rest;
    assert t + "\\" + opener + rest == t + s && "" + t == t;
    NeutralAt(t, true, s);
    NeutralAt(t, false, s);
    ScanIsSplit(true, s, t);
    ScanIsSplit(false, s, t);
    assert s[1..] == opener + rest;
    assert s[1..][0] == ';' || Opens(s[1..], '*') || Opens(s[1..], '/');
    assert !ReadAlike(s[1..], Escaped, InCode);
    Fits(t);
    ScansAgreeIff(s, InCode, InCode, t);
  }

  lemma NeutralAt(t: string, escapes: bool, rest: string)
    requires Neutral(t)
    ensures Split(escapes, t + rest, "") == Split(escapes, rest, t)
  {
    assert "" + t == t;
  }

  // ----- agreement -----

  /** Whether every backslash outside strings and comments stands before a harmless character. */
  predicate HidesNothing(s: string)
    decreases |s|
  {
    if s == "" then true
    else if Opens(s, '*') then BlockLen(s[2..]).Some? ==> HidesNothing(s[2 + BlockLen(s[2..]).value..])
    else if Opens(s, '/') then LineLen(s[2..]).Some? ==> HidesNothing(s[2 + LineLen(s[2..]).value..])
    else if s[0] == '\\' && |s| > 1 then !IsQuote(s[1]) && s[1] != ';' && !Opens(s[1..], '/') && !Opens(s[1..], '*') && HidesNothing(s[2..])
    else if IsQuote(s[0]) then StringLen(s[1..], s[0]).Some? ==> HidesNothing(s[1 + StringLen(s[1..], s[0]).value..])
    else HidesNothing(s[1..])
  }

  /** On such an input the loader agrees with the reference in all, how the input ends included. */
  lemma {:induction false} HarmlessAgrees(s: string, current: string)
    requires HidesNothing(s)
    ensures Split(false, s, current) == Split(true, s, current)
    decreases |s|
  {
    if s == "" {
    } else if Opens(s, '*') {
      match BlockLen(s[2..]) { case None => case Some(n) => HarmlessAgrees(s[2 + n..], current); }
    } else if Opens(s, '/') {
      match LineLen(s[2..]) { case None => case Some(n) => HarmlessAgrees(s[2 + n..], current + "\n"); }
    } else if s[0] == '\\' && |s| > 1 {
      var t := s[1..];
      assert t[1..] == s[2..] && current + s[..1] + t[..1] == current + s[..2];
      HarmlessAgrees(s[2..], current + s[..2]);
    } else if IsQuote(s[0]) {
      match StringLen(s[1..], s[0]) {
        case None =>
        case Some(n) => HarmlessAgrees(s[1 + n..], current + s[..1 + n]);
      }
    } else if s[0] == ';' {
      HarmlessAgrees(s[1..], "");
    } else {
      HarmlessAgrees(s[1..], current + s[..1]);
    }
  }
}
