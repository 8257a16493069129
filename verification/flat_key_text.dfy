/**
 * What the scan of a flat key (packages/dt-module/src/flat-keys.ts) makes of its text, part by part: these
 * lemmas together say what any key is read as, and why it is refused.
 */
module FlatKeyText {
  import opened Prelude
  import opened Decimals
  import opened FlatKeyPath

  predicate Breaks(c: char) { c == '.' || c == '[' || c == ']' }

  // ----- the size of an index -----

  lemma {:induction false} LeadingZero(s: string)
    requires Digits(s) && |s| > 1 && s[0] == '0'
    ensures Number(s[1..]) == Number(s)
    decreases |s|
  {
    var n := |s| - 1;
    assert s[1..][..n - 1] == s[..n][1..];
    if n > 1 {
      LeadingZero(s[..n]);
    } else {
      assert s[..n][..0] == "" && s[1..][..0] == "";
    }
  }

  lemma {:induction false} SameNumber(s: string)
    requires Digits(s)
    ensures Number(StripZeros(s)) == Number(s)
    ensures StripZeros(s)[0] == '0' ==> |StripZeros(s)| == 1
    decreases |s|
  {
    if |s| > 1 && s[0] == '0' {
      LeadingZero(s);
      SameNumber(s[1..]);
    }
  }

  function Power(n: nat): nat { if n == 0 then 1 else 10 * Power(n - 1) }

  lemma {:induction false} PowerAtLeast(n: nat)
    requires n >= 5
    ensures Power(n) >= 100_000
  {
    if n == 5 {
      assert Power(1) == 10 && Power(2) == 100 && Power(3) == 1_000 && Power(4) == 10_000;
    } else {
      PowerAtLeast(n - 1);
    }
  }

  lemma {:induction false} NumberAtLeast(s: string)
    requires Digits(s) && s[0] != '0'
    ensures Number(s) >= Power(|s| - 1)
    decreases |s|
  {
    if |s| == 1 {
      assert s[..0] == "";
    } else {
      NumberAtLeast(s[..|s| - 1]);
    }
  }

  /** The limit on an index is one on its value, whatever its digits look like. */
  lemma IndexByValue(digits: string)
    requires Digits(digits)
    ensures IndexSegment(digits) == if Number(digits) > 10_000 then Err(IndexTooLarge) else Ok(Index(Number(digits)))
  {
    SameNumber(digits);
    var d := StripZeros(digits);
    if |d| > 5 {
      NumberAtLeast(d);
      PowerAtLeast(|d| - 1);
    }
  }

  // ----- the text, part by part -----

  /** A run of characters up to a dot, a bracket or the end is a name, unless it is reserved or one part too many. */
  lemma ScanName(name: string, rest: string, found: Path)
    requires name != "" && (forall k :: 0 <= k < |name| ==> !Breaks(name[k])) && (rest == "" || Breaks(rest[0]))
    ensures ParseFrom(name + rest, found)
         == if name == "__proto__" || name == "constructor" || name == "prototype" then Err(Reserved)
            else if |found| >= 32 then Err(Depth)
            else ParseFrom(rest, found + [Name(name)])
  {
    hide ParseFrom;
    var s := name + rest;
    NameRunExact(name, rest);
    assert s[..|name|] == name && s[|name|..] == rest;
    ScanRun(s, found);
  }

  lemma ScanRun(s: string, found: Path)
    requires NameRun(s) > 0
    ensures ParseFrom(s, found) == Extend(NameSegment(s[..NameRun(s)]), s, NameRun(s), found)
  {
  }

  /** Digits in brackets are an index, unless their value is over the limit or it is one part too many. */
  lemma ScanIndex(digits: string, rest: string, found: Path)
    requires Digits(digits)
    ensures ParseFrom("[" + digits + "]" + rest, found)
         == if Number(digits) > 10_000 then Err(IndexTooLarge)
            else if |found| >= 32 then Err(Depth)
            else ParseFrom(rest, found + [Index(Number(digits))])
  {
    hide IndexSegment, Number, Digits;
    var s := "[" + digits + "]" + rest;
    assert s[1..] == digits + ("]" + rest);
    assert forall k :: 0 <= k < |digits| ==> IsDigit(digits[k]) by { DigitsAre(digits); }
    DigitRunExact(digits, "]" + rest);
    assert s[1..|digits| + 1] == digits && s[|digits| + 2..] == rest;
    assert digits != "" by { DigitsAre(digits); }
    assert NameRun(s) == 0 && IndexMatch(s) == Some(digits);
    IndexByValue(digits);
  }

  lemma DigitsAre(s: string)
    requires Digits(s)
    ensures s != "" && forall k :: 0 <= k < |s| ==> IsDigit(s[k])
  {
  }

  /** Any other dot or bracket is stepped over. */
  lemma ScanGap(c: char, rest: string, found: Path)
    requires Breaks(c) && (c == '[' ==> forall digits, more :: Digits(digits) ==> rest != digits + "]" + more)
    ensures ParseFrom([c] + rest, found) == ParseFrom(rest, found)
  {
    var s := [c] + rest;
    assert s[1..] == rest && NameRun(s) == 0;
    if IndexMatch(s).Some? { MatchSpelt(s); }
  }

  lemma MatchSpelt(s: string)
    requires IndexMatch(s).Some?
    ensures exists digits, more :: Digits(digits) && s[1..] == digits + "]" + more
  {
    var d := IndexMatch(s).value;
    assert s[1..] == d + "]" + s[1..][|d| + 1..];
  }

  /** A key without any part is refused as empty; otherwise the parts found are its path. */
  lemma ScanEnd(found: Path)
    ensures ParseFrom("", found) == if found == [] then Err(Empty) else Ok(found)
  {
    ParseEnd(found);
  }

  /** Any text starts with a run of other characters, perhaps an empty one, up to a dot, a bracket or the end. */
  lemma {:induction false} FirstPart(s: string) returns (name: string, rest: string)
    ensures s == name + rest && (forall k :: 0 <= k < |name| ==> !Breaks(name[k])) && (rest == "" || Breaks(rest[0]))
    decreases |s|
  {
    name, rest := "", s;
    if s != "" && !Breaks(s[0]) {
      var more, end := FirstPart(s[1..]);
      name, rest := [s[0]] + more, end;
      assert s == [s[0]] + s[1..];
    }
  }
}
