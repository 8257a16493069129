/**
 * The parts of a flat key such as `a.b[3].c` (packages/dt-module/src/flat-keys.ts): the
 * regular-expression scan, its limits, and the printed form that the scan reads back.
 */
module FlatKeyPath {
  import opened Prelude
  import opened Decimals

  const MAX_INDEX: nat := 10_000
  const MAX_INDEX_DIGITS: nat := 5
  const MAX_LIST_SLOTS: nat := 100_000
  const MAX_SEGMENTS: nat := 32

  /** The reasons for not taking a key. */
  datatype Problem = Empty | IndexTooLarge | Depth | Reserved | Conflict | Budget

  datatype Segment = Name(name: string) | Index(index: nat)

  type Path = seq<Segment>

  const RESERVED: set<string> := {"__proto__", "constructor", "prototype"}

  predicate IsNameChar(c: char) { c != '.' && c != '[' && c != ']' }

  // ----- one match of the segment expression -----

  function NameRun(s: string): (n: nat)
    ensures n <= |s|
  {
    if s != "" && IsNameChar(s[0]) then 1 + NameRun(s[1..]) else 0
  }

  function DigitRun(s: string): (n: nat)
    ensures n <= |s| && forall k :: 0 <= k < n ==> IsDigit(s[k])
  {
    if s != "" && IsDigit(s[0]) then
      assert forall k :: 1 <= k < 1 + DigitRun(s[1..]) ==> s[k] == s[1..][k - 1];
      1 + DigitRun(s[1..])
    else 0
  }

  /** The digits of an index match at the front of `s`, if there is one there. */
  function IndexMatch(s: string): (r: Option<string>)
    ensures r.Some? ==> |r.value| + 2 <= |s| && Digits(r.value)
  {
    if s == "" || s[0] != '[' then None
    else
      var n := DigitRun(s[1..]);
      if n > 0 && n + 1 < |s| && s[n + 1] == ']' then
        assert forall k :: 0 <= k < n ==> s[1..][k] == s[1..n + 1][k];
        Some(s[1..n + 1])
      else None
  }

  // ----- the scan -----

  /** A segment to add, or the reason to stop. */
  function NameSegment(name: string): Result<Segment, Problem> {
    if name in RESERVED then Err(Reserved) else Ok(Name(name))
  }

  function IndexSegment(digits: string): Result<Segment, Problem>
    requires Digits(digits)
  {
    var d := StripZeros(digits);
    if |d| > MAX_INDEX_DIGITS || Number(d) > MAX_INDEX then Err(IndexTooLarge) else Ok(Index(Number(d)))
  }

  /** The rest of the scan after `found`: text that matches neither form is stepped over. */
  function ParseFrom(s: string, found: Path): Result<Path, Problem>
    decreases |s|
  {
    if s == "" then if found == [] then Err(Empty) else Ok(found)
    else if NameRun(s) > 0 then Extend(NameSegment(s[..NameRun(s)]), s, NameRun(s), found)
    else
      match IndexMatch(s)
      case None => ParseFrom(s[1..], found)
      case Some(digits) => Extend(IndexSegment(digits), s, |digits| + 2, found)
  }

  function Extend(segment: Result<Segment, Problem>, s: string, n: nat, found: Path): Result<Path, Problem>
    requires 0 < n <= |s|
    decreases |s|, 0
  {
    match segment
    case Err(problem) => Err(problem)
    case Ok(seg) => if |found| + 1 > MAX_SEGMENTS then Err(Depth) else ParseFrom(s[n..], found + [seg])
  }

  function Parse(key: string): Result<Path, Problem> { ParseFrom(key, []) }

  method ParseFlatKey(key: string) returns (r: Result<Path, Problem>)
    ensures r == Parse(key)
  {
    var segments: Path := [];
    var i := 0;
    assert key[0..] == key;
    while i < |key|
      invariant 0 <= i <= |key|
      invariant ParseFrom(key[i..], segments) == Parse(key)
      decreases |key| - i
    {
      var rest := key[i..];
      var run := NameRun(rest);
      if run > 0 {
        if rest[..run] in RESERVED {
          return Err(Reserved);
        }
        segments := segments + [Name(rest[..run])];
      } else {
        var digits := IndexMatch(rest);
        if digits.None? {
          assert rest[1..] == key[i + 1..];
          i := i + 1;
          continue;
        }
        run := |digits.value| + 2;
        var d := StripZeros(digits.value);
        if |d| > MAX_INDEX_DIGITS || Number(d) > MAX_INDEX {
          return Err(IndexTooLarge);
        }
        segments := segments + [Index(Number(d))];
      }
      if |segments| > MAX_SEGMENTS {
        return Err(Depth);
      }
      assert rest[run..] == key[i + run..];
      i := i + run;
    }
    assert key[i..] == "";
    return if |segments| > 0 then Ok(segments) else Err(Empty);
  }

  // ----- the printed form -----

  predicate GoodName(name: string) {
    name != "" && name !in RESERVED && forall k :: 0 <= k < |name| ==> IsNameChar(name[k])
  }

  predicate GoodSegment(s: Segment) {
    match s case Name(name) => GoodName(name) case Index(i) => i <= MAX_INDEX
  }

  /** A path some flat key stands for: it starts at a name and keeps the limits. */
  predicate GoodPath(p: Path) {
    0 < |p| <= MAX_SEGMENTS && p[0].Name? && forall k :: 0 <= k < |p| ==> GoodSegment(p[k])
  }

  function RenderSegment(s: Segment): string {
    match s case Name(name) => "." + name case Index(i) => "[" + Decimal(i) + "]"
  }

  function RenderRest(p: Path): string {
    if p == [] then "" else RenderSegment(p[0]) + RenderRest(p[1..])
  }

  function Render(p: Path): string
    requires GoodPath(p)
  {
    p[0].name + RenderRest(p[1..])
  }

  lemma {:induction false} NameRunExact(name: string, rest: string)
    requires forall k :: 0 <= k < |name| ==> IsNameChar(name[k])
    requires rest == "" || !IsNameChar(rest[0])
    ensures NameRun(name + rest) == |name|
    decreases |name|
  {
    if name == "" {
      assert name + rest == rest;
    } else {
      NameRunExact(name[1..], rest);
      assert (name + rest)[1..] == name[1..] + rest;
    }
  }

  lemma {:induction false} DigitRunExact(d: string, rest: string)
    requires forall k :: 0 <= k < |d| ==> IsDigit(d[k])
    requires rest == "" || !IsDigit(rest[0])
    ensures DigitRun(d + rest) == |d|
    decreases |d|
  {
    if d == "" {
      assert d + rest == rest;
    } else {
      DigitRunExact(d[1..], rest);
      assert (d + rest)[1..] == d[1..] + rest;
    }
  }

  lemma {:induction false} DecimalLength(n: nat)
    requires n <= MAX_INDEX
    ensures |Decimal(n)| <= MAX_INDEX_DIGITS
  {
    assert n / 10 < 10 || n / 100 < 10 || n / 1000 < 10 || n / 10000 < 10;
    assert n / 10 / 10 == n / 100 && n / 100 / 10 == n / 1000 && n / 1000 / 10 == n / 10000;
    var a := Decimal(n);
    if n >= 10 {
      var b := Decimal(n / 10);
      if n >= 100 {
        var c := Decimal(n / 100);
        if n >= 1000 {
          var d := Decimal(n / 1000);
          if n >= 10000 {
            assert |Decimal(n / 10000)| == 1;
          }
        }
      }
    }
  }

  lemma ParseIndex(i: nat, rest: string, found: Path)
    requires i <= MAX_INDEX && |found| < MAX_SEGMENTS
    ensures ParseFrom("[" + Decimal(i) + "]" + rest, found) == ParseFrom(rest, found + [Index(i)])
  {
    var d := Decimal(i);
    var s := "[" + d + "]" + rest;
    assert s[1..] == d + ("]" + rest);
    DigitRunExact(d, "]" + rest);
    assert s[1..|d| + 1] == d && s[|d| + 2..] == rest;
    DecimalRoundTrip(i);
    DecimalLength(i);
    assert NameRun(s) == 0 && IndexMatch(s) == Some(d);
    assert IndexSegment(d) == Ok(Index(i));
  }

  lemma ParseName(name: string, rest: string, found: Path)
    requires GoodName(name) && (rest == "" || !IsNameChar(rest[0])) && |found| < MAX_SEGMENTS
    ensures ParseFrom(name + rest, found) == ParseFrom(rest, found + [Name(name)])
  {
    var s := name + rest;
    NameRunExact(name, rest);
    assert s[..|name|] == name && s[|name|..] == rest;
  }

  lemma ParseDot(rest: string, found: Path)
    ensures ParseFrom("." + rest, found) == ParseFrom(rest, found)
  {
    var s := "." + rest;
    assert s[1..] == rest && NameRun(s) == 0 && IndexMatch(s) == None;
  }

  lemma RestStarts(p: Path)
    ensures RenderRest(p) == "" || !IsNameChar(RenderRest(p)[0])
  {
    if p != [] { assert RenderRest(p)[0] == RenderSegment(p[0])[0]; }
  }

  lemma {:induction false} ParseRest(p: Path, found: Path)
    requires found != [] && |found| + |p| <= MAX_SEGMENTS
    requires forall k :: 0 <= k < |p| ==> GoodSegment(p[k])
    ensures ParseFrom(RenderRest(p), found) == Ok(found + p)
    decreases |p|
  {
    hide RenderSegment, GoodSegment, ParseFrom;
    if p == [] {
      assert found + p == found;
      ParseEnd(found);
    } else {
      var rest := RenderRest(p[1..]);
      ParseRest(p[1..], found + [p[0]]);
      assert found + [p[0]] + p[1..] == found + p;
      RestStarts(p[1..]);
      ParseSegment(p[0], rest, found);
    }
  }

  lemma ParseSegment(s: Segment, rest: string, found: Path)
    requires GoodSegment(s) && |found| < MAX_SEGMENTS && (rest == "" || !IsNameChar(rest[0]))
    ensures ParseFrom(RenderSegment(s) + rest, found) == ParseFrom(rest, found + [s])
  {
    hide Decimal, NameRun, IndexMatch, GoodName, ParseFrom;
    match s {
      case Index(i) => ParseIndex(i, rest, found);
      case Name(name) =>
        ParseName(name, rest, found);
        ParseDot(name + rest, found);
        assert "." + (name + rest) == "." + name + rest;
    }
  }

  lemma ParseEnd(found: Path)
    ensures ParseFrom("", found) == if found == [] then Err(Empty) else Ok(found)
  {
  }

  /** The scan reads back every printed path. */
  lemma RenderRoundTrip(p: Path)
    requires GoodPath(p)
    ensures Parse(Render(p)) == Ok(p)
  {
    var rest := RenderRest(p[1..]);
    RestStarts(p[1..]);
    ParseName(p[0].name, rest, []);
    ParseRest(p[1..], [p[0]]);
    assert [] + [p[0]] == [p[0]] && [p[0]] + p[1..] == p;
  }

  /** What the scan accepts is never empty and keeps every limit. */
  lemma {:induction false} ParseKeepsLimits(s: string, found: Path)
    requires |found| <= MAX_SEGMENTS && forall k :: 0 <= k < |found| ==> GoodSegment(found[k])
    ensures ParseFrom(s, found).Ok? ==>
              var p := ParseFrom(s, found).value;
              0 < |p| <= MAX_SEGMENTS && forall k :: 0 <= k < |p| ==> GoodSegment(p[k])
    decreases |s|
  {
    if s != "" {
      var n := NameRun(s);
      if n > 0 {
        NameRunChars(s);
        if s[..n] !in RESERVED && |found| < MAX_SEGMENTS {
          ParseKeepsLimits(s[n..], found + [Name(s[..n])]);
        }
      } else {
        match IndexMatch(s) {
          case None => ParseKeepsLimits(s[1..], found);
          case Some(digits) =>
            match IndexSegment(digits) {
              case Err(_) =>
              case Ok(seg) => if |found| < MAX_SEGMENTS { ParseKeepsLimits(s[|digits| + 2..], found + [seg]); }
            }
        }
      }
    }
  }

  lemma {:induction false} NameRunChars(s: string)
    ensures forall k :: 0 <= k < NameRun(s) ==> IsNameChar(s[k])
    decreases |s|
  {
    if s != "" && IsNameChar(s[0]) {
      NameRunChars(s[1..]);
      forall k | 0 <= k < NameRun(s) ensures IsNameChar(s[k]) {
        assert k > 0 ==> s[k] == s[1..][k - 1];
      }
    }
  }
}
