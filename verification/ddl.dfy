/**
 * The names of schema objects (packages/dt-module/src/ddl.ts): which identifiers are accepted and
 * why no two accepted objects share a name.
 */
module Ddl {
  predicate IsLetter(c: char) { 'a' <= c <= 'z' || 'A' <= c <= 'Z' }

  predicate IsAlnum(c: char) { IsLetter(c) || '0' <= c <= '9' }

  /** The identifier expression after its first letter: alphanumerics, and underscores one at a time between them. */
  predicate IdentifierTail(s: string)
    decreases |s|
  {
    if s == "" then true
    else if IsAlnum(s[0]) then IdentifierTail(s[1..])
    else s[0] == '_' && |s| > 1 && IsAlnum(s[1]) && IdentifierTail(s[2..])
  }

  predicate IsIdentifier(s: string) { s != "" && IsLetter(s[0]) && IdentifierTail(s[1..]) }

  datatype ConstraintKind = Unique | Exists

  /** What a module may declare. */
  datatype SchemaObject =
    | NodeIndex(nodeLabel: string, property: string)
    | RelationshipIndex(relType: string, property: string)
    | Constraint(nodeLabel: string, properties: seq<string>, kind: ConstraintKind)

  predicate AllIdentifiers(names: seq<string>) { forall k :: 0 <= k < |names| ==> IsIdentifier(names[k]) }

  /** What the builders take without throwing. */
  predicate Accepted(o: SchemaObject) {
    match o
    case NodeIndex(l, p) => IsIdentifier(l) && IsIdentifier(p)
    case RelationshipIndex(t, p) => IsIdentifier(t) && IsIdentifier(p)
    case Constraint(l, ps, kind) =>
      IsIdentifier(l) && ps != [] && AllIdentifiers(ps)
      && (forall i, j :: 0 <= i < j < |ps| ==> ps[i] != ps[j]) && (kind == Exists ==> |ps| == 1)
  }

  function JoinParts(parts: seq<string>): string {
    if parts == [] then "" else if |parts| == 1 then parts[0] else parts[0] + "__" + JoinParts(parts[1..])
  }

  function Parts(o: SchemaObject): seq<string> {
    match o
    case NodeIndex(l, p) => [l, p]
    case RelationshipIndex(t, p) => [t, p]
    case Constraint(l, ps, _) => [l] + ps
  }

  function Prefix(o: SchemaObject): string {
    match o
    case NodeIndex(_, _) => "dt_idx__"
    case RelationshipIndex(_, _) => "dt_ridx__"
    case Constraint(_, _, kind) => if kind == Unique then "dt_uniq__" else "dt_exists__"
  }

  /** indexName, relationshipIndexName and constraintName. */
  function Name(o: SchemaObject): string { Prefix(o) + JoinParts(Parts(o)) }

  // ----- no accepted identifier holds the separator -----

  predicate NoSeparator(s: string) {
    (forall k :: 0 <= k < |s| - 1 ==> !(s[k] == '_' && s[k + 1] == '_')) && (s != "" ==> s[0] != '_' && s[|s| - 1] != '_')
  }

  predicate Separated(s: string) {
    (forall k :: 0 <= k < |s| - 1 ==> !(s[k] == '_' && s[k + 1] == '_')) && (s != "" ==> s[|s| - 1] != '_')
  }

  lemma {:induction false} TailSeparated(s: string)
    requires IdentifierTail(s)
    ensures Separated(s)
    decreases |s|
  {
    if s != "" {
      var n := if IsAlnum(s[0]) then 1 else 2;
      TailSeparated(s[n..]);
      forall k | 0 <= k < |s| - 1 ensures !(s[k] == '_' && s[k + 1] == '_') {
        if k >= n { assert s[n..][k - n] == s[k] && s[n..][k + 1 - n] == s[k + 1]; }
      }
      if |s| > n { assert s[n..][|s| - n - 1] == s[|s| - 1]; }
    }
  }

  /** An accepted identifier never holds two underscores in a row, nor one at either end. */
  lemma IdentifierHasNoSeparator(s: string)
    requires IsIdentifier(s)
    ensures NoSeparator(s)
  {
    TailSeparated(s[1..]);
    forall k | 0 <= k < |s| - 1 ensures !(s[k] == '_' && s[k + 1] == '_') {
      if k >= 1 { assert s[1..][k - 1] == s[k] && s[1..][k] == s[k + 1]; }
    }
    if |s| > 1 { assert s[1..][|s| - 2] == s[|s| - 1]; }
  }

  predicate WordChars(s: string) { forall k :: 0 <= k < |s| ==> IsAlnum(s[k]) || s[k] == '_' }

  lemma {:induction false} TailIff(s: string)
    ensures IdentifierTail(s) <==> WordChars(s) && Separated(s)
    decreases |s|
  {
    if IdentifierTail(s) { TailSeparated(s); }
    if s != "" {
      assert forall k :: 0 <= k < |s| - 1 ==> s[1..][k] == s[k + 1];
      TailIff(s[1..]);
      if s[0] == '_' && |s| > 1 {
        assert s[1..][1..] == s[2..];
        assert IdentifierTail(s[1..]) && IsAlnum(s[1]) <==> IdentifierTail(s[2..]) && IsAlnum(s[1]);
      }
    }
  }

  /** An identifier is accepted exactly when it is letters, digits and single underscores between them, a letter first. */
  lemma IdentifierIff(s: string)
    ensures IsIdentifier(s) <==> s != "" && IsLetter(s[0]) && WordChars(s) && NoSeparator(s)
  {
    if s != "" {
      assert forall k :: 0 <= k < |s| - 1 ==> s[1..][k] == s[k + 1];
      TailIff(s[1..]);
      if IsIdentifier(s) {
        IdentifierHasNoSeparator(s);
        assert forall k :: 1 <= k < |s| ==> s[k] == s[1..][k - 1];
      }
    }
  }

  lemma {:induction false} JoinWords(parts: seq<string>)
    requires AllIdentifiers(parts)
    ensures WordChars(JoinParts(parts))
    decreases |parts|
  {
    if parts != [] { IdentifierIff(parts[0]); }
    if |parts| > 1 { JoinWords(parts[1..]); }
  }

  /** A generated name starts with the prefix of its kind and is letters, digits and underscores. */
  lemma NamesAreWords(o: SchemaObject)
    requires Accepted(o)
    ensures WordChars(Name(o)) && Name(o)[..3] == "dt_"
  {
    assert AllIdentifiers(Parts(o));
    JoinWords(Parts(o));
    assert WordChars(Prefix(o));
  }

  /** Two parts in front of the same text agree when neither holds the separator. */
  lemma FirstPart(a: string, b: string, x: string, y: string)
    requires IsIdentifier(a) && IsIdentifier(b) && a + x == b + y
    requires x == "" || (|x| > 1 && x[0] == '_' && x[1] == '_')
    requires y == "" || (|y| > 1 && y[0] == '_' && y[1] == '_')
    ensures a == b && x == y
  {
    NotLonger(a, b, x, y);
    NotLonger(b, a, y, x);
    var s := a + x;
    assert a == s[..|a|] && b == s[..|b|];
    assert x == s[|a|..] && y == s[|b|..];
  }

  lemma NotLonger(a: string, b: string, x: string, y: string)
    requires IsIdentifier(b) && a + x == b + y
    requires x == "" || (|x| > 1 && x[0] == '_' && x[1] == '_')
    ensures |b| <= |a|
  {
    IdentifierHasNoSeparator(b);
    var s := a + x;
    assert x != "" ==> s[|a|] == '_' && s[|a| + 1] == '_';
    assert forall k :: 0 <= k < |b| ==> s[k] == b[k];
  }

  lemma {:induction false} JoinInjective(a: seq<string>, b: seq<string>)
    requires AllIdentifiers(a) && AllIdentifiers(b) && a != [] && b != []
    requires JoinParts(a) == JoinParts(b)
    ensures a == b
    decreases |a|
  {
    var x := if |a| == 1 then "" else "__" + JoinParts(a[1..]);
    var y := if |b| == 1 then "" else "__" + JoinParts(b[1..]);
    assert JoinParts(a) == a[0] + x && JoinParts(b) == b[0] + y;
    FirstPart(a[0], b[0], x, y);
    if |a| > 1 {
      assert JoinParts(a[1..]) == x[2..] && JoinParts(b[1..]) == y[2..];
      JoinInjective(a[1..], b[1..]);
      assert a == [a[0]] + a[1..] && b == [b[0]] + b[1..];
    }
  }

  /** No two accepted objects share a name, whatever their kinds. */
  lemma NamesUnambiguous(a: SchemaObject, b: SchemaObject)
    requires Accepted(a) && Accepted(b) && Name(a) == Name(b)
    ensures a == b
  {
    var s := Name(a);
    assert s[3] == Prefix(a)[3] && s[3] == Prefix(b)[3];
    assert Prefix(a) == Prefix(b);
    assert JoinParts(Parts(a)) == s[|Prefix(a)|..] && JoinParts(Parts(b)) == s[|Prefix(b)|..];
    JoinInjective(Parts(a), Parts(b));
    match a {
      case Constraint(l, ps, kind) => assert Parts(a)[1..] == ps && Parts(b)[1..] == b.properties;
      case _ => assert Parts(a)[0] == Parts(b)[0] && Parts(a)[1] == Parts(b)[1];
    }
  }
}
