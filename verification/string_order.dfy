/** Sorting of strings by code, as the JavaScript, Go and Python library sorts are used here. */
module StringOrder {
  predicate LessEq(a: string, b: string) {
    a == "" || (b != "" && (a[0] < b[0] || (a[0] == b[0] && LessEq(a[1..], b[1..]))))
  }

  lemma {:induction false} LessEqTotal(a: string, b: string)
    ensures LessEq(a, b) || LessEq(b, a)
    ensures LessEq(a, b) && LessEq(b, a) ==> a == b
    decreases |a|
  {
    if a != "" && b != "" {
      LessEqTotal(a[1..], b[1..]);
      assert a == a[..1] + a[1..] && b == b[..1] + b[1..];
    }
  }

  lemma {:induction false} LessEqTransitive(a: string, b: string, c: string)
    requires LessEq(a, b) && LessEq(b, c)
    ensures LessEq(a, c)
    decreases |a|
  {
    if a != "" && a[0] == b[0] && b[0] == c[0] {
      LessEqTransitive(a[1..], b[1..], c[1..]);
    }
  }

  predicate Sorted(s: seq<string>) { forall i, j :: 0 <= i <= j < |s| ==> LessEq(s[i], s[j]) }

  function InsertSorted(x: string, s: seq<string>): seq<string> {
    if s == [] then [x] else if LessEq(x, s[0]) then [x] + s else [s[0]] + InsertSorted(x, s[1..])
  }

  function Sort(s: seq<string>): seq<string> {
    if s == [] then [] else InsertSorted(s[0], Sort(s[1..]))
  }

  lemma {:induction false} InsertSortedKeeps(x: string, s: seq<string>)
    requires Sorted(s)
    ensures Sorted(InsertSorted(x, s)) && multiset(InsertSorted(x, s)) == multiset(s) + multiset{x}
    decreases |s|
  {
    LessEqTotal(x, x);
    if s != [] {
      LessEqTotal(x, s[0]);
      assert s == [s[0]] + s[1..];
      if LessEq(x, s[0]) {
        forall j | 0 <= j < |s| ensures LessEq(x, s[j]) { LessEqTransitive(x, s[0], s[j]); }
      } else {
        InsertSortedKeeps(x, s[1..]);
        var r := InsertSorted(x, s[1..]);
        forall j | 0 <= j < |r| ensures LessEq(s[0], r[j]) {
          assert r[j] in multiset(r);
          assert r[j] == x || r[j] in s[1..];
        }
        LessEqTotal(s[0], s[0]);
      }
    }
  }

  lemma {:induction false} SortSorts(s: seq<string>)
    ensures Sorted(Sort(s)) && multiset(Sort(s)) == multiset(s)
    decreases |s|
  {
    if s != [] {
      SortSorts(s[1..]);
      InsertSortedKeeps(s[0], Sort(s[1..]));
      assert s == [s[0]] + s[1..];
    }
  }

  lemma FirstIsLeast(s: seq<string>, x: string)
    requires Sorted(s) && x in s
    ensures LessEq(s[0], x)
  {
  }

  /** There is only one sorted arrangement, so the order strings arrive in leaves no trace. */
  lemma {:induction false} SortedUnique(a: seq<string>, b: seq<string>)
    requires Sorted(a) && Sorted(b) && multiset(a) == multiset(b)
    ensures a == b
    decreases |a|
  {
    assert |multiset(a)| == |a| && |multiset(b)| == |b|;
    if a != [] {
      SameFirst(a, b);
      SameRest(a, b);
      SortedUnique(a[1..], b[1..]) by { hide LessEq; }
      assert a == [a[0]] + a[1..] && b == [b[0]] + b[1..];
    }
  }

  lemma SameFirst(a: seq<string>, b: seq<string>)
    requires Sorted(a) && Sorted(b) && multiset(a) == multiset(b) && a != [] && b != []
    ensures a[0] == b[0]
  {
    hide LessEq;
    assert b[0] in multiset(b) && a[0] in multiset(a);
    FirstIsLeast(a, b[0]);
    FirstIsLeast(b, a[0]);
    LessEqTotal(a[0], b[0]);
  }

  lemma SameRest(a: seq<string>, b: seq<string>)
    requires multiset(a) == multiset(b) && a != [] && b != [] && a[0] == b[0]
    ensures multiset(a[1..]) == multiset(b[1..])
  {
    assert a == [a[0]] + a[1..] && b == [b[0]] + b[1..];
    assert multiset(a[1..]) == multiset(a) - multiset{a[0]};
    assert multiset(b[1..]) == multiset(b) - multiset{b[0]};
  }

  lemma SortIgnoresOrder(a: seq<string>, b: seq<string>)
    requires multiset(a) == multiset(b)
    ensures Sort(a) == Sort(b)
  {
    SortSorts(a);
    SortSorts(b);
    SortedUnique(Sort(a), Sort(b));
  }

  predicate Distinct(s: seq<string>) { forall i, j :: 0 <= i < j < |s| ==> s[i] != s[j] }

  lemma SortKeepsMembers(s: seq<string>)
    ensures forall x :: x in Sort(s) <==> x in s
    ensures |Sort(s)| == |s|
    ensures Distinct(s) ==> Distinct(Sort(s))
  {
    SortSorts(s);
    forall x ensures x in Sort(s) <==> x in s {
      assert x in Sort(s) <==> x in multiset(Sort(s));
      assert x in s <==> x in multiset(s);
    }
    assert |multiset(Sort(s))| == |multiset(s)|;
    if Distinct(s) {
      DistinctCounts(s);
      CountsDistinct(Sort(s));
    }
  }

  lemma {:induction false} DistinctCounts(s: seq<string>)
    requires Distinct(s)
    ensures forall x :: multiset(s)[x] <= 1
    decreases |s|
  {
    if s != [] {
      DistinctCounts(s[1..]);
      assert s == [s[0]] + s[1..];
      assert s[0] !in s[1..];
    }
  }

  lemma CountsDistinct(s: seq<string>)
    requires forall x :: multiset(s)[x] <= 1
    ensures Distinct(s)
  {
    forall i, j | 0 <= i < j < |s| ensures s[i] != s[j] {
      var a, b, c := s[..i], s[i + 1..j], s[j + 1..];
      assert s == a + [s[i]] + b + [s[j]] + c;
      assert multiset(s) == multiset(a) + multiset{s[i]} + multiset(b) + multiset{s[j]} + multiset(c);
      assert multiset(s)[s[i]] <= 1;
    }
  }
}
