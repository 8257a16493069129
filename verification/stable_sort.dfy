/**
 * Sorting rows by keys that need not tell them apart: what a stable library sort gives, and exactly
 * when the order the rows arrive in leaves no trace.
 */
module StableSort {
  import opened Prelude
  import opened StringOrder

  // ----- sorting by a key of several texts -----

  type SortKey = seq<string>

  /** Tuples of texts in the order of their first difference. */
  predicate KeyLessEq(a: SortKey, b: SortKey) {
    a == [] || (b != [] && if a[0] == b[0] then KeyLessEq(a[1..], b[1..]) else LessEq(a[0], b[0]))
  }

  lemma {:induction false} KeyTotal(a: SortKey, b: SortKey)
    ensures KeyLessEq(a, b) || KeyLessEq(b, a)
    ensures KeyLessEq(a, b) && KeyLessEq(b, a) ==> a == b
    decreases |a|
  {
    hide LessEq;
    if a != [] && b != [] {
      LessEqTotal(a[0], b[0]);
      KeyTotal(a[1..], b[1..]);
      assert a == [a[0]] + a[1..] && b == [b[0]] + b[1..];
    }
  }

  lemma {:induction false} KeyTransitive(a: SortKey, b: SortKey, c: SortKey)
    requires KeyLessEq(a, b) && KeyLessEq(b, c)
    ensures KeyLessEq(a, c)
    decreases |a|
  {
    hide LessEq;
    if a != [] {
      if a[0] == b[0] && b[0] == c[0] {
        KeyTransitive(a[1..], b[1..], c[1..]);
      } else if a[0] != b[0] && b[0] != c[0] {
        LessEqTransitive(a[0], b[0], c[0]);
        LessEqTotal(a[0], b[0]);
      }
    }
  }

  /** A row with the key it is sorted by. */
  datatype Keyed<T> = Keyed(key: SortKey, row: T)

  function Insert<T>(x: Keyed<T>, s: seq<Keyed<T>>): seq<Keyed<T>> {
    if s == [] then [x] else if KeyLessEq(x.key, s[0].key) then [x] + s else [s[0]] + Insert(x, s[1..])
  }

  /** The library sort: rows with one key stay in the order they came in. */
  function SortRows<T>(s: seq<Keyed<T>>): seq<Keyed<T>> {
    if s == [] then [] else Insert(s[0], SortRows(s[1..]))
  }

  predicate KeysSorted<T>(s: seq<Keyed<T>>) { forall i, j :: 0 <= i <= j < |s| ==> KeyLessEq(s[i].key, s[j].key) }

  lemma FirstSorted<T>(x: Keyed<T>, s: seq<Keyed<T>>)
    requires KeysSorted(s) && forall j :: 0 <= j < |s| ==> KeyLessEq(x.key, s[j].key)
    ensures KeysSorted([x] + s)
  {
    hide KeyLessEq;
    KeyTotal(x.key, x.key);
    var all := [x] + s;
    forall i, j | 0 <= i <= j < |all| ensures KeyLessEq(all[i].key, all[j].key) {
      if i > 0 { assert all[i] == s[i - 1] && all[j] == s[j - 1]; }
    }
  }

  lemma TailSorted<T>(s: seq<Keyed<T>>)
    requires KeysSorted(s) && s != []
    ensures KeysSorted(s[1..]) && forall j :: 0 <= j < |s| ==> KeyLessEq(s[0].key, s[j].key)
  {
    hide KeyLessEq;
    assert forall j :: 0 <= j < |s[1..]| ==> s[1..][j] == s[j + 1];
  }

  lemma {:induction false} InsertKeeps<T>(x: Keyed<T>, s: seq<Keyed<T>>)
    requires KeysSorted(s)
    ensures KeysSorted(Insert(x, s)) && multiset(Insert(x, s)) == multiset(s) + multiset{x}
    decreases |s|
  {
    hide KeyLessEq, KeysSorted;
    if s == [] {
      FirstSorted(x, s);
      assert [x] + s == [x];
    } else {
      KeyTotal(x.key, s[0].key);
      TailSorted(s);
      assert s == [s[0]] + s[1..];
      if KeyLessEq(x.key, s[0].key) {
        forall j | 0 <= j < |s| ensures KeyLessEq(x.key, s[j].key) { KeyTransitive(x.key, s[0].key, s[j].key); }
        FirstSorted(x, s);
      } else {
        InsertKeeps(x, s[1..]);
        var r := Insert(x, s[1..]);
        forall j | 0 <= j < |r| ensures KeyLessEq(s[0].key, r[j].key) {
          assert r[j] in multiset(s[1..]) + multiset{x};
          assert r[j] == x || r[j] in s[1..];
          assert r[j] in s[1..] ==> r[j] in s;
        }
        FirstSorted(s[0], r);
      }
    }
  }

  lemma {:induction false} SortRowsSorts<T>(s: seq<Keyed<T>>)
    ensures KeysSorted(SortRows(s)) && multiset(SortRows(s)) == multiset(s)
    decreases |s|
  {
    hide KeyLessEq, KeysSorted;
    if s == [] {
      assert KeysSorted<T>([]) by { NothingSorted<T>(); }
    } else {
      SortRowsSorts(s[1..]);
      InsertKeeps(s[0], SortRows(s[1..]));
      assert s == [s[0]] + s[1..];
    }
  }

  lemma NothingSorted<T>()
    ensures KeysSorted<T>([])
  {
  }

  // ----- when the order of arrival leaves no trace -----

  /** What the records that have something have, as they arrive. */
  function Collect<R, S>(records: seq<R>, f: R -> Option<S>): seq<S> {
    if records == [] then [] else (match f(records[0]) case Some(x) => [x] case None => []) + Collect(records[1..], f)
  }

  function Written<T, U>(s: seq<Keyed<T>>, written: T -> U): seq<U> {
    if s == [] then [] else [written(s[0].row)] + Written(s[1..], written)
  }

  /** Rows with one key are written alike. */
  ghost predicate KeysTell<T(!new), U>(s: seq<Keyed<T>>, written: T -> U) {
    forall x, y :: x in s && y in s && x.key == y.key ==> written(x.row) == written(y.row)
  }

  /** Records in another order give the same output. */
  ghost predicate NoTrace<R(!new), T, U>(records: seq<R>, row: R -> Option<Keyed<T>>, written: T -> U) {
    forall a :: multiset(a) == multiset(records) ==> Written(SortRows(Collect(a, row)), written) == Written(SortRows(Collect(records, row)), written)
  }

  function KeyOf<T>(x: Keyed<T>): Option<SortKey> { Some(x.key) }

  lemma {:induction false} KeysAt<T>(s: seq<Keyed<T>>)
    ensures |Collect(s, KeyOf)| == |s| && forall i :: 0 <= i < |s| ==> Collect(s, KeyOf)[i] == s[i].key
    decreases |s|
  {
    if s != [] { KeysAt(s[1..]); }
  }

  lemma {:induction false} WrittenAt<T, U>(s: seq<Keyed<T>>, written: T -> U)
    ensures |Written(s, written)| == |s| && forall i :: 0 <= i < |s| ==> Written(s, written)[i] == written(s[i].row)
    decreases |s|
  {
    if s != [] { WrittenAt(s[1..], written); }
  }

  lemma {:induction false} CollectConcat<R, S>(a: seq<R>, b: seq<R>, f: R -> Option<S>)
    ensures Collect(a + b, f) == Collect(a, f) + Collect(b, f)
    decreases |a|
  {
    if a == [] {
      assert a + b == b;
    } else {
      assert (a + b)[1..] == a[1..] + b;
      CollectConcat(a[1..], b, f);
    }
  }

  lemma CollectOne<R, S>(x: R, s: seq<R>, f: R -> Option<S>)
    ensures Collect([x] + s, f) == (match f(x) case Some(y) => [y] case None => []) + Collect(s, f)
  {
    assert ([x] + s)[1..] == s;
  }

  /** One element taken out. */
  lemma Without<T>(s: seq<T>, x: T) returns (rest: seq<T>, j: nat)
    requires x in s
    ensures j < |s| && s[j] == x && rest == s[..j] + s[j + 1..] && multiset(s) == multiset(rest) + multiset{x} && |rest| == |s| - 1
  {
    j :| 0 <= j < |s| && s[j] == x;
    rest := s[..j] + s[j + 1..];
    assert s == s[..j] + [x] + s[j + 1..];
  }

  /** Where an element stands makes no difference to how often anything is collected. */
  lemma CollectWithout<R, S>(s: seq<R>, j: nat, f: R -> Option<S>)
    requires j < |s|
    ensures multiset(Collect(s, f)) == multiset(Collect([s[j]] + (s[..j] + s[j + 1..]), f))
  {
    hide Collect;
    var before, after := s[..j], s[j + 1..];
    assert s == before + ([s[j]] + after);
    CollectConcat(before, [s[j]] + after, f);
    CollectConcat([s[j]], after, f);
    CollectConcat([s[j]], before + after, f);
    CollectConcat(before, after, f);
  }

  lemma {:induction false} CollectMultiset<R, S>(a: seq<R>, b: seq<R>, f: R -> Option<S>)
    requires multiset(a) == multiset(b)
    ensures multiset(Collect(a, f)) == multiset(Collect(b, f))
    decreases |a|
  {
    hide Collect;
    assert |multiset(a)| == |a| && |multiset(b)| == |b|;
    if a == [] {
      assert b == [];
    } else {
      assert a == [a[0]] + a[1..];
      assert a[0] in multiset(b);
      var rest, j := Without(b, a[0]);
      assert multiset(a[1..]) == multiset(a) - multiset{a[0]};
      CollectMultiset(a[1..], rest, f);
      CollectWithout(b, j, f);
      CollectOne(a[0], a[1..], f);
      CollectOne(a[0], rest, f);
    }
  }

  predicate Ascending(s: seq<SortKey>) { forall i, j :: 0 <= i <= j < |s| ==> KeyLessEq(s[i], s[j]) }

  lemma {:induction false} AscendingUnique(a: seq<SortKey>, b: seq<SortKey>)
    requires Ascending(a) && Ascending(b) && multiset(a) == multiset(b)
    ensures a == b
    decreases |a|
  {
    hide KeyLessEq;
    assert |multiset(a)| == |a| && |multiset(b)| == |b|;
    if a != [] {
      assert a == [a[0]] + a[1..] && b == [b[0]] + b[1..];
      SameLeast(a, b);
      assert multiset(a[1..]) == multiset(a) - multiset{a[0]};
      assert multiset(b[1..]) == multiset(b) - multiset{b[0]};
      AscendingUnique(a[1..], b[1..]);
    }
  }

  lemma SameLeast(a: seq<SortKey>, b: seq<SortKey>)
    requires Ascending(a) && Ascending(b) && multiset(a) == multiset(b) && a != [] && b != []
    ensures a[0] == b[0]
  {
    hide KeyLessEq;
    assert b[0] in multiset(a) && a[0] in multiset(b);
    var i :| 0 <= i < |a| && a[i] == b[0];
    var j :| 0 <= j < |b| && b[j] == a[0];
    KeyTotal(a[0], b[0]);
  }

  /** Sorted arrangements of the same rows have the same keys in the same places. */
  lemma SortedAlike<T>(a: seq<Keyed<T>>, b: seq<Keyed<T>>)
    requires KeysSorted(a) && KeysSorted(b) && multiset(a) == multiset(b)
    ensures |a| == |b| && forall i :: 0 <= i < |a| ==> a[i].key == b[i].key
  {
    hide KeyLessEq;
    KeysAt(a);
    KeysAt(b);
    CollectMultiset(a, b, KeyOf);
    AscendingUnique(Collect(a, KeyOf), Collect(b, KeyOf));
    assert forall i :: 0 <= i < |a| ==> Collect(a, KeyOf)[i] == a[i].key;
  }

  lemma TellsNoTrace<T(!new), U>(s: seq<Keyed<T>>, a: seq<Keyed<T>>, written: T -> U)
    requires KeysTell(s, written) && multiset(a) == multiset(s)
    ensures Written(SortRows(a), written) == Written(SortRows(s), written)
  {
    hide SortRows, KeysSorted;
    var x, y := SortRows(a), SortRows(s);
    SortRowsSorts(a);
    SortRowsSorts(s);
    SortedAlike(x, y);
    WrittenAt(x, written);
    WrittenAt(y, written);
    forall i | 0 <= i < |x| ensures written(x[i].row) == written(y[i].row) {
      assert x[i] in multiset(s) && y[i] in multiset(s);
    }
    assert Written(x, written) == Written(y, written);
  }

  lemma InsertAfter<T>(x: Keyed<T>, y: Keyed<T>, s: seq<Keyed<T>>)
    requires x.key == y.key && s != [] && !KeyLessEq(x.key, s[0].key)
    ensures Insert(x, Insert(y, s)) == [s[0]] + Insert(x, Insert(y, s[1..]))
  {
    hide KeyLessEq;
    var ys := Insert(y, s[1..]);
    assert ([s[0]] + ys)[1..] == ys;
  }

  lemma Pushed<T>(first: T, s: seq<T>, q: nat, middle: seq<T>)
    requires q <= |s|
    ensures [first] + (s[..q] + middle + s[q..]) == ([first] + s)[..q + 1] + middle + ([first] + s)[q + 1..]
  {
  }

  /** Two rows with one key arriving first come out next to each other, in the order they came in. */
  lemma {:induction false} InsertTwo<T>(x: Keyed<T>, y: Keyed<T>, s: seq<Keyed<T>>) returns (p: nat)
    requires x.key == y.key
    ensures p <= |s| && Insert(x, Insert(y, s)) == s[..p] + [x, y] + s[p..] && Insert(y, Insert(x, s)) == s[..p] + [y, x] + s[p..]
    decreases |s|
  {
    hide KeyLessEq;
    KeyTotal(x.key, x.key);
    if s == [] || KeyLessEq(x.key, s[0].key) {
      p := 0;
      assert [x] + ([y] + s) == [x, y] + s && [y] + ([x] + s) == [y, x] + s;
    } else {
      var q := InsertTwo(x, y, s[1..]);
      p := q + 1;
      InsertAfter(x, y, s);
      InsertAfter(y, x, s);
      hide Insert;
      Pushed(s[0], s[1..], q, [x, y]);
      Pushed(s[0], s[1..], q, [y, x]);
      assert [s[0]] + s[1..] == s;
    }
  }

  /** Two different records, and the others. */
  lemma TakeTwo<R>(records: seq<R>, x: R, y: R) returns (rest: seq<R>)
    requires x in records && y in records && x != y
    ensures multiset([x] + ([y] + rest)) == multiset(records) && multiset([y] + ([x] + rest)) == multiset(records)
  {
    var others, j := Without(records, x);
    assert y in multiset(records) && multiset(records) == multiset(others) + multiset{x};
    var k: nat;
    rest, k := Without(others, y);
  }

  /** Where two rows with one key are written differently, swapping their records shows. */
  lemma SwapShows<R(!new), T(!new), U>(records: seq<R>, row: R -> Option<Keyed<T>>, written: T -> U, x: Keyed<T>, y: Keyed<T>)
    requires x in Collect(records, row) && y in Collect(records, row) && x.key == y.key && written(x.row) != written(y.row)
    ensures !NoTrace(records, row, written)
  {
    hide SortRows, Written, Collect;
    var rx := RecordOf(records, row, x);
    var ry := RecordOf(records, row, y);
    var rest := TakeTwo(records, rx, ry);
    var a, b := [rx] + ([ry] + rest), [ry] + ([rx] + rest);
    var p := TwoFirst(rx, ry, rest, row, x, y);
    WrittenAt(SortRows(Collect(a, row)), written);
    WrittenAt(SortRows(Collect(b, row)), written);
    assert Written(SortRows(Collect(a, row)), written)[p] != Written(SortRows(Collect(b, row)), written)[p];
  }

  lemma TwoFirst<R, T>(rx: R, ry: R, rest: seq<R>, row: R -> Option<Keyed<T>>, x: Keyed<T>, y: Keyed<T>) returns (p: nat)
    requires row(rx) == Some(x) && row(ry) == Some(y) && x.key == y.key
    ensures var a, b := SortRows(Collect([rx] + ([ry] + rest), row)), SortRows(Collect([ry] + ([rx] + rest), row));
            p < |a| && p < |b| && a[p] == x && b[p] == y
  {
    hide SortRows, Insert, Collect;
    var rows := Collect(rest, row);
    CollectOne(rx, [ry] + rest, row);
    CollectOne(ry, rest, row);
    CollectOne(ry, [rx] + rest, row);
    CollectOne(rx, rest, row);
    SortTwo(x, y, rows);
    var sorted := SortRows(rows);
    p := InsertTwo(x, y, sorted);
  }

  lemma SortTwo<T>(x: Keyed<T>, y: Keyed<T>, rows: seq<Keyed<T>>)
    ensures SortRows([x] + ([y] + rows)) == Insert(x, Insert(y, SortRows(rows)))
    ensures SortRows([y] + ([x] + rows)) == Insert(y, Insert(x, SortRows(rows)))
  {
    hide Insert;
    assert ([x] + ([y] + rows))[1..] == [y] + rows && ([y] + rows)[1..] == rows;
    assert ([y] + ([x] + rows))[1..] == [x] + rows && ([x] + rows)[1..] == rows;
  }

  lemma {:induction false} RecordOf<R, T>(records: seq<R>, row: R -> Option<Keyed<T>>, x: Keyed<T>) returns (r: R)
    requires x in Collect(records, row)
    ensures r in records && row(r) == Some(x)
    decreases |records|
  {
    if row(records[0]) == Some(x) {
      r := records[0];
    } else {
      r := RecordOf(records[1..], row, x);
    }
  }

  /** The order of arrival leaves no trace exactly when the keys tell apart whatever is written differently. */
  lemma ArrivalIff<R(!new), T(!new), U>(records: seq<R>, row: R -> Option<Keyed<T>>, written: T -> U)
    ensures NoTrace(records, row, written) <==> KeysTell(Collect(records, row), written)
  {
    hide SortRows, Written, Collect;
    if KeysTell(Collect(records, row), written) {
      forall a | multiset(a) == multiset(records)
        ensures Written(SortRows(Collect(a, row)), written) == Written(SortRows(Collect(records, row)), written)
      {
        CollectMultiset(a, records, row);
        TellsNoTrace(Collect(records, row), Collect(a, row), written);
      }
    } else {
      var x, y :| x in Collect(records, row) && y in Collect(records, row) && x.key == y.key && written(x.row) != written(y.row);
      SwapShows(records, row, written, x, y);
    }
  }
}
