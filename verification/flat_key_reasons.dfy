/**
 * Why a rebuild of flat keys leaves a key out (packages/dt-module/src/flat-keys.ts), said of the keys
 * taken before it: their paths, which of them were written, and how long the lists have become.
 */
module FlatKeyReasons {
  import opened Prelude
  import opened FlatKeyPath
  import opened FlatKeyTree
  import opened FlatKeyRebuild

  // ----- which keys stand in each other's way -----

  /**
   * A key written at `q` keeps one at `p` from being written: its value stands at `p` or above it, a container
   * of its own stands at `p`, or the two part ways in a container that is a list for one and an object for the other.
   */
  ghost predicate Clash(q: Path, v: Val, p: Path) {
    (Above(q, p) && !Absent(v)) || (Above(p, q) && p != q) || exists i: int :: PartInKind(q, p, i)
  }

  predicate Above(a: Path, b: Path) { |a| <= |b| && b[..|a|] == a }

  predicate PartAt(q: Path, p: Path, i: int) { 0 <= i < |q| && i < |p| && q[..i] == p[..i] && q[i] != p[i] }

  /** They part there in a container that is a list for one and an object for the other. */
  predicate PartInKind(q: Path, p: Path, i: int) { PartAt(q, p, i) && (q[i].Name? <==> p[i].Index?) }

  lemma ClashStep(q: Path, v: Val, p: Path)
    ensures q == [] ==> (Clash(q, v, p) <==> !Absent(v))
    ensures q != [] && p == [] ==> Clash(q, v, p)
    ensures q != [] && p != [] && q[0] != p[0] ==> (Clash(q, v, p) <==> (q[0].Name? <==> p[0].Index?))
  {
    PartBelow(q, p);
    if q != [] && p != [] && q[0] != p[0] {
      assert PartInKind(q, p, 0) <==> (q[0].Name? <==> p[0].Index?);
    }
  }

  lemma PartBelow(q: Path, p: Path)
    ensures forall i :: i > 0 && PartAt(q, p, i) ==> q[0] == p[0]
  {
    forall i | i > 0 && PartAt(q, p, i) ensures q[0] == p[0] { assert q[..i][0] == p[..i][0]; }
  }

  lemma AboveBelow(a: Path, b: Path)
    requires a != [] && b != [] && a[0] == b[0]
    ensures Above(a, b) <==> Above(a[1..], b[1..])
  {
    if |a| <= |b| {
      assert a == [a[0]] + a[1..] && b[..|a|] == [b[0]] + b[1..][..|a| - 1];
    }
  }

  lemma ClashBelow(q: Path, v: Val, p: Path)
    requires q != [] && p != [] && q[0] == p[0]
    ensures Clash(q, v, p) <==> Clash(q[1..], v, p[1..])
  {
    assert q == [q[0]] + q[1..] && p == [p[0]] + p[1..];
    AboveBelow(q, p);
    AboveBelow(p, q);
    if i :| PartInKind(q, p, i) {
      assert i > 0 && q[1..][..i - 1] == q[..i][1..] && p[1..][..i - 1] == p[..i][1..];
      assert PartInKind(q[1..], p[1..], i - 1);
    }
    if i :| PartInKind(q[1..], p[1..], i) {
      assert q[..i + 1] == [q[0]] + q[1..][..i] && p[..i + 1] == [p[0]] + p[1..][..i];
      assert PartInKind(q, p, i + 1);
    }
  }

  lemma {:induction false} MissingFree(t: Tree, p: Path)
    requires Missing(t)
    ensures Growth(t, p).Some?
    decreases |p|
  {
    if p != [] { MissingFree(Child(Fresh(p[0]), p[0]), p[1..]); }
  }

  lemma {:induction false} SameMissing(a: Tree, b: Tree, p: Path)
    requires a == b || (Missing(a) && Missing(b))
    ensures Growth(a, p).Some? <==> Growth(b, p).Some?
  {
    if a != b {
      MissingFree(a, p);
      MissingFree(b, p);
    }
  }

  /** One more key takes exactly the places it clashes with. */
  lemma {:induction false} FreeAfter(t: Tree, q: Path, v: Val, fill: Val, p: Path)
    requires Growth(t, q).Some? && Absent(fill)
    ensures Growth(Insert(t, q, v, fill), p).Some? <==> Growth(t, p).Some? && !Clash(q, v, p)
    decreases |q|
  {
    hide Clash;
    ClashStep(q, v, p);
    if q == [] {
      MissingFree(t, p);
      if Absent(v) { MissingFree(Leaf(v), p); }
    } else if p != [] {
      var base := Base(t, q[0]);
      var child := Insert(Child(base, q[0]), q[1..], v, fill);
      var after := Put(base, q[0], child, fill);
      assert !Missing(after) && Base(after, p[0]) == after;
      if q[0] == p[0] {
        ClashBelow(q, v, p);
        FreeAfter(Child(base, q[0]), q[1..], v, fill, p[1..]);
        ChildPut(base, q[0], child, fill, p[0]);
      } else if q[0].Name? <==> p[0].Name? {
        ChildPut(base, q[0], child, fill, p[0]);
        SameMissing(Child(after, p[0]), Child(base, p[0]), p[1..]);
        assert Base(t, p[0]) == base;
      }
    }
  }

  // ----- over a whole rebuild -----

  /** The place is free among these keys: a name in the outermost object, and no key that was written clashes. */
  ghost predicate PlaceFree(keys: seq<string>, values: map<string, Val>, pr: Progress, p: Path)
    requires forall k :: 0 <= k < |keys| ==> keys[k] in values
  {
    p != [] && p[0].Name?
    && forall j :: 0 <= j < |keys| && !Reported(pr, keys[j]) ==>
         Parse(keys[j]).Ok? && !Clash(Parse(keys[j]).value, values[keys[j]], p)
  }

  predicate Distinct(keys: seq<string>) { forall j, k :: 0 <= j < k < |keys| ==> keys[j] != keys[k] }

  /** The key is reported with this reason and no other. */
  predicate ReportedAs(pr: Progress, key: string, problem: Problem) {
    Reported(pr, key) && forall k :: 0 <= k < |pr.dropped| && pr.dropped[k].key == key ==> pr.dropped[k].problem == problem
  }

  /** With the key written all lists together would be longer than the limit. */
  ghost predicate TooLong(t: Tree, p: Path, v: Val, padLists: bool) { Slots(Insert(t, p, v, Fill(padLists))) > MAX_LIST_SLOTS }

  lemma ReportedMore(pr: Progress, d: Dropped, key: string)
    ensures var after := pr.(dropped := pr.dropped + [d]); Reported(after, key) <==> Reported(pr, key) || d.key == key
  {
    var after := pr.(dropped := pr.dropped + [d]);
    if Reported(pr, key) {
      var k :| 0 <= k < |pr.dropped| && pr.dropped[k].key == key;
      assert after.dropped[k].key == key;
    }
    if d.key == key { assert after.dropped[|pr.dropped|].key == key; }
  }

  /** The next key changes the report of no other. */
  lemma OthersKept(pr: Progress, key: string, value: Val, padLists: bool, other: string)
    requires other != key
    ensures Reported(Step(pr, key, value, padLists), other) <==> Reported(pr, other)
    ensures forall problem :: ReportedAs(Step(pr, key, value, padLists), other, problem) <==> ReportedAs(pr, other, problem)
  {
    hide Growth, Insert, Parse;
    var after := Step(pr, key, value, padLists);
    if after.dropped != pr.dropped {
      var d := after.dropped[|pr.dropped|];
      ReportedMore(pr, d, other);
      assert after.dropped == pr.dropped + [d] && d.key == key;
      assert forall k :: 0 <= k < |pr.dropped| ==> after.dropped[k] == pr.dropped[k];
    }
  }

  lemma {:induction false} NotYetReported(keys: seq<string>, values: map<string, Val>, padLists: bool, key: string)
    requires (forall k :: 0 <= k < |keys| ==> keys[k] in values) && key !in keys
    ensures !Reported(Rebuild(keys, values, padLists), key)
    decreases |keys|
  {
    hide Step;
    if keys != [] {
      var n := |keys| - 1;
      NotYetReported(keys[..n], values, padLists, key);
      OthersKept(Rebuild(keys[..n], values, padLists), keys[n], values[keys[n]], padLists, key);
    }
  }

  lemma {:induction false} FreeIff(keys: seq<string>, values: map<string, Val>, padLists: bool, p: Path)
    requires (forall k :: 0 <= k < |keys| ==> keys[k] in values) && Distinct(keys)
    ensures var pr := Rebuild(keys, values, padLists); Growth(pr.value, p).Some? <==> PlaceFree(keys, values, pr, p)
    decreases |keys|
  {
    hide Step, Clash;
    if keys == [] {
      StartFree(p);
    } else {
      var n := |keys| - 1;
      var before, key := Rebuild(keys[..n], values, padLists), keys[n];
      FreeIff(keys[..n], values, padLists, p);
      assert Distinct(keys[..n]) && key !in keys[..n];
      NotYetReported(keys[..n], values, padLists, key);
      FreeStep(keys, values, padLists, p, before);
    }
  }

  lemma StartFree(p: Path)
    ensures Growth(START.value, p).Some? <==> p != [] && p[0].Name?
  {
    if p != [] && p[0].Name? { MissingFree(NOTHING, p[1..]); }
  }

  lemma FreeStep(keys: seq<string>, values: map<string, Val>, padLists: bool, p: Path, before: Progress)
    requires keys != [] && (forall k :: 0 <= k < |keys| ==> keys[k] in values) && Distinct(keys)
    requires !Reported(before, keys[|keys| - 1])
    requires Growth(before.value, p).Some? <==> PlaceFree(keys[..|keys| - 1], values, before, p)
    ensures var pr := Step(before, keys[|keys| - 1], values[keys[|keys| - 1]], padLists);
            Growth(pr.value, p).Some? <==> PlaceFree(keys, values, pr, p)
  {
    hide Growth, Insert, Parse, Clash, Reported;
    var n := |keys| - 1;
    var key, value := keys[n], values[keys[n]];
    var pr := Step(before, key, value, padLists);
    forall j | 0 <= j < n ensures Reported(pr, keys[j]) <==> Reported(before, keys[j]) { OthersKept(before, key, value, padLists, keys[j]); }
    assert forall j :: 0 <= j < n ==> keys[..n][j] == keys[j];
    if pr.dropped == before.dropped {
      assert pr == before.(value := pr.value, slots := pr.slots);
      WrittenNow(before, key, value, padLists);
      FreeAfter(before.value, Parse(key).value, value, Fill(padLists), p);
    } else {
      ReportedMore(before, pr.dropped[|before.dropped|], key);
    }
  }

  lemma WrittenNow(pr: Progress, key: string, value: Val, padLists: bool)
    requires Step(pr, key, value, padLists).dropped == pr.dropped
    ensures Parse(key).Ok? && Growth(pr.value, Parse(key).value).Some?
    ensures Step(pr, key, value, padLists).value == Insert(pr.value, Parse(key).value, value, Fill(padLists))
    ensures forall other :: Reported(Step(pr, key, value, padLists), other) <==> Reported(pr, other)
  {
    StepReports(pr, key, value, padLists);
  }

  /**
   * Every key is written or reported with one reason, which is: what the scan finds wrong with it; else a
   * conflict, exactly when its place is not free among the keys written before it; else the budget, exactly
   * when the lists would become longer altogether than the limit. No other key is reported, and a key that
   * is written stands at its place.
   */
  lemma {:induction false} RebuildReason(keys: seq<string>, values: map<string, Val>, padLists: bool, i: nat)
    requires (forall k :: 0 <= k < |keys| ==> keys[k] in values) && Distinct(keys) && i < |keys|
    ensures var pr, before := Rebuild(keys, values, padLists), Rebuild(keys[..i], values, padLists);
            if Parse(keys[i]).Err? then ReportedAs(pr, keys[i], Parse(keys[i]).error)
            else if !PlaceFree(keys[..i], values, pr, Parse(keys[i]).value) then ReportedAs(pr, keys[i], Conflict)
            else if TooLong(before.value, Parse(keys[i]).value, values[keys[i]], padLists) then ReportedAs(pr, keys[i], Budget)
            else !Reported(pr, keys[i])
                 && Lookup(Rebuild(keys[..i + 1], values, padLists).value, Parse(keys[i]).value) == Leaf(values[keys[i]])
    decreases |keys|
  {
    hide Step, Clash, Parse, Growth, Insert, Reported, Slots, Lookup;
    var n := |keys| - 1;
    var last := Rebuild(keys[..n], values, padLists);
    if i < n {
      RebuildReason(keys[..n], values, padLists, i);
      assert keys[..n][..i] == keys[..i] && keys[..n][..i + 1] == keys[..i + 1];
      OthersKept(last, keys[n], values[keys[n]], padLists, keys[i]);
      SameFree(keys, values, padLists, i);
    } else {
      assert keys[..i + 1] == keys;
      NotYetReported(keys[..n], values, padLists, keys[n]);
      LastReason(keys, values, padLists);
    }
  }

  lemma SameFree(keys: seq<string>, values: map<string, Val>, padLists: bool, i: nat)
    requires (forall k :: 0 <= k < |keys| ==> keys[k] in values) && Distinct(keys) && i < |keys| - 1
    ensures forall p :: PlaceFree(keys[..i], values, Rebuild(keys[..|keys| - 1], values, padLists), p)
                   <==> PlaceFree(keys[..i], values, Rebuild(keys, values, padLists), p)
  {
    hide Step, Clash, Parse, Reported;
    var n := |keys| - 1;
    var last := Rebuild(keys[..n], values, padLists);
    forall j | 0 <= j < i ensures Reported(Rebuild(keys, values, padLists), keys[j]) <==> Reported(last, keys[j]) {
      OthersKept(last, keys[n], values[keys[n]], padLists, keys[j]);
    }
  }

  lemma LastReason(keys: seq<string>, values: map<string, Val>, padLists: bool)
    requires keys != [] && (forall k :: 0 <= k < |keys| ==> keys[k] in values) && Distinct(keys)
    requires !Reported(Rebuild(keys[..|keys| - 1], values, padLists), keys[|keys| - 1])
    ensures var n := |keys| - 1; var pr, before := Rebuild(keys, values, padLists), Rebuild(keys[..n], values, padLists);
            if Parse(keys[n]).Err? then ReportedAs(pr, keys[n], Parse(keys[n]).error)
            else if !PlaceFree(keys[..n], values, pr, Parse(keys[n]).value) then ReportedAs(pr, keys[n], Conflict)
            else if TooLong(before.value, Parse(keys[n]).value, values[keys[n]], padLists) then ReportedAs(pr, keys[n], Budget)
            else !Reported(pr, keys[n]) && Lookup(pr.value, Parse(keys[n]).value) == Leaf(values[keys[n]])
  {
    hide Clash, Parse, Growth, Insert, Slots, Lookup;
    var n := |keys| - 1;
    var before, pr := Rebuild(keys[..n], values, padLists), Rebuild(keys, values, padLists);
    var key, value := keys[n], values[keys[n]];
    match Parse(key) {
      case Err(problem) => ReportedMore(before, Dropped(key, problem), key);
      case Ok(p) =>
        FreeIff(keys[..n], values, padLists, p);
        BeforeFree(keys, values, padLists, p);
        if Growth(before.value, p).None? {
          ReportedMore(before, Dropped(key, Conflict), key);
        } else {
          RebuildConserves(keys[..n], values, padLists);
          InsertGrowth(before.value, p, value, Fill(padLists));
          InsertThenLookup(before.value, p, value, Fill(padLists));
          if before.slots + Growth(before.value, p).value > MAX_LIST_SLOTS { ReportedMore(before, Dropped(key, Budget), key); }
        }
    }
  }

  lemma BeforeFree(keys: seq<string>, values: map<string, Val>, padLists: bool, p: Path)
    requires keys != [] && (forall k :: 0 <= k < |keys| ==> keys[k] in values) && Distinct(keys)
    ensures var n := |keys| - 1;
            PlaceFree(keys[..n], values, Rebuild(keys[..n], values, padLists), p) <==> PlaceFree(keys[..n], values, Rebuild(keys, values, padLists), p)
  {
    hide Step, Clash, Parse, Reported;
    var n := |keys| - 1;
    var last := Rebuild(keys[..n], values, padLists);
    forall j | 0 <= j < n ensures Reported(Rebuild(keys, values, padLists), keys[..n][j]) <==> Reported(last, keys[..n][j]) {
      OthersKept(last, keys[n], values[keys[n]], padLists, keys[j]);
    }
  }
}
