/**
 * Rebuilding a whole record of flat keys (packages/dt-module/src/flat-keys.ts), as a function of
 * the keys in the order they are taken: what it keeps, and the round trip from a nested value.
 */
module FlatKeyRebuild {
  import opened Prelude
  import opened FlatKeyPath
  import opened FlatKeyTree

  // ----- the rebuild -----

  datatype Dropped = Dropped(key: string, problem: Problem)

  datatype Progress = Progress(value: Tree, slots: nat, dropped: seq<Dropped>)

  const START: Progress := Progress(Obj(map[]), 0, [])

  function Fill(padLists: bool): Val { if padLists then Null else Undefined }

  /** One key: written, or left out whole with one reason. */
  function Step(pr: Progress, key: string, value: Val, padLists: bool): Progress {
    match Parse(key)
    case Err(problem) => pr.(dropped := pr.dropped + [Dropped(key, problem)])
    case Ok(segments) =>
      match Growth(pr.value, segments)
      case None => pr.(dropped := pr.dropped + [Dropped(key, Conflict)])
      case Some(growth) =>
        if pr.slots + growth > MAX_LIST_SLOTS then pr.(dropped := pr.dropped + [Dropped(key, Budget)])
        else Progress(Insert(pr.value, segments, value, Fill(padLists)), pr.slots + growth, pr.dropped)
  }

  /** The keys one after the other, in the order given. */
  function Rebuild(keys: seq<string>, values: map<string, Val>, padLists: bool): Progress
    requires forall k :: 0 <= k < |keys| ==> keys[k] in values
  {
    if keys == [] then START
    else
      var n := |keys| - 1;
      Step(Rebuild(keys[..n], values, padLists), keys[n], values[keys[n]], padLists)
  }

  predicate Reported(pr: Progress, key: string) { exists k :: 0 <= k < |pr.dropped| && pr.dropped[k].key == key }

  /** Conservation over a whole rebuild: the counter is the summed length of every list, within the budget. */
  lemma {:induction false} RebuildConserves(keys: seq<string>, values: map<string, Val>, padLists: bool)
    requires forall k :: 0 <= k < |keys| ==> keys[k] in values
    ensures var pr := Rebuild(keys, values, padLists);
            pr.slots == Slots(pr.value) <= MAX_LIST_SLOTS && pr.value.Obj?
    decreases |keys|
  {
    if keys == [] {
      var e := START.value;
      assert e.fields.Keys == {};
    } else {
      var n := |keys| - 1;
      RebuildConserves(keys[..n], values, padLists);
      var pr := Rebuild(keys[..n], values, padLists);
      match Parse(keys[n]) {
        case Err(_) =>
        case Ok(segments) =>
          ParseKeepsLimits(keys[n], []);
          if Growth(pr.value, segments).Some? {
            InsertGrowth(pr.value, segments, values[keys[n]], Fill(padLists));
          }
      }
    }
  }

  predicate ReportsOnly(pr: Progress, keys: seq<string>) {
    forall k :: 0 <= k < |pr.dropped| ==> pr.dropped[k].key in keys
  }

  predicate ReportsOnce(pr: Progress) {
    forall j, k :: 0 <= j < k < |pr.dropped| ==> pr.dropped[j].key != pr.dropped[k].key
  }

  /** The report names keys that were taken, each at most once. */
  lemma {:induction false} RebuildReports(keys: seq<string>, values: map<string, Val>, padLists: bool)
    requires forall k :: 0 <= k < |keys| ==> keys[k] in values
    requires forall j, k :: 0 <= j < k < |keys| ==> keys[j] != keys[k]
    ensures ReportsOnly(Rebuild(keys, values, padLists), keys) && ReportsOnce(Rebuild(keys, values, padLists))
    decreases |keys|
  {
    hide Step;
    if keys != [] {
      var n := |keys| - 1;
      var pr, after := Rebuild(keys[..n], values, padLists), Rebuild(keys, values, padLists);
      RebuildReports(keys[..n], values, padLists);
      StepReports(pr, keys[n], values[keys[n]], padLists);
      forall k | 0 <= k < |pr.dropped| ensures pr.dropped[k].key in keys && pr.dropped[k].key != keys[n] {
        assert pr.dropped[k].key in keys[..n];
      }
    }
  }

  lemma StepReports(pr: Progress, key: string, value: Val, padLists: bool)
    ensures var after := Step(pr, key, value, padLists);
            after.dropped == pr.dropped
            || (|after.dropped| == |pr.dropped| + 1 && pr.dropped <= after.dropped
                && after.dropped[|pr.dropped|].key == key && after.value == pr.value)
    ensures Step(pr, key, value, padLists).dropped == pr.dropped ==>
              Parse(key).Ok? && Growth(pr.value, Parse(key).value).Some?
              && Step(pr, key, value, padLists).value == Insert(pr.value, Parse(key).value, value, Fill(padLists))
  {
  }

  /** Every key taken is either reported or reads back as it was written. */
  lemma {:induction false} RebuildAccounts(keys: seq<string>, values: map<string, Val>, padLists: bool, i: nat)
    requires forall k :: 0 <= k < |keys| ==> keys[k] in values
    requires i < |keys|
    ensures var pr := Rebuild(keys, values, padLists);
            Reported(pr, keys[i])
            || (Parse(keys[i]).Ok? && (Absent(values[keys[i]])
                                       || Lookup(pr.value, Parse(keys[i]).value) == Leaf(values[keys[i]])))
    decreases |keys|
  {
    var n := |keys| - 1;
    var key := keys[n];
    var pr, after := Rebuild(keys[..n], values, padLists), Rebuild(keys, values, padLists);
    StepReports(pr, key, values[key], padLists);
    if i < n {
      RebuildAccounts(keys[..n], values, padLists, i);
      if Reported(pr, keys[i]) {
        var k :| 0 <= k < |pr.dropped| && pr.dropped[k].key == keys[i];
        assert after.dropped[k].key == keys[i];
      } else if after.dropped == pr.dropped && !Absent(values[keys[i]]) {
        InsertKeeps(pr.value, Parse(key).value, values[key], Fill(padLists), Parse(keys[i]).value);
      }
    } else if after.dropped == pr.dropped {
      InsertThenLookup(pr.value, Parse(key).value, values[key], Fill(padLists));
    }
  }

  // ----- nested values and their leaves -----

  /** A nested value flat keys can carry: nothing missing, nothing empty, names the scan accepts. */
  predicate Solid(v: Tree) {
    match v
    case Leaf(x) => !Absent(x)
    case Obj(fields) => fields != map[] && forall k :: k in fields ==> GoodName(k) && Solid(fields[k])
    case Arr(slots) => slots != [] && forall k :: 0 <= k < |slots| ==> Solid(slots[k])
  }

  predicate Within(v: Tree, s: Segment) {
    Fits(v, s) && match s case Name(name) => name in v.fields case Index(i) => i < |v.slots|
  }

  /** Whether `p` ends at a leaf of `v`. */
  predicate LeafPath(v: Tree, p: Path)
    decreases |p|
  {
    if p == [] then v.Leaf? else Within(v, p[0]) && LeafPath(Child(v, p[0]), p[1..])
  }

  function LeafAt(v: Tree, p: Path): Val {
    match Lookup(v, p) case Leaf(x) => x case _ => Undefined
  }

  function Tails(d: set<Path>, s: Segment): set<Path> { set p | p in d && p != [] && p[0] == s :: p[1..] }

  lemma TailsMember(d: set<Path>, s: Segment, q: Path)
    ensures q in Tails(d, s) <==> [s] + q in d
  {
    assert ([s] + q)[1..] == q;
    if q in Tails(d, s) {
      var p :| p in d && p != [] && p[0] == s && p[1..] == q;
      assert p == [s] + q;
    }
  }

  lemma TailsAdd(d: set<Path>, p: Path, s: Segment)
    requires p != []
    ensures Tails(d + {p}, s) == if s == p[0] then Tails(d, s) + {p[1..]} else Tails(d, s)
  {
    assert p == [p[0]] + p[1..];
    forall q
      ensures q in Tails(d + {p}, s) <==> q in (if s == p[0] then Tails(d, s) + {p[1..]} else Tails(d, s))
    {
      TailsMember(d, s, q);
      TailsMember(d + {p}, s, q);
      assert [s] + q == p <==> s == p[0] && q == p[1..] by {
        assert ([s] + q)[1..] == q;
      }
    }
  }

  lemma TailsEmpty(s: Segment)
    ensures Tails({}, s) == {}
  {
  }

  /** One more than the largest index below `n` that some path of `d` starts with. */
  function Extent(d: set<Path>, n: nat): (r: nat)
    ensures r <= n
    ensures forall i :: r <= i < n ==> Tails(d, Index(i)) == {}
    ensures r > 0 ==> Tails(d, Index(r - 1)) != {}
  {
    if n == 0 then 0 else if Tails(d, Index(n - 1)) != {} then n else Extent(d, n - 1)
  }

  lemma {:induction false} ExtentAdd(d: set<Path>, p: Path, n: nat)
    requires p != [] && p[0].Index? && p[0].index < n
    ensures Extent(d + {p}, n) == if p[0].index < Extent(d, n) then Extent(d, n) else p[0].index + 1
    decreases n
  {
    TailsAdd(d, p, Index(n - 1));
    if p[0].index < n - 1 {
      ExtentAdd(d, p, n - 1);
    }
  }

  /** The part of `v` that the leaves in `d` make up, with `fill` where a list has a gap. */
  function Restrict(v: Tree, d: set<Path>, fill: Val): Tree {
    if d == {} then NOTHING
    else
      match v
      case Leaf(_) => v
      case Obj(fields) =>
        Obj(map k | k in fields && Tails(d, Name(k)) != {} :: Restrict(fields[k], Tails(d, Name(k)), fill))
      case Arr(slots) =>
        Arr(seq(Extent(d, |slots|), i requires 0 <= i < |slots| =>
                if Tails(d, Index(i)) == {} then Leaf(fill) else Restrict(slots[i], Tails(d, Index(i)), fill)))
  }

  predicate LeavesOf(v: Tree, d: set<Path>) { forall p :: p in d ==> LeafPath(v, p) }

  lemma LeavesBelow(v: Tree, d: set<Path>, s: Segment)
    requires LeavesOf(v, d) && Within(v, s)
    ensures LeavesOf(Child(v, s), Tails(d, s))
  {
    forall q | q in Tails(d, s) ensures LeafPath(Child(v, s), q) {
      TailsMember(d, s, q);
      assert ([s] + q)[1..] == q;
    }
  }

  /** Writing one more leaf gives the part with that leaf: the order leaves come in does not matter. */
  lemma {:induction false} InsertLeaf(v: Tree, d: set<Path>, p: Path, t: Tree, fill: Val)
    requires LeavesOf(v, d) && LeafPath(v, p) && p !in d && Absent(fill)
    requires t == Restrict(v, d, fill) || (d == {} && Missing(t))
    ensures Growth(t, p).Some?
    ensures Insert(t, p, LeafAt(v, p), fill) == Restrict(v, d + {p}, fill)
    decreases |p|
  {
    if p == [] {
      assert forall q: Path :: LeafPath(v, q) ==> q == [];
      assert d == {};
    } else {
      hide Tails, Restrict, Put;
      var s := p[0];
      var base, child := Base(t, s), Child(v, s);
      assert p == [s] + p[1..];
      TailsMember(d, s, p[1..]);
      LeavesBelow(v, d, s);
      TailsAdd(d, p, s);
      TailsEmpty(s);
      BaseChild(v, d, s, t, fill);
      InsertLeaf(child, Tails(d, s), p[1..], Child(base, s), fill);
      InsertLeafJoin(v, d, p, base, Restrict(child, Tails(d + {p}, s), fill), fill);
    }
  }

  lemma BaseChild(v: Tree, d: set<Path>, s: Segment, t: Tree, fill: Val)
    requires Within(v, s) && Absent(fill)
    requires t == Restrict(v, d, fill) || (d == {} && Missing(t))
    ensures var base := Base(t, s);
            Fits(base, s) && base == (if d == {} then Fresh(s) else Restrict(v, d, fill))
            && (Child(base, s) == Restrict(Child(v, s), Tails(d, s), fill) || (Tails(d, s) == {} && Missing(Child(base, s))))
  {
    TailsEmpty(s);
    hide Tails;
  }

  lemma InsertLeafJoin(v: Tree, d: set<Path>, p: Path, base: Tree, child: Tree, fill: Val)
    requires p != [] && Within(v, p[0]) && Absent(fill)
    requires base == if d == {} then Fresh(p[0]) else Restrict(v, d, fill)
    requires Fits(base, p[0])
    requires child == Restrict(Child(v, p[0]), Tails(d + {p}, p[0]), fill)
    ensures Put(base, p[0], child, fill) == Restrict(v, d + {p}, fill)
  {
    if p[0].Name? {
      JoinFields(v, d, p, base, child, fill);
    } else {
      JoinSlots(v, d, p, base, child, fill);
    }
  }

  lemma JoinFields(v: Tree, d: set<Path>, p: Path, base: Tree, child: Tree, fill: Val)
    requires p != [] && p[0].Name? && Within(v, p[0])
    requires base == if d == {} then Fresh(p[0]) else Restrict(v, d, fill)
    requires child == Restrict(Child(v, p[0]), Tails(d + {p}, p[0]), fill)
    ensures Put(base, p[0], child, fill) == Restrict(v, d + {p}, fill)
  {
    hide Tails;
    var after, t := Restrict(v, d + {p}, fill), Put(base, p[0], child, fill);
    TailsAdd(d, p, p[0]);
    forall k | k in v.fields
      ensures k in t.fields <==> k in after.fields
      ensures k in t.fields ==> t.fields[k] == after.fields[k]
    {
      TailsAdd(d, p, Name(k));
      TailsEmpty(Name(k));
    }
    assert t.fields == after.fields;
  }

  lemma JoinSlots(v: Tree, d: set<Path>, p: Path, base: Tree, child: Tree, fill: Val)
    requires p != [] && p[0].Index? && Within(v, p[0])
    requires base == if d == {} then Fresh(p[0]) else Restrict(v, d, fill)
    requires child == Restrict(Child(v, p[0]), Tails(d + {p}, p[0]), fill)
    ensures Put(base, p[0], child, fill) == Restrict(v, d + {p}, fill)
  {
    hide Tails, Extent;
    var after, t := Restrict(v, d + {p}, fill), Put(base, p[0], child, fill);
    TailsAdd(d, p, p[0]);
    ExtentAdd(d, p, |v.slots|);
    if d == {} {
      ExtentEmpty(|v.slots|);
    }
    assert |t.slots| == |after.slots|;
    forall k | 0 <= k < |after.slots| ensures t.slots[k] == after.slots[k] {
      TailsAdd(d, p, Index(k));
    }
    assert t.slots == after.slots;
  }

  lemma {:induction false} ExtentEmpty(n: nat)
    ensures Extent({}, n) == 0
    decreases n
  {
    if n > 0 { ExtentEmpty(n - 1); }
  }

  lemma {:induction false} SolidHasLeaf(v: Tree) returns (p: Path)
    requires Solid(v)
    ensures LeafPath(v, p)
    decreases v
  {
    match v {
      case Leaf(_) => p := [];
      case Obj(fields) =>
        var k :| k in fields;
        var q := SolidHasLeaf(fields[k]);
        p := [Name(k)] + q;
        assert p[1..] == q;
      case Arr(slots) =>
        var q := SolidHasLeaf(slots[0]);
        p := [Index(0)] + q;
        assert p[1..] == q;
    }
  }

  ghost predicate AllLeaves(v: Tree, d: set<Path>) { forall p :: p in d <==> LeafPath(v, p) }

  lemma AllLeavesBelow(v: Tree, d: set<Path>, s: Segment)
    requires AllLeaves(v, d) && Within(v, s) && Solid(Child(v, s))
    ensures AllLeaves(Child(v, s), Tails(d, s)) && Tails(d, s) != {}
  {
    forall q ensures q in Tails(d, s) <==> LeafPath(Child(v, s), q) {
      TailsMember(d, s, q);
      assert ([s] + q)[1..] == q;
    }
    var q := SolidHasLeaf(Child(v, s));
    assert q in Tails(d, s);
  }

  /** With all its leaves, the part is the whole value. */
  lemma {:induction false} RestrictAll(v: Tree, d: set<Path>, fill: Val)
    requires Solid(v) && AllLeaves(v, d)
    ensures Restrict(v, d, fill) == v
    decreases v
  {
    var some := SolidHasLeaf(v);
    assert some in d;
    match v {
      case Leaf(_) =>
      case Obj(fields) =>
        forall k | k in fields
          ensures Tails(d, Name(k)) != {} && Restrict(fields[k], Tails(d, Name(k)), fill) == fields[k]
        {
          AllLeavesBelow(v, d, Name(k));
          RestrictAll(fields[k], Tails(d, Name(k)), fill);
        }
        assert Restrict(v, d, fill).fields == fields;
      case Arr(slots) =>
        forall i | 0 <= i < |slots|
          ensures Tails(d, Index(i)) != {} && Restrict(slots[i], Tails(d, Index(i)), fill) == slots[i]
        {
          AllLeavesBelow(v, d, Index(i));
          RestrictAll(slots[i], Tails(d, Index(i)), fill);
        }
        assert Restrict(v, d, fill).slots == slots;
    }
  }

  // ----- a part is never bigger than the whole -----

  lemma {:induction false} SlotsPart(v: Tree, d: set<Path>, fill: Val)
    ensures Slots(Restrict(v, d, fill)) <= Slots(v)
    decreases v, 1
  {
    if d != {} {
      match v {
        case Leaf(_) =>
        case Obj(fields) =>
          var r := Restrict(v, d, fill);
          SlotsPartFields(v, d, fill, r.fields.Keys, fields.Keys);
        case Arr(slots) =>
          SlotsPartSlots(slots, d, 0, fill, Restrict(v, d, fill).slots);
      }
    }
  }

  lemma {:induction false} SlotsPartFields(v: Tree, d: set<Path>, fill: Val, some: set<string>, all: set<string>)
    requires v.Obj? && d != {} && some <= Restrict(v, d, fill).fields.Keys && some <= all <= v.fields.Keys
    ensures SlotsIn(Restrict(v, d, fill), some) <= SlotsIn(v, all)
    decreases v, 0, |all|
  {
    if all != {} {
      var k :| k in all;
      SlotsInRemove(v, all, k);
      if k in some {
        SlotsInRemove(Restrict(v, d, fill), some, k);
        SlotsPart(v.fields[k], Tails(d, Name(k)), fill);
      } else {
        assert some - {k} == some;
      }
      SlotsPartFields(v, d, fill, some - {k}, all - {k});
    }
  }

  lemma {:induction false} SlotsPartSlots(slots: seq<Tree>, d: set<Path>, from: nat, fill: Val, part: seq<Tree>)
    requires |part| <= |slots|
    requires forall i :: 0 <= i < |part| ==>
               part[i].Leaf? || part[i] == Restrict(slots[i], Tails(d, Index(from + i)), fill)
    ensures SlotsOf(part) <= SlotsOf(slots)
    decreases slots, 0
  {
    if part != [] {
      if !part[0].Leaf? {
        SlotsPart(slots[0], Tails(d, Index(from)), fill);
      }
      forall i | 0 <= i < |part| - 1
        ensures part[1..][i].Leaf? || part[1..][i] == Restrict(slots[1..][i], Tails(d, Index(from + 1 + i)), fill)
      {
        assert part[1..][i] == part[i + 1] && from + 1 + i == from + (i + 1);
      }
      SlotsPartSlots(slots[1..], d, from + 1, fill, part[1..]);
    }
  }

  // ----- the round trip -----

  /** Every leaf path of a solid value, as a set. */
  function Leaves(v: Tree): set<Path> {
    match v
    case Leaf(_) => {[]}
    case Obj(fields) => set k, q | k in fields && q in Leaves(fields[k]) :: [Name(k)] + q
    case Arr(slots) => set i, q | 0 <= i < |slots| && q in Leaves(slots[i]) :: [Index(i)] + q
  }

  lemma {:induction false} LeavesAreAll(v: Tree)
    ensures AllLeaves(v, Leaves(v))
    decreases v
  {
    match v {
      case Leaf(_) =>
      case Obj(fields) =>
        forall k | k in fields ensures AllLeaves(fields[k], Leaves(fields[k])) { LeavesAreAll(fields[k]); }
        forall p | p in Leaves(v) ensures LeafPath(v, p) {
          var k, q :| k in fields && q in Leaves(fields[k]) && p == [Name(k)] + q;
          assert p[1..] == q;
        }
        forall p: Path | LeafPath(v, p) ensures p in Leaves(v) {
          assert p == [Name(p[0].name)] + p[1..];
        }
      case Arr(slots) =>
        forall i | 0 <= i < |slots| ensures AllLeaves(slots[i], Leaves(slots[i])) { LeavesAreAll(slots[i]); }
        forall p | p in Leaves(v) ensures LeafPath(v, p) {
          var i, q :| 0 <= i < |slots| && q in Leaves(slots[i]) && p == [Index(i)] + q;
          assert p[1..] == q;
        }
        forall p: Path | LeafPath(v, p) ensures p in Leaves(v) {
          assert p == [Index(p[0].index)] + p[1..];
        }
    }
  }

  /** A record that keeps the limits: solid, every leaf at a good path, lists no longer than the budget. */
  ghost predicate Storable(v: Tree) {
    v.Obj? && Solid(v) && Slots(v) <= MAX_LIST_SLOTS && forall p :: p in Leaves(v) ==> GoodPath(p)
  }

  lemma RenderInjective(p: Path, q: Path)
    requires GoodPath(p) && GoodPath(q) && Render(p) == Render(q)
    ensures p == q
  {
    RenderRoundTrip(p);
    RenderRoundTrip(q);
  }

  /** The flat keys of a record, each with its leaf. */
  ghost function Flatten(v: Tree): (flat: map<string, Val>)
    requires Storable(v)
    ensures forall p :: p in Leaves(v) ==> Render(p) in flat && flat[Render(p)] == LeafAt(v, p)
    ensures forall key :: key in flat ==> exists p :: p in Leaves(v) && Render(p) == key
  {
    LeavesAreAll(v);
    LeavesLookup(v);
    LeavesRenderApart(v);
    map p | p in Leaves(v) :: Render(p) := LeafAt(v, p)
  }

  lemma LeavesRenderApart(v: Tree)
    requires Storable(v)
    ensures forall p, q :: p in Leaves(v) && q in Leaves(v) && Render(p) == Render(q) ==> p == q
  {
    hide Render, GoodPath, Leaves, Slots, Solid;
    forall p, q | p in Leaves(v) && q in Leaves(v) && Render(p) == Render(q) ensures p == q { RenderInjective(p, q); }
  }

  lemma LeavesLookup(v: Tree)
    ensures forall p :: p in Leaves(v) ==> Lookup(v, p).Leaf?
  {
    LeavesAreAll(v);
    forall p | p in Leaves(v) ensures Lookup(v, p).Leaf? { LeafLookup(v, p); }
  }

  lemma {:induction false} LeafLookup(v: Tree, p: Path)
    requires LeafPath(v, p)
    ensures Lookup(v, p).Leaf?
    decreases |p|
  {
    if p != [] { LeafLookup(Child(v, p[0]), p[1..]); }
  }

  ghost function Done(v: Tree, keys: seq<string>): set<Path> {
    set p | p in Leaves(v) && GoodPath(p) && Render(p) in keys
  }

  /** After any of its keys, in any order, the rebuild holds exactly the part those keys make up. */
  lemma {:induction false} RebuildPart(v: Tree, keys: seq<string>, padLists: bool)
    requires Storable(v)
    requires forall k :: 0 <= k < |keys| ==> keys[k] in Flatten(v)
    requires forall j, k :: 0 <= j < k < |keys| ==> keys[j] != keys[k]
    ensures var pr := Rebuild(keys, Flatten(v), padLists);
            pr.dropped == [] && pr.slots == Slots(pr.value)
            && pr.value == if keys == [] then START.value else Restrict(v, Done(v, keys), Fill(padLists))
    decreases |keys|
  {
    hide Growth, Insert, Restrict, Step, Solid, LeafPath, Slots, Leaves, Done, Render, GoodPath, LeafAt;
    RebuildConserves(keys, Flatten(v), padLists);
    if keys != [] {
      var n := |keys| - 1;
      RebuildPart(v, keys[..n], padLists);
      var p :| p in Leaves(v) && Render(p) == keys[n];
      DoneSnoc(v, keys, p);
      PartStep(v, Done(v, keys[..n]), p, Rebuild(keys[..n], Flatten(v), padLists), padLists);
    }
  }

  lemma DoneSnoc(v: Tree, keys: seq<string>, p: Path)
    requires Storable(v) && p in Leaves(v) && keys != [] && Render(p) == keys[|keys| - 1]
    requires forall j, k :: 0 <= j < k < |keys| ==> keys[j] != keys[k]
    ensures Done(v, keys) == Done(v, keys[..|keys| - 1]) + {p} && p !in Done(v, keys[..|keys| - 1])
    ensures Done(v, keys) <= Leaves(v)
    ensures |keys| == 1 ==> Done(v, keys[..0]) == {}
    ensures |keys| > 1 && keys[0] in Flatten(v) ==> Done(v, keys[..|keys| - 1]) != {}
  {
    hide Render, GoodPath, LeafAt, Solid, Slots, Leaves, Flatten;
    var n := |keys| - 1;
    assert keys == keys[..n] + [keys[n]];
    forall q | q in Leaves(v) && GoodPath(q) && Render(q) in keys ensures q in Done(v, keys[..n]) + {p} {
      if Render(q) == keys[n] { RenderInjective(p, q); }
    }
    if |keys| > 1 && keys[0] in Flatten(v) {
      var q :| q in Leaves(v) && Render(q) == keys[0];
      assert keys[..n][0] == keys[0];
      assert q in Done(v, keys[..n]);
    }
  }

  lemma PartStep(v: Tree, d: set<Path>, p: Path, pr: Progress, padLists: bool)
    requires Storable(v) && d <= Leaves(v) && p in Leaves(v) && p !in d
    requires pr.dropped == [] && pr.slots == Slots(pr.value)
    requires pr.value == if d == {} then START.value else Restrict(v, d, Fill(padLists))
    ensures Step(pr, Render(p), LeafAt(v, p), padLists).dropped == []
    ensures Step(pr, Render(p), LeafAt(v, p), padLists).value == Restrict(v, d + {p}, Fill(padLists))
  {
    hide Render, GoodPath, LeafAt, Solid, Leaves, Restrict, Insert, Growth, Parse, Slots;
    RenderRoundTrip(p);
    RebuildLast(v, d, p, pr.value, Fill(padLists));
    SlotsPart(v, d + {p}, Fill(padLists));
    InsertGrowth(pr.value, p, LeafAt(v, p), Fill(padLists));
  }

  lemma RebuildLast(v: Tree, d: set<Path>, p: Path, t: Tree, fill: Val)
    requires Storable(v) && d <= Leaves(v) && p in Leaves(v) && p !in d && Absent(fill)
    requires t == if d == {} then START.value else Restrict(v, d, fill)
    ensures Growth(t, p).Some? && Insert(t, p, LeafAt(v, p), fill) == Restrict(v, d + {p}, fill)
  {
    LeavesAreAll(v);
    if d == {} {
      InsertLeaf(v, d, p, NOTHING, fill);
      assert Base(t, p[0]) == Base(NOTHING, p[0]);
    } else {
      InsertLeaf(v, d, p, t, fill);
    }
  }

  /**
   * The round trip: a record that keeps the limits comes back whole from its flat keys, whatever
   * order they are taken in, and nothing is left out.
   */
  lemma RoundTrip(v: Tree, keys: seq<string>, padLists: bool)
    requires Storable(v)
    requires forall k :: 0 <= k < |keys| ==> keys[k] in Flatten(v)
    requires forall key :: key in Flatten(v) ==> key in keys
    requires forall j, k :: 0 <= j < k < |keys| ==> keys[j] != keys[k]
    ensures Rebuild(keys, Flatten(v), padLists) == Progress(v, Slots(v), [])
  {
    hide Insert, Growth, Restrict, Render, Slots, Solid, Step, Rebuild, LeafPath, Leaves, GoodPath;
    RebuildPart(v, keys, padLists);
    LeavesAreAll(v);
    var p := SolidHasLeaf(v);
    assert p in Leaves(v) && Render(p) in keys;
    assert Done(v, keys) == Leaves(v);
    RestrictAll(v, Leaves(v), Fill(padLists));
  }
}
