/**
 * The zoning adapter's tree (modules/dethernety-threat-report/src/zoning-adapter.ts): a parent map,
 * cyclic, dangling or too deep as it may be, becomes a finite tree holding every boundary once.
 */
module Zoning {
  import opened Prelude

  datatype ZoningBoundary = ZoningBoundary(id: string, parentBoundaryId: Option<string>)

  datatype ZoningComponent = ZoningComponent(id: string, boundaryId: Option<string>, crownJewel: bool)

  datatype Tree = Tree(id: string, components: seq<ZoningComponent>, children: seq<Tree>)

  const MAX_NEST_DEPTH: nat := 50

  const ZONING_ROOT_ID := "__zoning_root__"

  type Parents = map<string, Option<string>>

  predicate DistinctIds(bs: seq<ZoningBoundary>) { forall i, j :: 0 <= i < j < |bs| ==> bs[i].id != bs[j].id }

  function ParentsOf(bs: seq<ZoningBoundary>): Parents {
    if bs == [] then map[] else ParentsOf(bs[..|bs| - 1])[bs[|bs| - 1].id := bs[|bs| - 1].parentBoundaryId]
  }

  // ----- the ancestor chain -----

  /** The parent an id declares; an id nothing is known of has none. */
  function ParentIn(parents: Parents, id: string): Option<string> { if id in parents then parents[id] else None }

  /** The k-th step up. */
  function Up(parents: Parents, id: string, k: nat): Option<string> {
    if k == 0 then Some(id)
    else match Up(parents, id, k - 1)
         case None => None
         case Some(a) => ParentIn(parents, a)
  }

  /** The chain ends within the depth. */
  predicate ChainOk(parents: Parents, id: string) { Up(parents, id, MAX_NEST_DEPTH + 1) == None }

  /** Where a boundary goes: under its parent, or (None) under the root. */
  function Effective(parents: Parents, id: string): Option<string> {
    var parent := ParentIn(parents, id);
    if parent.Some? && parent.value in parents && ChainOk(parents, id) then parent else None
  }

  lemma {:induction false} UpShift(parents: Parents, id: string, k: nat)
    requires ParentIn(parents, id).Some?
    ensures Up(parents, id, k + 1) == Up(parents, ParentIn(parents, id).value, k)
  {
    if k > 0 { UpShift(parents, id, k - 1); }
  }

  lemma {:induction false} UpEnds(parents: Parents, id: string, j: nat, k: nat)
    requires j <= k && Up(parents, id, j) == None
    ensures Up(parents, id, k) == None
    decreases k
  {
    if j < k { UpEnds(parents, id, j, k - 1); }
  }

  /** An id met twice on the way up is met for ever. */
  lemma {:induction false} CycleNeverEnds(parents: Parents, id: string, i: nat, j: nat, n: nat)
    requires i < j && Up(parents, id, i).Some? && Up(parents, id, i) == Up(parents, id, j)
    ensures Up(parents, id, n).Some?
    decreases n
  {
    if n <= j {
      if Up(parents, id, n) == None { UpEnds(parents, id, n, j); }
    } else {
      CycleNeverEnds(parents, id, i, j, n - (j - i));
      UpRepeats(parents, id, i, j, n - j);
    }
  }

  lemma {:induction false} UpRepeats(parents: Parents, id: string, i: nat, j: nat, n: nat)
    requires Up(parents, id, i) == Up(parents, id, j)
    ensures Up(parents, id, i + n) == Up(parents, id, j + n)
  {
    if n > 0 { UpRepeats(parents, id, i, j, n - 1); }
  }

  /** The guard says what it is meant to: the ancestors are at most 50 and all different. */
  lemma ChainOkMeans(parents: Parents, id: string)
    ensures ChainOk(parents, id) <==>
            exists n: nat :: n <= MAX_NEST_DEPTH && EndsAt(parents, id, n)
  {
    if ChainOk(parents, id) {
      var n := FirstEnd(parents, id, MAX_NEST_DEPTH + 1);
      forall i, j | 0 <= i < j <= n ensures Up(parents, id, i) != Up(parents, id, j) {
        if Up(parents, id, i) == Up(parents, id, j) { CycleNeverEnds(parents, id, i, j, n + 1); }
      }
      assert EndsAt(parents, id, n);
    }
    forall n: nat | n <= MAX_NEST_DEPTH && EndsAt(parents, id, n) ensures ChainOk(parents, id) {
      UpEnds(parents, id, n + 1, MAX_NEST_DEPTH + 1);
    }
  }

  /** The chain has n ancestors, all different from each other and from the start. */
  predicate EndsAt(parents: Parents, id: string, n: nat) {
    Up(parents, id, n + 1) == None && (forall i :: 0 <= i <= n ==> Up(parents, id, i).Some?)
    && forall i, j :: 0 <= i < j <= n ==> Up(parents, id, i) != Up(parents, id, j)
  }

  lemma {:induction false} FirstEnd(parents: Parents, id: string, k: nat) returns (n: nat)
    requires Up(parents, id, k) == None
    ensures n < k && Up(parents, id, n + 1) == None && forall i :: 0 <= i <= n ==> Up(parents, id, i).Some?
  {
    if Up(parents, id, k - 1) == None {
      n := FirstEnd(parents, id, k - 1);
    } else {
      n := k - 1;
      forall i | 0 <= i <= n ensures Up(parents, id, i).Some? {
        if Up(parents, id, i) == None { UpEnds(parents, id, i, n); }
      }
    }
  }

  /** An id met within the first n steps up. */
  predicate Met(parents: Parents, id: string, n: nat, a: string) { exists i :: 0 <= i <= n && Up(parents, id, i) == Some(a) }

  method ChainIsAcyclicAndBounded(startId: string, parents: Parents) returns (ok: bool)
    ensures ok <==> ChainOk(parents, startId)
  {
    var seen := {startId};
    var cur := ParentIn(parents, startId);
    var depth: nat := 0;
    assert Met(parents, startId, depth, startId) by { assert Up(parents, startId, depth) == Some(startId); }
    while cur.Some?
      invariant depth <= MAX_NEST_DEPTH && cur == Up(parents, startId, depth + 1)
      invariant forall a :: a in seen ==> Met(parents, startId, depth, a)
      decreases MAX_NEST_DEPTH - depth
    {
      if cur.value in seen {
        var i: nat :| i <= depth && Up(parents, startId, i) == cur;
        CycleNeverEnds(parents, startId, i, depth + 1, MAX_NEST_DEPTH + 1);
        return false;
      }
      depth := depth + 1;
      if depth > MAX_NEST_DEPTH { return false; }
      forall a | a in seen || a == cur.value ensures Met(parents, startId, depth, a) {
        if a == cur.value {
          assert Up(parents, startId, depth) == Some(a);
        } else {
          var i: nat :| i <= depth - 1 && Up(parents, startId, i) == Some(a);
          assert i <= depth;
        }
      }
      seen := seen + {cur.value};
      cur := ParentIn(parents, cur.value);
    }
    UpEnds(parents, startId, depth + 1, MAX_NEST_DEPTH + 1);
    return true;
  }

  // ----- depth below the root -----

  function Steps(parents: Parents, id: string, k: nat): (n: nat)
    ensures n <= k
  {
    if k == 0 then 0 else Steps(parents, id, k - 1) + if Up(parents, id, k).Some? then 1 else 0
  }

  /** How many ancestors a chain has, as far as the guard looks. */
  function Level(parents: Parents, id: string): nat { Steps(parents, id, MAX_NEST_DEPTH + 1) }

  lemma {:induction false} StepsShift(parents: Parents, id: string, k: nat)
    requires ParentIn(parents, id).Some?
    ensures Steps(parents, id, k + 1) == Steps(parents, ParentIn(parents, id).value, k) + 1
  {
    UpShift(parents, id, k);
    if k > 0 {
      StepsShift(parents, id, k - 1);
    } else {
      assert Steps(parents, id, 0) == 0 && Up(parents, id, 0) == Some(id);
    }
  }

  /** A boundary linked under its parent is one level below it, and never more than 50 deep. */
  lemma LevelBelowParent(parents: Parents, id: string)
    requires Effective(parents, id).Some?
    ensures Level(parents, id) == Level(parents, Effective(parents, id).value) + 1 <= MAX_NEST_DEPTH
  {
    var p := ParentIn(parents, id).value;
    StepsShift(parents, id, MAX_NEST_DEPTH);
    UpShift(parents, id, MAX_NEST_DEPTH);
    UpEnds(parents, p, MAX_NEST_DEPTH, MAX_NEST_DEPTH + 1);
  }

  // ----- the tree, as a value -----

  /** The ids that go under `p`, in input order. */
  function ChildrenOf(bs: seq<ZoningBoundary>, parents: Parents, p: Option<string>): (ids: seq<string>)
    ensures forall k :: 0 <= k < |ids| ==> Effective(parents, ids[k]) == p
  {
    if bs == [] then []
    else ChildrenOf(bs[..|bs| - 1], parents, p) + if Effective(parents, bs[|bs| - 1].id) == p then [bs[|bs| - 1].id] else []
  }

  /** The components that name a boundary, in input order. */
  function ComponentsOf(cs: seq<ZoningComponent>, id: string): seq<ZoningComponent> {
    if cs == [] then []
    else ComponentsOf(cs[..|cs| - 1], id) + if cs[|cs| - 1].boundaryId == Some(id) then [cs[|cs| - 1]] else []
  }

  lemma {:induction false} ChildrenMembers(bs: seq<ZoningBoundary>, parents: Parents, p: Option<string>)
    ensures forall x :: x in ChildrenOf(bs, parents, p) <==> HasId(bs, x) && Effective(parents, x) == p
    decreases |bs|
  {
    hide Effective;
    if bs != [] {
      var front := bs[..|bs| - 1];
      ChildrenMembers(front, parents, p);
      forall x ensures HasId(bs, x) <==> HasId(front, x) || x == bs[|bs| - 1].id { HasIdStep(bs, x); }
    }
  }

  predicate HasId(bs: seq<ZoningBoundary>, x: string) { exists k :: 0 <= k < |bs| && bs[k].id == x }

  lemma HasIdStep(bs: seq<ZoningBoundary>, x: string)
    requires bs != []
    ensures HasId(bs, x) <==> HasId(bs[..|bs| - 1], x) || x == bs[|bs| - 1].id
  {
    if HasId(bs, x) {
      var k :| 0 <= k < |bs| && bs[k].id == x;
      if k < |bs| - 1 { assert bs[..|bs| - 1][k] == bs[k]; }
    }
    if HasId(bs[..|bs| - 1], x) {
      var k :| 0 <= k < |bs| - 1 && bs[..|bs| - 1][k].id == x;
      assert bs[k].id == x;
    }
  }

  lemma {:induction false} ParentsKeys(bs: seq<ZoningBoundary>)
    ensures forall x :: x in ParentsOf(bs) <==> HasId(bs, x)
    ensures DistinctIds(bs) ==> forall k :: 0 <= k < |bs| ==> ParentIn(ParentsOf(bs), bs[k].id) == bs[k].parentBoundaryId
    decreases |bs|
  {
    if bs != [] {
      var front := bs[..|bs| - 1];
      ParentsKeys(front);
      forall x ensures HasId(bs, x) <==> HasId(front, x) || x == bs[|bs| - 1].id { HasIdStep(bs, x); }
      if DistinctIds(bs) {
        forall k | 0 <= k < |bs| ensures ParentIn(ParentsOf(bs), bs[k].id) == bs[k].parentBoundaryId {
          if k < |front| { assert front[k] == bs[k] && bs[k].id != bs[|bs| - 1].id; }
        }
      }
    }
  }

  /** The subtree of one boundary. */
  function Build(bs: seq<ZoningBoundary>, cs: seq<ZoningComponent>, id: string): Tree
    decreases MAX_NEST_DEPTH + 1 - Level(ParentsOf(bs), id), 1
  {
    Tree(id, ComponentsOf(cs, id), BuildAll(bs, cs, id, ChildrenOf(bs, ParentsOf(bs), Some(id))))
  }

  function BuildAll(bs: seq<ZoningBoundary>, cs: seq<ZoningComponent>, id: string, ids: seq<string>): seq<Tree>
    requires forall k :: 0 <= k < |ids| ==> Effective(ParentsOf(bs), ids[k]) == Some(id)
    decreases MAX_NEST_DEPTH + 1 - Level(ParentsOf(bs), id), 0, |ids|
  {
    if ids == [] then []
    else LevelBelowParent(ParentsOf(bs), ids[0]); [Build(bs, cs, ids[0])] + BuildAll(bs, cs, id, ids[1..])
  }

  /** The whole model under its synthetic root. */
  function Forest(bs: seq<ZoningBoundary>, cs: seq<ZoningComponent>): Tree {
    Tree(ZONING_ROOT_ID, [], BuildEach(bs, cs, ChildrenOf(bs, ParentsOf(bs), None)))
  }

  function BuildEach(bs: seq<ZoningBoundary>, cs: seq<ZoningComponent>, ids: seq<string>): seq<Tree> {
    if ids == [] then [] else [Build(bs, cs, ids[0])] + BuildEach(bs, cs, ids[1..])
  }

  lemma {:induction false} BuildAllIsEach(bs: seq<ZoningBoundary>, cs: seq<ZoningComponent>, id: string, ids: seq<string>)
    requires forall k :: 0 <= k < |ids| ==> Effective(ParentsOf(bs), ids[k]) == Some(id)
    ensures BuildAll(bs, cs, id, ids) == BuildEach(bs, cs, ids)
    decreases |ids|
  {
    hide Effective, Build;
    if ids != [] { BuildAllIsEach(bs, cs, id, ids[1..]); }
  }

  lemma {:induction false} BuildEachAt(bs: seq<ZoningBoundary>, cs: seq<ZoningComponent>, ids: seq<string>)
    ensures |BuildEach(bs, cs, ids)| == |ids|
    ensures forall k :: 0 <= k < |ids| ==> BuildEach(bs, cs, ids)[k] == Build(bs, cs, ids[k])
    decreases |ids|
  {
    hide Build;
    if ids != [] { BuildEachAt(bs, cs, ids[1..]); }
  }

  lemma BuildShape(bs: seq<ZoningBoundary>, cs: seq<ZoningComponent>, id: string)
    ensures Build(bs, cs, id) == Tree(id, ComponentsOf(cs, id), BuildEach(bs, cs, ChildrenOf(bs, ParentsOf(bs), Some(id))))
  {
    BuildAllIsEach(bs, cs, id, ChildrenOf(bs, ParentsOf(bs), Some(id)));
  }

  // ----- every boundary once -----

  function Count(t: Tree, x: string): nat { (if t.id == x then 1 else 0) + CountAll(t.children, x) }

  function CountAll(ts: seq<Tree>, x: string): nat { if ts == [] then 0 else Count(ts[0], x) + CountAll(ts[1..], x) }

  /** x is id or is linked, step by step, below it. */
  ghost predicate Below(parents: Parents, x: string, id: string)
    decreases Level(parents, x)
  {
    x == id || (Effective(parents, x).Some? && (LevelBelowParent(parents, x); Below(parents, Effective(parents, x).value, id)))
  }

  lemma {:induction false} BelowLevel(parents: Parents, x: string, id: string)
    requires Below(parents, x, id)
    ensures x != id ==> Level(parents, id) < Level(parents, x)
    decreases Level(parents, x)
  {
    if x != id {
      LevelBelowParent(parents, x);
      BelowLevel(parents, Effective(parents, x).value, id);
    }
  }

  /** How many of the ids x is below. */
  ghost function Over(parents: Parents, x: string, ids: seq<string>): nat {
    if ids == [] then 0 else (if Below(parents, x, ids[0]) then 1 else 0) + Over(parents, x, ids[1..])
  }

  function Occurrences(ids: seq<string>, x: string): nat {
    if ids == [] then 0 else (if ids[0] == x then 1 else 0) + Occurrences(ids[1..], x)
  }

  lemma {:induction false} OverSelf(parents: Parents, x: string, ids: seq<string>)
    requires forall k :: 0 <= k < |ids| ==> (Below(parents, x, ids[k]) <==> ids[k] == x)
    ensures Over(parents, x, ids) == Occurrences(ids, x)
    decreases |ids|
  {
    hide Below;
    if ids != [] { OverSelf(parents, x, ids[1..]); }
  }

  lemma {:induction false} OverSame(parents: Parents, x: string, y: string, ids: seq<string>)
    requires forall k :: 0 <= k < |ids| ==> (Below(parents, x, ids[k]) <==> Below(parents, y, ids[k]))
    ensures Over(parents, x, ids) == Over(parents, y, ids)
    decreases |ids|
  {
    hide Below;
    if ids != [] { OverSame(parents, x, y, ids[1..]); }
  }

  lemma {:induction false} OccurrencesIn(ids: seq<string>, x: string)
    ensures Occurrences(ids, x) > 0 <==> x in ids
    decreases |ids|
  {
    if ids != [] { OccurrencesIn(ids[1..], x); }
  }

  lemma {:induction false} OccurrencesConcat(a: seq<string>, b: seq<string>, x: string)
    ensures Occurrences(a + b, x) == Occurrences(a, x) + Occurrences(b, x)
    decreases |a|
  {
    if a == [] { assert a + b == b; } else { assert (a + b)[1..] == a[1..] + b; OccurrencesConcat(a[1..], b, x); }
  }

  lemma {:induction false} ChildOnce(bs: seq<ZoningBoundary>, parents: Parents, p: Option<string>, x: string)
    requires DistinctIds(bs)
    ensures Occurrences(ChildrenOf(bs, parents, p), x) == if HasId(bs, x) && Effective(parents, x) == p then 1 else 0
    decreases |bs|
  {
    hide Effective;
    if bs != [] {
      var front := bs[..|bs| - 1];
      var last := bs[|bs| - 1].id;
      ChildOnce(front, parents, p, x);
      HasIdStep(bs, x);
      OccurrencesConcat(ChildrenOf(front, parents, p), if Effective(parents, last) == p then [last] else [], x);
      forall k | 0 <= k < |front| ensures front[k].id != last {
        assert bs[k].id != bs[|bs| - 1].id;
      }
      assert !HasId(front, last);
    } else {
      assert !HasId(bs, x);
    }
  }

  /** Of the children of one place, x is below exactly one when it is below the place and not there itself. */
  lemma {:induction false} OneChildOver(bs: seq<ZoningBoundary>, parents: Parents, id: string, x: string)
    requires DistinctIds(bs) && parents == ParentsOf(bs) && x != id
    ensures Over(parents, x, ChildrenOf(bs, parents, Some(id))) == if Below(parents, x, id) then 1 else 0
    decreases Level(parents, x)
  {
    hide Effective, Level, HasId;
    var ids := ChildrenOf(bs, parents, Some(id));
    ChildOnce(bs, parents, Some(id), x);
    ParentsKeys(bs);
    var up := Effective(parents, x);
    if up == None {
      OverSelf(parents, x, ids);
    } else {
      EffectiveKnown(bs, x);
      LevelBelowParent(parents, x);
      if up == Some(id) {
        forall k | 0 <= k < |ids| ensures Below(parents, x, ids[k]) <==> ids[k] == x {
          if Below(parents, id, ids[k]) {
            LevelBelowParent(parents, ids[k]);
            BelowLevel(parents, id, ids[k]);
          }
        }
        OverSelf(parents, x, ids);
      } else {
        OverSame(parents, x, up.value, ids);
        OneChildOver(bs, parents, id, up.value);
      }
    }
  }

  lemma EffectiveKnown(bs: seq<ZoningBoundary>, x: string)
    requires Effective(ParentsOf(bs), x).Some?
    ensures HasId(bs, x) && HasId(bs, Effective(ParentsOf(bs), x).value)
  {
    ParentsKeys(bs);
  }

  /** Every known id is below exactly one of the root's children. */
  lemma {:induction false} OneTopOver(bs: seq<ZoningBoundary>, parents: Parents, x: string)
    requires DistinctIds(bs) && parents == ParentsOf(bs)
    ensures Over(parents, x, ChildrenOf(bs, parents, None)) == if HasId(bs, x) then 1 else 0
    decreases Level(parents, x)
  {
    hide Effective, Level, HasId;
    var ids := ChildrenOf(bs, parents, None);
    var up := Effective(parents, x);
    if up == None {
      ChildOnce(bs, parents, None, x);
      OverSelf(parents, x, ids);
    } else {
      EffectiveKnown(bs, x);
      LevelBelowParent(parents, x);
      OverSame(parents, x, up.value, ids);
      OneTopOver(bs, parents, up.value);
    }
  }

  /** A subtree holds a boundary once when it is below its root, and not otherwise. */
  lemma {:induction false} CountBuild(bs: seq<ZoningBoundary>, cs: seq<ZoningComponent>, id: string, x: string)
    requires DistinctIds(bs)
    ensures Count(Build(bs, cs, id), x) == if Below(ParentsOf(bs), x, id) then 1 else 0
    decreases MAX_NEST_DEPTH + 1 - Level(ParentsOf(bs), id), 1
  {
    hide Effective, Level, Build;
    var parents := ParentsOf(bs);
    var ids := ChildrenOf(bs, parents, Some(id));
    BuildShape(bs, cs, id);
    CountChildren(bs, cs, id, ids, x);
    if x == id {
      forall k | 0 <= k < |ids| ensures !Below(parents, x, ids[k]) {
        LevelBelowParent(parents, ids[k]);
        if Below(parents, x, ids[k]) { BelowLevel(parents, x, ids[k]); }
      }
      OverNone(parents, x, ids);
    } else {
      OneChildOver(bs, parents, id, x);
    }
  }

  lemma {:induction false} OverNone(parents: Parents, x: string, ids: seq<string>)
    requires forall k :: 0 <= k < |ids| ==> !Below(parents, x, ids[k])
    ensures Over(parents, x, ids) == 0
    decreases |ids|
  {
    hide Below;
    if ids != [] { OverNone(parents, x, ids[1..]); }
  }

  lemma {:induction false} CountChildren(bs: seq<ZoningBoundary>, cs: seq<ZoningComponent>, id: string,
          ids: seq<string>, x: string)
    requires DistinctIds(bs) && forall k :: 0 <= k < |ids| ==> Effective(ParentsOf(bs), ids[k]) == Some(id)
    ensures CountAll(BuildEach(bs, cs, ids), x) == Over(ParentsOf(bs), x, ids)
    decreases MAX_NEST_DEPTH + 1 - Level(ParentsOf(bs), id), 0, |ids|
  {
    hide Effective, Level, Build, Below;
    if ids != [] {
      LevelBelowParent(ParentsOf(bs), ids[0]);
      CountBuild(bs, cs, ids[0], x);
      CountChildren(bs, cs, id, ids[1..], x);
      assert BuildEach(bs, cs, ids)[1..] == BuildEach(bs, cs, ids[1..]);
    }
  }

  lemma {:induction false} CountEach(bs: seq<ZoningBoundary>, cs: seq<ZoningComponent>, ids: seq<string>, x: string)
    requires DistinctIds(bs)
    ensures CountAll(BuildEach(bs, cs, ids), x) == Over(ParentsOf(bs), x, ids)
    decreases |ids|
  {
    hide Effective, Level, Build, Below;
    if ids != [] {
      CountBuild(bs, cs, ids[0], x);
      CountEach(bs, cs, ids[1..], x);
      assert BuildEach(bs, cs, ids)[1..] == BuildEach(bs, cs, ids[1..]);
    }
  }

  /** Whatever the parent map, the tree below the root holds every boundary exactly once and nothing else. */
  lemma EveryBoundaryOnce(bs: seq<ZoningBoundary>, cs: seq<ZoningComponent>, x: string)
    requires DistinctIds(bs)
    ensures CountAll(Forest(bs, cs).children, x) == if HasId(bs, x) then 1 else 0
  {
    hide Build, Below;
    CountEach(bs, cs, ChildrenOf(bs, ParentsOf(bs), None), x);
    OneTopOver(bs, ParentsOf(bs), x);
  }

  // ----- where each boundary and component is -----

  predicate IdIn(ts: seq<Tree>, x: string) { ts != [] && (ts[0].id == x || IdIn(ts[1..], x)) }

  /** Somewhere in the tree a node called p has a child called x. */
  predicate HasChild(t: Tree, p: string, x: string) { (t.id == p && IdIn(t.children, x)) || HasChildAmong(t.children, p, x) }

  predicate HasChildAmong(ts: seq<Tree>, p: string, x: string) { ts != [] && (HasChild(ts[0], p, x) || HasChildAmong(ts[1..], p, x)) }

  lemma {:induction false} IdInEach(bs: seq<ZoningBoundary>, cs: seq<ZoningComponent>, ids: seq<string>, x: string)
    ensures IdIn(BuildEach(bs, cs, ids), x) <==> x in ids
    decreases |ids|
  {
    if ids != [] {
      IdInEach(bs, cs, ids[1..], x);
      assert BuildEach(bs, cs, ids)[1..] == BuildEach(bs, cs, ids[1..]);
    }
  }

  /** A node of the subtree has exactly the children linked to it. */
  lemma {:induction false} ChildrenBuilt(bs: seq<ZoningBoundary>, cs: seq<ZoningComponent>, id: string, p: string, x: string)
    ensures HasChild(Build(bs, cs, id), p, x) <==> Count(Build(bs, cs, id), p) > 0 && Effective(ParentsOf(bs), x) == Some(p)
    decreases MAX_NEST_DEPTH + 1 - Level(ParentsOf(bs), id), 1
  {
    hide Effective, Level, Build;
    var ids := ChildrenOf(bs, ParentsOf(bs), Some(id));
    BuildShape(bs, cs, id);
    IdInEach(bs, cs, ids, x);
    ChildrenMembers(bs, ParentsOf(bs), Some(id));
    if Effective(ParentsOf(bs), x).Some? { EffectiveKnown(bs, x); }
    ChildrenBuiltBelow(bs, cs, id, ids, p, x);
  }

  lemma {:induction false} ChildrenBuiltBelow(bs: seq<ZoningBoundary>, cs: seq<ZoningComponent>, id: string,
          ids: seq<string>, p: string, x: string)
    requires forall k :: 0 <= k < |ids| ==> Effective(ParentsOf(bs), ids[k]) == Some(id)
    ensures HasChildAmong(BuildEach(bs, cs, ids), p, x)
       <==> CountAll(BuildEach(bs, cs, ids), p) > 0 && Effective(ParentsOf(bs), x) == Some(p)
    decreases MAX_NEST_DEPTH + 1 - Level(ParentsOf(bs), id), 0, |ids|
  {
    hide Effective, Level, Build;
    if ids != [] {
      LevelBelowParent(ParentsOf(bs), ids[0]);
      ChildrenBuilt(bs, cs, ids[0], p, x);
      ChildrenBuiltBelow(bs, cs, id, ids[1..], p, x);
      assert BuildEach(bs, cs, ids)[1..] == BuildEach(bs, cs, ids[1..]);
    }
  }

  lemma {:induction false} ChildrenBuiltEach(bs: seq<ZoningBoundary>, cs: seq<ZoningComponent>,
          ids: seq<string>, p: string, x: string)
    ensures HasChildAmong(BuildEach(bs, cs, ids), p, x)
       <==> CountAll(BuildEach(bs, cs, ids), p) > 0 && Effective(ParentsOf(bs), x) == Some(p)
    decreases |ids|
  {
    hide Effective, Build;
    if ids != [] {
      ChildrenBuilt(bs, cs, ids[0], p, x);
      ChildrenBuiltEach(bs, cs, ids[1..], p, x);
      assert BuildEach(bs, cs, ids)[1..] == BuildEach(bs, cs, ids[1..]);
    }
  }

  /**
   * A boundary stands under its declared parent exactly when that parent exists and its chain of
   * ancestors is acyclic and within 50; every other boundary stands directly under the root.
   */
  lemma UnderDeclaredParent(bs: seq<ZoningBoundary>, cs: seq<ZoningComponent>, k: nat, p: string)
    requires DistinctIds(bs) && k < |bs|
    ensures HasChildAmong(Forest(bs, cs).children, p, bs[k].id)
       <==> bs[k].parentBoundaryId == Some(p) && HasId(bs, p) && ChainOk(ParentsOf(bs), bs[k].id)
    ensures IdIn(Forest(bs, cs).children, bs[k].id)
       <==> (bs[k].parentBoundaryId.Some? ==> !HasId(bs, bs[k].parentBoundaryId.value) || !ChainOk(ParentsOf(bs), bs[k].id))
  {
    hide Build, ChainOk;
    var ids := ChildrenOf(bs, ParentsOf(bs), None);
    var x := bs[k].id;
    ParentsKeys(bs);
    EveryBoundaryOnce(bs, cs, p);
    ChildrenBuiltEach(bs, cs, ids, p, x);
    IdInEach(bs, cs, ids, x);
    ChildrenMembers(bs, ParentsOf(bs), None);
    assert HasId(bs, x);
  }

  /** How often a component stands under a boundary of this id. */
  function Held(t: Tree, id: string, c: ZoningComponent): nat {
    (if t.id == id then multiset(t.components)[c] else 0) + HeldAmong(t.children, id, c)
  }

  function HeldAmong(ts: seq<Tree>, id: string, c: ZoningComponent): nat {
    if ts == [] then 0 else Held(ts[0], id, c) + HeldAmong(ts[1..], id, c)
  }

  lemma {:induction false} ComponentsOfCount(cs: seq<ZoningComponent>, id: string, c: ZoningComponent)
    ensures multiset(ComponentsOf(cs, id))[c] == if c.boundaryId == Some(id) then multiset(cs)[c] else 0
    decreases |cs|
  {
    if cs != [] {
      ComponentsOfCount(cs[..|cs| - 1], id, c);
      assert cs == cs[..|cs| - 1] + [cs[|cs| - 1]];
    }
  }

  function Times(k: nat, n: nat): nat { k * n }

  lemma TimesLaws(a: nat, b: nat, n: nat)
    ensures Times(a + b, n) == Times(a, n) + Times(b, n) && Times(0, n) == 0 && Times(1, n) == n
  {
  }

  lemma {:induction false} HeldBuild(bs: seq<ZoningBoundary>, cs: seq<ZoningComponent>, top: string,
          id: string, c: ZoningComponent, n: nat)
    requires n == multiset(ComponentsOf(cs, id))[c]
    ensures Held(Build(bs, cs, top), id, c) == Times(Count(Build(bs, cs, top), id), n)
    decreases MAX_NEST_DEPTH + 1 - Level(ParentsOf(bs), top), 1
  {
    hide Effective, Level, Build;
    var ids := ChildrenOf(bs, ParentsOf(bs), Some(top));
    hide Times;
    BuildShape(bs, cs, top);
    HeldBelow(bs, cs, top, ids, id, c, n);
    TimesLaws(if top == id then 1 else 0, CountAll(BuildEach(bs, cs, ids), id), n);
  }

  lemma {:induction false} HeldBelow(bs: seq<ZoningBoundary>, cs: seq<ZoningComponent>, top: string,
          ids: seq<string>, id: string, c: ZoningComponent, n: nat)
    requires n == multiset(ComponentsOf(cs, id))[c]
    requires forall k :: 0 <= k < |ids| ==> Effective(ParentsOf(bs), ids[k]) == Some(top)
    ensures HeldAmong(BuildEach(bs, cs, ids), id, c) == Times(CountAll(BuildEach(bs, cs, ids), id), n)
    decreases MAX_NEST_DEPTH + 1 - Level(ParentsOf(bs), top), 0, |ids|
  {
    hide Effective, Level, Build, Times, Count, Held, ComponentsOf;
    TimesLaws(0, 0, n);
    if ids != [] {
      LevelBelowParent(ParentsOf(bs), ids[0]);
      HeldBuild(bs, cs, ids[0], id, c, n);
      HeldBelow(bs, cs, top, ids[1..], id, c, n);
      TimesLaws(Count(Build(bs, cs, ids[0]), id), CountAll(BuildEach(bs, cs, ids[1..]), id), n);
      assert BuildEach(bs, cs, ids)[1..] == BuildEach(bs, cs, ids[1..]);
    }
  }

  lemma {:induction false} HeldEach(bs: seq<ZoningBoundary>, cs: seq<ZoningComponent>, ids: seq<string>,
          id: string, c: ZoningComponent, n: nat)
    requires n == multiset(ComponentsOf(cs, id))[c]
    ensures HeldAmong(BuildEach(bs, cs, ids), id, c) == Times(CountAll(BuildEach(bs, cs, ids), id), n)
    decreases |ids|
  {
    hide Build, Times, Count, Held, ComponentsOf;
    TimesLaws(0, 0, n);
    if ids != [] {
      HeldBuild(bs, cs, ids[0], id, c, n);
      HeldEach(bs, cs, ids[1..], id, c, n);
      TimesLaws(Count(Build(bs, cs, ids[0]), id), CountAll(BuildEach(bs, cs, ids[1..]), id), n);
      assert BuildEach(bs, cs, ids)[1..] == BuildEach(bs, cs, ids[1..]);
    }
  }

  /** A component stands under the boundary it names as often as the input holds it, and nowhere else. */
  lemma EveryComponentPlaced(bs: seq<ZoningBoundary>, cs: seq<ZoningComponent>, id: string, c: ZoningComponent)
    requires DistinctIds(bs)
    ensures HeldAmong(Forest(bs, cs).children, id, c) == if HasId(bs, id) && c.boundaryId == Some(id) then multiset(cs)[c] else 0
  {
    hide Build, Count, CountAll, Held, HeldAmong, BuildEach;
    ComponentsOfCount(cs, id, c);
    EveryBoundaryOnce(bs, cs, id);
    HeldEach(bs, cs, ChildrenOf(bs, ParentsOf(bs), None), id, c, multiset(ComponentsOf(cs, id))[c]);
  }

  // ----- how deep -----

  function Height(t: Tree): nat { 1 + Tallest(t.children) }

  function Tallest(ts: seq<Tree>): nat {
    if ts == [] then 0 else if Height(ts[0]) > Tallest(ts[1..]) then Height(ts[0]) else Tallest(ts[1..])
  }

  lemma {:induction false} HeightBuild(bs: seq<ZoningBoundary>, cs: seq<ZoningComponent>, id: string)
    ensures Height(Build(bs, cs, id)) <= if Level(ParentsOf(bs), id) <= MAX_NEST_DEPTH then MAX_NEST_DEPTH + 1 - Level(ParentsOf(bs), id) else 1
    decreases MAX_NEST_DEPTH + 1 - Level(ParentsOf(bs), id), 1
  {
    hide Effective, Level, Build;
    BuildShape(bs, cs, id);
    HeightBelow(bs, cs, id, ChildrenOf(bs, ParentsOf(bs), Some(id)));
  }

  lemma {:induction false} HeightBelow(bs: seq<ZoningBoundary>, cs: seq<ZoningComponent>, id: string, ids: seq<string>)
    requires forall k :: 0 <= k < |ids| ==> Effective(ParentsOf(bs), ids[k]) == Some(id)
    ensures Tallest(BuildEach(bs, cs, ids)) <= if Level(ParentsOf(bs), id) <= MAX_NEST_DEPTH then MAX_NEST_DEPTH - Level(ParentsOf(bs), id) else 0
    decreases MAX_NEST_DEPTH + 1 - Level(ParentsOf(bs), id), 0, |ids|
  {
    hide Effective, Level, Build;
    if ids != [] {
      LevelBelowParent(ParentsOf(bs), ids[0]);
      HeightBuild(bs, cs, ids[0]);
      HeightBelow(bs, cs, id, ids[1..]);
      assert BuildEach(bs, cs, ids)[1..] == BuildEach(bs, cs, ids[1..]);
    }
  }

  /** Down from a tree's root, each a child of the one before. */
  predicate IsPath(t: Tree, path: seq<Tree>) {
    path != [] && path[0] == t && forall i :: 0 <= i < |path| - 1 ==> path[i + 1] in path[i].children
  }

  lemma {:induction false} PathWithin(t: Tree, path: seq<Tree>)
    requires IsPath(t, path)
    ensures |path| <= Height(t)
    decreases |path|
  {
    if |path| > 1 {
      assert path[1] in path[0].children;
      var k :| 0 <= k < |t.children| && t.children[k] == path[1];
      PathWithin(path[1], path[1..]);
      ChildLower(t.children, k);
    }
  }

  lemma {:induction false} ChildLower(ts: seq<Tree>, k: nat)
    requires k < |ts|
    ensures Height(ts[k]) <= Tallest(ts)
    decreases |ts|
  {
    if k > 0 { ChildLower(ts[1..], k - 1); }
  }

  /** No path from the root of the structure goes through more than a boundary and its 50 ancestors. */
  lemma PathsBounded(bs: seq<ZoningBoundary>, cs: seq<ZoningComponent>, path: seq<Tree>)
    requires IsPath(Forest(bs, cs), path)
    ensures |path| - 1 <= 51
  {
    hide IsPath, Forest, Height;
    DepthBounded(bs, cs, ChildrenOf(bs, ParentsOf(bs), None));
    PathWithin(Forest(bs, cs), path);
  }

  lemma {:induction false} DepthBounded(bs: seq<ZoningBoundary>, cs: seq<ZoningComponent>, ids: seq<string>)
    ensures Tallest(BuildEach(bs, cs, ids)) <= MAX_NEST_DEPTH + 1
    ensures ids == ChildrenOf(bs, ParentsOf(bs), None) ==> Height(Forest(bs, cs)) <= MAX_NEST_DEPTH + 2
    decreases |ids|
  {
    hide Effective, Level, Build;
    if ids != [] {
      HeightBuild(bs, cs, ids[0]);
      DepthBounded(bs, cs, ids[1..]);
      assert BuildEach(bs, cs, ids)[1..] == BuildEach(bs, cs, ids[1..]);
    }
  }

  // ----- the linking, in place -----

  /** A node of the structure handed to the engine; children are pushed into it in place. */
  class StructureBoundary {
    const id: string
    const components: seq<ZoningComponent>
    var boundaries: seq<StructureBoundary>

    constructor (id: string, components: seq<ZoningComponent>)
      ensures this.id == id && this.components == components && boundaries == []
    {
      this.id, this.components := id, components;
      boundaries := [];
    }
  }

  type Shells = map<string, StructureBoundary>

  function NodesOf(shells: Shells, ids: seq<string>): (nodes: seq<StructureBoundary>)
    requires forall k :: 0 <= k < |ids| ==> ids[k] in shells
    ensures |nodes| == |ids| && forall k :: 0 <= k < |ids| ==> nodes[k] == shells[ids[k]]
  {
    if ids == [] then [] else NodesOf(shells, ids[..|ids| - 1]) + [shells[ids[|ids| - 1]]]
  }

  /** The object graph below a node is this tree. */
  ghost predicate Represents(node: StructureBoundary, t: Tree, heap: set<StructureBoundary>)
    reads heap
    decreases t
  {
    node in heap && node.id == t.id && node.components == t.components && |node.boundaries| == |t.children|
    && forall k :: 0 <= k < |t.children| ==> Represents(node.boundaries[k], t.children[k], heap)
  }

  /** One shell for every boundary, with its id and its components. */
  ghost predicate ShellsOk(bs: seq<ZoningBoundary>, cs: seq<ZoningComponent>, shells: Shells) {
    (forall x :: x in shells <==> HasId(bs, x))
    && (forall x :: x in shells ==> shells[x].id == x && shells[x].components == ComponentsOf(cs, x))
    && (forall x, y :: x in shells && y in shells && x != y ==> shells[x] != shells[y])
  }

  predicate Known(shells: Shells, ids: seq<string>) { forall k :: 0 <= k < |ids| ==> ids[k] in shells }

  /** A shell holds, of the boundaries seen so far, the children linked to it, in order. */
  ghost predicate LinkedAt(bs: seq<ZoningBoundary>, seen: seq<ZoningBoundary>, shells: Shells, x: string)
    requires x in shells
    reads shells[x]
  {
    var ids := ChildrenOf(seen, ParentsOf(bs), Some(x));
    Known(shells, ids) && shells[x].boundaries == NodesOf(shells, ids)
  }

  ghost predicate Linked(bs: seq<ZoningBoundary>, seen: seq<ZoningBoundary>, shells: Shells)
    reads shells.Values
  {
    forall x :: x in shells ==> LinkedAt(bs, seen, shells, x)
  }

  ghost predicate TopLinked(bs: seq<ZoningBoundary>, seen: seq<ZoningBoundary>, shells: Shells, topLevel: seq<StructureBoundary>) {
    var ids := ChildrenOf(seen, ParentsOf(bs), None);
    Known(shells, ids) && topLevel == NodesOf(shells, ids)
  }

  /** Linked shells are the subtrees. */
  lemma {:induction false} ShellIsSubtree(bs: seq<ZoningBoundary>, cs: seq<ZoningComponent>, shells: Shells,
          id: string, heap: set<StructureBoundary>)
    requires ShellsOk(bs, cs, shells) && Linked(bs, bs, shells) && id in shells && shells.Values <= heap
    ensures Represents(shells[id], Build(bs, cs, id), heap)
    decreases MAX_NEST_DEPTH + 1 - Level(ParentsOf(bs), id)
  {
    hide Effective, Level, Build, ChildrenOf, ParentsOf, ComponentsOf, HasId;
    var ids := ChildrenOf(bs, ParentsOf(bs), Some(id));
    var t := Build(bs, cs, id);
    assert LinkedAt(bs, bs, shells, id);
    BuildShape(bs, cs, id);
    BuildEachAt(bs, cs, ids);
    forall k | 0 <= k < |ids| ensures Represents(shells[id].boundaries[k], t.children[k], heap) {
      LevelBelowParent(ParentsOf(bs), ids[k]);
      ShellIsSubtree(bs, cs, shells, ids[k], heap);
    }
  }

  lemma RootIsForest(bs: seq<ZoningBoundary>, cs: seq<ZoningComponent>, shells: Shells,
          root: StructureBoundary, heap: set<StructureBoundary>)
    requires ShellsOk(bs, cs, shells) && Linked(bs, bs, shells) && shells.Values <= heap && root in heap
    requires TopLinked(bs, bs, shells, root.boundaries) && root.id == ZONING_ROOT_ID && root.components == []
    ensures Represents(root, Forest(bs, cs), heap)
  {
    hide Effective, Level, Build, ChildrenOf, ParentsOf, ComponentsOf, HasId, Linked, ShellsOk;
    var ids := ChildrenOf(bs, ParentsOf(bs), None);
    var t := Forest(bs, cs);
    BuildEachAt(bs, cs, ids);
    forall k | 0 <= k < |ids| ensures Represents(root.boundaries[k], t.children[k], heap) {
      ShellIsSubtree(bs, cs, shells, ids[k], heap);
    }
  }

  method ReadParents(bs: seq<ZoningBoundary>) returns (parents: Parents)
    ensures parents == ParentsOf(bs)
  {
    parents := map[];
    var i := 0;
    while i < |bs|
      invariant 0 <= i <= |bs| && parents == ParentsOf(bs[..i])
    {
      assert bs[..i + 1][..i] == bs[..i];
      parents := parents[bs[i].id := bs[i].parentBoundaryId];
      i := i + 1;
    }
    assert bs[..i] == bs;
  }

  function GroupAt(groups: map<string, seq<ZoningComponent>>, id: string): seq<ZoningComponent> { if id in groups then groups[id] else [] }

  /** The components by the boundary they name; one that names none is dropped. */
  method GroupComponents(cs: seq<ZoningComponent>) returns (groups: map<string, seq<ZoningComponent>>)
    ensures forall id :: GroupAt(groups, id) == ComponentsOf(cs, id)
  {
    groups := map[];
    var i := 0;
    while i < |cs|
      invariant 0 <= i <= |cs| && forall id :: GroupAt(groups, id) == ComponentsOf(cs[..i], id)
    {
      assert cs[..i + 1][..i] == cs[..i];
      if cs[i].boundaryId.Some? {
        var id := cs[i].boundaryId.value;
        groups := groups[id := GroupAt(groups, id) + [cs[i]]];
      }
      i := i + 1;
    }
    assert cs[..i] == cs;
  }

  method MakeShells(bs: seq<ZoningBoundary>, cs: seq<ZoningComponent>,
          groups: map<string, seq<ZoningComponent>>) returns (shells: Shells)
    requires forall id :: GroupAt(groups, id) == ComponentsOf(cs, id)
    ensures ShellsOk(bs, cs, shells) && fresh(shells.Values) && forall x :: x in shells ==> shells[x].boundaries == []
  {
    hide ComponentsOf, HasId;
    shells := map[];
    var i := 0;
    NoId();
    while i < |bs|
      invariant 0 <= i <= |bs| && ShellsOk(bs[..i], cs, shells) && fresh(shells.Values)
      invariant forall x :: x in shells ==> shells[x].boundaries == []
    {
      assert bs[..i + 1][..i] == bs[..i];
      forall x ensures HasId(bs[..i + 1], x) <==> HasId(bs[..i], x) || x == bs[i].id { HasIdStep(bs[..i + 1], x); }
      var shell := new StructureBoundary(bs[i].id, GroupAt(groups, bs[i].id));
      ghost var others := shells.Values;
      assert forall x :: x in shells ==> shells[x] in others && shells[x] != shell;
      shells := shells[bs[i].id := shell];
      assert shells.Values <= others + {shell};
      i := i + 1;
    }
    assert bs[..i] == bs;
  }

  lemma NoId()
    ensures forall x :: !HasId([], x)
  {
  }

  lemma ChildrenStep(bs: seq<ZoningBoundary>, i: nat, parents: Parents, p: Option<string>)
    requires i < |bs|
    ensures ChildrenOf(bs[..i + 1], parents, p)
         == ChildrenOf(bs[..i], parents, p) + if Effective(parents, bs[i].id) == p then [bs[i].id] else []
  {
    hide Effective;
    assert bs[..i + 1][..i] == bs[..i];
  }

  lemma NodesStep(shells: Shells, ids: seq<string>, x: string)
    requires Known(shells, ids) && x in shells
    ensures Known(shells, ids + [x]) && NodesOf(shells, ids + [x]) == NodesOf(shells, ids) + [shells[x]]
  {
    assert (ids + [x])[..|ids|] == ids;
  }

  /** One boundary more: it comes last under its parent, and nothing else moves. */
  lemma LinkStep(bs: seq<ZoningBoundary>, i: nat, shells: Shells, x: string, was: seq<StructureBoundary>,
          now: seq<StructureBoundary>)
    requires i < |bs| && x in shells && bs[i].id in shells && Known(shells, ChildrenOf(bs[..i], ParentsOf(bs), Some(x)))
    requires was == NodesOf(shells, ChildrenOf(bs[..i], ParentsOf(bs), Some(x)))
    requires now == was + if Effective(ParentsOf(bs), bs[i].id) == Some(x) then [shells[bs[i].id]] else []
    ensures Known(shells, ChildrenOf(bs[..i + 1], ParentsOf(bs), Some(x)))
    ensures now == NodesOf(shells, ChildrenOf(bs[..i + 1], ParentsOf(bs), Some(x)))
  {
    hide Effective, ChildrenOf, ParentsOf, NodesOf;
    ChildrenStep(bs, i, ParentsOf(bs), Some(x));
    NodesStep(shells, ChildrenOf(bs[..i], ParentsOf(bs), Some(x)), bs[i].id);
  }

  lemma EffectiveAt(bs: seq<ZoningBoundary>, i: nat, shells: Shells)
    requires i < |bs| && DistinctIds(bs) && forall x :: x in shells <==> HasId(bs, x)
    ensures bs[i].id in shells
    ensures Effective(ParentsOf(bs), bs[i].id)
         == if bs[i].parentBoundaryId.Some? && bs[i].parentBoundaryId.value in shells && ChainOk(ParentsOf(bs), bs[i].id)
            then bs[i].parentBoundaryId else None
  {
    hide ChainOk;
    ParentsKeys(bs);
    IdAt(bs, i);
  }

  /** Links one boundary under its parent, or leaves it to the root. */
  method LinkOne(bs: seq<ZoningBoundary>, i: nat, ghost cs: seq<ZoningComponent>, parents: Parents,
          shells: Shells) returns (nested: bool)
    requires i < |bs| && DistinctIds(bs) && parents == ParentsOf(bs) && ShellsOk(bs, cs, shells) && Linked(bs, bs[..i], shells)
    modifies shells.Values
    ensures Linked(bs, bs[..i + 1], shells) && (nested <==> Effective(parents, bs[i].id).Some?)
  {
    hide Effective, ChainOk, ChildrenOf, ParentsOf, NodesOf, HasId, ComponentsOf;
    var b := bs[i];
    EffectiveAt(bs, i, shells);
    var shell := shells[b.id];
    nested := false;
    if b.parentBoundaryId.Some? && b.parentBoundaryId.value in shells {
      nested := ChainIsAcyclicAndBounded(b.id, parents);
    }
    assert Effective(parents, b.id) == if nested then b.parentBoundaryId else None;
    ghost var was := map x | x in shells :: shells[x].boundaries;
    assert forall x :: x in shells ==> LinkedAt(bs, bs[..i], shells, x);
    if nested {
      var parent := shells[b.parentBoundaryId.value];
      assert parent in shells.Values;
      parent.boundaries := parent.boundaries + [shell];
    }
    forall x | x in shells ensures LinkedAt(bs, bs[..i + 1], shells, x) {
      LinkStep(bs, i, shells, x, was[x], shells[x].boundaries);
    }
  }

  lemma TopStep(bs: seq<ZoningBoundary>, i: nat, shells: Shells, topLevel: seq<StructureBoundary>)
    requires i < |bs| && bs[i].id in shells && TopLinked(bs, bs[..i], shells, topLevel)
    ensures TopLinked(bs, bs[..i + 1], shells, topLevel + if Effective(ParentsOf(bs), bs[i].id) == None then [shells[bs[i].id]] else [])
  {
    hide Effective, ChildrenOf, ParentsOf, NodesOf;
    ChildrenStep(bs, i, ParentsOf(bs), None);
    NodesStep(shells, ChildrenOf(bs[..i], ParentsOf(bs), None), bs[i].id);
  }

  method LinkAll(bs: seq<ZoningBoundary>, ghost cs: seq<ZoningComponent>, parents: Parents,
          shells: Shells) returns (topLevel: seq<StructureBoundary>)
    requires DistinctIds(bs) && parents == ParentsOf(bs) && ShellsOk(bs, cs, shells)
    requires forall x :: x in shells ==> shells[x].boundaries == []
    modifies shells.Values
    ensures Linked(bs, bs, shells) && TopLinked(bs, bs, shells, topLevel)
  {
    hide Effective, ComponentsOf, ChildrenOf, ParentsOf, HasId, NodesOf, TopLinked, LinkedAt, Known;
    topLevel := [];
    NoneLinked(bs, shells);
    var i := 0;
    while i < |bs|
      invariant 0 <= i <= |bs| && Linked(bs, bs[..i], shells) && TopLinked(bs, bs[..i], shells, topLevel)
    {
      EffectiveAt(bs, i, shells);
      TopStep(bs, i, shells, topLevel);
      var nested := LinkOne(bs, i, cs, parents, shells);
      topLevel := topLevel + if nested then [] else [shells[bs[i].id]];
      i := i + 1;
    }
    assert bs[..i] == bs;
  }

  /** The nested structure of a flat model. */
  method GraphToZoningStructure(bs: seq<ZoningBoundary>, cs: seq<ZoningComponent>)
    returns (root: StructureBoundary, ghost heap: set<StructureBoundary>)
    requires DistinctIds(bs)
    ensures Represents(root, Forest(bs, cs), heap) && fresh(heap)
  {
    hide Represents, Linked, TopLinked, ShellsOk;
    var parents := ReadParents(bs);
    var groups := GroupComponents(cs);
    var shells := MakeShells(bs, cs, groups);
    var topLevel := LinkAll(bs, cs, parents, shells);
    root := new StructureBoundary(ZONING_ROOT_ID, []);
    root.boundaries := topLevel;
    heap := shells.Values + {root};
    RootIsForest(bs, cs, shells, root, heap);
  }

  lemma NoneLinked(bs: seq<ZoningBoundary>, shells: Shells)
    requires forall x :: x in shells ==> shells[x].boundaries == []
    ensures Linked(bs, bs[..0], shells) && TopLinked(bs, bs[..0], shells, [])
  {
  }

  lemma IdAt(bs: seq<ZoningBoundary>, i: nat)
    requires i < |bs|
    ensures HasId(bs, bs[i].id)
  {
  }
}
