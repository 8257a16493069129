/**
 * The ATLAS to ATT&CK crosswalk (modules/mitre-frameworks/scripts/atlas_stix.py, resolve_attack_refs):
 * each cited technique is followed through the revoked-by relationships to a live one.
 */
module AtlasCrosswalk {
  import opened Prelude

  /** An object of the ATT&CK bundle; `attackIds` are its mitre-attack external ids in order. */
  datatype AttackObject =
    | Pattern(id: string, attackIds: seq<string>, revoked: bool, deprecated: bool)
    | RevokedBy(source: string, target: string)
    | Other

  datatype Ref = Ref(techniqueId: string, cited: string)

  datatype Resolved = Resolved(techniqueId: string, cited: string, final: string)

  datatype AtlasError =
    | Candidates(ref: Ref, found: int)
    | NoLiveSuccessor(ref: Ref)
    | Deprecated(ref: Ref)
    | NoAttackId(ref: Ref)
    | NotExpected(ref: Ref, final: string)
    | Stale(cited: set<string>)

  type Patterns = map<string, AttackObject>

  type Successors = map<string, string>

  type Expectations = map<string, string>

  const REVOCATION_EXPECTATIONS: Expectations := map["T1656" := "T1684.001"]

  // ----- what the bundle says -----

  /** The techniques by STIX id; of two with one id the later. */
  function PatternsOf(objects: seq<AttackObject>): (ps: Patterns)
    ensures forall id :: id in ps ==> ps[id].Pattern? && ps[id].id == id && ps[id] in objects
  {
    if objects == [] then map[]
    else
      var o := objects[|objects| - 1];
      var before := PatternsOf(objects[..|objects| - 1]);
      if o.Pattern? then before[o.id := o] else before
  }

  function SuccessorsOf(objects: seq<AttackObject>): Successors {
    if objects == [] then map[]
    else
      var o := objects[|objects| - 1];
      var before := SuccessorsOf(objects[..|objects| - 1]);
      if o.RevokedBy? then before[o.source := o.target] else before
  }

  datatype Bundle = Bundle(patterns: Patterns, revokedBy: Successors)

  predicate WellKeyed(b: Bundle) { forall id :: id in b.patterns ==> b.patterns[id].Pattern? && b.patterns[id].id == id }

  /** One step along revoked-by, from a technique to a technique. */
  function Successor(b: Bundle, id: string): Option<string> {
    var next := if id in b.revokedBy then b.revokedBy[id] else "";
    if next in b.patterns then Some(next) else None
  }

  /** The n-th step of the walk, which goes on only from revoked techniques. */
  function Walk(b: Bundle, id: string, n: nat): Option<string>
    requires WellKeyed(b)
  {
    if id !in b.patterns then None
    else if n == 0 then Some(id)
    else match Walk(b, id, n - 1)
         case None => None
         case Some(at) => if at in b.patterns && b.patterns[at].revoked then Successor(b, at) else None
  }

  /** The walk ends after n steps, at a technique that is not revoked. */
  predicate EndsAt(b: Bundle, id: string, n: nat, final: string)
    requires WellKeyed(b)
  {
    Walk(b, id, n) == Some(final) && final in b.patterns && !b.patterns[final].revoked
  }

  ghost predicate Leads(b: Bundle, id: string, final: string)
    requires WellKeyed(b)
  {
    exists n: nat :: EndsAt(b, id, n, final)
  }

  lemma {:induction false} WalkIn(b: Bundle, id: string, n: nat)
    requires WellKeyed(b) && Walk(b, id, n).Some?
    ensures Walk(b, id, n).value in b.patterns
    ensures forall k :: 0 <= k <= n ==> Walk(b, id, k).Some?
    ensures forall k :: 0 <= k < n ==> Walk(b, id, k).value in b.patterns && b.patterns[Walk(b, id, k).value].revoked
    decreases n
  {
    if n > 0 { WalkIn(b, id, n - 1); }
  }

  lemma {:induction false} WalkEnds(b: Bundle, id: string, j: nat, k: nat)
    requires WellKeyed(b) && j <= k && Walk(b, id, j) == None
    ensures Walk(b, id, k) == None
    decreases k
  {
    if j < k { WalkEnds(b, id, j, k - 1); }
  }

  /**
   * Techniques each revoked by the next, to one that is not revoked. A revoked one that no relationship
   * names is looked up under the empty id.
   */
  predicate Revocations(b: Bundle, path: seq<string>)
    requires WellKeyed(b)
  {
    path != [] && (forall i :: 0 <= i < |path| ==> path[i] in b.patterns && (b.patterns[path[i]].revoked <==> i < |path| - 1))
    && forall i :: 0 <= i < |path| - 1 ==> path[i + 1] == if path[i] in b.revokedBy then b.revokedBy[path[i]] else ""
  }

  lemma {:induction false} PathWalks(b: Bundle, path: seq<string>, n: nat)
    requires WellKeyed(b) && Revocations(b, path) && n < |path|
    ensures Walk(b, path[0], n) == Some(path[n])
    decreases n
  {
    if n > 0 { PathWalks(b, path, n - 1); }
  }

  function WalkPath(b: Bundle, id: string, n: nat): (path: seq<string>)
    requires WellKeyed(b) && Walk(b, id, n).Some?
    ensures |path| == n + 1 && path[0] == id && path[n] == Walk(b, id, n).value
    ensures forall i :: 0 <= i <= n ==> Walk(b, id, i) == Some(path[i])
  {
    if n == 0 then [id] else WalkPath(b, id, n - 1) + [Walk(b, id, n).value]
  }

  /** The walk leads to a technique exactly when a chain of revocations runs to it. */
  lemma LeadsIff(b: Bundle, id: string, final: string)
    requires WellKeyed(b)
    ensures Leads(b, id, final) <==> exists path :: Revocations(b, path) && path[0] == id && path[|path| - 1] == final
  {
    if Leads(b, id, final) {
      var n: nat :| EndsAt(b, id, n, final);
      WalkIn(b, id, n);
      var path := WalkPath(b, id, n);
      forall i | 0 <= i < n ensures path[i + 1] == if path[i] in b.revokedBy then b.revokedBy[path[i]] else "" {
        assert Walk(b, id, i) == Some(path[i]) && Walk(b, id, i + 1) == Some(path[i + 1]);
      }
      assert Revocations(b, path);
    }
    if path :| Revocations(b, path) && path[0] == id && path[|path| - 1] == final {
      PathWalks(b, path, |path| - 1);
      assert EndsAt(b, id, |path| - 1, final);
    }
  }

  /** A technique met twice is met for ever, and was revoked each time. */
  lemma {:induction false} Loop(b: Bundle, id: string, i: nat, j: nat, n: nat)
    requires WellKeyed(b) && i < j && Walk(b, id, i).Some? && Walk(b, id, i) == Walk(b, id, j)
    ensures Walk(b, id, n).Some?
    decreases n
  {
    if n <= j {
      if Walk(b, id, n) == None { WalkEnds(b, id, n, j); }
    } else {
      Loop(b, id, i, j, n - (j - i));
      Repeats(b, id, i, j, n - j);
    }
  }

  lemma {:induction false} Repeats(b: Bundle, id: string, i: nat, j: nat, n: nat)
    requires WellKeyed(b) && Walk(b, id, i).Some? && Walk(b, id, i) == Walk(b, id, j)
    ensures Walk(b, id, i + n) == Walk(b, id, j + n)
  {
    if n > 0 { Repeats(b, id, i, j, n - 1); }
  }

  /** So a walk that comes back to itself leads nowhere. */
  lemma LoopLeadsNowhere(b: Bundle, id: string, i: nat, j: nat, final: string)
    requires WellKeyed(b) && i < j && Walk(b, id, i).Some? && Walk(b, id, i) == Walk(b, id, j)
    ensures !Leads(b, id, final)
  {
    forall n: nat ensures !EndsAt(b, id, n, final) {
      Loop(b, id, i, j, n + 1);
      WalkIn(b, id, n + 1);
    }
  }

  /** A walk leads to one technique at most. */
  lemma LeadsOnce(b: Bundle, id: string, final: string, other: string)
    requires WellKeyed(b) && Leads(b, id, final) && Leads(b, id, other)
    ensures final == other
  {
    var m: nat :| EndsAt(b, id, m, final);
    var n: nat :| EndsAt(b, id, n, other);
    WalkIn(b, id, m);
    WalkIn(b, id, n);
  }

  /** An id met within the first n steps. */
  predicate Met(b: Bundle, id: string, n: nat, at: string)
    requires WellKeyed(b)
  {
    exists i :: 0 <= i <= n && Walk(b, id, i) == Some(at)
  }

  ghost predicate AllMet(b: Bundle, id: string, n: nat, visited: set<string>)
    requires WellKeyed(b)
  {
    visited <= b.patterns.Keys && forall at :: at in visited ==> Met(b, id, n, at)
  }

  lemma StartMet(b: Bundle, id: string)
    requires WellKeyed(b) && id in b.patterns
    ensures AllMet(b, id, 0, {id}) && Walk(b, id, 0) == Some(id)
  {
    var n: nat := 0;
    assert Walk(b, id, n) == Some(id);
  }

  /** One step to a technique not met before. */
  lemma NextMet(b: Bundle, id: string, n: nat, visited: set<string>, next: string)
    requires WellKeyed(b) && AllMet(b, id, n, visited) && Walk(b, id, n + 1) == Some(next) && next !in visited
    ensures AllMet(b, id, n + 1, visited + {next})
    ensures |b.patterns.Keys - (visited + {next})| < |b.patterns.Keys - visited|
  {
    WalkIn(b, id, n + 1);
    forall at | at in visited + {next} ensures Met(b, id, n + 1, at) {
      if at != next {
        assert Met(b, id, n, at);
        var i :| 0 <= i <= n && Walk(b, id, i) == Some(at);
      }
    }
    assert next in b.patterns.Keys - visited;
    SmallerSet(b.patterns.Keys - (visited + {next}), b.patterns.Keys - visited);
  }

  /** One step to a technique met before. */
  lemma MetAgain(b: Bundle, id: string, n: nat, visited: set<string>, next: string)
    requires WellKeyed(b) && AllMet(b, id, n, visited) && Walk(b, id, n + 1) == Some(next) && next in visited
    ensures forall final :: !Leads(b, id, final)
  {
    assert Met(b, id, n, next);
    var i :| 0 <= i <= n && Walk(b, id, i) == Some(next);
    forall final ensures !Leads(b, id, final) { LoopLeadsNowhere(b, id, i, n + 1, final); }
  }

  /** The walk with its visited set: it ends on every graph, and finds the live technique exactly when there is one. */
  method FollowRevoked(b: Bundle, start: string) returns (r: Option<string>)
    requires WellKeyed(b) && start in b.patterns
    ensures match r case Some(final) => Leads(b, start, final) case None => forall final :: !Leads(b, start, final)
  {
    hide AllMet, Leads;
    var current := start;
    var visited := {start};
    ghost var n: nat := 0;
    StartMet(b, start);
    while b.patterns[current].revoked
      invariant current in b.patterns && Walk(b, start, n) == Some(current) && AllMet(b, start, n, visited)
      decreases |b.patterns.Keys - visited|
    {
      var successor := Successor(b, current);
      assert Walk(b, start, n + 1) == successor;
      if successor.None? {
        NoEnd(b, start, n);
        return None;
      }
      if successor.value in visited {
        MetAgain(b, start, n, visited, successor.value);
        return None;
      }
      NextMet(b, start, n, visited, successor.value);
      n := n + 1;
      current := successor.value;
      visited := visited + {current};
    }
    LeadsAfter(b, start, n, current);
    return Some(current);
  }

  lemma LeadsAfter(b: Bundle, id: string, n: nat, final: string)
    requires WellKeyed(b) && EndsAt(b, id, n, final)
    ensures Leads(b, id, final)
  {
  }

  lemma SmallerSet(a: set<string>, c: set<string>)
    requires a < c
    ensures |a| < |c|
  {
    assert c == a + (c - a) && a !! (c - a);
    assert c - a != {};
  }

  lemma NoEnd(b: Bundle, id: string, n: nat)
    requires WellKeyed(b) && Walk(b, id, n).Some? && Walk(b, id, n + 1) == None
    requires Walk(b, id, n).value in b.patterns && b.patterns[Walk(b, id, n).value].revoked
    ensures forall final :: !Leads(b, id, final)
  {
    WalkIn(b, id, n);
    forall final, m: nat ensures !EndsAt(b, id, m, final) {
      if m > n { WalkEnds(b, id, n + 1, m); }
    }
  }

  // ----- one citation -----

  /** The techniques that carry an id, one for each time they carry it. */
  function Carriers(ids: seq<string>, b: Bundle, cited: string): seq<string>
    requires WellKeyed(b) && forall k :: 0 <= k < |ids| ==> ids[k] in b.patterns
  {
    if ids == [] then [] else Times(b.patterns[ids[0]].attackIds, cited, ids[0]) + Carriers(ids[1..], b, cited)
  }

  function Times(attackIds: seq<string>, cited: string, id: string): seq<string> {
    if attackIds == [] then [] else (if attackIds[0] == cited then [id] else []) + Times(attackIds[1..], cited, id)
  }

  /** What a citation must meet: one technique carries it, its walk ends live, and the table agrees. */
  ghost predicate ResolvesTo(b: Bundle, carriers: seq<string>, table: Expectations, cited: string, final: string)
    requires WellKeyed(b)
  {
    |carriers| == 1 && carriers[0] in b.patterns
    && (exists live :: Leads(b, carriers[0], live) && b.patterns[live].Pattern? && !b.patterns[live].deprecated
                       && b.patterns[live].attackIds != [] && b.patterns[live].attackIds[0] == final)
    && final == if cited in table then table[cited] else cited
  }

  method ResolveOne(b: Bundle, carriers: seq<string>, table: Expectations, ref: Ref) returns (r: Result<string, AtlasError>)
    requires WellKeyed(b) && forall k :: 0 <= k < |carriers| ==> carriers[k] in b.patterns
    ensures match r
            case Ok(final) => ResolvesTo(b, carriers, table, ref.cited, final)
            case Err(_) => forall final :: !ResolvesTo(b, carriers, table, ref.cited, final)
  {
    if |carriers| != 1 { return Err(Candidates(ref, |carriers|)); }
    var live := FollowRevoked(b, carriers[0]);
    if live.None? { return Err(NoLiveSuccessor(ref)); }
    forall other | Leads(b, carriers[0], other) ensures other == live.value { LeadsOnce(b, carriers[0], live.value, other); }
    var current := b.patterns[live.value];
    if current.deprecated { return Err(Deprecated(ref)); }
    if current.attackIds == [] { return Err(NoAttackId(ref)); }
    var final := current.attackIds[0];
    if final != ref.cited || ref.cited in table {
      if ref.cited !in table || table[ref.cited] != final { return Err(NotExpected(ref, final)); }
    }
    return Ok(final);
  }

  // ----- all citations -----

  /** The techniques' ids in the order the bundle first gives them. */
  function KeyOrder(objects: seq<AttackObject>): (ids: seq<string>)
    ensures forall id :: id in ids <==> id in PatternsOf(objects)
  {
    if objects == [] then []
    else
      var o := objects[|objects| - 1];
      var before := KeyOrder(objects[..|objects| - 1]);
      if o.Pattern? && o.id !in before then before + [o.id] else before
  }

  function BundleOf(objects: seq<AttackObject>): (b: Bundle)
    ensures WellKeyed(b)
  {
    Bundle(PatternsOf(objects), SuccessorsOf(objects))
  }

  function IndexAt(index: map<string, seq<string>>, cited: string): seq<string> { if cited in index then index[cited] else [] }

  lemma {:induction false} CarriersConcat(a: seq<string>, c: seq<string>, b: Bundle, cited: string)
    requires WellKeyed(b) && forall k :: 0 <= k < |a + c| ==> (a + c)[k] in b.patterns
    ensures (forall k :: 0 <= k < |a| ==> a[k] in b.patterns) && (forall k :: 0 <= k < |c| ==> c[k] in b.patterns)
    ensures Carriers(a + c, b, cited) == Carriers(a, b, cited) + Carriers(c, b, cited)
    decreases |a|
  {
    assert forall k :: 0 <= k < |a| ==> (a + c)[k] == a[k];
    assert forall k :: 0 <= k < |c| ==> (a + c)[|a| + k] == c[k];
    if a == [] {
      assert a + c == c;
    } else {
      assert (a + c)[0] == a[0] && (a + c)[1..] == a[1..] + c;
      CarriersConcat(a[1..], c, b, cited);
      var head, x, y := Times(b.patterns[a[0]].attackIds, cited, a[0]), Carriers(a[1..], b, cited), Carriers(c, b, cited);
      assert Carriers(a + c, b, cited) == head + (x + y);
      assert head + (x + y) == (head + x) + y;
    }
  }

  lemma {:induction false} TimesConcat(a: seq<string>, c: seq<string>, cited: string, id: string)
    ensures Times(a + c, cited, id) == Times(a, cited, id) + Times(c, cited, id)
    decreases |a|
  {
    if a == [] {
      assert a + c == c;
    } else {
      assert (a + c)[0] == a[0] && (a + c)[1..] == a[1..] + c;
      TimesConcat(a[1..], c, cited, id);
      var head, x, y := if a[0] == cited then [id] else [], Times(a[1..], cited, id), Times(c, cited, id);
      assert Times(a + c, cited, id) == head + (x + y);
      assert head + (x + y) == (head + x) + y;
    }
  }

  /** The index holds techniques of the bundle only. */
  predicate Indexed(index: map<string, seq<string>>, b: Bundle) {
    forall cited, k :: cited in index && 0 <= k < |index[cited]| ==> index[cited][k] in b.patterns
  }

  ghost predicate IndexOf(index: map<string, seq<string>>, ids: seq<string>, b: Bundle)
    requires WellKeyed(b) && forall k :: 0 <= k < |ids| ==> ids[k] in b.patterns
  {
    forall cited :: IndexAt(index, cited) == Carriers(ids, b, cited)
  }

  ghost predicate IndexedMore(index: map<string, seq<string>>, more: map<string, seq<string>>, carried: seq<string>, id: string) {
    forall cited :: IndexAt(more, cited) == IndexAt(index, cited) + Times(carried, cited, id)
  }

  /** by_attack_id: every technique under every ATT&CK id it carries. */
  method IndexByAttackId(ids: seq<string>, b: Bundle) returns (index: map<string, seq<string>>)
    requires WellKeyed(b) && forall k :: 0 <= k < |ids| ==> ids[k] in b.patterns
    ensures IndexOf(index, ids, b) && Indexed(index, b)
  {
    hide IndexedMore, Indexed, Carriers, IndexOf;
    index := map[];
    NothingIndexed(b);
    var i := 0;
    while i < |ids|
      invariant 0 <= i <= |ids| && IndexOf(index, ids[..i], b) && Indexed(index, b)
    {
      var more := IndexOne(index, ids[i], b.patterns[ids[i]].attackIds, b);
      IndexStep(index, more, ids, i, b);
      index := more;
      i := i + 1;
    }
    assert ids[..i] == ids;
  }

  lemma NothingIndexed(b: Bundle)
    requires WellKeyed(b)
    ensures IndexOf(map[], [], b) && Indexed(map[], b)
  {
  }

  lemma IndexStep(index: map<string, seq<string>>, more: map<string, seq<string>>, ids: seq<string>, i: nat, b: Bundle)
    requires WellKeyed(b) && i < |ids| && forall k :: 0 <= k < |ids| ==> ids[k] in b.patterns
    requires IndexOf(index, ids[..i], b) && IndexedMore(index, more, b.patterns[ids[i]].attackIds, ids[i])
    ensures IndexOf(more, ids[..i + 1], b)
  {
    hide IndexAt, Carriers;
    forall cited ensures IndexAt(more, cited) == Carriers(ids[..i + 1], b, cited) {
      assert IndexAt(index, cited) == Carriers(ids[..i], b, cited);
      CarriersSnoc(ids, i, b, cited);
    }
  }

  lemma CarriersSnoc(ids: seq<string>, i: nat, b: Bundle, cited: string)
    requires WellKeyed(b) && i < |ids| && forall k :: 0 <= k < |ids| ==> ids[k] in b.patterns
    ensures Carriers(ids[..i + 1], b, cited) == Carriers(ids[..i], b, cited) + Times(b.patterns[ids[i]].attackIds, cited, ids[i])
  {
    hide Times;
    assert ids[..i + 1] == ids[..i] + [ids[i]];
    CarriersConcat(ids[..i], [ids[i]], b, cited);
    assert [ids[i]][1..] == [] && Carriers([ids[i]], b, cited) == Times(b.patterns[ids[i]].attackIds, cited, ids[i]) + [];
  }

  /** One technique under each id it carries. */
  method IndexOne(index: map<string, seq<string>>, id: string, carried: seq<string>,
          b: Bundle) returns (more: map<string, seq<string>>)
    requires id in b.patterns && Indexed(index, b)
    ensures IndexedMore(index, more, carried, id) && Indexed(more, b)
  {
    hide IndexedMore, IndexAt;
    more := index;
    SameIndex(index, id);
    var j := 0;
    while j < |carried|
      invariant 0 <= j <= |carried| && IndexedMore(index, more, carried[..j], id) && Indexed(more, b)
    {
      CarriedStep(index, more, carried, j, id, b);
      more := more[carried[j] := IndexAt(more, carried[j]) + [id]];
      j := j + 1;
    }
    assert carried[..j] == carried;
  }

  lemma SameIndex(index: map<string, seq<string>>, id: string)
    ensures forall carried: seq<string> :: IndexedMore(index, index, carried[..0], id)
  {
  }

  lemma CarriedStep(index: map<string, seq<string>>, more: map<string, seq<string>>, carried: seq<string>,
          j: nat, id: string, b: Bundle)
    requires j < |carried| && IndexedMore(index, more, carried[..j], id) && Indexed(more, b) && id in b.patterns
    ensures var next := more[carried[j] := IndexAt(more, carried[j]) + [id]];
            IndexedMore(index, next, carried[..j + 1], id) && Indexed(next, b)
  {
    hide Indexed, Times;
    var next := more[carried[j] := IndexAt(more, carried[j]) + [id]];
    forall cited ensures IndexAt(next, cited) == IndexAt(index, cited) + Times(carried[..j + 1], cited, id) {
      assert IndexAt(more, cited) == IndexAt(index, cited) + Times(carried[..j], cited, id);
      CarriedAt(carried, j, cited, id);
    }
    PutIndexed(more, carried[j], id, b);
  }

  lemma CarriedAt(carried: seq<string>, j: nat, cited: string, id: string)
    requires j < |carried|
    ensures Times(carried[..j + 1], cited, id) == Times(carried[..j], cited, id) + if carried[j] == cited then [id] else []
  {
    assert carried[..j + 1] == carried[..j] + [carried[j]];
    TimesConcat(carried[..j], [carried[j]], cited, id);
    assert [carried[j]][1..] == [];
  }

  lemma PutIndexed(more: map<string, seq<string>>, key: string, id: string, b: Bundle)
    requires Indexed(more, b) && id in b.patterns
    ensures Indexed(more[key := IndexAt(more, key) + [id]], b)
  {
  }

  ghost predicate RefResolves(b: Bundle, ids: seq<string>, table: Expectations, ref: Ref, final: string)
    requires WellKeyed(b) && forall k :: 0 <= k < |ids| ==> ids[k] in b.patterns
  {
    ResolvesTo(b, Carriers(ids, b, ref.cited), table, ref.cited, final)
  }

  ghost predicate AllCited(table: Expectations, refs: seq<Ref>) {
    forall cited :: cited in table ==> exists k :: 0 <= k < |refs| && refs[k].cited == cited
  }

  /** The citations answered so far, in order. */
  ghost predicate Answered(b: Bundle, ids: seq<string>, table: Expectations, refs: seq<Ref>, resolved: seq<Resolved>)
    requires WellKeyed(b) && forall k :: 0 <= k < |ids| ==> ids[k] in b.patterns
  {
    |resolved| <= |refs|
    && forall k :: 0 <= k < |resolved| ==>
         resolved[k].techniqueId == refs[k].techniqueId && resolved[k].cited == refs[k].cited
         && RefResolves(b, ids, table, refs[k], resolved[k].final)
  }

  /** A citation the bundle and the table do not let resolve. */
  ghost predicate Unresolved(b: Bundle, ids: seq<string>, table: Expectations, ref: Ref)
    requires WellKeyed(b) && forall k :: 0 <= k < |ids| ==> ids[k] in b.patterns
  {
    forall final :: !RefResolves(b, ids, table, ref, final)
  }

  /** The table entries cited among the first n citations. */
  ghost predicate UsedOf(table: Expectations, refs: seq<Ref>, n: nat, used: set<string>)
    requires n <= |refs|
  {
    forall c :: c in used <==> c in table && exists k :: 0 <= k < n && refs[k].cited == c
  }

  lemma UsedStep(table: Expectations, refs: seq<Ref>, n: nat, used: set<string>)
    requires n < |refs| && UsedOf(table, refs, n, used)
    ensures UsedOf(table, refs, n + 1, if refs[n].cited in table then used + {refs[n].cited} else used)
  {
    var next := if refs[n].cited in table then used + {refs[n].cited} else used;
    forall c ensures c in next <==> c in table && exists k :: 0 <= k < n + 1 && refs[k].cited == c {
      if c in used {
        var k :| 0 <= k < n && refs[k].cited == c;
        assert 0 <= k < n + 1;
      }
    }
  }

  /** The table a call goes by: the one it is given, else the loader's own. */
  function TableOf(expectations: Option<Expectations>): Expectations {
    match expectations case Some(table) => table case None => REVOCATION_EXPECTATIONS
  }

  /**
   * resolve_attack_refs succeeds exactly when every citation resolves and every table entry is cited,
   * and then answers each citation in order with what it resolves to.
   */
  method ResolveAttackRefs(refs: seq<Ref>, objects: seq<AttackObject>,
          expectations: Option<Expectations>) returns (r: Result<seq<Resolved>, AtlasError>)
    ensures var b, ids, table := BundleOf(objects), KeyOrder(objects), TableOf(expectations);
            match r
            case Ok(resolved) => |resolved| == |refs| && Answered(b, ids, table, refs, resolved) && AllCited(table, refs)
            case Err(_) => !AllCited(table, refs) || exists k :: 0 <= k < |refs| && Unresolved(b, ids, table, refs[k])
  {
    hide ResolvesTo, Carriers, PatternsOf, SuccessorsOf, UsedOf, Indexed, AllCited, TableOf;
    var b, ids, table := BundleOf(objects), KeyOrder(objects), TableOf(expectations);
    assert forall k :: 0 <= k < |ids| ==> ids[k] in ids;
    var index := IndexByAttackId(ids, b);
    var resolved: seq<Resolved> := [];
    var used: set<string> := {};
    hide Answered;
    NoneAnswered(b, ids, table, refs);
    NoneUsed(table, refs);
    for i := 0 to |refs|
      invariant |resolved| == i && Answered(b, ids, table, refs, resolved) && UsedOf(table, refs, i, used)
    {
      var ref := refs[i];
      IndexedAt(index, b, ref.cited);
      var final := ResolveOne(b, IndexAt(index, ref.cited), table, ref);
      if final.Err? {
        assert Unresolved(b, ids, table, refs[i]);
        return Err(final.error);
      }
      AnsweredStep(b, ids, table, refs, resolved, final.value);
      UsedStep(table, refs, i, used);
      if ref.cited in table { used := used + {ref.cited}; }
      resolved := resolved + [Resolved(ref.techniqueId, ref.cited, final.value)];
    }
    var stale := table.Keys - used;
    UsedAll(table, refs, used);
    if stale != {} { return Err(Stale(stale)); }
    return Ok(resolved);
  }

  lemma AnsweredStep(b: Bundle, ids: seq<string>, table: Expectations, refs: seq<Ref>, resolved: seq<Resolved>, final: string)
    requires WellKeyed(b) && forall k :: 0 <= k < |ids| ==> ids[k] in b.patterns
    requires Answered(b, ids, table, refs, resolved) && |resolved| < |refs| && RefResolves(b, ids, table, refs[|resolved|], final)
    ensures var ref := refs[|resolved|];
            Answered(b, ids, table, refs, resolved + [Resolved(ref.techniqueId, ref.cited, final)])
  {
    hide RefResolves;
  }

  lemma NoneAnswered(b: Bundle, ids: seq<string>, table: Expectations, refs: seq<Ref>)
    requires WellKeyed(b) && forall k :: 0 <= k < |ids| ==> ids[k] in b.patterns
    ensures Answered(b, ids, table, refs, [])
  {
  }

  lemma NoneUsed(table: Expectations, refs: seq<Ref>)
    ensures UsedOf(table, refs, 0, {})
  {
  }

  lemma IndexedAt(index: map<string, seq<string>>, b: Bundle, cited: string)
    requires Indexed(index, b)
    ensures forall k :: 0 <= k < |IndexAt(index, cited)| ==> IndexAt(index, cited)[k] in b.patterns
  {
  }

  lemma UsedAll(table: Expectations, refs: seq<Ref>, used: set<string>)
    requires UsedOf(table, refs, |refs|, used)
    ensures table.Keys - used == {} <==> AllCited(table, refs)
  {
    if AllCited(table, refs) { assert forall c :: c in table ==> c in used; }
    if table.Keys - used == {} {
      forall c | c in table ensures exists k :: 0 <= k < |refs| && refs[k].cited == c { assert c !in table.Keys - used; }
    }
  }

  /** A resolved citation differs from the cited id only as the table says. */
  lemma DiffersAsExpected(b: Bundle, ids: seq<string>, table: Expectations, ref: Ref, final: string)
    requires WellKeyed(b) && (forall k :: 0 <= k < |ids| ==> ids[k] in b.patterns) && RefResolves(b, ids, table, ref, final)
    ensures final != ref.cited ==> ref.cited in table && table[ref.cited] == final
    ensures ref.cited in table ==> table[ref.cited] == final
    ensures exists start, n: nat, live :: EndsAt(b, start, n, live) && !b.patterns[live].deprecated && ref.cited in b.patterns[start].attackIds
              && b.patterns[live].attackIds != [] && b.patterns[live].attackIds[0] == final
  {
    var carriers := Carriers(ids, b, ref.cited);
    var live :| Leads(b, carriers[0], live) && b.patterns[live].Pattern? && !b.patterns[live].deprecated;
    var n: nat :| EndsAt(b, carriers[0], n, live);
    CarriersCarry(ids, b, ref.cited);
  }

  /** By the loader's own table only T1656 resolves to another technique. */
  lemma OwnTable(b: Bundle, ids: seq<string>, ref: Ref, final: string)
    requires WellKeyed(b) && (forall k :: 0 <= k < |ids| ==> ids[k] in b.patterns) && RefResolves(b, ids, TableOf(None), ref, final)
    ensures final == if ref.cited == "T1656" then "T1684.001" else ref.cited
  {
    hide RefResolves;
    DiffersAsExpected(b, ids, TableOf(None), ref, final);
  }

  lemma {:induction false} CarriersCarry(ids: seq<string>, b: Bundle, cited: string)
    requires WellKeyed(b) && forall k :: 0 <= k < |ids| ==> ids[k] in b.patterns
    ensures forall k :: 0 <= k < |Carriers(ids, b, cited)| ==>
              Carriers(ids, b, cited)[k] in b.patterns && cited in b.patterns[Carriers(ids, b, cited)[k]].attackIds
    decreases |ids|
  {
    if ids != [] {
      CarriersCarry(ids[1..], b, cited);
      TimesCarry(b.patterns[ids[0]].attackIds, cited, ids[0]);
    }
  }

  lemma {:induction false} TimesCarry(attackIds: seq<string>, cited: string, id: string)
    ensures Times(attackIds, cited, id) != [] ==> cited in attackIds
    ensures forall k :: 0 <= k < |Times(attackIds, cited, id)| ==> Times(attackIds, cited, id)[k] == id
    decreases |attackIds|
  {
    if attackIds != [] { TimesCarry(attackIds[1..], cited, id); }
  }
}
