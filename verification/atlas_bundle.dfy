/**
 * The ATLAS bundle loader (modules/mitre-frameworks/scripts/atlas_stix.py, parse_atlas_bundle): which
 * bundles it takes, and why the order of their objects leaves no trace.
 */
module AtlasBundle {
  import opened Prelude
  import opened Decimals
  import opened StringOrder

  // ----- the bundle -----

  datatype Kind = Technique | Tactic | Mitigation | CaseStudy

  datatype Phase = Phase(chain: Option<string>, name: Option<string>)

  /** A STIX object; `atlasIds` and `attackIds` are its external ids from either source, `rest` what is copied as it is. */
  datatype Obj =
    | Concept(stixId: string, kind: Kind, atlasIds: seq<string>, isSub: bool, shortname: string, phases: seq<Phase>, attackIds: seq<string>, rest: string)
    | Relationship(stixId: string, relType: string, source: string, target: string)
    | Matrix(stixId: string, tacticRefs: seq<string>)
    | Structural(stixId: string)
    | Unexpected(stixId: string)

  predicate DistinctStix(objs: seq<Obj>) { forall i, j :: 0 <= i < j < |objs| ==> objs[i].stixId != objs[j].stixId }

  function AtlasId(o: Obj): string
    requires o.Concept?
  {
    if o.atlasIds == [] then "" else o.atlasIds[0]
  }

  /** n digits in a row from position `at` on. */
  predicate DigitsAt(s: string, at: nat, n: nat) { at + n <= |s| && forall k :: at <= k < at + n ==> IsDigit(s[k]) }

  /** Python's `$` also matches before a line break that ends the text. */
  predicate EndsIn(s: string, at: nat) { at == |s| || (at + 1 == |s| && s[at] == '\n') }

  predicate FitsKind(kind: Kind, id: string) {
    match kind
    case Technique => "AML.T" <= id && DigitsAt(id, 5, 4) && (EndsIn(id, 9) || (9 < |id| && id[9] == '.' && DigitsAt(id, 10, 3) && EndsIn(id, 13)))
    case Tactic => "AML.TA" <= id && DigitsAt(id, 6, 4) && EndsIn(id, 10)
    case Mitigation => "AML.M" <= id && DigitsAt(id, 5, 4) && EndsIn(id, 9)
    case CaseStudy => "AML.CS" <= id && DigitsAt(id, 6, 4) && EndsIn(id, 10)
  }

  predicate HasDot(id: string) { exists k :: 5 <= k < |id| && id[k] == '.' }

  predicate IsAttackTechniqueId(id: string) {
    "T" <= id && DigitsAt(id, 1, 4) && (EndsIn(id, 5) || (5 < |id| && id[5] == '.' && DigitsAt(id, 6, 3) && EndsIn(id, 9)))
  }

  // ----- how the ids are spelt -----

  predicate AllDigits(s: string) { forall k :: 0 <= k < |s| ==> IsDigit(s[k]) }

  /** Four digits after the head, for a subtechnique a dot and three more, and perhaps a line break. */
  predicate Spelt(head: string, id: string, number: string, sub: string, stop: string) {
    id == head + number + sub + stop && |number| == 4 && AllDigits(number)
    && (sub == "" || (|sub| == 4 && sub[0] == '.' && AllDigits(sub[1..]))) && (stop == "" || stop == "\n")
  }

  predicate Matches(head: string, id: string, subs: bool) {
    var n := |head|;
    head <= id && DigitsAt(id, n, 4) && (EndsIn(id, n + 4) || (subs && n + 4 < |id| && id[n + 4] == '.' && DigitsAt(id, n + 5, 3) && EndsIn(id, n + 8)))
  }

  lemma SpeltFits(head: string, id: string, number: string, sub: string, stop: string, subs: bool)
    requires Spelt(head, id, number, sub, stop) && (sub == "" || subs)
    ensures Matches(head, id, subs) && ('.' in id[|head|..] <==> sub != "")
  {
    var n := |head|;
    assert id[..n] == head && id[n..] == number + sub + stop;
    assert forall k :: n <= k < n + 4 ==> id[k] == number[k - n];
    if sub != "" {
      assert forall k :: n + 4 <= k < n + 8 ==> id[k] == sub[k - n - 4];
      assert forall k :: n + 5 <= k < n + 8 ==> id[k] == sub[1..][k - n - 5];
      assert id[n..][4] == '.';
    }
    assert stop != "" ==> id[|id| - 1] == '\n';
  }

  lemma FitsSpelt(head: string, id: string, subs: bool) returns (number: string, sub: string, stop: string)
    requires Matches(head, id, subs)
    ensures Spelt(head, id, number, sub, stop) && (sub == "" || subs)
  {
    var n := |head|;
    var m := if EndsIn(id, n + 4) then n + 4 else n + 8;
    number, sub, stop := id[n..n + 4], id[n + 4..m], id[m..];
    assert id == id[..n] + number + sub + stop;
    assert stop == "" || stop == [id[m]];
  }

  function IdHead(kind: Kind): string {
    match kind case Technique => "AML.T" case Tactic => "AML.TA" case Mitigation => "AML.M" case CaseStudy => "AML.CS"
  }

  /**
   * An id fits its kind exactly when it is the kind's head and four digits, for a technique perhaps with a
   * dot and three more, and perhaps a line break: the dot is what tells a subtechnique.
   */
  lemma IdSpelling(kind: Kind, id: string)
    ensures FitsKind(kind, id) <==> exists number, sub, stop :: Spelt(IdHead(kind), id, number, sub, stop) && (sub == "" || kind == Technique)
    ensures forall number, sub, stop :: Spelt(IdHead(kind), id, number, sub, stop) && kind == Technique ==> (HasDot(id) <==> sub != "")
    ensures IsAttackTechniqueId(id) <==> exists number, sub, stop :: Spelt("T", id, number, sub, stop)
  {
    assert |IdHead(Technique)| == 5 && |IdHead(Tactic)| == 6 && |IdHead(Mitigation)| == 5 && |IdHead(CaseStudy)| == 6;
    assert FitsKind(kind, id) <==> Matches(IdHead(kind), id, kind == Technique);
    assert IsAttackTechniqueId(id) <==> Matches("T", id, true);
    hide Matches, FitsKind, IsAttackTechniqueId, Spelt, HasDot;
    if Matches(IdHead(kind), id, kind == Technique) { var number, sub, stop := FitsSpelt(IdHead(kind), id, kind == Technique); }
    if Matches("T", id, true) { var number, sub, stop := FitsSpelt("T", id, true); }
    forall number, sub, stop | Spelt(IdHead(kind), id, number, sub, stop) && (sub == "" || kind == Technique)
      ensures Matches(IdHead(kind), id, kind == Technique)
    {
      SpeltFits(IdHead(kind), id, number, sub, stop, kind == Technique);
    }
    forall number, sub, stop | Spelt("T", id, number, sub, stop) ensures Matches("T", id, true) { SpeltFits("T", id, number, sub, stop, true); }
    forall number, sub, stop | Spelt(IdHead(kind), id, number, sub, stop) && kind == Technique ensures HasDot(id) <==> sub != "" {
      SpeltFits(IdHead(kind), id, number, sub, stop, true);
      DotAfter(id);
    }
  }

  lemma DotAfter(id: string)
    requires |id| >= 5
    ensures HasDot(id) <==> '.' in id[5..]
  {
    if HasDot(id) {
      var k :| 5 <= k < |id| && id[k] == '.';
      assert id[5..][k - 5] == '.';
    }
    if '.' in id[5..] {
      var k :| 0 <= k < |id| - 5 && id[5..][k] == '.';
      assert id[k + 5] == '.';
    }
  }

  datatype Relating = Relating(graphType: string, source: Kind, target: Kind)

  const RELATIONSHIP_TYPES: map<string, Relating> :=
    map["subtechnique-of" := Relating("SUBTECHNIQUE_OF", Technique, Technique),
        "mitigates" := Relating("MITIGATION_DEFENDS_AGAINST_TECHNIQUE", Mitigation, Technique),
        "uses" := Relating("CAMPAIGN_USES_TECHNIQUE", CaseStudy, Technique)]

  const TACTIC_EDGE_TYPE := "TACTIC_INCLUDES_TECHNIQUE"

  const ATLAS_SOURCE := "mitre-atlas"

  datatype BundleError =
    | UnexpectedType | AtlasRefs | BadId | DuplicateId | SubtechniqueFlag | Shortname
    | Matrices | MatrixPlaces | KillChain | PhaseName | RelationshipType | Dangling | WrongLabels | BadCitation

  // ----- the first pass -----

  /** What the first pass keeps. */
  datatype Reading = Reading(
    byStix: map<string, Obj>, byAtlas: map<string, Obj>, byShortname: map<string, Obj>,
    techniques: seq<Obj>, tactics: seq<Obj>, relationships: seq<Obj>, matrices: seq<Obj>)

  const NOTHING_READ := Reading(map[], map[], map[], [], [], [], [])

  /** Why an object is refused after what has been read, if it is. */
  function Refusal(r: Reading, o: Obj): Option<BundleError> {
    match o
    case Unexpected(_) => Some(UnexpectedType)
    case Concept(_, kind, atlasIds, isSub, shortname, _, _, _) =>
      if |atlasIds| != 1 then Some(AtlasRefs)
      else if !FitsKind(kind, atlasIds[0]) then Some(BadId)
      else if atlasIds[0] in r.byAtlas then Some(DuplicateId)
      else if kind == Technique && isSub != HasDot(atlasIds[0]) then Some(SubtechniqueFlag)
      else if kind == Tactic && (shortname == "" || shortname in r.byShortname) then Some(Shortname)
      else None
    case _ => None
  }

  function Add(r: Reading, o: Obj): Reading {
    match o
    case Concept(stixId, kind, _, _, shortname, _, _, _) =>
      var s := r.(byStix := r.byStix[stixId := o], byAtlas := r.byAtlas[AtlasId(o) := o]);
      if kind == Technique then s.(techniques := s.techniques + [o])
      else if kind == Tactic then s.(tactics := s.tactics + [o], byShortname := s.byShortname[shortname := o])
      else s
    case Relationship(_, _, _, _) => r.(relationships := r.relationships + [o])
    case Matrix(_, _) => r.(matrices := r.matrices + [o])
    case _ => r
  }

  function Read(objs: seq<Obj>): Reading {
    if objs == [] then NOTHING_READ else Add(Read(objs[..|objs| - 1]), objs[|objs| - 1])
  }

  predicate Readable(objs: seq<Obj>) {
    objs == [] || (Readable(objs[..|objs| - 1]) && Refusal(Read(objs[..|objs| - 1]), objs[|objs| - 1]) == None)
  }

  lemma {:induction false} ReadablePrefix(objs: seq<Obj>, i: nat)
    requires i <= |objs| && Readable(objs)
    ensures Readable(objs[..i])
    decreases |objs|
  {
    if i == |objs| {
      assert objs[..i] == objs;
    } else {
      assert objs[..|objs| - 1][..i] == objs[..i];
      ReadablePrefix(objs[..|objs| - 1], i);
    }
  }

  method ReadObjects(objs: seq<Obj>) returns (r: Result<Reading, BundleError>)
    ensures r.Ok? <==> Readable(objs)
    ensures r.Ok? ==> r.value == Read(objs)
  {
    hide Refusal, Add;
    var reading := NOTHING_READ;
    var i := 0;
    while i < |objs|
      invariant 0 <= i <= |objs| && Readable(objs[..i]) && reading == Read(objs[..i])
    {
      assert objs[..i + 1][..i] == objs[..i];
      var refusal := Refusal(reading, objs[i]);
      if refusal.Some? {
        if Readable(objs) { ReadablePrefix(objs, i + 1); }
        return Err(refusal.value);
      }
      reading := Add(reading, objs[i]);
      i := i + 1;
    }
    assert objs[..i] == objs;
    return Ok(reading);
  }

  // ----- what the first pass has read -----

  predicate IsKind(o: Obj, kind: Kind) { o.Concept? && o.kind == kind }

  /** The reading holds the bundle's concepts under their STIX ids, and under their ATLAS ids. */
  ghost predicate HoldsStix(objs: seq<Obj>, byStix: map<string, Obj>) {
    (forall o :: o in objs && o.Concept? ==> o.stixId in byStix && byStix[o.stixId] == o)
    && (forall s :: s in byStix ==> byStix[s] in objs && byStix[s].Concept? && byStix[s].stixId == s)
  }

  ghost predicate HoldsAtlas(objs: seq<Obj>, byAtlas: map<string, Obj>) {
    (forall o :: o in objs && o.Concept? ==> AtlasId(o) in byAtlas && byAtlas[AtlasId(o)] == o)
    && (forall s :: s in byAtlas ==> byAtlas[s] in objs && byAtlas[s].Concept? && AtlasId(byAtlas[s]) == s)
  }

  ghost predicate Holds(objs: seq<Obj>, r: Reading) { HoldsStix(objs, r.byStix) && HoldsAtlas(objs, r.byAtlas) }

  ghost predicate HoldsTactics(objs: seq<Obj>, r: Reading) {
    (forall o :: o in objs && IsKind(o, Tactic) ==> o.shortname in r.byShortname && r.byShortname[o.shortname] == o)
    && (forall s :: s in r.byShortname ==> r.byShortname[s] in objs && IsKind(r.byShortname[s], Tactic) && r.byShortname[s].shortname == s)
  }

  ghost predicate HoldsLists(objs: seq<Obj>, r: Reading) {
    (forall o :: o in r.techniques <==> o in objs && IsKind(o, Technique))
    && (forall o :: o in r.tactics <==> o in objs && IsKind(o, Tactic))
    && (forall o :: o in r.relationships <==> o in objs && o.Relationship?)
    && (forall o :: o in r.matrices <==> o in objs && o.Matrix?)
  }

  lemma FrontMembers(objs: seq<Obj>)
    requires objs != []
    ensures forall o :: o in objs <==> o in objs[..|objs| - 1] || o == objs[|objs| - 1]
    ensures DistinctStix(objs) ==> DistinctStix(objs[..|objs| - 1]) && forall o :: o in objs[..|objs| - 1] ==> o.stixId != objs[|objs| - 1].stixId
  {
    assert objs == objs[..|objs| - 1] + [objs[|objs| - 1]];
  }

  lemma {:induction false} ReadHolds(objs: seq<Obj>)
    requires Readable(objs) && DistinctStix(objs)
    ensures Holds(objs, Read(objs)) && HoldsTactics(objs, Read(objs))
    decreases |objs|
  {
    hide FitsKind, HasDot;
    if objs != [] {
      FrontMembers(objs);
      ReadHolds(objs[..|objs| - 1]);
      AddHolds(objs[..|objs| - 1], objs, Read(objs[..|objs| - 1]), objs[|objs| - 1]);
    }
  }

  lemma AddHolds(front: seq<Obj>, objs: seq<Obj>, r: Reading, o: Obj)
    requires Holds(front, r) && HoldsTactics(front, r) && Refusal(r, o) == None
    requires (forall p :: p in objs <==> p in front || p == o) && forall p :: p in front ==> p.stixId != o.stixId
    ensures Holds(objs, Add(r, o)) && HoldsTactics(objs, Add(r, o))
  {
    hide FitsKind, HasDot, HoldsStix, HoldsAtlas, HoldsTactics;
    AddStix(front, objs, r.byStix, o);
    AddAtlas(front, objs, r.byAtlas, o);
    AddTactic(front, objs, r, Add(r, o), o);
  }

  lemma AddStix(front: seq<Obj>, objs: seq<Obj>, byStix: map<string, Obj>, o: Obj)
    requires HoldsStix(front, byStix)
    requires (forall p :: p in objs <==> p in front || p == o) && forall p :: p in front ==> p.stixId != o.stixId
    ensures HoldsStix(objs, if o.Concept? then byStix[o.stixId := o] else byStix)
  {
  }

  lemma AddAtlas(front: seq<Obj>, objs: seq<Obj>, byAtlas: map<string, Obj>, o: Obj)
    requires HoldsAtlas(front, byAtlas) && (o.Concept? ==> AtlasId(o) !in byAtlas)
    requires forall p :: p in objs <==> p in front || p == o
    ensures HoldsAtlas(objs, if o.Concept? then byAtlas[AtlasId(o) := o] else byAtlas)
  {
    hide AtlasId;
  }

  lemma AddTactic(front: seq<Obj>, objs: seq<Obj>, r: Reading, s: Reading, o: Obj)
    requires HoldsTactics(front, r) && (IsKind(o, Tactic) ==> o.shortname !in r.byShortname)
    requires s.byShortname == if IsKind(o, Tactic) then r.byShortname[o.shortname := o] else r.byShortname
    requires forall p :: p in objs <==> p in front || p == o
    ensures HoldsTactics(objs, s)
  {
  }

  lemma {:induction false} ReadLists(objs: seq<Obj>)
    ensures HoldsLists(objs, Read(objs))
    decreases |objs|
  {
    if objs != [] {
      FrontMembers(objs);
      ReadLists(objs[..|objs| - 1]);
    }
  }

  /** The listed tactics' STIX ids differ. */
  lemma {:induction false} TacticsDistinct(objs: seq<Obj>)
    requires DistinctStix(objs)
    ensures Distinct(StixIds(Read(objs).tactics))
    decreases |objs|
  {
    if objs != [] {
      var front, o := objs[..|objs| - 1], objs[|objs| - 1];
      FrontMembers(objs);
      TacticsDistinct(front);
      ReadLists(front);
      var before := Read(front).tactics;
      if IsKind(o, Tactic) {
        assert StixIds(before + [o]) == StixIds(before) + [o.stixId];
        forall k | 0 <= k < |before| ensures before[k].stixId != o.stixId { assert before[k] in before; }
      }
    }
  }

  function StixIds(os: seq<Obj>): seq<string> { seq(|os|, k requires 0 <= k < |os| => os[k].stixId) }

  // ----- which concepts fit together -----

  predicate ConceptFits(o: Obj) {
    o.Concept? ==>
      |o.atlasIds| == 1 && FitsKind(o.kind, o.atlasIds[0])
      && (o.kind == Technique ==> o.isSub == HasDot(o.atlasIds[0])) && (o.kind == Tactic ==> o.shortname != "")
  }

  /** What the first pass asks of the objects, in no order. */
  ghost predicate NodesFit(objs: seq<Obj>) {
    (forall o :: o in objs ==> !o.Unexpected? && ConceptFits(o))
    && (forall o, p :: o in objs && p in objs && o.Concept? && p.Concept? && o != p ==> AtlasId(o) != AtlasId(p))
    && (forall o, p :: o in objs && p in objs && IsKind(o, Tactic) && IsKind(p, Tactic) && o != p ==> o.shortname != p.shortname)
  }

  /** Two objects that may not stand in one bundle. */
  predicate Clash(o: Obj, p: Obj) {
    o.Concept? && p.Concept? && (AtlasId(o) == AtlasId(p) || (o.kind == Tactic && p.kind == Tactic && o.shortname == p.shortname))
  }

  lemma RefusalIff(front: seq<Obj>, r: Reading, o: Obj)
    requires Holds(front, r) && HoldsTactics(front, r)
    ensures Refusal(r, o) == None <==> !o.Unexpected? && ConceptFits(o) && forall p :: p in front ==> !Clash(p, o)
  {
    hide FitsKind, HasDot;
    if o.Concept? && ConceptFits(o) {
      if AtlasId(o) in r.byAtlas { assert Clash(r.byAtlas[AtlasId(o)], o); }
      if o.kind == Tactic && o.shortname in r.byShortname { assert Clash(r.byShortname[o.shortname], o); }
      assert AtlasId(o) == o.atlasIds[0];
    }
  }

  lemma {:induction false} ReadableIff(objs: seq<Obj>)
    requires DistinctStix(objs)
    ensures Readable(objs) <==> NodesFit(objs)
    decreases |objs|
  {
    hide FitsKind, HasDot, ConceptFits, Refusal;
    if objs != [] {
      var front, o := objs[..|objs| - 1], objs[|objs| - 1];
      FrontMembers(objs);
      ReadableIff(front);
      if Readable(front) {
        ReadHolds(front);
        RefusalIff(front, Read(front), o);
        FitsSnoc(front, objs, o);
      }
    }
  }

  lemma FitsSnoc(front: seq<Obj>, objs: seq<Obj>, o: Obj)
    requires NodesFit(front) && o !in front && forall p :: p in objs <==> p in front || p == o
    ensures NodesFit(objs) <==> !o.Unexpected? && ConceptFits(o) && forall p :: p in front ==> !Clash(p, o)
  {
    hide ConceptFits;
    if NodesFit(objs) {
      forall p | p in front ensures !Clash(p, o) { assert p in objs && o in objs; }
    }
  }

  // ----- the matrix -----

  /** One matrix, which places every tactic exactly once and nothing else. */
  ghost predicate MatrixFits(objs: seq<Obj>, m: Obj) {
    m.Matrix? && m in objs && (forall o :: o in objs && o.Matrix? ==> o == m) && Distinct(m.tacticRefs)
    && forall s :: s in m.tacticRefs <==> exists o :: o in objs && IsKind(o, Tactic) && o.stixId == s
  }

  lemma SortedAlike(a: seq<string>, b: seq<string>)
    requires Distinct(a) && Distinct(b)
    ensures Sort(a) == Sort(b) <==> forall x :: x in a <==> x in b
  {
    SortKeepsMembers(a);
    SortKeepsMembers(b);
    if forall x :: x in a <==> x in b {
      DistinctCounts(a);
      DistinctCounts(b);
      forall x ensures multiset(a)[x] == multiset(b)[x] {
        assert x in a <==> x in multiset(a);
        assert x in b <==> x in multiset(b);
      }
      assert multiset(a) == multiset(b);
      SortIgnoresOrder(a, b);
    }
  }

  function Members(s: seq<string>): set<string> { set x | x in s }

  lemma {:induction false} MembersDistinct(s: seq<string>)
    ensures |Members(s)| <= |s| && (|Members(s)| == |s| <==> Distinct(s))
    decreases |s|
  {
    if s == [] {
      assert Members(s) == {};
    } else {
      var front, last := s[..|s| - 1], s[|s| - 1];
      MembersDistinct(front);
      assert Members(s) == Members(front) + {last};
      if last in front {
        var k :| 0 <= k < |front| && front[k] == last;
        assert Members(s) == Members(front) && s[k] == s[|s| - 1];
      } else {
        assert Distinct(front) ==> Distinct(s);
        assert Distinct(s) ==> Distinct(front);
      }
    }
  }

  lemma InStixIds(os: seq<Obj>, s: string)
    ensures s in StixIds(os) <==> exists o :: o in os && o.stixId == s
  {
    if s in StixIds(os) {
      var k :| 0 <= k < |os| && StixIds(os)[k] == s;
      assert os[k] in os;
    }
    if exists o :: o in os && o.stixId == s {
      var o :| o in os && o.stixId == s;
      var k :| 0 <= k < |os| && os[k] == o;
      assert StixIds(os)[k] == s;
    }
  }

  predicate PlacesAll(r: Reading, refs: seq<string>) { Sort(refs) == Sort(StixIds(r.tactics)) && |Members(refs)| == |refs| }

  lemma PlacesAllIff(objs: seq<Obj>, r: Reading, refs: seq<string>)
    requires HoldsLists(objs, r) && Distinct(StixIds(r.tactics))
    ensures PlacesAll(r, refs) <==>
            Distinct(refs) && forall s :: s in refs <==> exists o :: o in objs && IsKind(o, Tactic) && o.stixId == s
  {
    MembersDistinct(refs);
    if Distinct(refs) { SortedAlike(refs, StixIds(r.tactics)); }
    forall s ensures s in StixIds(r.tactics) <==> exists o :: o in objs && IsKind(o, Tactic) && o.stixId == s {
      InStixIds(r.tactics, s);
    }
  }

  /** The matrices read are one exactly when the bundle has one. */
  lemma {:induction false} MatricesRead(objs: seq<Obj>)
    requires DistinctStix(objs)
    ensures forall i, j :: 0 <= i < j < |Read(objs).matrices| ==> Read(objs).matrices[i] != Read(objs).matrices[j]
    decreases |objs|
  {
    if objs != [] {
      var front, o := objs[..|objs| - 1], objs[|objs| - 1];
      FrontMembers(objs);
      MatricesRead(front);
      ReadLists(front);
      var before := Read(front).matrices;
      forall k | 0 <= k < |before| ensures before[k] != o { assert before[k] in before; }
    }
  }

  lemma OneMatrix(objs: seq<Obj>, m: Obj)
    requires DistinctStix(objs) && MatrixFits(objs, m)
    ensures Read(objs).matrices == [m]
  {
    ReadLists(objs);
    MatricesRead(objs);
    var ms := Read(objs).matrices;
    assert m in ms;
    assert forall k :: 0 <= k < |ms| ==> ms[k] in ms && ms[k] == m;
    TwoAlike(ms, m);
  }

  lemma TwoAlike(ms: seq<Obj>, m: Obj)
    ensures |ms| > 1 && (forall k :: 0 <= k < |ms| ==> ms[k] == m) ==> ms[0] == ms[1]
  {
  }

  /** The single matrix, checked; the position of each tactic. */
  method ReadMatrix(objs: seq<Obj>, r: Reading) returns (m: Result<Obj, BundleError>, order: map<string, nat>)
    requires DistinctStix(objs) && Readable(objs) && r == Read(objs)
    ensures m.Ok? ==> MatrixFits(objs, m.value) && OrderOf(m.value.tacticRefs, order)
    ensures m.Err? ==> forall o :: !MatrixFits(objs, o)
  {
    hide MatrixFits, PlacesAll, Sort;
    order := map[];
    ReadLists(objs);
    TacticsDistinct(objs);
    forall o | MatrixFits(objs, o) ensures r.matrices == [o] { OneMatrix(objs, o); }
    if |r.matrices| != 1 { return Err(Matrices), order; }
    var matrix := r.matrices[0];
    assert matrix in r.matrices;
    var refs := matrix.tacticRefs;
    PlacesAllIff(objs, r, refs);
    MatrixFitsIff(objs, r, matrix);
    if !PlacesAll(r, refs) { return Err(MatrixPlaces), order; }
    var i := 0;
    while i < |refs|
      invariant 0 <= i <= |refs| && OrderOf(refs[..i], order)
    {
      OrderStep(refs, i, order);
      order := order[refs[i] := i];
      i := i + 1;
    }
    assert refs[..i] == refs;
    return Ok(matrix), order;
  }

  lemma MatrixFitsIff(objs: seq<Obj>, r: Reading, m: Obj)
    requires HoldsLists(objs, r) && r.matrices == [m]
    ensures MatrixFits(objs, m) <==> Distinct(m.tacticRefs) && forall s :: s in m.tacticRefs <==> exists o :: o in objs && IsKind(o, Tactic) && o.stixId == s
    ensures forall o :: MatrixFits(objs, o) ==> o == m
    ensures m.Matrix?
  {
    assert m in r.matrices;
    assert forall o :: o in r.matrices ==> o == m;
  }

  /** Each reference is given the position it stands at. */
  ghost predicate OrderOf(refs: seq<string>, order: map<string, nat>) {
    (forall s :: s in order <==> s in refs) && (forall s :: s in order ==> order[s] < |refs| && refs[order[s]] == s)
  }

  lemma OrderStep(refs: seq<string>, i: nat, order: map<string, nat>)
    requires i < |refs| && OrderOf(refs[..i], order)
    ensures OrderOf(refs[..i + 1], order[refs[i] := i])
  {
    assert refs[..i + 1] == refs[..i] + [refs[i]];
  }

  // ----- nodes, edges, citations -----

  datatype Node = Node(kind: Kind, stixId: string, isSub: bool, shortname: string, rest: string, matrixOrder: Option<nat>)

  datatype Edge = Edge(graphType: string, sourceKind: Kind, source: string, targetKind: Kind, target: string)

  /** What is returned; sorting the edges and the citations only arranges them. */
  datatype Parsed = Parsed(nodes: map<string, Node>, edges: set<Edge>, cites: map<string, seq<string>>)

  function NodeOf(o: Obj, order: map<string, nat>): Node
    requires o.Concept?
  {
    Node(o.kind, o.stixId, o.kind == Technique && o.isSub, if o.kind == Tactic then o.shortname else "", o.rest,
         if o.kind == Tactic && o.stixId in order then Some(order[o.stixId]) else None)
  }

  /** The tactic a phase names. */
  ghost predicate PhaseNames(objs: seq<Obj>, phase: Phase, t: Obj) { t in objs && IsKind(t, Tactic) && phase.name == Some(t.shortname) }

  ghost predicate PhaseFits(objs: seq<Obj>, phase: Phase) {
    phase.chain == Some(ATLAS_SOURCE) && exists t :: PhaseNames(objs, phase, t)
  }

  ghost predicate PhasesFit(objs: seq<Obj>) {
    forall o, phase :: o in objs && IsKind(o, Technique) && phase in o.phases ==> PhaseFits(objs, phase)
  }

  /** The two ends of a relationship. */
  ghost predicate Joins(objs: seq<Obj>, rel: Obj, s: Obj, t: Obj) {
    rel.Relationship? && s in objs && t in objs && s.Concept? && t.Concept? && s.stixId == rel.source && t.stixId == rel.target
    && rel.relType in RELATIONSHIP_TYPES && s.kind == RELATIONSHIP_TYPES[rel.relType].source && t.kind == RELATIONSHIP_TYPES[rel.relType].target
  }

  ghost predicate RelationshipFits(objs: seq<Obj>, rel: Obj) { exists s, t :: Joins(objs, rel, s, t) }

  ghost predicate RelationshipsFit(objs: seq<Obj>) { forall rel :: rel in objs && rel.Relationship? ==> RelationshipFits(objs, rel) }

  ghost predicate CitesFit(objs: seq<Obj>) {
    forall o, c :: o in objs && IsKind(o, Technique) && c in o.attackIds ==> IsAttackTechniqueId(c)
  }

  /** The bundles the loader takes. */
  ghost predicate Fits(objs: seq<Obj>) {
    NodesFit(objs) && (exists m :: MatrixFits(objs, m)) && PhasesFit(objs) && RelationshipsFit(objs) && CitesFit(objs)
  }

  function TacticEdge(t: Obj, o: Obj): Edge
    requires t.Concept? && o.Concept?
  {
    Edge(TACTIC_EDGE_TYPE, Tactic, AtlasId(t), Technique, AtlasId(o))
  }

  function RelationshipEdge(rel: Obj, s: Obj, t: Obj): Edge
    requires rel.Relationship? && rel.relType in RELATIONSHIP_TYPES && s.Concept? && t.Concept?
  {
    Edge(RELATIONSHIP_TYPES[rel.relType].graphType, s.kind, AtlasId(s), t.kind, AtlasId(t))
  }

  ghost predicate FromPhase(objs: seq<Obj>, o: Obj, phase: Phase, t: Obj, e: Edge) {
    o in objs && IsKind(o, Technique) && phase in o.phases && PhaseNames(objs, phase, t) && e == TacticEdge(t, o)
  }

  ghost predicate FromRelationship(objs: seq<Obj>, rel: Obj, s: Obj, t: Obj, e: Edge) {
    rel in objs && Joins(objs, rel, s, t) && e == RelationshipEdge(rel, s, t)
  }

  /** A concept's node carries what the concept says, and a tactic's its place in the matrix. */
  predicate NodeRight(o: Obj, refs: seq<string>, n: Node) {
    o.Concept? && n.kind == o.kind && n.stixId == o.stixId && n.rest == o.rest
    && (n.isSub <==> o.kind == Technique && o.isSub) && n.shortname == (if o.kind == Tactic then o.shortname else "")
    && if o.kind == Tactic then n.matrixOrder.Some? && n.matrixOrder.value < |refs| && refs[n.matrixOrder.value] == o.stixId
       else n.matrixOrder.None?
  }

  ghost predicate NodesRight(objs: seq<Obj>, m: Obj, nodes: map<string, Node>) {
    m.Matrix?
    && (forall o :: o in objs && o.Concept? ==> AtlasId(o) in nodes && NodeRight(o, m.tacticRefs, nodes[AtlasId(o)]))
    && (forall id :: id in nodes ==> exists o :: o in objs && o.Concept? && AtlasId(o) == id)
  }

  ghost predicate EdgesRight(objs: seq<Obj>, edges: set<Edge>) {
    forall e :: e in edges <==> (exists o, phase, t :: FromPhase(objs, o, phase, t, e)) || (exists rel, s, t :: FromRelationship(objs, rel, s, t, e))
  }

  ghost predicate CitesRight(objs: seq<Obj>, cites: map<string, seq<string>>) {
    (forall o :: o in objs && IsKind(o, Technique) ==> AtlasId(o) in cites && cites[AtlasId(o)] == o.attackIds)
    && (forall id :: id in cites ==> exists o :: o in objs && IsKind(o, Technique) && AtlasId(o) == id)
  }

  /** What the loader must return for a bundle. */
  ghost predicate Represents(objs: seq<Obj>, p: Parsed) {
    (exists m :: MatrixFits(objs, m) && NodesRight(objs, m, p.nodes)) && EdgesRight(objs, p.edges) && CitesRight(objs, p.cites)
  }

  // ----- the loops over techniques and relationships -----

  lemma PhaseLookup(objs: seq<Obj>, r: Reading, phase: Phase)
    requires HoldsTactics(objs, r)
    ensures forall t :: PhaseNames(objs, phase, t) <==> phase.name.Some? && phase.name.value in r.byShortname && t == r.byShortname[phase.name.value]
  {
  }

  ghost predicate EdgesOf(objs: seq<Obj>, o: Obj, phases: seq<Phase>, edges: set<Edge>)
    requires o.Concept?
  {
    forall e :: e in edges <==> exists phase, t :: phase in phases && PhaseNames(objs, phase, t) && e == TacticEdge(t, o)
  }

  method AddPhases(ghost objs: seq<Obj>, r: Reading, o: Obj) returns (q: Result<set<Edge>, BundleError>)
    requires HoldsTactics(objs, r) && o in objs && IsKind(o, Technique)
    ensures q.Ok? <==> forall phase :: phase in o.phases ==> PhaseFits(objs, phase)
    ensures q.Ok? ==> EdgesOf(objs, o, o.phases, q.value)
  {
    hide AtlasId, HoldsTactics;
    var edges: set<Edge> := {};
    var i := 0;
    while i < |o.phases|
      invariant 0 <= i <= |o.phases| && EdgesOf(objs, o, o.phases[..i], edges)
      invariant forall phase :: phase in o.phases[..i] ==> PhaseFits(objs, phase)
    {
      var phase := o.phases[i];
      PhaseLookup(objs, r, phase);
      assert phase in o.phases && o.phases[..i + 1] == o.phases[..i] + [phase];
      if phase.chain != Some(ATLAS_SOURCE) { return Err(KillChain); }
      if phase.name.None? || phase.name.value !in r.byShortname { return Err(PhaseName); }
      var t := r.byShortname[phase.name.value];
      assert PhaseNames(objs, phase, t);
      EdgesSnoc(objs, o, o.phases[..i], phase, t, edges);
      edges := edges + {TacticEdge(t, o)};
      i := i + 1;
    }
    assert o.phases[..i] == o.phases;
    return Ok(edges);
  }

  lemma EdgesSnoc(objs: seq<Obj>, o: Obj, phases: seq<Phase>, phase: Phase, t: Obj, edges: set<Edge>)
    requires o.Concept? && EdgesOf(objs, o, phases, edges) && PhaseNames(objs, phase, t) && forall u :: PhaseNames(objs, phase, u) ==> u == t
    ensures EdgesOf(objs, o, phases + [phase], edges + {TacticEdge(t, o)})
  {
    hide AtlasId;
    var all := phases + [phase];
    forall e ensures e in edges + {TacticEdge(t, o)} <==> exists p, u :: p in all && PhaseNames(objs, p, u) && e == TacticEdge(u, o) {
      if e in edges {
        var p, u :| p in phases && PhaseNames(objs, p, u) && e == TacticEdge(u, o);
        assert p in all;
      }
      if e == TacticEdge(t, o) { assert phase in all && PhaseNames(objs, phase, t); }
    }
  }

  ghost predicate PhaseEdges(objs: seq<Obj>, ts: seq<Obj>, edges: set<Edge>) {
    forall e :: e in edges <==> exists o, phase, t :: o in ts && FromPhase(objs, o, phase, t, e)
  }

  lemma PhaseEdgesSnoc(objs: seq<Obj>, ts: seq<Obj>, o: Obj, edges: set<Edge>, more: set<Edge>)
    requires PhaseEdges(objs, ts, edges) && o in objs && IsKind(o, Technique) && EdgesOf(objs, o, o.phases, more)
    ensures PhaseEdges(objs, ts + [o], edges + more)
  {
    hide AtlasId;
    var all := ts + [o];
    forall e ensures e in edges + more <==> exists p, phase, t :: p in all && FromPhase(objs, p, phase, t, e) {
      if e in edges {
        var p, phase, t :| p in ts && FromPhase(objs, p, phase, t, e);
        assert p in all;
      }
      if e in more {
        var phase, t :| phase in o.phases && PhaseNames(objs, phase, t) && e == TacticEdge(t, o);
        assert o in all && FromPhase(objs, o, phase, t, e);
      }
    }
  }

  method AddTechniques(ghost objs: seq<Obj>, r: Reading) returns (q: Result<set<Edge>, BundleError>)
    requires HoldsTactics(objs, r) && HoldsLists(objs, r)
    ensures q.Ok? <==> PhasesFit(objs)
    ensures q.Ok? ==> PhaseEdges(objs, r.techniques, q.value)
  {
    hide HoldsTactics, PhaseFits, PhaseEdges, FromPhase, EdgesOf;
    var edges: set<Edge> := {};
    var i := 0;
    assert PhaseEdges(objs, r.techniques[..0], edges) by { NoTechniques(objs, r.techniques); }
    while i < |r.techniques|
      invariant 0 <= i <= |r.techniques| && PhaseEdges(objs, r.techniques[..i], edges)
      invariant forall o, phase :: o in r.techniques[..i] && o.Concept? && phase in o.phases ==> PhaseFits(objs, phase)
    {
      var o := r.techniques[i];
      assert o in r.techniques && r.techniques[..i + 1] == r.techniques[..i] + [o];
      var more := AddPhases(objs, r, o);
      if more.Err? { return Err(more.error); }
      PhaseEdgesSnoc(objs, r.techniques[..i], o, edges, more.value);
      edges := edges + more.value;
      i := i + 1;
    }
    assert r.techniques[..i] == r.techniques;
    return Ok(edges);
  }

  lemma NoTechniques(objs: seq<Obj>, ts: seq<Obj>)
    ensures PhaseEdges(objs, ts[..0], {})
  {
  }

  ghost predicate RelationshipEdges(objs: seq<Obj>, rels: seq<Obj>, edges: set<Edge>) {
    forall e :: e in edges <==> exists rel, s, t :: rel in rels && Joins(objs, rel, s, t) && e == RelationshipEdge(rel, s, t)
  }

  lemma JoinLookup(objs: seq<Obj>, r: Reading, rel: Obj)
    requires Holds(objs, r) && rel.Relationship?
    ensures forall s, t :: Joins(objs, rel, s, t) ==>
              rel.source in r.byStix && s == r.byStix[rel.source] && rel.target in r.byStix && t == r.byStix[rel.target]
  {
  }

  lemma RelationshipSnoc(objs: seq<Obj>, rels: seq<Obj>, rel: Obj, s: Obj, t: Obj, edges: set<Edge>)
    requires RelationshipEdges(objs, rels, edges) && Joins(objs, rel, s, t) && forall u, v :: Joins(objs, rel, u, v) ==> u == s && v == t
    ensures RelationshipEdges(objs, rels + [rel], edges + {RelationshipEdge(rel, s, t)})
  {
    hide AtlasId;
    var all := rels + [rel];
    forall e
      ensures e in edges + {RelationshipEdge(rel, s, t)} <==> exists q, u, v :: q in all && Joins(objs, q, u, v) && e == RelationshipEdge(q, u, v)
    {
      if e in edges {
        var q, u, v :| q in rels && Joins(objs, q, u, v) && e == RelationshipEdge(q, u, v);
        assert q in all;
      }
      if e == RelationshipEdge(rel, s, t) { assert rel in all && Joins(objs, rel, s, t); }
    }
  }

  method AddRelationships(ghost objs: seq<Obj>, r: Reading) returns (q: Result<set<Edge>, BundleError>)
    requires Holds(objs, r) && HoldsLists(objs, r)
    ensures q.Ok? <==> RelationshipsFit(objs)
    ensures q.Ok? ==> RelationshipEdges(objs, r.relationships, q.value)
  {
    hide AtlasId, RelationshipEdges;
    var edges: set<Edge> := {};
    var rels := r.relationships;
    var i := 0;
    NoRelationships(objs, rels);
    while i < |rels|
      invariant 0 <= i <= |rels| && RelationshipEdges(objs, rels[..i], edges)
      invariant forall rel :: rel in rels[..i] ==> RelationshipFits(objs, rel)
    {
      var rel := rels[i];
      assert rel in rels && rels[..i + 1] == rels[..i] + [rel];
      JoinLookup(objs, r, rel);
      if rel.relType !in RELATIONSHIP_TYPES { return Err(RelationshipType); }
      if rel.source !in r.byStix || rel.target !in r.byStix { return Err(Dangling); }
      var s, t, want := r.byStix[rel.source], r.byStix[rel.target], RELATIONSHIP_TYPES[rel.relType];
      if s.kind != want.source || t.kind != want.target { return Err(WrongLabels); }
      assert Joins(objs, rel, s, t);
      RelationshipSnoc(objs, rels[..i], rel, s, t, edges);
      edges := edges + {RelationshipEdge(rel, s, t)};
      i := i + 1;
    }
    assert rels[..i] == rels;
    return Ok(edges);
  }

  lemma NoRelationships(objs: seq<Obj>, rels: seq<Obj>)
    ensures RelationshipEdges(objs, rels[..0], {})
  {
  }

  ghost predicate CitesOf(ts: seq<Obj>, cites: map<string, seq<string>>) {
    (forall o :: o in ts ==> o.Concept? && AtlasId(o) in cites && cites[AtlasId(o)] == o.attackIds)
    && (forall id :: id in cites ==> exists o :: o in ts && o.Concept? && AtlasId(o) == id)
  }

  method AddCites(ghost objs: seq<Obj>, r: Reading) returns (q: Result<map<string, seq<string>>, BundleError>)
    requires NodesFit(objs) && HoldsLists(objs, r)
    ensures q.Ok? <==> CitesFit(objs)
    ensures q.Ok? ==> CitesRight(objs, q.value)
  {
    hide AtlasId, IsAttackTechniqueId, ConceptFits;
    var cites := map[];
    var ts := r.techniques;
    var i := 0;
    while i < |ts|
      invariant 0 <= i <= |ts| && CitesOf(ts[..i], cites)
      invariant forall o, c :: o in ts[..i] && o.Concept? && c in o.attackIds ==> IsAttackTechniqueId(c)
    {
      var o := ts[i];
      assert o in ts && ts[..i + 1] == ts[..i] + [o];
      var bad := FirstBad(o.attackIds);
      if bad.Some? {
        assert bad.value in o.attackIds;
        return Err(BadCitation);
      }
      CitesSnoc(objs, ts[..i], o, cites);
      cites := cites[AtlasId(o) := o.attackIds];
      i := i + 1;
    }
    assert ts[..i] == ts;
    return Ok(cites);
  }

  lemma CitesSnoc(objs: seq<Obj>, ts: seq<Obj>, o: Obj, cites: map<string, seq<string>>)
    requires CitesOf(ts, cites) && NodesFit(objs) && o in objs && o.Concept? && forall p :: p in ts ==> p in objs
    ensures CitesOf(ts + [o], cites[AtlasId(o) := o.attackIds])
  {
    hide AtlasId, ConceptFits;
    var all, next := ts + [o], cites[AtlasId(o) := o.attackIds];
    forall p | p in all ensures p.Concept? && AtlasId(p) in next && next[AtlasId(p)] == p.attackIds {}
    forall id | id in next ensures exists p :: p in all && p.Concept? && AtlasId(p) == id {
      if id == AtlasId(o) {
        assert o in all;
      } else {
        var p :| p in ts && p.Concept? && AtlasId(p) == id;
        assert p in all;
      }
    }
  }

  method FirstBad(ids: seq<string>) returns (bad: Option<string>)
    ensures bad.Some? ==> bad.value in ids && !IsAttackTechniqueId(bad.value)
    ensures bad.None? ==> forall c :: c in ids ==> IsAttackTechniqueId(c)
  {
    hide IsAttackTechniqueId;
    for k := 0 to |ids|
      invariant forall c :: c in ids[..k] ==> IsAttackTechniqueId(c)
    {
      if !IsAttackTechniqueId(ids[k]) { return Some(ids[k]); }
      assert ids[..k + 1] == ids[..k] + [ids[k]];
    }
    assert ids[..|ids|] == ids;
    return None;
  }

  lemma EdgesTogether(objs: seq<Obj>, r: Reading, a: set<Edge>, b: set<Edge>)
    requires HoldsLists(objs, r) && PhaseEdges(objs, r.techniques, a) && RelationshipEdges(objs, r.relationships, b)
    ensures EdgesRight(objs, a + b)
  {
    hide AtlasId;
    forall e ensures e in a + b <==> (exists o, phase, t :: FromPhase(objs, o, phase, t, e)) || (exists rel, s, t :: FromRelationship(objs, rel, s, t, e)) {
      if e in a {
        var o, phase, t :| o in r.techniques && FromPhase(objs, o, phase, t, e);
        assert FromPhase(objs, o, phase, t, e);
      }
      if exists o, phase, t :: FromPhase(objs, o, phase, t, e) {
        var o, phase, t :| FromPhase(objs, o, phase, t, e);
        assert o in r.techniques;
      }
      if e in b {
        var rel, s, t :| rel in r.relationships && Joins(objs, rel, s, t) && e == RelationshipEdge(rel, s, t);
        assert FromRelationship(objs, rel, s, t, e);
      }
      if exists rel, s, t :: FromRelationship(objs, rel, s, t, e) {
        var rel, s, t :| FromRelationship(objs, rel, s, t, e);
        assert rel in r.relationships;
      }
    }
  }

  lemma NodeMade(o: Obj, refs: seq<string>, order: map<string, nat>)
    requires o.Concept? && OrderOf(refs, order) && (o.kind == Tactic ==> o.stixId in refs)
    ensures NodeRight(o, refs, NodeOf(o, order))
  {
  }

  lemma NodesMade(objs: seq<Obj>, r: Reading, m: Obj, order: map<string, nat>)
    requires HoldsAtlas(objs, r.byAtlas) && MatrixFits(objs, m) && OrderOf(m.tacticRefs, order)
    ensures NodesRight(objs, m, map id | id in r.byAtlas :: NodeOf(r.byAtlas[id], order))
  {
    hide AtlasId, NodeRight, NodeOf, OrderOf;
    forall o | o in objs && o.Concept? ensures NodeRight(o, m.tacticRefs, NodeOf(o, order)) { NodeMade(o, m.tacticRefs, order); }
  }

  /** parse_atlas_bundle takes exactly the bundles that fit, and returns what represents them. */
  method ParseAtlasBundle(objs: seq<Obj>) returns (q: Result<Parsed, BundleError>)
    requires DistinctStix(objs)
    ensures q.Ok? <==> Fits(objs)
    ensures q.Ok? ==> Represents(objs, q.value)
  {
    hide AtlasId, NodesFit, MatrixFits, PhasesFit, RelationshipsFit, CitesFit, NodesRight, EdgesRight, CitesRight, NodeOf;
    ReadableIff(objs);
    var read := ReadObjects(objs);
    if read.Err? { return Err(read.error); }
    var r := read.value;
    ReadHolds(objs);
    ReadLists(objs);
    var m, order := ReadMatrix(objs, r);
    if m.Err? { return Err(m.error); }
    var phases := AddTechniques(objs, r);
    if phases.Err? { return Err(phases.error); }
    var rels := AddRelationships(objs, r);
    if rels.Err? { return Err(rels.error); }
    var cites := AddCites(objs, r);
    if cites.Err? { return Err(cites.error); }
    NodesMade(objs, r, m.value, order);
    EdgesTogether(objs, r, phases.value, rels.value);
    return Ok(Parsed(map id | id in r.byAtlas :: NodeOf(r.byAtlas[id], order), phases.value + rels.value, cites.value));
  }

  // ----- what the loader promises -----

  /** The same objects, in whatever order and however often. */
  ghost predicate SameObjects(a: seq<Obj>, b: seq<Obj>) { forall o :: o in a <==> o in b }

  /** Whether a bundle fits does not depend on the order of its objects. */
  lemma FitsAnyOrder(a: seq<Obj>, b: seq<Obj>)
    requires SameObjects(a, b) && Fits(a)
    ensures Fits(b)
  {
    hide AtlasId, ConceptFits, IsAttackTechniqueId;
    var m :| MatrixFits(a, m);
    MatrixAnyOrder(a, b, m);
    forall phase, t ensures PhaseNames(a, phase, t) <==> PhaseNames(b, phase, t) {}
    forall rel | rel in b && rel.Relationship? ensures RelationshipFits(b, rel) {
      assert RelationshipFits(a, rel);
      var s, t :| Joins(a, rel, s, t);
      assert Joins(b, rel, s, t);
    }
    forall o, phase | o in b && IsKind(o, Technique) && phase in o.phases ensures PhaseFits(b, phase) {
      assert PhaseFits(a, phase);
      var t :| PhaseNames(a, phase, t);
      assert PhaseNames(b, phase, t);
    }
  }

  lemma MatrixAnyOrder(a: seq<Obj>, b: seq<Obj>, m: Obj)
    requires SameObjects(a, b) && MatrixFits(a, m)
    ensures MatrixFits(b, m)
  {
  }

  /** The order of the objects leaves no trace in what is returned. */
  lemma OrderLeavesNoTrace(a: seq<Obj>, b: seq<Obj>, p: Parsed, q: Parsed)
    requires SameObjects(a, b) && NodesFit(a) && Represents(a, p) && Represents(b, q)
    ensures p == q
  {
    hide AtlasId, ConceptFits, NodeOf, MatrixFits, NodesFit, EdgesRight, CitesRight, NodesRight;
    var m :| MatrixFits(a, m) && NodesRight(a, m, p.nodes);
    var n :| MatrixFits(b, n) && NodesRight(b, n, q.nodes);
    SameMatrix(a, b, m, n);
    SameNodes(a, b, m, p.nodes, q.nodes);
    SameEdges(a, b, p.edges, q.edges);
    SameCites(a, b, p.cites, q.cites);
  }

  lemma SameMatrix(a: seq<Obj>, b: seq<Obj>, m: Obj, n: Obj)
    requires SameObjects(a, b) && MatrixFits(a, m) && MatrixFits(b, n)
    ensures m == n
  {
  }

  lemma SameNodes(a: seq<Obj>, b: seq<Obj>, m: Obj, p: map<string, Node>, q: map<string, Node>)
    requires SameObjects(a, b) && MatrixFits(a, m) && NodesRight(a, m, p) && NodesRight(b, m, q)
    ensures p == q
  {
    hide AtlasId, NodeOf;
    forall id | id in p ensures id in q && p[id] == q[id] {
      var o :| o in a && o.Concept? && AtlasId(o) == id;
      assert o in b;
      if o.kind == Tactic { SamePlace(m.tacticRefs, p[id].matrixOrder.value, q[id].matrixOrder.value); }
      assert p[id] == p[id].(matrixOrder := None).(matrixOrder := p[id].matrixOrder);
      assert q[id] == q[id].(matrixOrder := None).(matrixOrder := q[id].matrixOrder);
    }
    forall id | id in q ensures id in p {
      var o :| o in b && o.Concept? && AtlasId(o) == id;
      assert o in a;
    }
    assert p.Keys == q.Keys;
  }

  lemma SamePlace(refs: seq<string>, i: nat, j: nat)
    requires Distinct(refs) && i < |refs| && j < |refs| && refs[i] == refs[j]
    ensures i == j
  {
  }

  lemma SameEdges(a: seq<Obj>, b: seq<Obj>, p: set<Edge>, q: set<Edge>)
    requires SameObjects(a, b) && EdgesRight(a, p) && EdgesRight(b, q)
    ensures p == q
  {
    hide AtlasId, TacticEdge, RelationshipEdge;
    EdgesMove(a, b, p, q);
    EdgesMove(b, a, q, p);
  }

  lemma EdgesMove(a: seq<Obj>, b: seq<Obj>, p: set<Edge>, q: set<Edge>)
    requires SameObjects(a, b) && EdgesRight(a, p) && EdgesRight(b, q)
    ensures p <= q
  {
    hide AtlasId, TacticEdge, RelationshipEdge;
    forall e | e in p ensures e in q {
      if exists o, phase, t :: FromPhase(a, o, phase, t, e) {
        var o, phase, t :| FromPhase(a, o, phase, t, e);
        assert FromPhase(b, o, phase, t, e);
      } else {
        var rel, s, t :| FromRelationship(a, rel, s, t, e);
        assert FromRelationship(b, rel, s, t, e);
      }
    }
  }

  lemma SameCites(a: seq<Obj>, b: seq<Obj>, p: map<string, seq<string>>, q: map<string, seq<string>>)
    requires SameObjects(a, b) && CitesRight(a, p) && CitesRight(b, q)
    ensures p == q
  {
    hide AtlasId;
    forall id | id in p ensures id in q && p[id] == q[id] {
      var o :| o in a && IsKind(o, Technique) && AtlasId(o) == id;
      assert o in b;
    }
    forall id | id in q ensures id in p {
      var o :| o in b && IsKind(o, Technique) && AtlasId(o) == id;
      assert o in a;
    }
    assert p.Keys == q.Keys;
  }

  /** Every edge joins two loaded nodes, of the labels its type asks for. */
  lemma EdgesJoinNodes(objs: seq<Obj>, p: Parsed, e: Edge)
    requires Represents(objs, p) && e in p.edges
    ensures e.source in p.nodes && p.nodes[e.source].kind == e.sourceKind && e.target in p.nodes && p.nodes[e.target].kind == e.targetKind
    ensures (e.graphType == TACTIC_EDGE_TYPE && e.sourceKind == Tactic && e.targetKind == Technique)
            || exists k :: k in RELATIONSHIP_TYPES && RELATIONSHIP_TYPES[k] == Relating(e.graphType, e.sourceKind, e.targetKind)
  {
    hide AtlasId, MatrixFits;
    var m :| MatrixFits(objs, m) && NodesRight(objs, m, p.nodes);
    if exists o, phase, t :: FromPhase(objs, o, phase, t, e) {
      var o, phase, t :| FromPhase(objs, o, phase, t, e);
      NodeKind(objs, m, p.nodes, o);
      NodeKind(objs, m, p.nodes, t);
    } else {
      var rel, s, t :| FromRelationship(objs, rel, s, t, e);
      NodeKind(objs, m, p.nodes, s);
      NodeKind(objs, m, p.nodes, t);
      assert RELATIONSHIP_TYPES[rel.relType] == Relating(e.graphType, e.sourceKind, e.targetKind);
    }
  }

  lemma NodeKind(objs: seq<Obj>, m: Obj, nodes: map<string, Node>, o: Obj)
    requires NodesRight(objs, m, nodes) && o in objs && o.Concept?
    ensures AtlasId(o) in nodes && nodes[AtlasId(o)].kind == o.kind && nodes[AtlasId(o)].stixId == o.stixId
  {
    hide AtlasId;
    assert nodes[AtlasId(o)].(matrixOrder := None) == NodeOf(o, map[]);
  }

  /** A loaded tactic at a position of the matrix. */
  ghost predicate PlacedAt(p: Parsed, id: string, i: nat) { id in p.nodes && p.nodes[id].kind == Tactic && p.nodes[id].matrixOrder == Some(i) }

  ghost predicate Numbered(p: Parsed, i: nat) { exists id :: PlacedAt(p, id, i) }

  /** The positions number the tactics from 0 on, without gaps or repeats. */
  lemma MatrixNumbers(objs: seq<Obj>, p: Parsed) returns (n: nat)
    requires DistinctStix(objs) && NodesFit(objs) && Represents(objs, p)
    ensures forall i: nat :: i < n ==> Numbered(p, i)
    ensures forall id, other, i: nat :: PlacedAt(p, id, i) && PlacedAt(p, other, i) ==> id == other
    ensures forall id :: id in p.nodes && p.nodes[id].kind == Tactic ==> p.nodes[id].matrixOrder.Some? && p.nodes[id].matrixOrder.value < n
  {
    hide AtlasId, ConceptFits, NodeOf;
    var m :| MatrixFits(objs, m) && NodesRight(objs, m, p.nodes);
    n := |m.tacticRefs|;
    forall id | id in p.nodes && p.nodes[id].kind == Tactic
      ensures exists o :: o in objs && IsKind(o, Tactic) && AtlasId(o) == id
      ensures p.nodes[id].matrixOrder.Some? && p.nodes[id].matrixOrder.value < n
    {
      var o :| o in objs && o.Concept? && AtlasId(o) == id;
      NodeKind(objs, m, p.nodes, o);
    }
    forall i: nat | i < n ensures Numbered(p, i) {
      assert m.tacticRefs[i] in m.tacticRefs;
      var o :| o in objs && IsKind(o, Tactic) && o.stixId == m.tacticRefs[i];
      NodeKind(objs, m, p.nodes, o);
      SamePlace(m.tacticRefs, i, p.nodes[AtlasId(o)].matrixOrder.value);
      assert PlacedAt(p, AtlasId(o), i);
    }
    forall id, other, i: nat | PlacedAt(p, id, i) && PlacedAt(p, other, i) ensures id == other {
      SameTactic(objs, m, p, id, other, i);
    }
  }

  lemma SameTactic(objs: seq<Obj>, m: Obj, p: Parsed, id: string, other: string, i: nat)
    requires NodesFit(objs) && MatrixFits(objs, m) && NodesRight(objs, m, p.nodes) && PlacedAt(p, id, i) && PlacedAt(p, other, i)
    requires DistinctStix(objs)
    ensures id == other
  {
    hide AtlasId, NodeOf, ConceptFits;
    var o :| o in objs && o.Concept? && AtlasId(o) == id;
    var q :| q in objs && q.Concept? && AtlasId(q) == other;
    NodeKind(objs, m, p.nodes, o);
    NodeKind(objs, m, p.nodes, q);
    assert o.stixId == m.tacticRefs[i] && q.stixId == m.tacticRefs[i];
    SameStix(objs, o, q);
  }

  lemma SameStix(objs: seq<Obj>, o: Obj, q: Obj)
    requires DistinctStix(objs) && o in objs && q in objs && o.stixId == q.stixId
    ensures o == q
  {
    var i :| 0 <= i < |objs| && objs[i] == o;
    var j :| 0 <= j < |objs| && objs[j] == q;
    assert i == j;
  }
}
