/**
 * Which nodes and edges the exporter writes, into which file and in what order
 * (export_to_cypher.py): identities, routing, sorting, and when the order records arrive in leaves no
 * trace in a file.
 */
module ExportOrder {
  import opened Prelude
  import opened StableSort
  import opened CypherSplitter
  import opened CypherValues
  import opened CypherExport
  import opened ExportReadback

  // ----- the same file means the same parts -----

  predicate GoodGap(gap: string) { gap == "" || gap == "\n" }

  ghost predicate GoodParts(parts: seq<(string, string)>) {
    forall k :: 0 <= k < |parts| ==> Statement(parts[k].0) && GoodGap(parts[k].1)
  }

  lemma SameGap(t: string, a: string, b: string, x: string, y: string)
    requires GoodGap(a) && GoodGap(b) && t + a + ";\n\n" + x == t + b + ";\n\n" + y
    ensures a == b && x == y
  {
    var s, n := t + a + ";\n\n" + x, |t|;
    assert s[n] == if a == "" then ';' else '\n';
    assert s[n] == if b == "" then ';' else '\n';
    assert a == b;
    assert x == s[n + |a| + 3..] && y == (t + b + ";\n\n" + y)[n + |b| + 3..];
  }

  lemma {:induction false} SameParts(a: seq<(string, string)>, b: seq<(string, string)>)
    requires GoodParts(a) && GoodParts(b) && Firsts(a) == Firsts(b) && Script(a) == Script(b)
    ensures a == b
    decreases |a|
  {
    hide Statement;
    if a != [] && b != [] {
      assert Firsts(a)[0] == a[0].0 && Firsts(b)[0] == b[0].0;
      assert Firsts(a)[1..] == Firsts(a[1..]) && Firsts(b)[1..] == Firsts(b[1..]);
      SameGap(a[0].0, a[0].1, b[0].1, Script(a[1..]), Script(b[1..]));
      SameParts(a[1..], b[1..]);
      assert a == [a[0]] + a[1..] && b == [b[0]] + b[1..];
    }
  }

  lemma ScriptInjective(a: seq<(string, string)>, b: seq<(string, string)>)
    requires GoodParts(a) && GoodParts(b)
    ensures Script(a) == Script(b) <==> a == b
  {
    hide Statement, Script, Firsts, Split;
    if Script(a) == Script(b) {
      assert forall k :: 0 <= k < |a| ==> AllSpace(a[k].1);
      assert forall k :: 0 <= k < |b| ==> AllSpace(b[k].1);
      ScriptSplits(true, a, "");
      ScriptSplits(true, b, "");
      SameParts(a, b);
    }
  }

  // ----- labels and identities -----

  datatype Framework = Attack | Defend | Atlas

  const ATTACK_LABELS: seq<string> :=
    ["MitreAttackTactic", "MitreAttackTechnique", "MitreAttackGroup", "MitreAttackSoftware", "MitreAttackMitigation",
     "MitreAttackCampaign", "MitreAttackDataSource", "MitreAttackDataComponent"]

  const DEFEND_ID_LABELS: seq<string> := ["MitreDefendTactic", "MitreDefendTechnique"]

  const DEFEND_URI_LABELS: seq<string> :=
    ["MitreDefendProcessEntity", "MitreDefendStorageEntity", "MitreDefendDigitalEventEntity", "MitreDefendSensorEntity",
     "MitreDefendNetworkNodeEntity", "MitreDefendLinkEntity", "MitreDefendNetworkTrafficEntity", "MitreDefendSystemCallEntity",
     "MitreDefendOSAPIFunctionEntity", "MitreDefendSubroutineEntity", "MitreDefendFirmwareEntity", "MitreDefendUserAccountEntity",
     "MitreDefendCredentialEntity", "MitreDefendHardwareDeviceEntity", "MitreDefendSoftwareEntity", "MitreDefendFileEntity",
     "MitreDefendResourceEntity", "MitreDefendDigitalInformationBearerEntity", "MitreDefendDigitalInformationEntity",
     "MitreDefendDigitalArtifactEntity"]

  const ATLAS_LABELS: seq<string> := ["MitreAtlasTechnique", "MitreAtlasTactic", "MitreAtlasMitigation", "MitreAtlasCaseStudy"]

  const EXCLUDED_LABELS: set<string> := {"MitreAttackMatrix"}

  const PROVENANCE_PROPS: set<string> := {"ontolocy_created", "ontolocy_merged"}

  const STRUCTURAL_TYPES: set<string> :=
    {"SUBTECHNIQUE_OF", "TACTIC_INCLUDES_TECHNIQUE", "MITIGATION_DEFENDS_AGAINST_TECHNIQUE", "CAMPAIGN_USES_TECHNIQUE"}

  const CROSSWALK_EDGE_TYPE := "ATLAS_TECHNIQUE_REFERENCES"

  function FrameworkOf(nodeLabel: string): Option<Framework> {
    if nodeLabel in ATTACK_LABELS then Some(Attack)
    else if nodeLabel in DEFEND_ID_LABELS || nodeLabel in DEFEND_URI_LABELS then Some(Defend)
    else if nodeLabel in ATLAS_LABELS then Some(Atlas)
    else None
  }

  /** The property a mapped label is keyed by. */
  function KeyName(nodeLabel: string): string {
    if nodeLabel in ATTACK_LABELS then "attack_id"
    else if nodeLabel in DEFEND_ID_LABELS then "d3fendId"
    else if nodeLabel in DEFEND_URI_LABELS then "uri"
    else "atlas_id"
  }

  datatype ExportError =
    | MappedLabels(count: nat)
    | NoKey(nodeLabel: string)
    | BadCrosswalk
    | AtlasCross
    | StructuralCross

  /** A node as the driver returns it; names differ within its properties. */
  datatype NodeRecord = NodeRecord(labels: seq<string>, props: seq<Property>)

  function Mapped(labels: seq<string>): seq<string> {
    if labels == [] then [] else (if FrameworkOf(labels[0]).Some? then [labels[0]] else []) + Mapped(labels[1..])
  }

  /** dict.get: the value under a name, with None for none. */
  function Get(props: seq<Property>, name: string): PyValue {
    if props == [] then PyNone else if props[0].name == name then props[0].value else Get(props[1..], name)
  }

  /** node_identity. */
  function Identity(n: NodeRecord): Result<NodeIdentity, ExportError> {
    var mapped := Mapped(n.labels);
    if |mapped| != 1 then Err(MappedLabels(|mapped|))
    else
      var key := KeyName(mapped[0]);
      if Get(n.props, key) != PyNone then Ok(NodeIdentity(mapped[0], key, Get(n.props, key)))
      else if FrameworkOf(mapped[0]) == Some(Defend) && Get(n.props, "uri") != PyNone
      then Ok(NodeIdentity(mapped[0], "uri", Get(n.props, "uri")))
      else Err(NoKey(mapped[0]))
  }

  // ----- routing -----

  datatype Bucket = AttackDefendBucket | AtlasBucket | CrosswalkBucket

  /** route_relationship. */
  function Route(kind: string, source: NodeIdentity, target: NodeIdentity): Result<Bucket, ExportError> {
    var from, to := FrameworkOf(source.nodeLabel), FrameworkOf(target.nodeLabel);
    if kind == CROSSWALK_EDGE_TYPE then
      if source.nodeLabel != "MitreAtlasTechnique" || target.nodeLabel != "MitreAttackTechnique" then Err(BadCrosswalk) else Ok(CrosswalkBucket)
    else if from == to then Ok(if from == Some(Atlas) then AtlasBucket else AttackDefendBucket)
    else if from == Some(Atlas) || to == Some(Atlas) then Err(AtlasCross)
    else if kind in STRUCTURAL_TYPES then Err(StructuralCross)
    else Ok(AttackDefendBucket)
  }

  datatype EdgeRecord = EdgeRecord(source: NodeRecord, kind: string, props: seq<Property>, target: NodeRecord)

  predicate Excluded(e: EdgeRecord) {
    (exists k :: 0 <= k < |e.source.labels| && e.source.labels[k] in EXCLUDED_LABELS)
    || exists k :: 0 <= k < |e.target.labels| && e.target.labels[k] in EXCLUDED_LABELS
  }

  /** Where an edge goes: nowhere, into a file, or the export fails. */
  function RouteRecord(e: EdgeRecord): Result<Option<Bucket>, ExportError> {
    if Excluded(e) then Ok(None)
    else
      match Identity(e.source)
      case Err(error) => Err(error)
      case Ok(source) =>
        match Identity(e.target)
        case Err(error) => Err(error)
        case Ok(target) => match Route(e.kind, source, target) case Err(error) => Err(error) case Ok(bucket) => Ok(Some(bucket))
  }

  /** What the exporter prints values and property dictionaries as for its sort keys. */
  datatype Printing = Printing(text: PyValue -> string, dump: seq<Property> -> string)

  function ByName(props: seq<Property>): seq<Keyed<Property>> {
    if props == [] then [] else [Keyed([props[0].name], props[0])] + ByName(props[1..])
  }

  /** The properties of an edge worth keeping, by name. */
  function Durable(sorted: seq<Keyed<Property>>): seq<Property> {
    if sorted == [] then []
    else (if sorted[0].row.value == PyNone || sorted[0].row.name in PROVENANCE_PROPS then [] else [sorted[0].row]) + Durable(sorted[1..])
  }

  function DurableProps(e: EdgeRecord): seq<Property> { Durable(SortRows(ByName(e.props))) }

  /** The row of an edge that is routed. */
  function EdgeRow(show: Printing, e: EdgeRecord): Keyed<Relationship>
    requires Identity(e.source).Ok? && Identity(e.target).Ok?
  {
    var source, target, props := Identity(e.source).value, Identity(e.target).value, DurableProps(e);
    Keyed([e.kind, source.nodeLabel, show.text(source.value), target.nodeLabel, show.text(target.value), show.dump(props)],
          Relationship(e.kind, source, target, props))
  }

  function RowFor(show: Printing, bucket: Bucket, e: EdgeRecord): Option<Keyed<Relationship>> {
    if RouteRecord(e) == Ok(Some(bucket)) then Some(EdgeRow(show, e)) else None
  }

  /** The rows of one file. */
  function RowIn(show: Printing, bucket: Bucket): EdgeRecord -> Option<Keyed<Relationship>> { e => RowFor(show, bucket, e) }

  predicate AllRouted(records: seq<EdgeRecord>) { forall k :: 0 <= k < |records| ==> RouteRecord(records[k]).Ok? }

  function Plain<T>(rows: seq<Keyed<T>>): seq<T> { if rows == [] then [] else [rows[0].row] + Plain(rows[1..]) }

  /** The text of one file. */
  function EdgeFile(show: Printing, bucket: Bucket, records: seq<EdgeRecord>): string {
    Script(RelationshipParts(Plain(SortRows(Collect(records, RowIn(show, bucket))))))
  }

  function EdgePart(r: Relationship): (string, string) { (RelationshipStatement(r), "") }

  lemma {:induction false} EdgePartsWritten(rows: seq<Keyed<Relationship>>)
    ensures RelationshipParts(Plain(rows)) == Written(rows, EdgePart)
    decreases |rows|
  {
    hide RelationshipStatement;
    if rows != [] {
      assert Plain(rows)[1..] == Plain(rows[1..]);
      EdgePartsWritten(rows[1..]);
    }
  }

  // ----- good records -----

  predicate GoodNode(n: NodeRecord) {
    (forall k :: 0 <= k < |n.labels| ==> Word(n.labels[k])) && forall k :: 0 <= k < |n.props| ==> WellNamed(n.props[k])
  }

  predicate GoodEdge(e: EdgeRecord) {
    Word(e.kind) && GoodNode(e.source) && GoodNode(e.target) && forall k :: 0 <= k < |e.props| ==> WellNamed(e.props[k])
  }

  lemma {:induction false} GetGood(props: seq<Property>, name: string)
    requires forall k :: 0 <= k < |props| ==> WellNamed(props[k])
    ensures Get(props, name) == PyNone || WellFormed(Get(props, name))
    decreases |props|
  {
    hide WellFormed, Word;
    if props != [] { GetGood(props[1..], name); }
  }

  lemma {:induction false} MappedWords(labels: seq<string>)
    requires forall k :: 0 <= k < |labels| ==> Word(labels[k])
    ensures forall k :: 0 <= k < |Mapped(labels)| ==> Word(Mapped(labels)[k])
    decreases |labels|
  {
    hide Word, FrameworkOf;
    if labels != [] { MappedWords(labels[1..]); }
  }

  lemma KeyWords(nodeLabel: string)
    ensures Word(KeyName(nodeLabel)) && Word("uri")
  {
    hide ATTACK_LABELS, DEFEND_ID_LABELS, DEFEND_URI_LABELS;
    assert Word("attack_id") && Word("d3fendId") && Word("uri") && Word("atlas_id");
  }

  lemma IdentityGood(n: NodeRecord)
    requires GoodNode(n) && Identity(n).Ok?
    ensures GoodIdentity(Identity(n).value)
  {
    hide Word, WellFormed, FrameworkOf, KeyName, WellNamed;
    MappedWords(n.labels);
    KeyWords(Mapped(n.labels)[0]);
    GetGood(n.props, KeyName(Mapped(n.labels)[0]));
    GetGood(n.props, "uri");
  }

  lemma {:induction false} ByNameGood(props: seq<Property>)
    requires forall k :: 0 <= k < |props| ==> WellNamed(props[k])
    ensures forall x :: x in ByName(props) ==> WellNamed(x.row)
    decreases |props|
  {
    hide WellNamed;
    if props != [] { ByNameGood(props[1..]); }
  }

  lemma {:induction false} DurableGood(rows: seq<Keyed<Property>>)
    requires forall x :: x in rows ==> WellNamed(x.row)
    ensures forall k :: 0 <= k < |Durable(rows)| ==> WellNamed(Durable(rows)[k])
    decreases |rows|
  {
    hide WellNamed;
    if rows != [] {
      assert rows[0] in rows && forall x :: x in rows[1..] ==> x in rows;
      DurableGood(rows[1..]);
    }
  }

  lemma EdgeRowGood(show: Printing, e: EdgeRecord)
    requires GoodEdge(e) && Identity(e.source).Ok? && Identity(e.target).Ok?
    ensures GoodRelationship(EdgeRow(show, e).row)
  {
    hide Word, WellNamed, Identity, GoodIdentity, GoodNode, SortRows, Durable, KeysSorted;
    IdentityGood(e.source);
    IdentityGood(e.target);
    ByNameGood(e.props);
    SortRowsSorts(ByName(e.props));
    forall x | x in SortRows(ByName(e.props)) ensures WellNamed(x.row) { assert x in multiset(ByName(e.props)); }
    DurableGood(SortRows(ByName(e.props)));
  }

  lemma {:induction false} EdgeRowsGood(show: Printing, bucket: Bucket, records: seq<EdgeRecord>)
    requires forall k :: 0 <= k < |records| ==> GoodEdge(records[k])
    ensures forall x :: x in Collect(records, RowIn(show, bucket)) ==> GoodRelationship(x.row)
    decreases |records|
  {
    hide GoodEdge, GoodRelationship, Identity, EdgeRow, Excluded, Route;
    if records != [] {
      EdgeRowsGood(show, bucket, records[1..]);
      if RowFor(show, bucket, records[0]).Some? { EdgeRowGood(show, records[0]); }
    }
  }

  /** A file's rows, sorted, are good to write. */
  lemma SortedPartsGood(rows: seq<Keyed<Relationship>>)
    requires forall x :: x in rows ==> GoodRelationship(x.row)
    ensures GoodParts(Written(SortRows(rows), EdgePart))
    ensures RelationshipParts(Plain(SortRows(rows))) == Written(SortRows(rows), EdgePart)
  {
    hide GoodRelationship, RelationshipStatement, Statement, SortRows, KeysSorted, Written;
    var sorted := SortRows(rows);
    SortRowsSorts(rows);
    WrittenAt(sorted, EdgePart);
    EdgePartsWritten(sorted);
    forall k | 0 <= k < |sorted| ensures Statement(Written(sorted, EdgePart)[k].0) && GoodGap(Written(sorted, EdgePart)[k].1) {
      assert sorted[k] in multiset(rows);
      RelationshipReads(sorted[k].row);
    }
  }

  lemma EdgePartsGood(show: Printing, bucket: Bucket, records: seq<EdgeRecord>)
    requires forall k :: 0 <= k < |records| ==> GoodEdge(records[k])
    ensures GoodParts(Written(SortRows(Collect(records, RowIn(show, bucket))), EdgePart))
    ensures EdgeFile(show, bucket, records) == Script(Written(SortRows(Collect(records, RowIn(show, bucket))), EdgePart))
  {
    hide GoodEdge, GoodRelationship, GoodParts, SortRows, Collect, Written, Script, RowIn, RelationshipParts, EdgePart, Plain;
    EdgeRowsGood(show, bucket, records);
    SortedPartsGood(Collect(records, RowIn(show, bucket)));
  }

  // ----- relationships: once each, and in one order -----

  /** Every edge that is not left out on purpose is in exactly one of the three files. */
  lemma {:induction false} EveryEdgeOnce(show: Printing, records: seq<EdgeRecord>)
    requires AllRouted(records)
    ensures |Collect(records, RowIn(show, AttackDefendBucket))| + |Collect(records, RowIn(show, AtlasBucket))|
            + |Collect(records, RowIn(show, CrosswalkBucket))| == |records| - ExcludedCount(records)
    decreases |records|
  {
    hide Identity, EdgeRow, Excluded, RouteRecord, RowIn;
    if records != [] {
      var e := records[0];
      OneFile(show, e);
      EveryEdgeOnce(show, records[1..]);
      assert records == [e] + records[1..];
      hide Collect;
      CollectOne(e, records[1..], RowIn(show, AttackDefendBucket));
      CollectOne(e, records[1..], RowIn(show, AtlasBucket));
      CollectOne(e, records[1..], RowIn(show, CrosswalkBucket));
    }
  }

  function InFile(show: Printing, bucket: Bucket, e: EdgeRecord): nat { if RowIn(show, bucket)(e).Some? then 1 else 0 }

  lemma OneFile(show: Printing, e: EdgeRecord)
    requires RouteRecord(e).Ok?
    ensures InFile(show, AttackDefendBucket, e) + InFile(show, AtlasBucket, e) + InFile(show, CrosswalkBucket, e) == if Excluded(e) then 0 else 1
  {
    hide Identity, Excluded, Route, EdgeRow;
    assert RouteRecord(e).value.None? <==> Excluded(e);
    assert RowIn(show, AttackDefendBucket)(e) == RowFor(show, AttackDefendBucket, e);
    assert RowIn(show, AtlasBucket)(e) == RowFor(show, AtlasBucket, e);
    assert RowIn(show, CrosswalkBucket)(e) == RowFor(show, CrosswalkBucket, e);
    if RouteRecord(e).value.Some? {
      match RouteRecord(e).value.value { case AttackDefendBucket => case AtlasBucket => case CrosswalkBucket => }
    }
  }

  function ExcludedCount(records: seq<EdgeRecord>): nat {
    if records == [] then 0 else (if Excluded(records[0]) then 1 else 0) + ExcludedCount(records[1..])
  }

  /**
   * A relationship file does not depend on the order the driver returns the edges in exactly when no two
   * of its edges that are written differently have one sort key.
   */
  lemma EdgeOrderIff(show: Printing, bucket: Bucket, records: seq<EdgeRecord>)
    requires forall k :: 0 <= k < |records| ==> GoodEdge(records[k])
    ensures (forall a :: multiset(a) == multiset(records) ==> EdgeFile(show, bucket, a) == EdgeFile(show, bucket, records))
       <==> KeysTell(Collect(records, RowIn(show, bucket)), EdgePart)
  {
    hide GoodEdge, EdgeFile, Written, SortRows, Collect, KeysTell, EdgePart, RowIn;
    forall a | multiset(a) == multiset(records)
      ensures EdgeFile(show, bucket, a) == EdgeFile(show, bucket, records)
         <==> Written(SortRows(Collect(a, RowIn(show, bucket))), EdgePart) == Written(SortRows(Collect(records, RowIn(show, bucket))), EdgePart)
    {
      AllGood(records, a);
      SameEdgeFile(show, bucket, a, records);
    }
    ArrivalIff(records, RowIn(show, bucket), EdgePart);
  }

  lemma SameEdgeFile(show: Printing, bucket: Bucket, a: seq<EdgeRecord>, b: seq<EdgeRecord>)
    requires (forall k :: 0 <= k < |a| ==> GoodEdge(a[k])) && forall k :: 0 <= k < |b| ==> GoodEdge(b[k])
    ensures EdgeFile(show, bucket, a) == EdgeFile(show, bucket, b)
       <==> Written(SortRows(Collect(a, RowIn(show, bucket))), EdgePart) == Written(SortRows(Collect(b, RowIn(show, bucket))), EdgePart)
  {
    hide GoodEdge, EdgeFile, Written, SortRows, Collect, GoodParts, Script, EdgePart, RowIn;
    EdgePartsGood(show, bucket, a);
    EdgePartsGood(show, bucket, b);
    ScriptInjective(Written(SortRows(Collect(a, RowIn(show, bucket))), EdgePart), Written(SortRows(Collect(b, RowIn(show, bucket))), EdgePart));
  }

  lemma AllGood(records: seq<EdgeRecord>, a: seq<EdgeRecord>)
    requires multiset(a) == multiset(records) && forall k :: 0 <= k < |records| ==> GoodEdge(records[k])
    ensures forall k :: 0 <= k < |a| ==> GoodEdge(a[k])
  {
    hide GoodEdge;
    forall k | 0 <= k < |a| ensures GoodEdge(a[k]) {
      assert a[k] in multiset(records);
      var j :| 0 <= j < |records| && records[j] == a[k];
    }
  }

  /** Whether the export succeeds does not depend on the order at all. */
  lemma RoutedAnyOrder(records: seq<EdgeRecord>, a: seq<EdgeRecord>)
    requires multiset(a) == multiset(records)
    ensures AllRouted(a) <==> AllRouted(records)
  {
    hide RouteRecord;
    forall k | 0 <= k < |a| ensures exists j :: 0 <= j < |records| && records[j] == a[k] { assert a[k] in multiset(records); }
    forall k | 0 <= k < |records| ensures exists j :: 0 <= j < |a| && a[j] == records[k] { assert records[k] in multiset(a); }
  }

  /** The keys tell where values and dictionaries print apart and no end of an edge is keyed by its fallback. */
  lemma KeysTellEdges(show: Printing, bucket: Bucket, records: seq<EdgeRecord>)
    requires forall v, w :: show.text(v) == show.text(w) ==> v == w
    requires forall p, q :: show.dump(p) == show.dump(q) ==> p == q
    requires forall k :: 0 <= k < |records| && RouteRecord(records[k]) == Ok(Some(bucket)) ==>
               OwnKey(records[k].source) && OwnKey(records[k].target)
    ensures KeysTell(Collect(records, RowIn(show, bucket)), EdgePart)
  {
    hide KeyName, EdgePart, Collect, RouteRecord, DurableProps, Identity;
    forall x, y | x in Collect(records, RowIn(show, bucket)) && y in Collect(records, RowIn(show, bucket)) && x.key == y.key
      ensures EdgePart(x.row) == EdgePart(y.row)
    {
      var ex := RecordOf(records, RowIn(show, bucket), x);
      var ey := RecordOf(records, RowIn(show, bucket), y);
      RoutedIdentities(ex, bucket);
      RoutedIdentities(ey, bucket);
      assert x == EdgeRow(show, ex) && y == EdgeRow(show, ey);
      assert x.key[0] == y.key[0] && x.key[1] == y.key[1] && x.key[2] == y.key[2];
      assert x.key[3] == y.key[3] && x.key[4] == y.key[4] && x.key[5] == y.key[5];
      assert x.row == y.row;
    }
  }

  /** The node is keyed by its label's own property, not by the fallback. */
  predicate OwnKey(n: NodeRecord) { Identity(n).Ok? ==> Identity(n).value.key == KeyName(Identity(n).value.nodeLabel) }

  lemma RoutedIdentities(e: EdgeRecord, bucket: Bucket)
    requires RouteRecord(e) == Ok(Some(bucket))
    ensures Identity(e.source).Ok? && Identity(e.target).Ok?
  {
    hide Identity, Excluded, Route;
  }

  /** Two edges to nodes of one label, one keyed by its own property and one by the fallback, can hide behind one key. */
  lemma FallbackHides(show: Printing, bucket: Bucket, records: seq<EdgeRecord>, a: EdgeRecord, b: EdgeRecord)
    requires (forall k :: 0 <= k < |records| ==> GoodEdge(records[k])) && a in records && b in records
    requires RouteRecord(a) == Ok(Some(bucket)) && RouteRecord(b) == Ok(Some(bucket))
    requires Identity(a.source).Ok? && Identity(a.target).Ok? && Identity(b.source).Ok? && Identity(b.target).Ok?
    requires EdgeRow(show, a).key == EdgeRow(show, b).key && Identity(a.source).value.key != Identity(b.source).value.key
    ensures exists other :: multiset(other) == multiset(records) && EdgeFile(show, bucket, other) != EdgeFile(show, bucket, records)
  {
    hide Identity, GoodRelationship, RelationshipStatement, EdgeFile, RouteRecord, DurableProps, ReadEdge, GoodEdge;
    var x, y := EdgeRow(show, a), EdgeRow(show, b);
    Collected(records, RowIn(show, bucket), a, x);
    Collected(records, RowIn(show, bucket), b, y);
    EdgeRowGood(show, a);
    EdgeRowGood(show, b);
    EdgeReadsBack(x.row);
    EdgeReadsBack(y.row);
    assert EdgeMeant(x.row).source.key != EdgeMeant(y.row).source.key;
    assert EdgePart(x.row) != EdgePart(y.row);
    EdgeOrderIff(show, bucket, records);
  }

  lemma {:induction false} Collected<R, S>(records: seq<R>, f: R -> Option<S>, r: R, x: S)
    requires r in records && f(r) == Some(x)
    ensures x in Collect(records, f)
    decreases |records|
  {
    if records[0] != r { Collected(records[1..], f, r, x); }
  }

  /** Such edges there are: two techniques, one with the id "x" and one without an id at the address "x". */
  lemma FallbackExample(show: Printing) returns (records: seq<EdgeRecord>)
    ensures AllRouted(records) && forall k :: 0 <= k < |records| ==> GoodEdge(records[k])
    ensures exists other :: multiset(other) == multiset(records)
                            && EdgeFile(show, AttackDefendBucket, other) != EdgeFile(show, AttackDefendBucket, records)
  {
    hide FrameworkOf, KeyName, Route, EdgeFile, Word, Excluded, EXCLUDED_LABELS, DurableProps;
    var technique := "MitreDefendTechnique";
    var byId := NodeRecord([technique], [Property("d3fendId", PyStr("x"))]);
    var byAddress := NodeRecord([technique], [Property("uri", PyStr("x"))]);
    TechniqueLabel();
    var a, b := EdgeRecord(byId, "ENABLES", [], byId), EdgeRecord(byAddress, "ENABLES", [], byId);
    records := [a, b];
    assert Mapped([technique]) == [technique] by { assert [technique][1..] == []; }
    assert Identity(byId) == Ok(NodeIdentity(technique, "d3fendId", PyStr("x")));
    assert Get(byAddress.props, "d3fendId") == PyNone by { assert byAddress.props[1..] == []; }
    assert Identity(byAddress) == Ok(NodeIdentity(technique, "uri", PyStr("x")));
    SameFramework(a);
    SameFramework(b);
    assert DurableProps(a) == DurableProps(b) by { SameProps(a, b); }
    ExampleWords();
    assert GoodEdge(a) && GoodEdge(b);
    FallbackHides(show, AttackDefendBucket, records, a, b);
  }

  lemma TechniqueLabel()
    ensures FrameworkOf("MitreDefendTechnique") == Some(Defend) && KeyName("MitreDefendTechnique") == "d3fendId"
  {
    var technique := "MitreDefendTechnique";
    assert forall k :: 0 <= k < |ATTACK_LABELS| ==> ATTACK_LABELS[k][5] == 'A';
    assert technique[5] == 'D' && technique == DEFEND_ID_LABELS[1];
  }

  lemma ExampleWords()
    ensures Word("MitreDefendTechnique") && Word("ENABLES") && Word("d3fendId") && Word("uri")
  {
  }

  lemma SameProps(a: EdgeRecord, b: EdgeRecord)
    requires a.props == b.props
    ensures DurableProps(a) == DurableProps(b)
  {
  }

  /** An edge within D3FEND that is not excluded goes into the first file. */
  lemma SameFramework(e: EdgeRecord)
    requires e.source.labels == ["MitreDefendTechnique"] && e.target.labels == ["MitreDefendTechnique"] && e.kind == "ENABLES"
    requires Identity(e.source).Ok? && Identity(e.target).Ok?
    requires Identity(e.source).value.nodeLabel == "MitreDefendTechnique" && Identity(e.target).value.nodeLabel == "MitreDefendTechnique"
    ensures RouteRecord(e) == Ok(Some(AttackDefendBucket))
  {
    hide Identity, KeyName;
    TechniqueLabel();
    hide FrameworkOf;
    assert "MitreDefendTechnique"[5] == 'D' && "MitreAttackMatrix"[5] == 'A';
    assert |"ENABLES"| == 7 && |CROSSWALK_EDGE_TYPE| != 7;
  }

  // ----- nodes -----

  predicate AllIdentified(records: seq<NodeRecord>) { forall k :: 0 <= k < |records| ==> Identity(records[k]).Ok? }

  function NodeKeyed(show: Printing, n: NodeRecord): Option<Keyed<NodeRow>> {
    match Identity(n)
    case Err(_) => None
    case Ok(id) => Some(Keyed([id.key, show.text(id.value)], NodeRow(id.key, id.value, n.props)))
  }

  function NodeRowOf(show: Printing): NodeRecord -> Option<Keyed<NodeRow>> { n => NodeKeyed(show, n) }

  function NodePart(nodeLabel: string): NodeRow -> (string, string) {
    row => (NodeStatement(nodeLabel, row), if NodeProps(row) == [] then "\n" else "")
  }

  /** The text of one label's nodes. */
  function NodeFile(show: Printing, nodeLabel: string, records: seq<NodeRecord>): string {
    Script(NodeParts(nodeLabel, Plain(SortRows(Collect(records, NodeRowOf(show))))))
  }

  lemma {:induction false} NodePartsWritten(nodeLabel: string, rows: seq<Keyed<NodeRow>>)
    ensures NodeParts(nodeLabel, Plain(rows)) == Written(rows, NodePart(nodeLabel))
    decreases |rows|
  {
    hide NodeStatement, NodeProps;
    if rows != [] {
      assert Plain(rows)[1..] == Plain(rows[1..]);
      NodePartsWritten(nodeLabel, rows[1..]);
    }
  }

  lemma {:induction false} NodeRowsGood(show: Printing, records: seq<NodeRecord>)
    requires forall k :: 0 <= k < |records| ==> GoodNode(records[k])
    ensures forall x :: x in Collect(records, NodeRowOf(show)) ==> GoodRow(x.row)
    decreases |records|
  {
    hide Identity, Word, WellFormed, WellNamed;
    if records != [] {
      NodeRowsGood(show, records[1..]);
      if Identity(records[0]).Ok? { IdentityGood(records[0]); }
    }
  }

  lemma SortedNodesGood(nodeLabel: string, rows: seq<Keyed<NodeRow>>)
    requires Word(nodeLabel) && forall x :: x in rows ==> GoodRow(x.row)
    ensures GoodParts(Written(SortRows(rows), NodePart(nodeLabel)))
    ensures NodeParts(nodeLabel, Plain(SortRows(rows))) == Written(SortRows(rows), NodePart(nodeLabel))
  {
    hide GoodRow, NodeStatement, NodeProps, Statement, SortRows, KeysSorted, Written, Word;
    var sorted := SortRows(rows);
    SortRowsSorts(rows);
    WrittenAt(sorted, NodePart(nodeLabel));
    NodePartsWritten(nodeLabel, sorted);
    forall k | 0 <= k < |sorted| ensures Statement(Written(sorted, NodePart(nodeLabel))[k].0) && GoodGap(Written(sorted, NodePart(nodeLabel))[k].1) {
      assert sorted[k] in multiset(rows);
      NodeStatementReads(nodeLabel, sorted[k].row);
    }
  }

  lemma NodePartsGood(show: Printing, nodeLabel: string, records: seq<NodeRecord>)
    requires Word(nodeLabel) && forall k :: 0 <= k < |records| ==> GoodNode(records[k])
    ensures GoodParts(Written(SortRows(Collect(records, NodeRowOf(show))), NodePart(nodeLabel)))
    ensures NodeFile(show, nodeLabel, records) == Script(Written(SortRows(Collect(records, NodeRowOf(show))), NodePart(nodeLabel)))
  {
    hide GoodNode, GoodRow, GoodParts, SortRows, Collect, Written, Script, NodeRowOf, NodeParts, NodePart, Plain, Word;
    NodeRowsGood(show, records);
    SortedNodesGood(nodeLabel, Collect(records, NodeRowOf(show)));
  }

  /** The same of a node file. */
  lemma NodeOrderIff(show: Printing, nodeLabel: string, records: seq<NodeRecord>)
    requires Word(nodeLabel) && forall k :: 0 <= k < |records| ==> GoodNode(records[k])
    ensures (forall a :: multiset(a) == multiset(records) ==> NodeFile(show, nodeLabel, a) == NodeFile(show, nodeLabel, records))
       <==> KeysTell(Collect(records, NodeRowOf(show)), NodePart(nodeLabel))
  {
    hide GoodNode, NodeFile, Written, SortRows, Collect, KeysTell, NodePart, NodeRowOf, Word;
    forall a | multiset(a) == multiset(records)
      ensures NodeFile(show, nodeLabel, a) == NodeFile(show, nodeLabel, records)
         <==> Written(SortRows(Collect(a, NodeRowOf(show))), NodePart(nodeLabel)) == Written(SortRows(Collect(records, NodeRowOf(show))), NodePart(nodeLabel))
    {
      forall k | 0 <= k < |a| ensures GoodNode(a[k]) {
        assert a[k] in multiset(records);
        var j :| 0 <= j < |records| && records[j] == a[k];
      }
      SameNodeFile(show, nodeLabel, a, records);
    }
    ArrivalIff(records, NodeRowOf(show), NodePart(nodeLabel));
  }

  lemma SameNodeFile(show: Printing, nodeLabel: string, a: seq<NodeRecord>, b: seq<NodeRecord>)
    requires Word(nodeLabel) && (forall k :: 0 <= k < |a| ==> GoodNode(a[k])) && forall k :: 0 <= k < |b| ==> GoodNode(b[k])
    ensures NodeFile(show, nodeLabel, a) == NodeFile(show, nodeLabel, b)
       <==> Written(SortRows(Collect(a, NodeRowOf(show))), NodePart(nodeLabel)) == Written(SortRows(Collect(b, NodeRowOf(show))), NodePart(nodeLabel))
  {
    hide GoodNode, NodeFile, Written, SortRows, Collect, GoodParts, Script, NodePart, NodeRowOf, Word;
    NodePartsGood(show, nodeLabel, a);
    NodePartsGood(show, nodeLabel, b);
    ScriptInjective(Written(SortRows(Collect(a, NodeRowOf(show))), NodePart(nodeLabel)), Written(SortRows(Collect(b, NodeRowOf(show))), NodePart(nodeLabel)));
  }

  // ----- the exporter's loops -----

  lemma {:induction false} PlainAt<T>(rows: seq<Keyed<T>>)
    ensures |Plain(rows)| == |rows| && forall k :: 0 <= k < |rows| ==> Plain(rows)[k] == rows[k].row
    decreases |rows|
  {
    if rows != [] { PlainAt(rows[1..]); }
  }

  lemma CollectSnoc<R, S>(records: seq<R>, i: nat, f: R -> Option<S>)
    requires i < |records|
    ensures Collect(records[..i + 1], f) == Collect(records[..i], f) + match f(records[i]) case Some(x) => [x] case None => []
  {
    assert records[..i + 1] == records[..i] + [records[i]];
    CollectConcat(records[..i], [records[i]], f);
    CollectOne(records[i], [], f);
    assert [records[i]] + [] == [records[i]];
  }

  /** export_nodes: a node without one mapped label and a key stops the export. */
  method ExportNodes(nodeLabel: string, records: seq<NodeRecord>, show: Printing) returns (r: Result<string, ExportError>)
    requires forall k :: 0 <= k < |records| ==> GoodNode(records[k])
    ensures match r
            case Ok(file) => AllIdentified(records) && file == NodeFile(show, nodeLabel, records)
            case Err(_) => !AllIdentified(records)
  {
    hide Identity, GoodNode, SortRows, Collect, Script, NodeParts, GoodRow, KeysSorted, Plain;
    var rows: seq<Keyed<NodeRow>> := [];
    NothingCollected(records, NodeRowOf(show));
    for i := 0 to |records|
      invariant rows == Collect(records[..i], NodeRowOf(show)) && forall k :: 0 <= k < i ==> Identity(records[k]).Ok?
    {
      var id := Identity(records[i]);
      if id.Err? { return Err(id.error); }
      CollectSnoc(records, i, NodeRowOf(show));
      rows := rows + [Keyed([id.value.key, show.text(id.value.value)], NodeRow(id.value.key, id.value.value, records[i].props))];
    }
    assert records[..|records|] == records;
    var sorted := SortRows(rows);
    NodeRowsGood(show, records);
    SortRowsSorts(rows);
    PlainAt(sorted);
    forall k | 0 <= k < |Plain(sorted)| ensures GoodRow(Plain(sorted)[k]) { assert sorted[k] in multiset(rows); }
    var file := WriteNodes(nodeLabel, Plain(sorted));
    return Ok(file);
  }

  lemma NothingCollected<R, S>(records: seq<R>, f: R -> Option<S>)
    ensures Collect(records[..0], f) == []
  {
  }

  /** What the buckets hold once some records are routed. */
  ghost predicate Filled(show: Printing, records: seq<EdgeRecord>, buckets: map<Bucket, seq<Keyed<Relationship>>>) {
    forall b: Bucket :: b in buckets && buckets[b] == Collect(records, RowIn(show, b))
  }

  lemma FillStep(show: Printing, records: seq<EdgeRecord>, i: nat, buckets: map<Bucket, seq<Keyed<Relationship>>>)
    requires i < |records| && Filled(show, records[..i], buckets) && RouteRecord(records[i]).Ok?
    ensures var e := records[i];
            if RouteRecord(e).value.None? then Filled(show, records[..i + 1], buckets)
            else Identity(e.source).Ok? && Identity(e.target).Ok?
                 && Filled(show, records[..i + 1], buckets[RouteRecord(e).value.value := buckets[RouteRecord(e).value.value] + [EdgeRow(show, e)]])
  {
    hide Identity, Excluded, Route, EdgeRow, Collect;
    forall b: Bucket ensures Collect(records[..i + 1], RowIn(show, b)) == Collect(records[..i], RowIn(show, b)) + match RowFor(show, b, records[i]) case Some(x) => [x] case None => [] {
      CollectSnoc(records, i, RowIn(show, b));
    }
    if RouteRecord(records[i]).value.Some? { RoutedIdentities(records[i], RouteRecord(records[i]).value.value); }
  }

  lemma NoneFilled(show: Printing, records: seq<EdgeRecord>)
    ensures Filled(show, records[..0], map[AttackDefendBucket := [], AtlasBucket := [], CrosswalkBucket := []])
  {
    var none: map<Bucket, seq<Keyed<Relationship>>> := map[AttackDefendBucket := [], AtlasBucket := [], CrosswalkBucket := []];
    forall b: Bucket ensures b in none && none[b] == Collect(records[..0], RowIn(show, b)) {
      match b { case AttackDefendBucket => case AtlasBucket => case CrosswalkBucket => }
    }
  }

  /**
   * export_relationships: every edge is identified and routed, whichever files are asked for, so one that
   * has no place fails the export; else each file asked for is its edges in order.
   */
  method ExportRelationships(records: seq<EdgeRecord>, show: Printing,
          selected: seq<Bucket>) returns (r: Result<map<Bucket, string>, ExportError>)
    ensures match r
            case Ok(files) => AllRouted(records) && (forall b :: b in files <==> b in selected)
                              && forall b :: b in files ==> files[b] == EdgeFile(show, b, records)
            case Err(_) => !AllRouted(records)
  {
    hide Identity, Excluded, Route, EdgeRow, SortRows, Collect, Script, RelationshipParts, Plain, Filled;
    var buckets: map<Bucket, seq<Keyed<Relationship>>> := map[AttackDefendBucket := [], AtlasBucket := [], CrosswalkBucket := []];
    NoneFilled(show, records);
    for i := 0 to |records|
      invariant Filled(show, records[..i], buckets) && forall k :: 0 <= k < i ==> RouteRecord(records[k]).Ok?
    {
      var e := records[i];
      if Excluded(e) {
        FillStep(show, records, i, buckets);
        continue;
      }
      var source := Identity(e.source);
      if source.Err? { return Err(source.error); }
      var target := Identity(e.target);
      if target.Err? { return Err(target.error); }
      var bucket := Route(e.kind, source.value, target.value);
      if bucket.Err? { return Err(bucket.error); }
      FillStep(show, records, i, buckets);
      FilledHas(show, records[..i], buckets, bucket.value);
      buckets := buckets[bucket.value := buckets[bucket.value] + [EdgeRow(show, e)]];
    }
    assert records[..|records|] == records;
    var files: map<Bucket, string> := map[];
    for i := 0 to |selected|
      invariant (forall b :: b in files <==> b in selected[..i]) && forall b :: b in files ==> files[b] == EdgeFile(show, b, records)
    {
      FilledHas(show, records, buckets, selected[i]);
      var text := WriteBucket(Plain(SortRows(buckets[selected[i]])));
      files := files[selected[i] := text];
    }
    assert selected[..|selected|] == selected;
    return Ok(files);
  }

  lemma FilledHas(show: Printing, records: seq<EdgeRecord>, buckets: map<Bucket, seq<Keyed<Relationship>>>, b: Bucket)
    requires Filled(show, records, buckets)
    ensures b in buckets && buckets[b] == Collect(records, RowIn(show, b))
  {
    hide Collect;
  }
}
