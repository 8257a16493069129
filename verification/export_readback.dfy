/**
 * The exported files from writing to reading (export_to_cypher.py): what a loader's statements say of
 * each node and each edge, once the splitters have taken a written file apart.
 */
module ExportReadback {
  import opened Prelude
  import opened CypherSplitter
  import opened CypherValues
  import opened CypherExport

  // ----- reading a pattern -----

  /** A node as a pattern names it. */
  datatype End = End(nodeLabel: string, key: string, value: Literal)

  /** `(v:Label {key: value})` after its opening, and the text after it. */
  function ReadPattern(clause: string, s: string): Option<(End, string)> {
    match After(clause, s)
    case None => None
    case Some(a) =>
      match TakeWord(" {", a)
      case None => None
      case Some(nodeLabel) =>
        match TakeWord(": ", nodeLabel.1)
        case None => None
        case Some(key) =>
          match Read(key.1)
          case None => None
          case Some(value) =>
            match After("})", value.1) case None => None case Some(rest) => Some((End(nodeLabel.0, key.0, value.0), rest))
  }

  lemma PatternReadsBack(clause: string, nodeLabel: string, key: string, value: PyValue, rest: string)
    requires Word(nodeLabel) && Word(key) && WellFormed(value)
    ensures ReadPattern(clause, NodePattern(clause, nodeLabel, key, EscapeCypher(value)) + rest)
         == Some((End(nodeLabel, key, Meaning(value)), rest))
  {
    hide EscapeCypher, WellFormed, Word, Read, Meaning, TakeWord;
    var v := EscapeCypher(value);
    var fromValue := v + ("})" + rest);
    var fromKey := key + (": " + fromValue);
    var fromLabel := nodeLabel + (" {" + fromKey);
    assert NodePattern(clause, nodeLabel, key, v) + rest == clause + fromLabel;
    AfterPrefix(clause, fromLabel);
    WordReads(nodeLabel, " {", fromKey);
    WordReads(key, ": ", fromValue);
    ValueRoundTrip(value, "})" + rest);
    AfterPrefix("})", rest);
  }

  // ----- nodes -----

  /** What a statement says of one node. */
  datatype NodeSaid = NodeSaid(end: End, props: seq<(string, Literal)>)

  function ReadNode(s: string): Option<NodeSaid> {
    match ReadPattern("MERGE (n:", s) case None => None case Some(r) => ReadCreated(r.0, r.1)
  }

  /** The clause for a new node, and the SET clause if there is one. */
  function ReadCreated(end: End, s: string): Option<NodeSaid> {
    match After("\n" + ON_CREATE, s)
    case None => None
    case Some(rest) =>
      if rest == "" then Some(NodeSaid(end, []))
      else
        match After("\nSET ", rest)
        case None => None
        case Some(clause) => match ReadSet("n", clause) case None => None case Some(props) => Some(NodeSaid(end, props))
  }

  /** The node as the exporter means it: its label, the key it is merged on, and the properties kept. */
  function NodeMeant(nodeLabel: string, row: NodeRow): NodeSaid {
    NodeSaid(End(nodeLabel, row.key, Meaning(row.keyValue)), SetMeaning(NodeProps(row)))
  }

  function CreatedText(props: seq<Property>): string { "\n" + ON_CREATE + if props == [] then "" else "\nSET " + SetText("n", props) }

  lemma CreatedReadsBack(end: End, props: seq<Property>)
    requires forall k :: 0 <= k < |props| ==> WellNamed(props[k])
    ensures ReadCreated(end, CreatedText(props)) == Some(NodeSaid(end, SetMeaning(props)))
  {
    hide WellNamed, ReadSet, SetText, SetMeaning, ON_CREATE;
    var created, clause := "\n" + ON_CREATE, SetText("n", props);
    if props == [] {
      AfterPrefix(created, "");
      NoneMeant();
    } else {
      AfterPrefix(created, "\nSET " + clause);
      AfterPrefix("\nSET ", clause);
      WordN();
      SetRoundTrip("n", props);
    }
  }

  lemma NodeStatementParts(nodeLabel: string, row: NodeRow)
    ensures NodeStatement(nodeLabel, row) == NodePattern("MERGE (n:", nodeLabel, row.key, EscapeCypher(row.keyValue)) + CreatedText(NodeProps(row))
  {
    hide EscapeCypher, SetText, ON_CREATE, NodePattern, NodeProps;
  }

  lemma NodeReadsBack(nodeLabel: string, row: NodeRow)
    requires Word(nodeLabel) && GoodRow(row)
    ensures ReadNode(NodeStatement(nodeLabel, row)) == Some(NodeMeant(nodeLabel, row))
  {
    KeptGood(row.props, {row.key, "id"});
    hide EscapeCypher, WellFormed, WellNamed, Word, Meaning, ReadPattern, ReadCreated, CreatedText, Kept, NodePattern, SetMeaning, NodeStatement;
    NodeStatementParts(nodeLabel, row);
    PatternReadsBack("MERGE (n:", nodeLabel, row.key, row.keyValue, CreatedText(NodeProps(row)));
    CreatedReadsBack(End(nodeLabel, row.key, Meaning(row.keyValue)), NodeProps(row));
  }

  lemma NoneMeant()
    ensures SetMeaning([]) == []
  {
  }

  /**
   * A node file, from writing to reading: every splitter takes it apart into one statement a row, and
   * each says the row's label, merge key and value, and each property kept, under its name, in order.
   */
  lemma NodeFileReadsBack(escapes: bool, nodeLabel: string, rows: seq<NodeRow>)
    requires Word(nodeLabel) && forall k :: 0 <= k < |rows| ==> GoodRow(rows[k])
    ensures var out := Split(escapes, Script(NodeParts(nodeLabel, rows)), "");
            out.ending == Closed && |out.statements| == |rows|
            && forall k :: 0 <= k < |rows| ==> ReadNode(out.statements[k]) == Some(NodeMeant(nodeLabel, rows[k]))
  {
    hide NodeStatement, ReadNode, NodeMeant, GoodRow, Word, Split;
    NodesRoundTrip(escapes, nodeLabel, rows);
    forall k | 0 <= k < |rows| ensures ReadNode(NodeStatement(nodeLabel, rows[k])) == Some(NodeMeant(nodeLabel, rows[k])) {
      NodeReadsBack(nodeLabel, rows[k]);
    }
  }

  // ----- relationships -----

  /** What a statement says of one edge. */
  datatype EdgeSaid = EdgeSaid(source: End, target: End, kind: string, props: seq<(string, Literal)>)

  function ReadEdge(s: string): Option<EdgeSaid> {
    match ReadPattern("MATCH (s:", s)
    case None => None
    case Some(source) =>
      match After("\n", source.1)
      case None => None
      case Some(a) =>
        match ReadPattern("MATCH (t:", a)
        case None => None
        case Some(target) =>
          match After("\n", target.1) case None => None case Some(b) => ReadMerge(source.0, target.0, b)
  }

  function ReadMerge(source: End, target: End, s: string): Option<EdgeSaid> {
    match After("MERGE (s)-[:", s)
    case Some(a) =>
      (match TakeWord("]->(t)", a)
       case None => None
       case Some(kind) => if kind.1 == "" then Some(EdgeSaid(source, target, kind.0, [])) else None)
    case None =>
      match After("MERGE (s)-[r:", s)
      case None => None
      case Some(a) =>
        match TakeWord("]->(t)\nSET ", a)
        case None => None
        case Some(kind) =>
          match ReadSet("r", kind.1) case None => None case Some(props) => Some(EdgeSaid(source, target, kind.0, props))
  }

  function EndMeant(n: NodeIdentity): End { End(n.nodeLabel, n.key, Meaning(n.value)) }

  function EdgeMeant(r: Relationship): EdgeSaid { EdgeSaid(EndMeant(r.source), EndMeant(r.target), r.kind, SetMeaning(r.props)) }

  function MergeText(kind: string, props: seq<Property>): string {
    if props == [] then MergePattern("MERGE (s)-[:", kind) else MergePattern("MERGE (s)-[r:", kind) + "\nSET " + SetText("r", props)
  }

  lemma BareMergeReadsBack(source: End, target: End, kind: string)
    requires Word(kind)
    ensures ReadMerge(source, target, MergePattern("MERGE (s)-[:", kind)) == Some(EdgeSaid(source, target, kind, []))
  {
    hide Word, TakeWord, ReadSet;
    var rest := kind + ("]->(t)" + "");
    assert MergePattern("MERGE (s)-[:", kind) == "MERGE (s)-[:" + rest;
    AfterPrefix("MERGE (s)-[:", rest);
    WordReads(kind, "]->(t)", "");
  }

  lemma NamedMergeReadsBack(source: End, target: End, kind: string, clause: string)
    requires Word(kind)
    ensures ReadMerge(source, target, MergePattern("MERGE (s)-[r:", kind) + "\nSET " + clause)
         == match ReadSet("r", clause) case None => None case Some(props) => Some(EdgeSaid(source, target, kind, props))
  {
    hide Word, TakeWord, ReadSet;
    var rest := kind + ("]->(t)\nSET " + clause);
    assert MergePattern("MERGE (s)-[r:", kind) + "\nSET " + clause == "MERGE (s)-[r:" + rest by {
      assert "]->(t)\nSET " == "]->(t)" + "\nSET ";
    }
    NotBare(rest);
    AfterPrefix("MERGE (s)-[r:", rest);
    WordReads(kind, "]->(t)\nSET ", clause);
  }

  lemma NotBare(rest: string)
    ensures After("MERGE (s)-[:", "MERGE (s)-[r:" + rest) == None
  {
    var s, bare := "MERGE (s)-[r:" + rest, "MERGE (s)-[:";
    assert s[11] == 'r' && bare[11] == ':';
  }

  lemma MergeReadsBack(source: End, target: End, kind: string, props: seq<Property>)
    requires Word(kind) && forall k :: 0 <= k < |props| ==> WellNamed(props[k])
    ensures ReadMerge(source, target, MergeText(kind, props)) == Some(EdgeSaid(source, target, kind, SetMeaning(props)))
  {
    hide WellNamed, Word, ReadSet, SetText, SetMeaning, ReadMerge;
    if props == [] {
      BareMergeReadsBack(source, target, kind);
      NoneMeant();
    } else {
      NamedMergeReadsBack(source, target, kind, SetText("r", props));
      WordN();
      SetRoundTrip("r", props);
    }
  }

  lemma EdgeReadsBack(r: Relationship)
    requires GoodRelationship(r)
    ensures ReadEdge(RelationshipStatement(r)) == Some(EdgeMeant(r))
  {
    hide EscapeCypher, WellFormed, WellNamed, Word, Meaning, ReadPattern, SetText, NodePattern, SetMeaning, ReadMerge, MergePattern;
    var merge := MergeText(r.kind, r.props);
    var source, target := EndPattern("MATCH (s:", r.source), EndPattern("MATCH (t:", r.target);
    var fromTarget := target + ("\n" + merge);
    assert RelationshipStatement(r) == source + ("\n" + fromTarget);
    PatternReadsBack("MATCH (s:", r.source.nodeLabel, r.source.key, r.source.value, "\n" + fromTarget);
    AfterPrefix("\n", fromTarget);
    PatternReadsBack("MATCH (t:", r.target.nodeLabel, r.target.key, r.target.value, "\n" + merge);
    AfterPrefix("\n", merge);
    MergeReadsBack(EndMeant(r.source), EndMeant(r.target), r.kind, r.props);
  }

  /**
   * A relationship file, from writing to reading: one statement an edge, which says its two ends by
   * label, key and value, its type, and each of its properties under its name, in order.
   */
  lemma RelationshipFileReadsBack(escapes: bool, rows: seq<Relationship>)
    requires forall k :: 0 <= k < |rows| ==> GoodRelationship(rows[k])
    ensures var out := Split(escapes, Script(RelationshipParts(rows)), "");
            out.ending == Closed && |out.statements| == |rows|
            && forall k :: 0 <= k < |rows| ==> ReadEdge(out.statements[k]) == Some(EdgeMeant(rows[k]))
  {
    hide RelationshipStatement, ReadEdge, EdgeMeant, GoodRelationship, Split;
    RelationshipsRoundTrip(escapes, rows);
    forall k | 0 <= k < |rows| ensures ReadEdge(RelationshipStatement(rows[k])) == Some(EdgeMeant(rows[k])) {
      EdgeReadsBack(rows[k]);
    }
  }
}
