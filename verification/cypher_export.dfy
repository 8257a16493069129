/**
 * The node and relationship files of export_to_cypher.py: what is written, what every splitter
 * gets back out of it, and what each statement's literals read as.
 */
module CypherExport {
  import opened Prelude
  import opened CypherSplitter
  import opened CypherValues

  // ----- scripts -----

  /** Statements, each with the white space the exporter leaves before its semicolon. */
  function Script(parts: seq<(string, string)>): string {
    if parts == [] then "" else parts[0].0 + parts[0].1 + ";\n\n" + Script(parts[1..])
  }

  function Firsts(parts: seq<(string, string)>): seq<string> {
    if parts == [] then [] else [parts[0].0] + Firsts(parts[1..])
  }

  ghost predicate Statement(t: string) {
    Neutral(t) && t != "" && !IsSpace(t[0]) && !IsSpace(t[|t| - 1])
  }

  /** A script of such statements splits into exactly them. */
  lemma {:induction false} ScriptSplits(escapes: bool, parts: seq<(string, string)>, current: string)
    requires forall k :: 0 <= k < |parts| ==> Statement(parts[k].0) && AllSpace(parts[k].1)
    requires AllSpace(current)
    ensures Split(escapes, Script(parts), current) == Outcome(Firsts(parts), Closed)
    decreases |parts|
  {
    if parts == [] {
      TrimBlank(current);
    } else {
      var t, gap, rest := parts[0].0, parts[0].1, Script(parts[1..]);
      PlainIsNeutral(gap) by { SpaceIsPlain(gap); }
      NeutralConcat(t, gap);
      assert Script(parts) == (t + gap) + (";" + ("\n\n" + rest));
      SplitDelimiter(escapes, "\n\n" + rest, current + (t + gap));
      TrimSpaces(current, t, gap);
      assert current + (t + gap) == current + t + gap;
      PlainIsNeutral("\n\n");
      assert "" + "\n\n" == "\n\n";
      ScriptSplits(escapes, parts[1..], "\n\n");
    }
  }

  lemma SpaceIsPlain(s: string)
    requires AllSpace(s)
    ensures Plain(s)
  {
    forall k | 0 <= k < |s| ensures IsPlain(s[k]) { assert IsSpace(s[k]); }
  }

  // ----- words and assignments -----

  predicate IsWordChar(c: char) { 'a' <= c <= 'z' || 'A' <= c <= 'Z' || '0' <= c <= '9' || c == '_' }

  /** A label, relationship type or property name, which the exporters print without quoting. */
  predicate Word(w: string) { w != "" && forall k :: 0 <= k < |w| ==> IsWordChar(w[k]) }

  lemma WordNeutral(before: string, w: string, after: string)
    requires Word(w) && Plain(before) && Plain(after)
    ensures Neutral(before + w + after)
  {
    forall k | 0 <= k < |w| ensures IsPlain(w[k]) { assert IsWordChar(w[k]); }
    PlainIsNeutral(before + w + after);
  }

  /** A key with its value: `keyProp: value`, `n.prop = value`. */
  datatype Property = Property(name: string, value: PyValue)

  predicate WellNamed(p: Property) { Word(p.name) && WellFormed(p.value) }

  function Assignment(variable: string, p: Property): string {
    variable + "." + p.name + " = " + EscapeCypher(p.value)
  }

  function Assignments(variable: string, props: seq<Property>): seq<string> {
    if props == [] then [] else [Assignment(variable, props[0])] + Assignments(variable, props[1..])
  }

  function Join(parts: seq<string>, sep: string): string {
    if |parts| == 0 then "" else if |parts| == 1 then parts[0] else parts[0] + sep + Join(parts[1..], sep)
  }

  lemma {:induction false} JoinSnoc(parts: seq<string>, part: string, sep: string)
    ensures Join(parts + [part], sep) == if parts == [] then part else Join(parts, sep) + sep + part
    decreases |parts|
  {
    var whole := parts + [part];
    if |parts| > 0 {
      assert whole[1..] == parts[1..] + [part];
      JoinSnoc(parts[1..], part, sep);
      if |parts| == 1 {
        assert parts[1..] == [];
      }
    }
  }

  /** The properties format_properties keeps. */
  function Kept(props: seq<Property>, exclude: set<string>): seq<Property> {
    if props == [] then []
    else (if props[0].name in exclude || props[0].value == PyNone then [] else [props[0]]) + Kept(props[1..], exclude)
  }

  lemma {:induction false} KeptSnoc(props: seq<Property>, p: Property, exclude: set<string>)
    ensures Kept(props + [p], exclude)
         == Kept(props, exclude) + if p.name in exclude || p.value == PyNone then [] else [p]
    decreases |props|
  {
    if props == [] {
      assert (props + [p])[1..] == [];
    } else {
      assert (props + [p])[1..] == props[1..] + [p];
      KeptSnoc(props[1..], p, exclude);
    }
  }

  lemma {:induction false} AssignmentsSnoc(variable: string, props: seq<Property>, p: Property)
    ensures Assignments(variable, props + [p]) == Assignments(variable, props) + [Assignment(variable, p)]
    decreases |props|
  {
    hide Assignment;
    if props == [] {
      assert (props + [p])[1..] == [];
    } else {
      assert (props + [p])[1..] == props[1..] + [p];
      AssignmentsSnoc(variable, props[1..], p);
    }
  }

  function SetText(variable: string, props: seq<Property>): string { Join(Assignments(variable, props), ", ") }

  method FormatProperties(props: seq<Property>, excludeKeys: set<string>) returns (r: string)
    ensures r == SetText("n", Kept(props, excludeKeys))
  {
    var parts: seq<string> := [];
    for i := 0 to |props|
      invariant parts == Assignments("n", Kept(props[..i], excludeKeys))
    {
      var p := props[i];
      assert props[..i + 1] == props[..i] + [p];
      KeptSnoc(props[..i], p, excludeKeys);
      if p.name in excludeKeys || p.value == PyNone {
        assert Kept(props[..i], excludeKeys) + [] == Kept(props[..i], excludeKeys);
        continue;
      }
      AssignmentsSnoc("n", Kept(props[..i], excludeKeys), p);
      parts := parts + [Assignment("n", p)];
    }
    assert props[..|props|] == props;
    r := Join(parts, ", ");
  }

  lemma AssignmentReads(variable: string, p: Property)
    requires Word(variable) && WellNamed(p)
    ensures Statement(Assignment(variable, p))
  {
    hide EscapeCypher, WellFormed;
    var value := EscapeCypher(p.value);
    WordNeutral("", variable, ".");
    WordNeutral("", p.name, " = ");
    ValueNeutral(p.value);
    NeutralConcat("" + variable + ".", "" + p.name + " = ");
    NeutralConcat("" + variable + "." + ("" + p.name + " = "), value);
    FirstChar(p.value);
    var t := Assignment(variable, p);
    assert "" + variable + "." + ("" + p.name + " = ") + value == t;
    assert IsWordChar(t[0]) && t[|t| - 1] == value[|value| - 1];
  }

  lemma {:induction false} SetReads(variable: string, props: seq<Property>)
    requires Word(variable) && |props| > 0 && forall k :: 0 <= k < |props| ==> WellNamed(props[k])
    ensures Statement(SetText(variable, props))
    decreases |props|
  {
    hide Assignment, WellNamed;
    var first := Assignment(variable, props[0]);
    AssignmentReads(variable, props[0]);
    if |props| == 1 {
      assert Assignments(variable, props) == [first] by { assert props[1..] == []; }
    } else {
      SetReads(variable, props[1..]);
      var others := SetText(variable, props[1..]);
      NeutralBetween(first, ", ", others);
      assert SetText(variable, props) == first + ", " + others;
    }
  }

  // ----- nodes -----

  /** One node to write: the property it merges on, that property's value, and all its properties. */
  datatype NodeRow = NodeRow(key: string, keyValue: PyValue, props: seq<Property>)

  predicate GoodRow(row: NodeRow) {
    Word(row.key) && WellFormed(row.keyValue) && forall k :: 0 <= k < |row.props| ==> WellNamed(row.props[k])
  }

  function NodePattern(clause: string, nodeLabel: string, key: string, value: string): string {
    clause + nodeLabel + " {" + key + ": " + value + "})"
  }

  function NodeProps(row: NodeRow): seq<Property> { Kept(row.props, {row.key, "id"}) }

  const ON_CREATE := "ON CREATE SET n.id = randomUUID()"

  /** The statement a node should become. */
  function NodeStatement(nodeLabel: string, row: NodeRow): string {
    NodePattern("MERGE (n:", nodeLabel, row.key, EscapeCypher(row.keyValue)) + "\n" + ON_CREATE
    + if NodeProps(row) == [] then "" else "\nSET " + SetText("n", NodeProps(row))
  }

  function NodeParts(nodeLabel: string, rows: seq<NodeRow>): seq<(string, string)> {
    if rows == [] then []
    else [(NodeStatement(nodeLabel, rows[0]), if NodeProps(rows[0]) == [] then "\n" else "")] + NodeParts(nodeLabel, rows[1..])
  }

  lemma {:induction false} NodePartsSnoc(nodeLabel: string, rows: seq<NodeRow>, row: NodeRow)
    ensures Script(NodeParts(nodeLabel, rows + [row]))
         == Script(NodeParts(nodeLabel, rows)) + Script(NodeParts(nodeLabel, [row]))
    decreases |rows|
  {
    hide NodeStatement, NodeProps;
    if rows == [] {
      assert rows + [row] == [row];
    } else {
      assert (rows + [row])[1..] == rows[1..] + [row];
      NodePartsSnoc(nodeLabel, rows[1..], row);
    }
  }

  lemma SetTextBlank(variable: string, props: seq<Property>)
    requires Word(variable) && forall k :: 0 <= k < |props| ==> WellNamed(props[k])
    ensures SetText(variable, props) == "" <==> props == []
  {
    hide Assignment, WellNamed;
    if props != [] { SetReads(variable, props); }
  }

  lemma {:induction false} KeptGood(props: seq<Property>, exclude: set<string>)
    requires forall k :: 0 <= k < |props| ==> WellNamed(props[k])
    ensures forall k :: 0 <= k < |Kept(props, exclude)| ==> WellNamed(Kept(props, exclude)[k])
    decreases |props|
  {
    hide WellNamed;
    if props != [] { KeptGood(props[1..], exclude); }
  }

  /** The second half of export_nodes: the text of rows read and sorted. */
  method WriteNodes(nodeLabel: string, rows: seq<NodeRow>) returns (file: string)
    requires forall k :: 0 <= k < |rows| ==> GoodRow(rows[k])
    ensures file == Script(NodeParts(nodeLabel, rows))
  {
    assert Script(NodeParts(nodeLabel, rows[..0])) == "";
    hide EscapeCypher, SetText, Script, NodeParts, ON_CREATE, GoodRow, Kept;
    file := "";
    for i := 0 to |rows|
      invariant file == Script(NodeParts(nodeLabel, rows[..i]))
    {
      var row := rows[i];
      var before := file;
      var mergeKey := EscapeCypher(row.keyValue);
      var setProps := FormatProperties(row.props, {row.key, "id"});
      file := file + "MERGE (n:" + nodeLabel + " {" + row.key + ": " + mergeKey + "})\n";
      file := file + ON_CREATE + "\n";
      if setProps != "" {
        file := file + "SET " + setProps + ";\n";
      } else {
        file := file + ";\n";
      }
      file := file + "\n";
      NodeText(nodeLabel, row, setProps, before, file);
      assert rows[..i + 1] == rows[..i] + [row];
      NodePartsSnoc(nodeLabel, rows[..i], row);
    }
    assert rows[..|rows|] == rows;
  }

  lemma NodeText(nodeLabel: string, row: NodeRow, setProps: string, before: string, after: string)
    requires GoodRow(row) && setProps == SetText("n", NodeProps(row))
    requires after == before + "MERGE (n:" + nodeLabel + " {" + row.key + ": " + EscapeCypher(row.keyValue) + "})\n"
                      + ON_CREATE + "\n"
                      + (if setProps != "" then "SET " + setProps + ";\n" else ";\n") + "\n"
    ensures after == before + Script(NodeParts(nodeLabel, [row]))
  {
    hide EscapeCypher, SetText, ON_CREATE, Script, NodeParts, GoodRow, NodeProps, NodePattern;
    var pattern := NodePattern("MERGE (n:", nodeLabel, row.key, EscapeCypher(row.keyValue));
    PatternText(before, nodeLabel, row.key, EscapeCypher(row.keyValue));
    NodePartText(nodeLabel, row, setProps);
    NodeLines(before, pattern, ON_CREATE, setProps);
  }

  lemma PatternText(before: string, nodeLabel: string, key: string, value: string)
    ensures before + "MERGE (n:" + nodeLabel + " {" + key + ": " + value + "})\n" == before + NodePattern("MERGE (n:", nodeLabel, key, value) + "\n"
  {
    assert "})\n" == "})" + "\n";
  }

  lemma NodePartText(nodeLabel: string, row: NodeRow, setProps: string)
    requires GoodRow(row) && setProps == SetText("n", NodeProps(row))
    ensures var pattern := NodePattern("MERGE (n:", nodeLabel, row.key, EscapeCypher(row.keyValue));
            Script(NodeParts(nodeLabel, [row]))
            == if setProps != "" then pattern + "\n" + ON_CREATE + ("\nSET " + setProps) + "" + ";\n\n"
               else pattern + "\n" + ON_CREATE + "" + "\n" + ";\n\n"
  {
    KeptGood(row.props, {row.key, "id"});
    hide EscapeCypher, WellNamed, SetText, WellFormed, Kept, ON_CREATE, Script, GoodRow, NodePattern;
    SetTextBlank("n", NodeProps(row));
    assert [row][1..] == [];
    var part := (NodeStatement(nodeLabel, row), if NodeProps(row) == [] then "\n" else "");
    assert NodeParts(nodeLabel, [row]) == [part];
    ScriptOne(part);
  }

  lemma ScriptOne(part: (string, string))
    ensures Script([part]) == part.0 + part.1 + ";\n\n"
  {
    assert [part][1..] == [];
  }

  lemma NodeLines(before: string, pattern: string, clause: string, setProps: string)
    ensures before + pattern + "\n" + clause + "\n" + ("SET " + setProps + ";\n") + "\n"
         == before + (pattern + "\n" + clause + ("\nSET " + setProps) + "" + ";\n\n")
    ensures before + pattern + "\n" + clause + "\n" + ";\n" + "\n"
         == before + (pattern + "\n" + clause + "" + "\n" + ";\n\n")
  {
  }

  lemma PatternReads(clause: string, nodeLabel: string, key: string, value: PyValue)
    requires Plain(clause) && clause != "" && Word(nodeLabel) && Word(key) && WellFormed(value)
    ensures Neutral(NodePattern(clause, nodeLabel, key, EscapeCypher(value)))
    ensures NodePattern(clause, nodeLabel, key, EscapeCypher(value)) != ""
    ensures NodePattern(clause, nodeLabel, key, EscapeCypher(value))[0] == clause[0]
  {
    hide EscapeCypher, WellFormed, Word;
    assert Plain(" {") && Plain(": ") && Plain("})") && Plain("");
    WordNeutral(clause, nodeLabel, " {");
    WordNeutral("", key, ": ");
    ValueNeutral(value);
    PlainIsNeutral("})");
    var a, b, v := clause + nodeLabel + " {", "" + key + ": ", EscapeCypher(value);
    NeutralConcat(a, b);
    NeutralConcat(a + b, v);
    NeutralConcat(a + b + v, "})");
    assert a + b + v + "})" == NodePattern(clause, nodeLabel, key, v);
  }

  lemma OnCreateReads()
    ensures Plain("\n" + ON_CREATE) && ON_CREATE != "" && !IsSpace(ON_CREATE[|ON_CREATE| - 1])
  {
  }

  lemma NodeStatementReads(nodeLabel: string, row: NodeRow)
    requires Word(nodeLabel) && GoodRow(row)
    ensures Statement(NodeStatement(nodeLabel, row))
  {
    hide EscapeCypher, WellNamed, SetText, WellFormed, Kept, ON_CREATE, NodePattern, Neutral, Word;
    assert Plain("MERGE (n:");
    PatternReads("MERGE (n:", nodeLabel, row.key, row.keyValue);
    var head := NodePattern("MERGE (n:", nodeLabel, row.key, EscapeCypher(row.keyValue));
    var clause := "\n" + ON_CREATE;
    OnCreateReads();
    PlainIsNeutral(clause);
    NeutralConcat(head, clause);
    assert head + clause == head + "\n" + ON_CREATE;
    KeptGood(row.props, {row.key, "id"});
    if NodeProps(row) != [] {
      var assignments := SetText("n", NodeProps(row));
      WordN();
      SetReads("n", NodeProps(row));
      NeutralBetween(head + clause, "\nSET ", assignments);
      assert NodeStatement(nodeLabel, row) == head + clause + "\nSET " + assignments;
    } else {
      assert NodeStatement(nodeLabel, row) == head + clause;
    }
  }

  lemma WordN()
    ensures Word("n") && Word("r")
  {
  }

  /** A node file splits back into one statement a row, in order, under every splitter. */
  lemma NodesRoundTrip(escapes: bool, nodeLabel: string, rows: seq<NodeRow>)
    requires Word(nodeLabel) && forall k :: 0 <= k < |rows| ==> GoodRow(rows[k])
    ensures Split(escapes, Script(NodeParts(nodeLabel, rows)), "")
         == Outcome(seq(|rows|, k requires 0 <= k < |rows| => NodeStatement(nodeLabel, rows[k])), Closed)
  {
    NodePartsShape(nodeLabel, rows);
    ScriptSplits(escapes, NodeParts(nodeLabel, rows), "");
  }

  lemma {:induction false} NodePartsShape(nodeLabel: string, rows: seq<NodeRow>)
    requires Word(nodeLabel) && forall k :: 0 <= k < |rows| ==> GoodRow(rows[k])
    ensures var parts := NodeParts(nodeLabel, rows);
            (forall k :: 0 <= k < |parts| ==> Statement(parts[k].0) && AllSpace(parts[k].1))
            && Firsts(parts) == seq(|rows|, k requires 0 <= k < |rows| => NodeStatement(nodeLabel, rows[k]))
    decreases |rows|
  {
    hide NodeStatement, NodeProps, Statement, GoodRow;
    if rows != [] {
      NodePartsShape(nodeLabel, rows[1..]);
      NodeStatementReads(nodeLabel, rows[0]);
    }
  }

  // ----- relationships -----

  datatype NodeIdentity = NodeIdentity(nodeLabel: string, key: string, value: PyValue)

  datatype Relationship = Relationship(kind: string, source: NodeIdentity, target: NodeIdentity, props: seq<Property>)

  predicate GoodIdentity(n: NodeIdentity) { Word(n.nodeLabel) && Word(n.key) && WellFormed(n.value) }

  predicate GoodRelationship(r: Relationship) {
    Word(r.kind) && GoodIdentity(r.source) && GoodIdentity(r.target)
    && forall k :: 0 <= k < |r.props| ==> WellNamed(r.props[k])
  }

  function EndPattern(clause: string, n: NodeIdentity): string {
    NodePattern(clause, n.nodeLabel, n.key, EscapeCypher(n.value))
  }

  function MergePattern(open: string, kind: string): string { open + kind + "]->(t)" }

  /** The statement an edge should become: merged on its ends and type alone, properties set after. */
  function RelationshipStatement(r: Relationship): string {
    EndPattern("MATCH (s:", r.source) + "\n" + EndPattern("MATCH (t:", r.target) + "\n"
    + if r.props == [] then MergePattern("MERGE (s)-[:", r.kind)
      else MergePattern("MERGE (s)-[r:", r.kind) + "\nSET " + SetText("r", r.props)
  }

  method WriteRelationship(file: string, r: Relationship) returns (out: string)
    ensures out == file + (RelationshipStatement(r) + "" + ";\n\n")
  {
    hide EscapeCypher;
    var sourceMatch := EscapeCypher(r.source.value);
    var targetMatch := EscapeCypher(r.target.value);
    out := file + "MATCH (s:" + r.source.nodeLabel + " {" + r.source.key + ": " + sourceMatch + "})\n";
    assert out == file + (EndPattern("MATCH (s:", r.source) + "\n");
    ghost var first := out;
    out := out + "MATCH (t:" + r.target.nodeLabel + " {" + r.target.key + ": " + targetMatch + "})\n";
    assert out == first + (EndPattern("MATCH (t:", r.target) + "\n");
    ghost var second := out;
    if r.props != [] {
      out := out + "MERGE (s)-[r:" + r.kind + "]->(t)\n";
      assert out == second + (MergePattern("MERGE (s)-[r:", r.kind) + "\n");
      var setStr := SetText("r", r.props);
      out := out + "SET " + setStr + ";\n";
      RelationshipLines(file, EndPattern("MATCH (s:", r.source), EndPattern("MATCH (t:", r.target),
                        MergePattern("MERGE (s)-[r:", r.kind), setStr);
    } else {
      out := out + "MERGE (s)-[:" + r.kind + "]->(t);\n";
      assert out == second + (MergePattern("MERGE (s)-[:", r.kind) + ";\n");
      RelationshipLines(file, EndPattern("MATCH (s:", r.source), EndPattern("MATCH (t:", r.target),
                        MergePattern("MERGE (s)-[:", r.kind), "");
    }
    out := out + "\n";
  }

  lemma RelationshipLines(file: string, a: string, b: string, c: string, setStr: string)
    ensures file + (a + "\n") + (b + "\n") + (c + "\n") + "SET " + setStr + ";\n" + "\n"
         == file + (a + "\n" + b + "\n" + (c + "\nSET " + setStr) + "" + ";\n\n")
    ensures file + (a + "\n") + (b + "\n") + (c + ";\n") + "\n"
         == file + (a + "\n" + b + "\n" + c + "" + ";\n\n")
  {
  }

  function RelationshipParts(rows: seq<Relationship>): seq<(string, string)> {
    if rows == [] then [] else [(RelationshipStatement(rows[0]), "")] + RelationshipParts(rows[1..])
  }

  lemma {:induction false} RelationshipPartsSnoc(rows: seq<Relationship>, r: Relationship)
    ensures Script(RelationshipParts(rows + [r]))
         == Script(RelationshipParts(rows)) + (RelationshipStatement(r) + "" + ";\n\n")
    decreases |rows|
  {
    hide RelationshipStatement;
    if rows == [] {
      assert rows + [r] == [r] && [r][1..] == [];
      ScriptOne((RelationshipStatement(r), ""));
    } else {
      assert (rows + [r])[1..] == rows[1..] + [r];
      RelationshipPartsSnoc(rows[1..], r);
    }
  }

  /** One file of export_relationships: the text of edges routed and sorted. */
  method WriteBucket(rows: seq<Relationship>) returns (file: string)
    ensures file == Script(RelationshipParts(rows))
  {
    hide RelationshipStatement;
    file := "";
    for i := 0 to |rows|
      invariant file == Script(RelationshipParts(rows[..i]))
    {
      file := WriteRelationship(file, rows[i]);
      assert rows[..i + 1] == rows[..i] + [rows[i]];
      RelationshipPartsSnoc(rows[..i], rows[i]);
    }
    assert rows[..|rows|] == rows;
  }

  lemma MergeReads(open: string, kind: string)
    requires Plain(open) && Word(kind)
    ensures Neutral(MergePattern(open, kind))
    ensures MergePattern(open, kind) != "" && MergePattern(open, kind)[|MergePattern(open, kind)| - 1] == ')'
  {
    WordNeutral(open, kind, "]->(t)");
  }

  lemma RelationshipReads(r: Relationship)
    requires GoodRelationship(r)
    ensures Statement(RelationshipStatement(r))
  {
    hide EscapeCypher, WellNamed, SetText, WellFormed, NodePattern, MergePattern, Neutral, Word;
    assert Plain("MATCH (s:") && Plain("MATCH (t:") && Plain("MERGE (s)-[:") && Plain("MERGE (s)-[r:");
    var a, b := EndPattern("MATCH (s:", r.source), EndPattern("MATCH (t:", r.target);
    PatternReads("MATCH (s:", r.source.nodeLabel, r.source.key, r.source.value);
    PatternReads("MATCH (t:", r.target.nodeLabel, r.target.key, r.target.value);
    NeutralBetween(a, "\n", b);
    var ends := a + "\n" + b;
    if r.props == [] {
      var c := MergePattern("MERGE (s)-[:", r.kind);
      MergeReads("MERGE (s)-[:", r.kind);
      NeutralBetween(ends, "\n", c);
      assert RelationshipStatement(r) == ends + "\n" + c;
    } else {
      var c, assignments := MergePattern("MERGE (s)-[r:", r.kind), SetText("r", r.props);
      MergeReads("MERGE (s)-[r:", r.kind);
      WordN();
      SetReads("r", r.props);
      NeutralBetween(ends, "\n", c);
      NeutralBetween(ends + "\n" + c, "\nSET ", assignments);
      assert RelationshipStatement(r) == ends + "\n" + c + "\nSET " + assignments;
    }
  }

  lemma {:induction false} RelationshipPartsShape(rows: seq<Relationship>)
    requires forall k :: 0 <= k < |rows| ==> GoodRelationship(rows[k])
    ensures var parts := RelationshipParts(rows);
            (forall k :: 0 <= k < |parts| ==> Statement(parts[k].0) && AllSpace(parts[k].1))
            && Firsts(parts) == seq(|rows|, k requires 0 <= k < |rows| => RelationshipStatement(rows[k]))
    decreases |rows|
  {
    hide RelationshipStatement, Statement, GoodRelationship;
    if rows != [] {
      RelationshipPartsShape(rows[1..]);
      RelationshipReads(rows[0]);
    }
  }

  /** A relationship file splits back into one statement an edge, in order, under every splitter. */
  lemma RelationshipsRoundTrip(escapes: bool, rows: seq<Relationship>)
    requires forall k :: 0 <= k < |rows| ==> GoodRelationship(rows[k])
    ensures Split(escapes, Script(RelationshipParts(rows)), "")
         == Outcome(seq(|rows|, k requires 0 <= k < |rows| => RelationshipStatement(rows[k])), Closed)
  {
    RelationshipPartsShape(rows);
    ScriptSplits(escapes, RelationshipParts(rows), "");
  }

  // ----- reading a SET clause back -----

  function WordRun(s: string): (n: nat)
    ensures n <= |s|
  {
    if s != "" && IsWordChar(s[0]) then 1 + WordRun(s[1..]) else 0
  }

  function After(prefix: string, s: string): Option<string> {
    if prefix <= s then Some(s[|prefix|..]) else None
  }

  /** A word and the text after it, which has to start with `next`. */
  function TakeWord(next: string, s: string): Option<(string, string)> {
    var n := WordRun(s);
    match After(next, s[n..]) case None => None case Some(rest) => Some((s[..n], rest))
  }

  /** The property names and literals of `v.a = x, v.b = y`, or none when the text is not of that form. */
  function ReadSet(variable: string, s: string): Option<seq<(string, Literal)>>
    decreases |s|
  {
    match After(variable + ".", s)
    case None => None
    case Some(t) =>
      var n := WordRun(t);
      match After(" = ", t[n..])
      case None => None
      case Some(u) =>
        match Read(u)
        case None => None
        case Some(r) =>
          if r.1 == "" then Some([(t[..n], r.0)])
          else
            match After(", ", r.1)
            case None => None
            case Some(others) =>
              match ReadSet(variable, others)
              case None => None
              case Some(tail) => Some([(t[..n], r.0)] + tail)
  }

  function SetMeaning(props: seq<Property>): seq<(string, Literal)> {
    if props == [] then [] else [(props[0].name, Meaning(props[0].value))] + SetMeaning(props[1..])
  }

  lemma {:induction false} WordRunExact(w: string, rest: string)
    requires forall k :: 0 <= k < |w| ==> IsWordChar(w[k])
    requires rest != "" && !IsWordChar(rest[0])
    ensures WordRun(w + rest) == |w|
    decreases |w|
  {
    if w == "" {
      assert w + rest == rest;
    } else {
      WordRunExact(w[1..], rest);
      assert (w + rest)[1..] == w[1..] + rest;
    }
  }

  lemma AfterPrefix(prefix: string, rest: string)
    ensures After(prefix, prefix + rest) == Some(rest)
  {
    assert (prefix + rest)[|prefix|..] == rest;
  }

  lemma WordReads(w: string, next: string, rest: string)
    requires Word(w) && next != "" && !IsWordChar(next[0])
    ensures TakeWord(next, w + (next + rest)) == Some((w, rest))
  {
    var s := w + (next + rest);
    WordRunExact(w, next + rest);
    assert s[|w|..] == next + rest && s[..|w|] == w;
    AfterPrefix(next, rest);
  }

  /** Every property written comes back under its own name, with the value it was written from. */
  lemma {:induction false} SetRoundTrip(variable: string, props: seq<Property>)
    requires Word(variable) && |props| > 0 && forall k :: 0 <= k < |props| ==> WellNamed(props[k])
    ensures ReadSet(variable, SetText(variable, props)) == Some(SetMeaning(props))
    decreases |props|
  {
    hide EscapeCypher, WellFormed, Read, Meaning;
    var p := props[0];
    var value := EscapeCypher(p.value);
    var rest := if |props| == 1 then "" else ", " + SetText(variable, props[1..]);
    assert |props| == 1 ==> props[1..] == [];
    assert SetText(variable, props) == Assignment(variable, p) + rest by {
      assert Assignments(variable, props)[1..] == Assignments(variable, props[1..]);
    }
    var t := p.name + (" = " + (value + rest));
    assert Assignment(variable, p) + rest == variable + "." + t;
    ValueRoundTrip(p.value, rest);
    ReadSetStep(variable, p.name, value, Meaning(p.value), rest);
    if |props| == 1 {
      assert SetMeaning(props) == [(p.name, Meaning(p.value))];
    } else {
      AfterPrefix(", ", SetText(variable, props[1..]));
      SetRoundTrip(variable, props[1..]);
    }
  }

  lemma ReadSetStep(variable: string, name: string, value: string, lit: Literal, rest: string)
    requires Word(name) && Read(value + rest) == Some((lit, rest))
    ensures var r := ReadSet(variable, variable + "." + (name + (" = " + (value + rest))));
            r == if rest == "" then Some([(name, lit)])
                 else match After(", ", rest)
                   case None => None
                   case Some(others) =>
                     match ReadSet(variable, others)
                     case None => None
                     case Some(tail) => Some([(name, lit)] + tail)
  {
    hide Read;
    var t := name + (" = " + (value + rest));
    AfterPrefix(variable + ".", t);
    WordRunExact(name, " = " + (value + rest));
    assert t[|name|..] == " = " + (value + rest) && t[..|name|] == name;
    AfterPrefix(" = ", value + rest);
  }
}
