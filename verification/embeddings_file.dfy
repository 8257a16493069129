/**
 * The embeddings file of export_embeddings_to_cypher.py: a comment header, then UNWIND
 * statements of at most 200 rows each.
 */
module EmbeddingsFile {
  import opened Prelude
  import opened CypherSplitter
  import opened CypherValues
  import opened CypherExport

  const UNWIND_CHUNK_SIZE: nat := 200

  /** A component of a vector: the text Python prints for it, unless it is infinite or not a number. */
  datatype Float = Finite(text: string) | NonFinite

  datatype Row = Row(mitreId: string, vector: seq<Float>)

  datatype ExportError = NotFinite | NotPrintable(line: string)

  predicate AllFinite(vector: seq<Float>) { forall k :: 0 <= k < |vector| ==> vector[k].Finite? }

  function Numbers(vector: seq<Float>): seq<PyValue> {
    if vector == [] then []
    else [PyNumber(if vector[0].Finite? then vector[0].text else "nan")] + Numbers(vector[1..])
  }

  function FormatEmbedding(vector: seq<Float>): Result<string, ExportError> {
    if AllFinite(vector) then Ok(EscapeCypher(PyList(Numbers(vector)))) else Err(NotFinite)
  }

  predicate GoodVector(vector: seq<Float>) {
    forall k :: 0 <= k < |vector| ==> vector[k].Finite? && IsNumberText(vector[k].text)
  }

  // ----- rows and chunks -----

  function RowLine(field: string, row: Row): string {
    "  { " + field + ": " + StringLiteral(row.mitreId) + ", embedding: " + EscapeCypher(PyList(Numbers(row.vector))) + " }"
  }

  predicate Printed(rows: seq<Row>) { forall k :: 0 <= k < |rows| ==> AllFinite(rows[k].vector) }

  function RowLines(field: string, rows: seq<Row>): string {
    if rows == [] then ""
    else RowLine(field, rows[0]) + (if |rows| > 1 then "," else "") + "\n" + RowLines(field, rows[1..])
  }

  datatype Target = Target(nodeLabel: string, idField: string, model: string)

  function MatchLine(t: Target): string { "MATCH (n:" + t.nodeLabel + " {" + t.idField + ": row." + t.idField + "})" }

  const SET_VECTOR := "SET n.embedding = row.embedding,\n"
  const SET_MODEL := "    n.embeddingModel = "
  const SET_EMBEDDING := SET_VECTOR + SET_MODEL

  /** What follows the rows of a statement. */
  function UnwindTail(t: Target): string { "] AS row\n" + MatchLine(t) + "\n" + SET_EMBEDDING + StringLiteral(t.model) }

  function UnwindStatement(t: Target, rows: seq<Row>): string {
    "UNWIND [\n" + RowLines(t.idField, rows) + UnwindTail(t)
  }

  function ChunkLen(rows: seq<Row>): nat { if |rows| < UNWIND_CHUNK_SIZE then |rows| else UNWIND_CHUNK_SIZE }

  function Chunks(rows: seq<Row>): seq<seq<Row>>
    decreases |rows|
  {
    if rows == [] then [] else [rows[..ChunkLen(rows)]] + Chunks(rows[ChunkLen(rows)..])
  }

  function Concat(chunks: seq<seq<Row>>): seq<Row> {
    if chunks == [] then [] else chunks[0] + Concat(chunks[1..])
  }

  /** Chunking neither loses, repeats nor reorders a row, and no chunk is empty or over the limit. */
  lemma {:induction false} ChunksPartition(rows: seq<Row>)
    ensures Concat(Chunks(rows)) == rows
    ensures forall k :: 0 <= k < |Chunks(rows)| ==> 1 <= |Chunks(rows)[k]| <= UNWIND_CHUNK_SIZE
    decreases |rows|
  {
    if rows != [] {
      var n := ChunkLen(rows);
      ChunksPartition(rows[n..]);
      assert rows == rows[..n] + rows[n..];
      assert Chunks(rows)[1..] == Chunks(rows[n..]);
    }
  }

  function UnwindParts(t: Target, chunks: seq<seq<Row>>): seq<(string, string)> {
    if chunks == [] then [] else [(UnwindStatement(t, chunks[0]), "")] + UnwindParts(t, chunks[1..])
  }

  function SectionParts(t: Target, rows: seq<Row>): seq<(string, string)> {
    UnwindParts(t, Chunks(rows))
  }

  /** Python's zip: it stops at the shorter list. */
  function Zip(ids: seq<string>, vectors: seq<seq<Float>>): seq<Row> {
    if ids == [] || vectors == [] then [] else [Row(ids[0], vectors[0])] + Zip(ids[1..], vectors[1..])
  }

  function Least(a: nat, b: nat): nat { if a < b then a else b }

  lemma {:induction false} ZipAt(ids: seq<string>, vectors: seq<seq<Float>>)
    ensures |Zip(ids, vectors)| == Least(|ids|, |vectors|)
    ensures forall k :: 0 <= k < Least(|ids|, |vectors|) ==> Zip(ids, vectors)[k] == Row(ids[k], vectors[k])
    decreases |ids|
  {
    if ids != [] && vectors != [] {
      ZipAt(ids[1..], vectors[1..]);
    }
  }

  /** The row lines of a chunk: a comma after each but the last item's, which may have no vector. */
  function ChunkLines(field: string, rows: seq<Row>, more: bool): string {
    if rows == [] then ""
    else RowLine(field, rows[0]) + (if |rows| > 1 || more then "," else "") + "\n" + ChunkLines(field, rows[1..], more)
  }

  /** What one section adds to the file, chunk by chunk of its items. */
  function SectionText(t: Target, ids: seq<string>, vectors: seq<seq<Float>>): string
    decreases |ids|
  {
    if ids == [] then ""
    else
      var n, m := Least(|ids|, UNWIND_CHUNK_SIZE), Least(|vectors|, UNWIND_CHUNK_SIZE);
      ChunkText(t, ids[..n], vectors[..m]) + SectionText(t, ids[n..], vectors[m..])
  }

  function ChunkText(t: Target, ids: seq<string>, vectors: seq<seq<Float>>): string {
    "UNWIND [\n" + ChunkLines(t.idField, Zip(ids, vectors), |vectors| < |ids|) + UnwindTail(t) + ";\n\n"
  }

  /** The row lines of one UNWIND statement. */
  method WriteRows(file: string, ids: seq<string>, vectors: seq<seq<Float>>,
          field: string) returns (r: Result<string, ExportError>)
    ensures r == if Printed(Zip(ids, vectors)) then Ok(file + ChunkLines(field, Zip(ids, vectors), |vectors| < |ids|)) else Err(NotFinite)
  {
    hide EscapeCypher, StringLiteral, RowLine, AllFinite;
    ghost var rows, more := Zip(ids, vectors), |vectors| < |ids|;
    ZipAt(ids, vectors);
    assert rows[0..] == rows;
    var out := file;
    var n := Least(|ids|, |vectors|);
    for i := 0 to n
      invariant forall k :: 0 <= k < i ==> AllFinite(rows[k].vector)
      invariant out + ChunkLines(field, rows[i..], more) == file + ChunkLines(field, rows, more)
    {
      var sep := if i < |ids| - 1 then "," else "";
      var idLiteral := StringLiteral(ids[i]);
      var embedding := FormatEmbedding(vectors[i]);
      if embedding.Err? {
        assert !AllFinite(rows[i].vector);
        return Err(NotFinite);
      }
      ghost var earlier := out;
      out := out + ("  { " + field + ": " + idLiteral + ", embedding: " + embedding.value + " }") + sep + "\n";
      RowsStep(field, rows[i..], more, earlier, out, sep, idLiteral, embedding.value);
      assert rows[i..][1..] == rows[i + 1..];
    }
    assert rows[n..] == [] && out + ChunkLines(field, [], more) == out;
    return Ok(out);
  }

  /** One UNWIND statement. */
  method WriteChunk(file: string, ids: seq<string>, vectors: seq<seq<Float>>, t: Target) returns (r: Result<string, ExportError>)
    ensures r == if Printed(Zip(ids, vectors)) then Ok(file + ChunkText(t, ids, vectors)) else Err(NotFinite)
  {
    hide StringLiteral, SET_EMBEDDING, UnwindTail, MatchLine, Printed, ChunkText, ChunkLines, Zip;
    var lines := WriteRows(file + "UNWIND [\n", ids, vectors, t.idField);
    if lines.Err? { return lines; }
    var out := lines.value + "] AS row\n";
    out := out + MatchLine(t) + "\n";
    out := out + SET_EMBEDDING + StringLiteral(t.model) + ";\n\n";
    ChunkWritten(t, ids, vectors, file, out);
    return Ok(out);
  }

  /** write_unwind_chunks. A component that is not finite stops the export. */
  method WriteUnwindChunks(file: string, ids: seq<string>, vectors: seq<seq<Float>>, t: Target)
    returns (r: Result<string, ExportError>, written: nat)
    ensures r == if Printed(Zip(ids, vectors)) then Ok(file + SectionText(t, ids, vectors)) else Err(NotFinite)
    ensures r.Ok? ==> written == |ids|
  {
    hide Printed, SectionText, ChunkText, Zip;
    var n := |ids|;
    ghost var rows := Zip(ids, vectors);
    var out := file;
    var chunkStart := 0;
    written := 0;
    assert ids[0..] == ids && vectors[0..] == vectors;
    PrintedStart(rows);
    while chunkStart < n
      invariant 0 <= chunkStart && written == Least(chunkStart, n)
      invariant Printed(rows[..Least(chunkStart, |rows|)])
      invariant out + SectionText(t, ids[written..], vectors[Least(chunkStart, |vectors|)..]) == file + SectionText(t, ids, vectors)
    {
      ghost var before := out;
      var chunkIds := ids[chunkStart..Least(chunkStart + UNWIND_CHUNK_SIZE, n)];
      var chunkVectors := vectors[Least(chunkStart, |vectors|)..Least(chunkStart + UNWIND_CHUNK_SIZE, |vectors|)];
      ChunkRows(ids, vectors, chunkStart);
      PrintedUpTo(rows, Least(chunkStart, |rows|), Least(chunkStart + UNWIND_CHUNK_SIZE, |rows|));
      var chunk := WriteChunk(out, chunkIds, chunkVectors, t);
      if chunk.Err? { return Err(NotFinite), 0; }
      out := chunk.value;
      SectionFrom(t, ids, vectors, chunkStart, before);
      written := written + |chunkIds|;
      chunkStart := chunkStart + UNWIND_CHUNK_SIZE;
    }
    ZipAt(ids, vectors);
    assert ids[written..] == [] && rows[..|rows|] == rows;
    NoItems(t, vectors[Least(chunkStart, |vectors|)..], out);
    return Ok(out), written;
  }

  lemma PrintedStart(rows: seq<Row>)
    ensures Printed(rows[..0])
  {
  }

  /** A chunk pairs up what the whole lists pair up there. */
  lemma ChunkRows(ids: seq<string>, vectors: seq<seq<Float>>, start: nat)
    requires start < |ids|
    ensures var rows, stop := Zip(ids, vectors), start + UNWIND_CHUNK_SIZE;
            Zip(ids[start..Least(stop, |ids|)], vectors[Least(start, |vectors|)..Least(stop, |vectors|)])
            == rows[Least(start, |rows|)..Least(stop, |rows|)]
  {
    hide Zip;
    var stop := start + UNWIND_CHUNK_SIZE;
    ZipAt(ids, vectors);
    ZipAt(ids[start..Least(stop, |ids|)], vectors[Least(start, |vectors|)..Least(stop, |vectors|)]);
  }

  lemma SectionFrom(t: Target, ids: seq<string>, vectors: seq<seq<Float>>, start: nat, before: string)
    requires start < |ids|
    ensures var stop := start + UNWIND_CHUNK_SIZE;
            var from, to, end := Least(start, |vectors|), Least(stop, |vectors|), Least(stop, |ids|);
            before + ChunkText(t, ids[start..end], vectors[from..to]) + SectionText(t, ids[end..], vectors[to..])
            == before + SectionText(t, ids[start..], vectors[from..])
  {
    hide ChunkText, SectionText;
    var stop := start + UNWIND_CHUNK_SIZE;
    var from, to, end := Least(start, |vectors|), Least(stop, |vectors|), Least(stop, |ids|);
    SectionStep(t, ids[start..], vectors[from..]);
    assert ids[start..][..end - start] == ids[start..end] && ids[start..][end - start..] == ids[end..];
    assert vectors[from..][..to - from] == vectors[from..to] && vectors[from..][to - from..] == vectors[to..];
  }

  lemma Appended(a: string, b: string, c: string)
    ensures (a + b) + c == a + (b + c)
  {
  }

  lemma NoItems(t: Target, vectors: seq<seq<Float>>, out: string)
    ensures out + SectionText(t, [], vectors) == out
  {
  }

  lemma SectionStep(t: Target, ids: seq<string>, vectors: seq<seq<Float>>)
    requires ids != []
    ensures var n, m := Least(|ids|, UNWIND_CHUNK_SIZE), Least(|vectors|, UNWIND_CHUNK_SIZE);
            SectionText(t, ids, vectors) == ChunkText(t, ids[..n], vectors[..m]) + SectionText(t, ids[n..], vectors[m..])
  {
    hide ChunkText;
  }

  lemma ChunkWritten(t: Target, ids: seq<string>, vectors: seq<seq<Float>>, before: string, after: string)
    requires after == before + "UNWIND [\n" + ChunkLines(t.idField, Zip(ids, vectors), |vectors| < |ids|) + "] AS row\n"
                      + MatchLine(t) + "\n"
                      + SET_EMBEDDING + StringLiteral(t.model) + ";\n\n"
    ensures after == before + ChunkText(t, ids, vectors)
  {
    hide StringLiteral, SET_EMBEDDING, ChunkLines, MatchLine, Zip;
    UnwindLines(before, ChunkLines(t.idField, Zip(ids, vectors), |vectors| < |ids|), MatchLine(t), SET_EMBEDDING, StringLiteral(t.model));
  }

  lemma UnwindLines(before: string, rows: string, pattern: string, clause: string, model: string)
    ensures before + "UNWIND [\n" + rows + "] AS row\n" + pattern + "\n" + clause + model + ";\n\n"
         == before + ("UNWIND [\n" + rows + ("] AS row\n" + pattern + "\n" + clause + model) + ";\n\n")
  {
  }

  lemma RowsStep(field: string, rows: seq<Row>, more: bool, before: string, after: string, sep: string,
          idLiteral: string, embedding: string)
    requires rows != []
    requires sep == (if |rows| > 1 || more then "," else "") && idLiteral == StringLiteral(rows[0].mitreId)
    requires embedding == EscapeCypher(PyList(Numbers(rows[0].vector)))
    requires after == before + ("  { " + field + ": " + idLiteral + ", embedding: " + embedding + " }") + sep + "\n"
    ensures after + ChunkLines(field, rows[1..], more) == before + ChunkLines(field, rows, more)
  {
    hide EscapeCypher, StringLiteral, Numbers, ChunkLines;
    assert RowLine(field, rows[0]) == "  { " + field + ": " + idLiteral + ", embedding: " + embedding + " }";
    ChunkLinesStep(field, rows, more, before, sep);
  }

  lemma ChunkLinesStep(field: string, rows: seq<Row>, more: bool, before: string, sep: string)
    requires rows != [] && sep == if |rows| > 1 || more then "," else ""
    ensures before + RowLine(field, rows[0]) + sep + "\n" + ChunkLines(field, rows[1..], more) == before + ChunkLines(field, rows, more)
  {
    hide RowLine;
    FourParts(before, RowLine(field, rows[0]), sep, ChunkLines(field, rows[1..], more));
  }

  lemma FourParts(a: string, b: string, c: string, d: string)
    ensures a + b + c + "\n" + d == a + (b + c + "\n" + d)
  {
  }

  // ----- a vector for every item -----

  lemma {:induction false} EvenLines(field: string, rows: seq<Row>)
    ensures ChunkLines(field, rows, false) == RowLines(field, rows)
    decreases |rows|
  {
    hide RowLine;
    if rows != [] { EvenLines(field, rows[1..]); }
  }

  lemma EvenChunk(t: Target, ids: seq<string>, vectors: seq<seq<Float>>)
    requires |ids| <= |vectors|
    ensures ChunkText(t, ids, vectors) == UnwindStatement(t, Zip(ids, vectors)) + ";\n\n"
  {
    hide RowLines, ChunkLines, UnwindTail, Zip;
    EvenLines(t.idField, Zip(ids, vectors));
  }

  /** Where every item has a vector the section is the script of its statements; vectors left over are not written. */
  lemma {:induction false} EvenSection(t: Target, ids: seq<string>, vectors: seq<seq<Float>>)
    requires |ids| <= |vectors|
    ensures SectionText(t, ids, vectors) == Script(SectionParts(t, Zip(ids, vectors)))
    decreases |ids|
  {
    hide ChunkText, UnwindStatement, SectionParts;
    var rows := Zip(ids, vectors);
    if ids == [] {
      NoRows(t);
    } else {
      var n, m := Least(|ids|, UNWIND_CHUNK_SIZE), Least(|vectors|, UNWIND_CHUNK_SIZE);
      ZipAt(ids, vectors);
      ZipAt(ids[..n], vectors[..m]);
      ZipAt(ids[n..], vectors[m..]);
      assert rows[..n] == Zip(ids[..n], vectors[..m]);
      if |ids| <= UNWIND_CHUNK_SIZE {
        assert rows[n..] == [] && Zip(ids[n..], vectors[m..]) == [];
      } else {
        assert rows[n..] == Zip(ids[n..], vectors[m..]);
      }
      EvenChunk(t, ids[..n], vectors[..m]);
      EvenSection(t, ids[n..], vectors[m..]);
      ScriptStep(t, rows);
    }
  }

  lemma NoRows(t: Target)
    ensures Script(SectionParts(t, [])) == ""
  {
  }

  lemma PrintedUpTo(rows: seq<Row>, start: nat, stop: nat)
    requires start <= stop <= |rows|
    ensures Printed(rows[..start]) && Printed(rows[start..stop]) ==> Printed(rows[..stop])
    ensures !Printed(rows[start..stop]) ==> !Printed(rows)
    ensures start == 0 ==> Printed(rows[..start])
  {
    hide AllFinite;
    var chunk := rows[start..stop];
    if Printed(rows[..start]) && Printed(chunk) {
      forall k | 0 <= k < stop ensures AllFinite(rows[..stop][k].vector) {
        assert if k < start then rows[..start][k] == rows[k] else chunk[k - start] == rows[k];
      }
    }
    if !Printed(chunk) {
      var k :| 0 <= k < |chunk| && !AllFinite(chunk[k].vector);
      assert chunk[k] == rows[start + k];
    }
  }

  lemma ScriptStep(t: Target, rows: seq<Row>)
    requires rows != []
    ensures var n := ChunkLen(rows);
            Script(SectionParts(t, rows)) == UnwindStatement(t, rows[..n]) + ";\n\n" + Script(SectionParts(t, rows[n..]))
  {
    hide UnwindStatement;
    var n := ChunkLen(rows);
    ChunksPartition(rows);
    assert Chunks(rows)[1..] == Chunks(rows[n..]);
    var first := (UnwindStatement(t, rows[..n]), "");
    assert SectionParts(t, rows) == [first] + SectionParts(t, rows[n..]);
    assert SectionParts(t, rows)[1..] == SectionParts(t, rows[n..]);
    assert first.0 + "" == first.0;
  }

  // ----- the file -----

  /** A section of the file: where its rows go, and the items with their vectors. */
  datatype Section = Section(target: Target, ids: seq<string>, vectors: seq<seq<Float>>)

  datatype Provider = Provider(modelName: string, dimensions: string, headerLines: seq<string>)

  /** Characters outside `str.isprintable`, among them everything that can end a line. */
  predicate Unprintable(c: char) {
    c < ' ' || '\U{007F}' <= c <= '\U{00A0}' || c == '\U{00AD}' || '\U{2000}' <= c <= '\U{200F}' || '\U{2028}' <= c <= '\U{202F}'
  }

  predicate Printable(line: string) { forall k :: 0 <= k < |line| ==> !Unprintable(line[k]) }

  function Header(provider: Provider, stamp: string): seq<string> {
    ["// Generated by mitre-frameworks " + "export_embeddings_to_cypher.py at " + stamp,
     "// Model: " + provider.modelName + "  Dimensions: " + provider.dimensions]
    + provider.headerLines + ["// Source: mitre-frameworks build"]
  }

  /** Every item has a vector. */
  predicate SectionOk(s: Section) { |s.ids| <= |s.vectors| }

  predicate SectionFinite(s: Section) { Printed(Zip(s.ids, s.vectors)) }

  function FileParts(sections: seq<Section>): seq<(string, string)> {
    if sections == [] then []
    else SectionParts(sections[0].target, Zip(sections[0].ids, sections[0].vectors)) + FileParts(sections[1..])
  }

  function FileText(sections: seq<Section>): string {
    if sections == [] then "" else SectionText(sections[0].target, sections[0].ids, sections[0].vectors) + FileText(sections[1..])
  }

  /** The text written: the header, a blank line, the sections. */
  function FileOf(provider: Provider, stamp: string, sections: seq<Section>): string {
    Join(Header(provider, stamp), "\n") + "\n\n" + FileText(sections)
  }

  predicate HeaderPrintable(provider: Provider, stamp: string) {
    forall k :: 0 <= k < |Header(provider, stamp)| ==> Printable(Header(provider, stamp)[k])
  }

  lemma {:induction false} EvenFile(sections: seq<Section>)
    requires forall k :: 0 <= k < |sections| ==> SectionOk(sections[k])
    ensures FileText(sections) == Script(FileParts(sections))
    decreases |sections|
  {
    hide SectionText, SectionParts;
    if sections != [] {
      var s := sections[0];
      EvenFile(sections[1..]);
      EvenSection(s.target, s.ids, s.vectors);
      ScriptConcat(SectionParts(s.target, Zip(s.ids, s.vectors)), FileParts(sections[1..]));
    }
  }

  lemma {:induction false} ScriptConcat(a: seq<(string, string)>, b: seq<(string, string)>)
    ensures Script(a + b) == Script(a) + Script(b) && Firsts(a + b) == Firsts(a) + Firsts(b)
    decreases |a|
  {
    if a == [] {
      assert a + b == b;
    } else {
      assert (a + b)[1..] == a[1..] + b;
      ScriptConcat(a[1..], b);
    }
  }

  /** write_cypher_file: nothing is written for a header line that is not printable. */
  method WriteCypherFile(provider: Provider, stamp: string, sections: seq<Section>) returns (r: Result<string, ExportError>)
    ensures r.Ok? <==> HeaderPrintable(provider, stamp) && forall k :: 0 <= k < |sections| ==> SectionFinite(sections[k])
    ensures r.Ok? ==> r.value == FileOf(provider, stamp, sections)
  {
    hide Header, SectionText;
    var header := Header(provider, stamp);
    for i := 0 to |header|
      invariant forall k :: 0 <= k < i ==> Printable(header[k])
    {
      if !Printable(header[i]) {
        return Err(NotPrintable(header[i]));
      }
    }
    var file := Join(header, "\n") + "\n\n";
    ghost var top := file;
    for i := 0 to |sections|
      invariant forall k :: 0 <= k < i ==> SectionFinite(sections[k])
      invariant file == top + FileText(sections[..i])
    {
      var s := sections[i];
      var w, written := WriteUnwindChunks(file, s.ids, s.vectors, s.target);
      if w.Err? {
        return Err(w.error);
      }
      FileTextSnoc(sections[..i], s);
      assert sections[..i + 1] == sections[..i] + [s];
      Appended(top, FileText(sections[..i]), SectionText(s.target, s.ids, s.vectors));
      file := w.value;
    }
    assert sections[..|sections|] == sections;
    return Ok(file);
  }

  lemma {:induction false} FileTextSnoc(sections: seq<Section>, s: Section)
    ensures FileText(sections + [s]) == FileText(sections) + SectionText(s.target, s.ids, s.vectors)
    decreases |sections|
  {
    hide SectionText;
    if sections == [] {
      assert (sections + [s])[1..] == [];
    } else {
      assert (sections + [s])[1..] == sections[1..] + [s];
      FileTextSnoc(sections[1..], s);
    }
  }

  predicate IsComment(line: string) { |line| >= 2 && line[0] == line[1] == '/' && Printable(line) }

  function LineBreaks(n: nat): string { if n == 0 then "" else "\n" + LineBreaks(n - 1) }

  lemma CommentLine(escapes: bool, line: string, rest: string, current: string)
    requires IsComment(line)
    ensures Split(escapes, line + "\n" + rest, current) == Split(escapes, rest, current + "\n")
  {
    forall k | 0 <= k < |line| ensures line[k] != '\n' { assert !Unprintable(line[k]); }
    assert line == "//" + line[2..];
    SplitLineComment(escapes, line[2..], rest, current);
  }

  /** A header of comment lines leaves nothing but line breaks in front of what follows. */
  lemma {:induction false} HeaderIsDropped(escapes: bool, header: seq<string>, rest: string, current: string)
    requires |header| > 0 && forall k :: 0 <= k < |header| ==> IsComment(header[k])
    ensures Split(escapes, Join(header, "\n") + "\n" + rest, current) == Split(escapes, rest, current + LineBreaks(|header|))
    decreases |header|
  {
    hide IsComment, Split;
    var line := header[0];
    if |header| == 1 {
      CommentLine(escapes, line, rest, current);
      assert LineBreaks(1) == "\n";
    } else {
      var more := Join(header[1..], "\n") + "\n" + rest;
      CommentLine(escapes, line, more, current);
      assert Join(header, "\n") + "\n" + rest == line + "\n" + more;
      HeaderIsDropped(escapes, header[1..], rest, current + "\n");
      assert current + "\n" + LineBreaks(|header| - 1) == current + LineBreaks(|header|);
    }
  }

  lemma {:induction false} LineBreaksBlank(n: nat)
    ensures AllSpace(LineBreaks(n))
  {
    if n > 0 { LineBreaksBlank(n - 1); }
  }

  predicate GoodTarget(t: Target) { Word(t.nodeLabel) && Word(t.idField) }

  predicate GoodRows(rows: seq<Row>) { forall k :: 0 <= k < |rows| ==> GoodVector(rows[k].vector) }

  lemma {:induction false} NumbersGood(vector: seq<Float>)
    requires GoodVector(vector)
    ensures WellFormed(PyList(Numbers(vector)))
    decreases |vector|
  {
    if vector != [] {
      NumbersGood(vector[1..]);
      assert Numbers(vector) == [PyNumber(vector[0].text)] + Numbers(vector[1..]);
    }
  }

  lemma RowLineReads(field: string, row: Row)
    requires Word(field) && GoodVector(row.vector)
    ensures Neutral(RowLine(field, row))
  {
    hide EscapeCypher, StringLiteral, Neutral, Word, WellFormed;
    WordNeutral("  { ", field, ": ");
    LiteralNeutral(row.mitreId);
    NumbersGood(row.vector);
    ValueNeutral(PyList(Numbers(row.vector)));
    var a, id, v := "  { " + field + ": ", StringLiteral(row.mitreId), EscapeCypher(PyList(Numbers(row.vector)));
    NeutralConcat(a, id);
    NeutralBetween(a + id, ", embedding: ", v);
    PlainIsNeutral(" }");
    NeutralConcat(a + id + ", embedding: " + v, " }");
    assert a + id + ", embedding: " + v + " }" == RowLine(field, row);
  }

  lemma {:induction false} RowLinesRead(field: string, rows: seq<Row>)
    requires Word(field) && GoodRows(rows)
    ensures Neutral(RowLines(field, rows))
    decreases |rows|
  {
    hide RowLine, Neutral, Word;
    PlainIsNeutral("");
    if rows != [] {
      RowLineReads(field, rows[0]);
      RowLinesRead(field, rows[1..]);
      var line, more := RowLine(field, rows[0]), RowLines(field, rows[1..]);
      NeutralBetween(line, if |rows| > 1 then ",\n" else "\n", more);
      assert RowLines(field, rows) == line + (if |rows| > 1 then ",\n" else "\n") + more;
    }
  }

  lemma SetEmbeddingPlain()
    ensures Plain(SET_EMBEDDING)
  {
    assert Plain(SET_VECTOR);
    assert Plain(SET_MODEL);
  }

  lemma UnwindReads(t: Target, rows: seq<Row>)
    requires GoodTarget(t) && GoodRows(rows)
    ensures Statement(UnwindStatement(t, rows))
  {
    hide RowLines, Neutral, StringLiteral, SET_EMBEDDING, Word, GoodRows, Plain;
    RowLinesRead(t.idField, rows);
    var body, pattern, model := RowLines(t.idField, rows), MatchLine(t), StringLiteral(t.model);
    MatchLineReads(t);
    LiteralNeutral(t.model);
    SmallPlain();
    NeutralBrackets("UNWIND [\n", body, "] AS row\n");
    var a := "UNWIND [\n" + body + "] AS row\n";
    NeutralConcat(a, pattern);
    SetEmbeddingPlain();
    NeutralBetween(a + pattern, "\n", "") by { PlainIsNeutral(""); }
    NeutralBetween(a + pattern + "\n" + "", SET_EMBEDDING, model);
    assert a + pattern + "\n" + "" + SET_EMBEDDING + model == UnwindStatement(t, rows);
    assert model != "" && model[|model| - 1] == '"' by { LiteralEnds(t.model); }
    assert UnwindStatement(t, rows)[0] == 'U';
  }

  lemma SmallPlain()
    ensures Plain("UNWIND [\n") && Plain("] AS row\n") && Plain("\n") && Plain("")
  {
  }

  lemma LiteralEnds(s: string)
    ensures StringLiteral(s) != "" && StringLiteral(s)[|StringLiteral(s)| - 1] == '"'
  {
    hide EscapeText;
  }

  lemma MatchLineReads(t: Target)
    requires GoodTarget(t)
    ensures Neutral(MatchLine(t))
  {
    hide Word, Neutral;
    WordNeutral("MATCH (n:", t.nodeLabel, " {");
    WordNeutral("", t.idField, ": row.");
    WordNeutral("", t.idField, "})");
    var a, b, c := "MATCH (n:" + t.nodeLabel + " {", "" + t.idField + ": row.", "" + t.idField + "})";
    NeutralConcat(a, b);
    NeutralConcat(a + b, c);
    assert a + b + c == MatchLine(t);
  }

  // ----- what the file splits into -----

  predicate GoodSection(s: Section) {
    GoodTarget(s.target) && GoodRows(Zip(s.ids, s.vectors))
  }

  function SectionStatements(t: Target, rows: seq<Row>): seq<string> {
    var chunks := Chunks(rows);
    seq(|chunks|, k requires 0 <= k < |chunks| => UnwindStatement(t, chunks[k]))
  }

  function FileStatements(sections: seq<Section>): seq<string> {
    if sections == [] then []
    else SectionStatements(sections[0].target, Zip(sections[0].ids, sections[0].vectors)) + FileStatements(sections[1..])
  }

  lemma {:induction false} UnwindPartsShape(t: Target, chunks: seq<seq<Row>>)
    requires GoodTarget(t) && forall k :: 0 <= k < |chunks| ==> GoodRows(chunks[k])
    ensures var parts := UnwindParts(t, chunks);
            (forall k :: 0 <= k < |parts| ==> Statement(parts[k].0) && AllSpace(parts[k].1))
            && Firsts(parts) == seq(|chunks|, k requires 0 <= k < |chunks| => UnwindStatement(t, chunks[k]))
    decreases |chunks|
  {
    hide UnwindStatement, Statement, GoodRows, GoodTarget;
    if chunks != [] {
      UnwindPartsShape(t, chunks[1..]);
      UnwindReads(t, chunks[0]);
    }
  }

  lemma {:induction false} ChunksGood(rows: seq<Row>)
    requires GoodRows(rows)
    ensures forall k :: 0 <= k < |Chunks(rows)| ==> GoodRows(Chunks(rows)[k])
    decreases |rows|
  {
    hide GoodVector;
    if rows != [] {
      var n := ChunkLen(rows);
      ChunksGood(rows[n..]);
      assert Chunks(rows) == [rows[..n]] + Chunks(rows[n..]);
    }
  }

  lemma {:induction false} FilePartsShape(sections: seq<Section>)
    requires forall k :: 0 <= k < |sections| ==> GoodSection(sections[k])
    ensures var parts := FileParts(sections);
            (forall k :: 0 <= k < |parts| ==> Statement(parts[k].0) && AllSpace(parts[k].1))
            && Firsts(parts) == FileStatements(sections)
    decreases |sections|
  {
    hide UnwindStatement, Statement, GoodRows, GoodTarget;
    if sections != [] {
      FilePartsShape(sections[1..]);
      var s := sections[0];
      var rows := Zip(s.ids, s.vectors);
      ChunksPartition(rows);
      ChunksGood(rows);
      UnwindPartsShape(s.target, Chunks(rows));
      ScriptConcat(SectionParts(s.target, rows), FileParts(sections[1..]));
    }
  }

  /** A written file splits into exactly its UNWIND statements, section by section; the header is gone. */
  lemma FileRoundTrip(escapes: bool, header: seq<string>, sections: seq<Section>)
    requires |header| > 0 && forall k :: 0 <= k < |header| ==> IsComment(header[k])
    requires forall k :: 0 <= k < |sections| ==> GoodSection(sections[k])
    ensures Split(escapes, Join(header, "\n") + "\n\n" + Script(FileParts(sections)), "")
         == Outcome(FileStatements(sections), Closed)
  {
    hide GoodSection, IsComment, Join, Statement, FileParts, FileStatements, Script, Split;
    var script := Script(FileParts(sections));
    HeaderIsDropped(escapes, header, "\n" + script, "");
    assert Join(header, "\n") + "\n\n" + script == Join(header, "\n") + "\n" + ("\n" + script);
    var blank := "" + LineBreaks(|header|);
    LineBreaksBlank(|header|);
    PlainIsNeutral("\n");
    FilePartsShape(sections);
    ScriptSplits(escapes, FileParts(sections), blank + "\n");
  }

  // ----- reading the rows of a statement back -----

  function ReadRows(field: string, s: string): Option<(seq<(Literal, Literal)>, string)>
    decreases |s|
  {
    match After("  { " + field + ": ", s)
    case None => None
    case Some(a) =>
      match Read(a)
      case None => None
      case Some(id) =>
        match After(", embedding: ", id.1)
        case None => None
        case Some(b) =>
          match Read(b)
          case None => None
          case Some(vector) =>
            match After(" },\n", vector.1)
            case Some(more) =>
              (match ReadRows(field, more)
               case None => None
               case Some(r) => Some(([(id.0, vector.0)] + r.0, r.1)))
            case None =>
              match After(" }\n", vector.1)
              case None => None
              case Some(rest) => Some(([(id.0, vector.0)], rest))
  }

  function RowMeaning(row: Row): (Literal, Literal) {
    (Quoted(FlattenSpace(row.mitreId)), Meaning(PyList(Numbers(row.vector))))
  }

  function RowMeanings(rows: seq<Row>): seq<(Literal, Literal)> {
    if rows == [] then [] else [RowMeaning(rows[0])] + RowMeanings(rows[1..])
  }

  lemma ReadRowStep(field: string, row: Row, rest: string)
    requires GoodVector(row.vector) && (After(" },\n", rest).Some? || After(" }\n", rest).Some?)
    requires rest != "" && rest[0] == ' '
    ensures var r := ReadRows(field, RowHead(field, row) + rest);
            match After(" },\n", rest)
            case Some(more) =>
              (match ReadRows(field, more)
               case None => r == None
               case Some(others) => r == Some(([RowMeaning(row)] + others.0, others.1)))
            case None =>
              match After(" }\n", rest)
              case None => true
              case Some(after) => r == Some(([RowMeaning(row)], after))
  {
    hide EscapeCypher, StringLiteral, Read, Meaning, FlattenSpace;
    var id, v := StringLiteral(row.mitreId), EscapeCypher(PyList(Numbers(row.vector)));
    var prefix := "  { " + field + ": ";
    var s := prefix + id + ", embedding: " + v + rest;
    assert s == prefix + (id + (", embedding: " + (v + rest)));
    AfterPrefix(prefix, id + (", embedding: " + (v + rest)));
    TextRoundTrip(row.mitreId, ", embedding: " + (v + rest));
    AfterPrefix(", embedding: ", v + rest);
    NumbersGood(row.vector);
    ValueRoundTrip(PyList(Numbers(row.vector)), rest);
  }

  /** The rows of a chunk read back as the items' ids with their vectors, in order. */
  lemma {:induction false} RowsRoundTrip(field: string, rows: seq<Row>, rest: string)
    requires rows != [] && GoodRows(rows)
    ensures ReadRows(field, RowLines(field, rows) + rest) == Some((RowMeanings(rows), rest))
    decreases |rows|
  {
    hide RowHead, RowLine, ReadRows, RowMeaning;
    var line := RowLine(field, rows[0]);
    var row, head := rows[0], RowHead(field, rows[0]);
    assert line == head + " }" by { RowHeadLine(field, rows[0]); }
    if |rows| == 1 {
      var tail := " }\n" + rest;
      assert rows[1..] == [];
      assert RowLines(field, rows) + rest == head + tail;
      assert tail[2] == '\n';
      assert After(" },\n", tail) == None;
      AfterPrefix(" }\n", rest);
      ReadRowStep(field, row, tail);
      assert RowMeanings(rows) == [RowMeaning(row)];
    } else {
      var more := RowLines(field, rows[1..]) + rest;
      var tail := " },\n" + more;
      assert RowLines(field, rows) + rest == head + tail;
      AfterPrefix(" },\n", more);
      RowsRoundTrip(field, rows[1..], rest);
      ReadRowStep(field, row, tail);
    }
  }

  function RowHead(field: string, row: Row): string {
    "  { " + field + ": " + StringLiteral(row.mitreId) + ", embedding: " + EscapeCypher(PyList(Numbers(row.vector)))
  }

  lemma RowHeadLine(field: string, row: Row)
    ensures RowLine(field, row) == RowHead(field, row) + " }"
  {
    hide EscapeCypher, StringLiteral;
  }

  // ----- the file read back -----

  /** What a statement says besides its rows: the nodes it matches, by which field of theirs and of the row, and the model. */
  datatype Head = Head(nodeLabel: string, nodeField: string, rowField: string, model: Literal)

  /** `MATCH (n:Label {field: row.field})` with the vector and the model set on the node. */
  function ReadTail(s: string): Option<Head> {
    match After("] AS row\nMATCH (n:", s)
    case None => None
    case Some(a) =>
      match TakeWord(" {", a)
      case None => None
      case Some(nodeLabel) =>
        match TakeWord(": row.", nodeLabel.1)
        case None => None
        case Some(nodeField) =>
          match TakeWord("})\n", nodeField.1)
          case None => None
          case Some(rowField) =>
            match After("SET n.embedding = row.embedding,\n", rowField.1)
            case None => None
            case Some(b) =>
              match After("    n.embeddingModel = ", b)
              case None => None
              case Some(c) =>
                match Read(c)
                case None => None
                case Some(model) => if model.1 == "" then Some(Head(nodeLabel.0, nodeField.0, rowField.0, model.0)) else None
  }

  /** A statement's head and its rows, each of which names its item under the given field. */
  function ReadUnwind(field: string, s: string): Option<(Head, seq<(Literal, Literal)>)> {
    match After("UNWIND [\n", s)
    case None => None
    case Some(a) =>
      match ReadRows(field, a)
      case None => None
      case Some(r) => match ReadTail(r.1) case None => None case Some(head) => Some((head, r.0))
  }

  /** The rows of several statements with one head, one after the other, if the rows name their items as the head does. */
  function ReadUnwinds(head: Head, statements: seq<string>): Option<seq<(Literal, Literal)>> {
    if statements == [] then Some([])
    else
      match ReadUnwind(head.rowField, statements[0])
      case None => None
      case Some(first) =>
        match ReadUnwinds(head, statements[1..])
        case None => None
        case Some(more) => if first.0 == head then Some(first.1 + more) else None
  }

  /** The head that means the target: its label, its field on both sides, and its model. */
  function HeadOf(t: Target): Head { Head(t.nodeLabel, t.idField, t.idField, Quoted(FlattenSpace(t.model))) }

  lemma TailReadsBack(t: Target)
    requires GoodTarget(t)
    ensures ReadTail(UnwindTail(t)) == Some(HeadOf(t))
  {
    hide StringLiteral, Word, Read, FlattenSpace, TakeWord, Plain;
    var model := StringLiteral(t.model);
    var fromModel := "    n.embeddingModel = " + (model + "");
    var fromVector := "SET n.embedding = row.embedding,\n" + fromModel;
    var fromRow := t.idField + ("})\n" + fromVector);
    var fromNode := t.idField + (": row." + fromRow);
    var fromLabel := t.nodeLabel + (" {" + fromNode);
    TailText(t, model, fromVector);
    AfterPrefix("] AS row\nMATCH (n:", fromLabel);
    WordReads(t.nodeLabel, " {", fromNode);
    WordReads(t.idField, ": row.", fromRow);
    WordReads(t.idField, "})\n", fromVector);
    AfterPrefix("SET n.embedding = row.embedding,\n", fromModel);
    AfterPrefix("    n.embeddingModel = ", model + "");
    TextRoundTrip(t.model, "");
  }

  lemma TailText(t: Target, model: string, fromVector: string)
    requires model == StringLiteral(t.model) && fromVector == SET_VECTOR + (SET_MODEL + (model + ""))
    ensures UnwindTail(t) == "] AS row\nMATCH (n:" + (t.nodeLabel + (" {" + (t.idField + (": row." + (t.idField + ("})\n" + fromVector))))))
  {
    hide StringLiteral, Word, SET_VECTOR, SET_MODEL;
    assert "] AS row\n" + "MATCH (n:" == "] AS row\nMATCH (n:";
    assert "})" + "\n" == "})\n";
    assert fromVector == SET_EMBEDDING + model;
  }

  lemma UnwindReadsBack(t: Target, rows: seq<Row>)
    requires GoodTarget(t) && rows != [] && GoodRows(rows)
    ensures ReadUnwind(t.idField, UnwindStatement(t, rows)) == Some((HeadOf(t), RowMeanings(rows)))
  {
    hide RowLines, ReadRows, UnwindTail, RowMeanings, GoodRows, GoodTarget, HeadOf, ReadTail;
    var lines := RowLines(t.idField, rows);
    assert UnwindStatement(t, rows) == "UNWIND [\n" + (lines + UnwindTail(t));
    AfterPrefix("UNWIND [\n", lines + UnwindTail(t));
    RowsRoundTrip(t.idField, rows, UnwindTail(t));
    TailReadsBack(t);
  }

  lemma {:induction false} MeaningsConcat(a: seq<Row>, b: seq<Row>)
    ensures RowMeanings(a + b) == RowMeanings(a) + RowMeanings(b)
    decreases |a|
  {
    hide RowMeaning;
    if a == [] {
      assert a + b == b;
    } else {
      assert (a + b)[1..] == a[1..] + b;
      MeaningsConcat(a[1..], b);
    }
  }

  lemma {:induction false} ChunksReadBack(t: Target, chunks: seq<seq<Row>>)
    requires GoodTarget(t) && forall k :: 0 <= k < |chunks| ==> chunks[k] != [] && GoodRows(chunks[k])
    ensures var statements := seq(|chunks|, k requires 0 <= k < |chunks| => UnwindStatement(t, chunks[k]));
            ReadUnwinds(HeadOf(t), statements) == Some(RowMeanings(Concat(chunks)))
    decreases |chunks|
  {
    hide UnwindStatement, ReadUnwind, GoodRows, GoodTarget;
    if chunks != [] {
      var statements := seq(|chunks|, k requires 0 <= k < |chunks| => UnwindStatement(t, chunks[k]));
      var rest := chunks[1..];
      UnwindReadsBack(t, chunks[0]);
      ChunksReadBack(t, rest);
      assert statements[1..] == seq(|rest|, k requires 0 <= k < |rest| => UnwindStatement(t, rest[k]));
      MeaningsConcat(chunks[0], Concat(rest));
    }
  }

  lemma SectionReadsBack(t: Target, rows: seq<Row>)
    requires GoodTarget(t) && GoodRows(rows)
    ensures ReadUnwinds(HeadOf(t), SectionStatements(t, rows)) == Some(RowMeanings(rows))
  {
    hide GoodRows;
    ChunksPartition(rows);
    ChunksGood(rows);
    ChunksReadBack(t, Chunks(rows));
  }

  /** The header's lines are comments, where the provider's own lines are and all of them were printable. */
  lemma HeaderIsComment(provider: Provider, stamp: string)
    requires HeaderPrintable(provider, stamp)
    requires forall k :: 0 <= k < |provider.headerLines| ==> "//" <= provider.headerLines[k]
    ensures forall k :: 0 <= k < |Header(provider, stamp)| ==> IsComment(Header(provider, stamp)[k])
  {
    hide Printable;
    var header := Header(provider, stamp);
    forall k | 0 <= k < |header| ensures IsComment(header[k]) {
      assert "//" <= header[k] by { HeaderLine(provider, stamp, k); }
      assert Printable(Header(provider, stamp)[k]);
      assert header[k][..2] == "//" && header[k][0] == header[k][..2][0] && header[k][1] == header[k][..2][1];
    }
  }

  lemma HeaderLine(provider: Provider, stamp: string, k: nat)
    requires k < |Header(provider, stamp)| && forall i :: 0 <= i < |provider.headerLines| ==> "//" <= provider.headerLines[i]
    ensures "//" <= Header(provider, stamp)[k]
  {
    var header := Header(provider, stamp);
    if 2 <= k < |header| - 1 {
      assert header[k] == provider.headerLines[k - 2];
    } else if k == |header| - 1 {
      assert header[k] == "// Source: mitre-frameworks build";
    } else if k == 0 {
      Starts("// Generated by mitre-frameworks ", "export_embeddings_to_cypher.py at ");
      Starts("// Generated by mitre-frameworks " + "export_embeddings_to_cypher.py at ", stamp);
    } else {
      Starts("// Model: ", provider.modelName);
      Starts("// Model: " + provider.modelName, "  Dimensions: ");
      Starts("// Model: " + provider.modelName + "  Dimensions: ", provider.dimensions);
    }
  }

  lemma Starts(a: string, b: string)
    requires "//" <= a
    ensures "//" <= a + b
  {
  }

  function Flatten(groups: seq<seq<string>>): seq<string> {
    if groups == [] then [] else groups[0] + Flatten(groups[1..])
  }

  lemma {:induction false} Grouped(sections: seq<Section>) returns (groups: seq<seq<string>>)
    requires forall k :: 0 <= k < |sections| ==> GoodSection(sections[k])
    ensures Flatten(groups) == FileStatements(sections) && |groups| == |sections|
    ensures forall k :: 0 <= k < |groups| ==>
              ReadUnwinds(HeadOf(sections[k].target), groups[k]) == Some(RowMeanings(Zip(sections[k].ids, sections[k].vectors)))
    decreases |sections|
  {
    hide SectionStatements, ReadUnwinds, RowMeanings, Zip, GoodRows, GoodTarget, HeadOf;
    groups := [];
    if sections != [] {
      var s := sections[0];
      var more := Grouped(sections[1..]);
      SectionReadsBack(s.target, Zip(s.ids, s.vectors));
      groups := [SectionStatements(s.target, Zip(s.ids, s.vectors))] + more;
      assert groups[1..] == more;
    }
  }

  /**
   * The file, from writing to reading: the loaders split what was written into one group of statements
   * a section, and the rows of each group are the section's items paired with their vectors, in order.
   */
  lemma FileReadsBack(escapes: bool, provider: Provider, stamp: string, sections: seq<Section>)
    returns (groups: seq<seq<string>>)
    requires HeaderPrintable(provider, stamp)
    requires forall k :: 0 <= k < |provider.headerLines| ==> "//" <= provider.headerLines[k]
    requires forall k :: 0 <= k < |sections| ==> GoodSection(sections[k]) && SectionOk(sections[k])
    ensures Split(escapes, FileOf(provider, stamp, sections), "") == Outcome(Flatten(groups), Closed) && |groups| == |sections|
    ensures forall k :: 0 <= k < |sections| ==>
              ReadUnwinds(HeadOf(sections[k].target), groups[k]) == Some(RowMeanings(Zip(sections[k].ids, sections[k].vectors)))
  {
    hide GoodSection, Split, Header, FileText, FileParts, Script, Zip, ReadUnwinds, RowMeanings, IsComment, HeaderPrintable, HeadOf;
    HeaderIsComment(provider, stamp);
    assert |Header(provider, stamp)| > 0 by { HeaderLong(provider, stamp); }
    EvenFile(sections);
    FileRoundTrip(escapes, Header(provider, stamp), sections);
    groups := Grouped(sections);
  }

  lemma HeaderLong(provider: Provider, stamp: string)
    ensures |Header(provider, stamp)| >= 3
  {
  }
}
