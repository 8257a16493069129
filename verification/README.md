# Dethernety: proofs about its protocols, printers and trees

This project models the self-contained algorithms and state machines of Dethernety, a threat-modelling
platform, and proves what they promise. Each file is one component. Code that updates state is a class or
a loop proved against a specification function or relation; the results about that specification are lemmas.

| file | component |
|---|---|
| `splitter.dfy`, `splitter_text.dfy`, `splitter_rules.dfy` | the four Cypher statement splitters (Go, TypeScript, two in Python) as loops, one reference split and what it does to comments and literals, and where the loader's rule differs |
| `cypher_values.dfy`, `cypher_export.dfy`, `export_readback.dfy` | the exporter's escaping and its node and relationship files, with a reader for what is printed |
| `export_order.dfy`, `stable_sort.dfy` | which nodes and edges the exporter writes, into which file and in what order |
| `embeddings_file.dfy`, `embed_cache.dfy` | the embeddings file and the cache that feeds it |
| `flat_key_path.dfy`, `flat_key_text.dfy`, `flat_key_tree.dfy`, `flat_key_rebuild.dfy`, `flat_key_reasons.dfy`, `flat_keys.dfy` | the flat-key rebuild, as a function on trees and as the in-place algorithm on a heap, and why a key is left out |
| `analysis_runs.dfy` | the run registry and stream publisher, as steps between awaits and as objects |
| `ddl.dfy`, `schema.dfy`, `schema_runs.dfy`, `schema_report.dfy` | schema-object names, reconciliation against an engine where any statement may fail, and what it reports |
| `schema_second_run.dfy`, `schema_moves.dfy`, `schema_plans.dfy` | what a second reconciliation can change after a first one without failures, schema by schema and plan by plan |
| `zoning.dfy` | the zoning adapter: a parent map made into a bounded tree |
| `operation_fields.dfy`, `operation_served.dfy` | the operation-field rewriter over recursive JSON, and what is served |
| `payload_digest.dfy` | the bytes the payload digest feeds its hash |
| `remote_module.dfy`, `remote_settlement.dfy` | the remote module's registration, refreshes and policy hashes, and what its settlements leave it serving |
| `rego_engine.dfy`, `rego_laws.dfy` | the Rego engine registry and its manually freed engines, and source blanking |
| `atlas_crosswalk.dfy`, `atlas_bundle.dfy` | the ATLAS loader: the revoked-by walk and the bundle parser |
| `prelude.dfy`, `decimal.dfy`, `string_order.dfy` | options and results, decimal text, sorting |

## How the world is modelled

- **Interleaving.** What runs between two awaits is one atomic step, and the theorems quantify over every
  sequence of steps, so they also cover orders the JavaScript runtime would not choose. Publishing to the
  channel does not throw.
- **Foreign calls** (the graph engine, the content service, the embedding provider, the WASM engine, SHA-256)
  are oracles: they may answer anything or fail, and where a function of its input is meant it is an unknown
  total function.
- **Neo4j.** A `CREATE ... IF NOT EXISTS` does nothing when an equal object is there or one of its kind has
  its name. Where the other kind of object has the name the engine may say nothing (a quiet engine) or refuse;
  every result holds for both. A uniqueness constraint is refused while an index on its key is in the way and
  brings an index of its own, which cannot be dropped by name. A failed statement leaves the schema as it was.
- **Text.** White space is one fixed set, and printable characters are cut to ranges. Labels and property keys
  are plain words. Payload paths and contents are byte strings, one character a byte. Sorting is by character
  code.
- **Heap.** The flat-key heap is a sequence of cells that also holds the caller's own objects; a caller's
  value may refer to those but not to cells the rebuild makes.
- **JSON objects** keep the order of their entries, and an object has changed exactly when its value has,
  because the rewriter only makes a new object around a difference.
- **Distinct ids.** Boundaries have distinct ids, STIX objects have distinct ids, and names in one directory
  differ.

## Where the code does less than its documentation

- The loader's splitter does not follow the reference on a backslash outside strings and comments.
  `CypherSplitRules.ReadAlike` is the exact condition for equal statements (`LoaderAgrees`), and
  `LoaderDisagrees` names the texts that break it.
- Schema reconciliation can lose a key's index when one of the two generated names belongs to something else.
  `SchemaReconcile.Losable` is the exact condition: `CoverageKept` and `CoverageLost` are its two halves. The
  report then names no failed index; where it is the constraint's name that is taken, it names no failure.
- A second reconciliation after one without failures can still change the schema.
  `SchemaSecondRun.Movable` is the exact condition (`SchemaMoves.SecondRunIff`): a key taken for served because
  its constraint's name belongs to something else, while the name of its index is free or can be freed; or, on
  a quiet engine, a constraint taken for created because of an index that the same plan drops. For one plan the
  exact condition is `SchemaPlans.LeavesWork` (`PlanIff`).
- Relationships are exported in a deterministic order only where no two edges that are written differently share a
  sort key (`ExportOrder.EdgeOrderIff`): the key leaves out which property a node is keyed by
  (`FallbackExample`).
- Two promises about a registered remote module hold in every history in which callers are resumed before
  anything further settles (`RemoteModule.PromptHistory`), which is the order the JavaScript runtime takes
  wherever a registration or refresh waits for the network. Outside it, a call that waits for a registration
  can still be answered from another pin after a refresh has taken the configured one (`LateAnswer`, exactly
  when by `OtherPinOnlyLate`), and can still fail after a later registration has succeeded (`LateFailure`,
  exactly when by `FailuresAreOld`). No call begun later sees either (`AnsweredAtOnce`).
- The embedding fingerprint leaves out the title, which a provider may use (`EmbedCache.TitleIsNotSeen`).

## Model

| member | source | states |
|---|---|---|
| CypherSplitter.ParseStatementsGo | pkg/cypher/parse.go:38-145 | The strict splitter, as a loop over five flags, returns the reference split of its input, and an error exactly when the input ends inside a string or a block comment. |
| CypherSplitter.ParseStatementsTs | scripts/module-manager/database.ts:109-209 | The TypeScript splitter returns the same statement list, whatever the input ends inside. |
| CypherSplitter.ParseStatementsPy | modules/mitre-frameworks/scripts/check_embeddings_files.py:66-133 | The Python port returns what the Go splitter returns, errors included. |
| CypherSplitter.ParseCypherStatements | modules/mitre-frameworks/scripts/load_committed_data.py:39-83 | The loader's splitter, with its own flags and its rule that a backslash escapes only inside strings, is the reference split with that one rule changed. |
| CypherSplitRules.LoaderAgrees | modules/mitre-frameworks/scripts/load_committed_data.py:39-83 | For every text, the loader returns the others' statements exactly when no separator and no comment opener is read as code by one of the two rules and not by the other. |
| CypherSplitRules.LoaderDisagrees | modules/mitre-frameworks/scripts/load_committed_data.py:39-83 | After any text read whole and before any text at all, a backslash outside strings and comments before a semicolon or a comment opener makes them differ. |
| CypherSplitRules.HarmlessAgrees | modules/mitre-frameworks/scripts/load_committed_data.py:39-83 | Where every backslash outside strings and comments stands before a harmless character, they agree also in how the input ends. |
| CypherSplitRules.ScanIsSplit | pkg/cypher/parse.go:38-145 | The statements of the reference split are those of a scan of one character at a time, under either rule. |
| CypherSplitter.PassKeeps | pkg/cypher/parse.go:45-130 | One pass of a character loop, in any mode and under either rule for backslashes, leaves the reference split of what is left as it was; all four loops are proved by it. |
| CypherSplitter.NeutralConcat | pkg/cypher/parse.go:38-145 | Texts the lexer passes over whole can be joined and are still passed over whole. |
| CypherSplitter.LiteralIsNeutral | pkg/cypher/parse.go:38-145 | A string literal is read whole, so nothing in it can end a statement or open a comment. |
| CypherSplitter.SplitLineComment | pkg/cypher/parse.go:38-145 | A line comment is dropped up to its line break, which stays. |
| CypherSplitter.TrimSpaces | pkg/cypher/parse.go:38-145 | A statement is emitted without the white space around it and otherwise unchanged. |
| CypherSplitText.SplitBlockComment | pkg/cypher/parse.go:61-75 | All of a block comment goes, both characters of its opening and of its closing included, and it ends at the first closing after its opening. |
| CypherSplitText.OpenBlockComment | pkg/cypher/parse.go:61-141 | One that never closes swallows the rest of the input, and that is reported as the end. |
| CypherSplitText.LastLineComment | pkg/cypher/parse.go:77-95 | A line comment that ends the input needs no line break. |
| CypherSplitText.SplitLiteral | pkg/cypher/parse.go:97-123 | A literal in either kind of quotes is kept whole, escaped quotes and the other kind's included. |
| CypherSplitText.OpenLiteral | pkg/cypher/parse.go:97-138 | One that never closes is kept to the end of the input, a last backslash included, and that is reported. |
| CypherSplitText.SplitBackslash | pkg/cypher/parse.go:97-105 | Outside strings a backslash carries the next character, except in the loader. |
| CypherSplitText.SplitPlain | pkg/cypher/parse.go:125-134 | Any other character is kept. |
| CypherSplitText.StrictRefuses | pkg/cypher/parse.go:136-145 | After any text read whole, the strict splitter refuses an input that ends inside a string or a block comment, with the error for it, and not one that ends inside a line comment. |
| CypherSplitText.EmitExactly | pkg/cypher/parse.go:38-145 | A blank statement is left out; of any other the white space around it goes and nothing else. |
| CypherValues.EscapeRoundTrip | modules/mitre-frameworks/scripts/export_to_cypher.py:207-234 | An escaped text ends at the quote put after it, whatever follows, and unescaping gives back the text with line breaks and tabs as spaces. |
| CypherValues.ByCharacter | modules/mitre-frameworks/scripts/export_to_cypher.py:207-234 | The chain of whole-text replacements acts on each character by itself, so no replacement acts on what an earlier one put in. |
| CypherValues.TextRoundTrip | modules/mitre-frameworks/scripts/export_embeddings_to_cypher.py:139-159 | A printed string literal reads back as its text, and the reader stops at its closing quote. |
| CypherValues.ValueRoundTrip | modules/mitre-frameworks/scripts/export_to_cypher.py:207-234 | Every null, boolean, number, text and nested list reads back as its own meaning, with the text after it untouched. |
| CypherValues.ItemsRoundTrip | modules/mitre-frameworks/scripts/export_to_cypher.py:207-234 | The items of a printed list read back in order, none lost or joined. |
| CypherValues.ValueNeutral | modules/mitre-frameworks/scripts/export_to_cypher.py:207-234 | No printed value contains anything a splitter acts on. |
| CypherExport.ScriptSplits | pkg/cypher/parse.go:38-145 | A script of statements each passed over whole splits into exactly those statements, in order, under every splitter. |
| CypherExport.FormatProperties | modules/mitre-frameworks/scripts/export_to_cypher.py:237-245 | The SET clause is the kept properties in order, each under its own name. |
| CypherExport.WriteNodes | modules/mitre-frameworks/scripts/export_to_cypher.py:260-276 | The text of a label's sorted rows is one MERGE statement a row, in order. |
| CypherExport.WriteRelationship | modules/mitre-frameworks/scripts/export_to_cypher.py:279-316 | One relationship statement is appended to the file. |
| CypherExport.WriteBucket | modules/mitre-frameworks/scripts/export_to_cypher.py:359-363 | The text of a file's sorted edges is one statement an edge, in order. |
| CypherExport.NodesRoundTrip | modules/mitre-frameworks/scripts/export_to_cypher.py:249-276 | Splitting a node file gives back exactly the statements written, in order, for all text values, under every splitter. |
| CypherExport.RelationshipsRoundTrip | modules/mitre-frameworks/scripts/export_to_cypher.py:279-365 | The same for relationship files, with and without properties. |
| CypherExport.SetRoundTrip | modules/mitre-frameworks/scripts/export_to_cypher.py:237-245 | Every property written in a SET clause reads back under its own name with the value it was written from. |
| ExportReadback.NodeFileReadsBack | modules/mitre-frameworks/scripts/export_to_cypher.py:249-277 | From writing to reading: every splitter takes a node file apart into one statement a row, which says the row's label, merge key, key value and each property kept, under its name, in order. |
| ExportReadback.RelationshipFileReadsBack | modules/mitre-frameworks/scripts/export_to_cypher.py:279-316 | The same of a relationship file: each statement says its edge's two ends by label, key and value, its type and its properties. |
| StableSort.ArrivalIff | modules/mitre-frameworks/scripts/export_to_cypher.py:258-258 | After a stable sort the order rows arrived in leaves no trace exactly when rows with one key are written alike. |
| ExportOrder.ExportNodes | modules/mitre-frameworks/scripts/export_to_cypher.py:249-277 | A label's file, sorted, or an error exactly when some node has not one mapped label and a key. |
| ExportOrder.ExportRelationships | modules/mitre-frameworks/scripts/export_to_cypher.py:319-364 | The files asked for, each its own edges sorted, or an error exactly when some edge has no place, whichever files are asked for. |
| ExportOrder.EveryEdgeOnce | modules/mitre-frameworks/scripts/export_to_cypher.py:327-357 | Every edge that is not left out on purpose goes into exactly one of the three files. |
| ExportOrder.RoutedAnyOrder | modules/mitre-frameworks/scripts/export_to_cypher.py:319-357 | Whether the export succeeds does not depend on the order of the edges. |
| ExportOrder.EdgeOrderIff | modules/mitre-frameworks/scripts/export_to_cypher.py:319-364 | A relationship file does not depend on the order the edges arrive in exactly when no two of its edges that are written differently share a sort key. |
| ExportOrder.NodeOrderIff | modules/mitre-frameworks/scripts/export_to_cypher.py:249-277 | The same of a node file. |
| ExportOrder.KeysTellEdges | modules/mitre-frameworks/scripts/export_to_cypher.py:346-357 | Which holds where values and dictionaries print apart and every node is keyed by its label's own property. |
| ExportOrder.FallbackHides | modules/mitre-frameworks/scripts/export_to_cypher.py:346-357 | And fails for any two edges with one sort key from nodes of which one is keyed by the fallback: the sort key leaves the key property out. |
| ExportOrder.FallbackExample | modules/mitre-frameworks/scripts/export_to_cypher.py:346-357 | Two such edges. |
| EmbeddingsFile.ChunksPartition | modules/mitre-frameworks/scripts/export_embeddings_to_cypher.py:375-412 | Chunks concatenate to the rows, and each has 1 to 200 of them. |
| EmbeddingsFile.WriteRows | modules/mitre-frameworks/scripts/export_embeddings_to_cypher.py:397-403 | The rows of one statement, for lists of any lengths, or an error when a component is not finite. |
| EmbeddingsFile.WriteUnwindChunks | modules/mitre-frameworks/scripts/export_embeddings_to_cypher.py:375-412 | A section is the text of its chunks in order, for lists of any lengths, and the count returned is the number of items. |
| EmbeddingsFile.EvenSection | modules/mitre-frameworks/scripts/export_embeddings_to_cypher.py:375-412 | Where every item has a vector, that text is a script of one statement a chunk, and vectors left over are not written. |
| EmbeddingsFile.WriteCypherFile | modules/mitre-frameworks/scripts/export_embeddings_to_cypher.py:415-465 | The file is written exactly when every header line is printable and every component finite, and then is the header it builds followed by the sections. |
| EmbeddingsFile.HeaderIsDropped | modules/mitre-frameworks/scripts/export_embeddings_to_cypher.py:415-465 | A header of comment lines leaves nothing but line breaks. |
| EmbeddingsFile.FileRoundTrip | modules/mitre-frameworks/scripts/export_embeddings_to_cypher.py:415-465 | Splitting a written file gives exactly its UNWIND statements, section by section, under every splitter. |
| EmbeddingsFile.RowsRoundTrip | modules/mitre-frameworks/scripts/export_embeddings_to_cypher.py:375-412 | The rows of a statement read back as the ids paired with their vectors, in order. |
| EmbeddingsFile.UnwindReadsBack | modules/mitre-frameworks/scripts/export_embeddings_to_cypher.py:375-412 | One statement reads back as the label it matches, the field it compares on both sides, the model it sets and its rows. |
| EmbeddingsFile.FileReadsBack | modules/mitre-frameworks/scripts/export_embeddings_to_cypher.py:375-465 | From writing to reading: the file written splits into one group of statements a section; each statement says the section's label, its id field on the node and on the row, and its model, and the rows of the group are the section's items paired with their vectors, in order. |
| EmbedCache.PayloadTells | modules/mitre-frameworks/scripts/export_embeddings_to_cypher.py:223-238 | Where ids and model names hold no bar, the hashed payload determines id, model, dimensions and text, whatever the text holds. |
| EmbedCache.LookUp | modules/mitre-frameworks/scripts/export_embeddings_to_cypher.py:308-323 | The first pass finds each item's fingerprint and cached vector, and the indices of the misses in order. |
| EmbedCache.EmbedMisses | modules/mitre-frameworks/scripts/export_embeddings_to_cypher.py:330-349 | The misses embedded in batches of at most 100; the first failing batch stops it and names its first item. |
| EmbedCache.Stitch | modules/mitre-frameworks/scripts/export_embeddings_to_cypher.py:351-365 | The stitch always succeeds: the alignment failure cannot happen. It returns cached and embedded vectors in item order and stores each embedded one. |
| EmbedCache.EmbedWithCache | modules/mitre-frameworks/scripts/export_embeddings_to_cypher.py:293-367 | The vectors, the hit and miss counts and the new cache, or a batch failure with the cache as it was. |
| EmbedCache.CacheIsNotSeen | modules/mitre-frameworks/scripts/export_embeddings_to_cypher.py:293-367 | With a sound cache the vectors are those of embedding every item with no cache, for every hit and miss pattern and batch split. |
| EmbedCache.SoundAgainIff | modules/mitre-frameworks/scripts/export_embeddings_to_cypher.py:351-365 | After a run a sound cache is sound again exactly when no item shares its fingerprint with a missed one that is answered differently. |
| EmbedCache.TitlesAsideAgree | modules/mitre-frameworks/scripts/export_embeddings_to_cypher.py:223-238 | Which holds when the digest is injective and the title adds nothing to the text. |
| EmbedCache.TitleIsNotSeen | modules/mitre-frameworks/scripts/export_embeddings_to_cypher.py:223-238 | Where the title does matter the cache answers one title with another's vector: the fingerprint leaves the title out. |
| FlatKeyPath.ParseFlatKey | packages/dt-module/src/flat-keys.ts:48-63 | The scan of one key gives its path or the reason it is refused. |
| FlatKeyPath.RenderRoundTrip | packages/dt-module/src/flat-keys.ts:48-63 | Parsing a printed path gives the path back. |
| FlatKeyPath.ParseKeepsLimits | packages/dt-module/src/flat-keys.ts:48-63 | An accepted path is not empty, has at most the allowed number of segments, no reserved name and no index over the limit. |
| FlatKeyText.ScanName | packages/dt-module/src/flat-keys.ts:41-57 | A run of characters up to a dot, a bracket or the end is a name, unless it is reserved or makes more than 32 parts. |
| FlatKeyText.ScanIndex | packages/dt-module/src/flat-keys.ts:41-63 | Digits in brackets are an index, whatever zeros they start with, unless its value is over 10000 or it makes more than 32 parts. |
| FlatKeyText.ScanGap | packages/dt-module/src/flat-keys.ts:41-51 | Any other dot or bracket is stepped over. |
| FlatKeyTree.InsertThenLookup | packages/dt-module/src/flat-keys.ts:104-124 | A key that was written reads back at its place. |
| FlatKeyTree.InsertKeeps | packages/dt-module/src/flat-keys.ts:84-124 | No later key changes a written leaf that is not null. |
| FlatKeyTree.InsertGrowth | packages/dt-module/src/flat-keys.ts:84-124 | Writing a key adds exactly the list entries it was charged for. |
| FlatKeyRebuild.RebuildConserves | packages/dt-module/src/flat-keys.ts:130-157 | At every point of a rebuild the counter is the summed length of all lists, and within the budget. |
| FlatKeyRebuild.RebuildReports | packages/dt-module/src/flat-keys.ts:130-157 | The report names keys that were taken, each at most once. |
| FlatKeyRebuild.RebuildAccounts | packages/dt-module/src/flat-keys.ts:130-157 | Every key is reported, or was written and still reads back at the end unless its value is null. |
| FlatKeyReasons.RebuildReason | packages/dt-module/src/flat-keys.ts:130-157 | Why each key is left out, said of the keys before it: the reason the scan gives exactly where it refuses the key; else a conflict exactly where the place is not free among the keys written before; else the budget exactly where the lists would be longer than the limit together. Every other key is written at its place, and no key is reported for another. |
| FlatKeyReasons.FreeIff | packages/dt-module/src/flat-keys.ts:84-124 | In every rebuild a place can be written exactly when it starts with a name and no key written before stands at it, above it, below it, or in one container as an index where it has a name. |
| FlatKeyReasons.FreeAfter | packages/dt-module/src/flat-keys.ts:84-124 | One more key takes exactly the places it clashes with, and frees none. |
| FlatKeyReasons.OthersKept | packages/dt-module/src/flat-keys.ts:139-155 | Taking one key changes nothing in what is reported of any other. |
| FlatKeyRebuild.InsertLeaf | packages/dt-module/src/flat-keys.ts:104-124 | Writing one more leaf of a value, in any order, gives the part of the value with that leaf. |
| FlatKeyRebuild.RestrictAll | packages/dt-module/src/flat-keys.ts:130-157 | With all its leaves the part is the whole value. |
| FlatKeyRebuild.RebuildPart | packages/dt-module/src/flat-keys.ts:130-157 | After any of its keys, in any order, a rebuild holds exactly the part those keys make up, with nothing dropped. |
| FlatKeyRebuild.RoundTrip | packages/dt-module/src/flat-keys.ts:130-157 | Flattening a value within the limits and rebuilding it, keys in any order, gives the value back with nothing dropped. |
| FlatKeys.FlatKeyHeap.GrowthOf | packages/dt-module/src/flat-keys.ts:84-102 | The walk over the heap gives the growth the tree gives. |
| FlatKeys.FlatKeyHeap.Write | packages/dt-module/src/flat-keys.ts:104-124 | Writing in place gives the tree with the leaf inserted, and no cell of the caller is changed. |
| FlatKeys.FlatKeyHeap.Descend | packages/dt-module/src/flat-keys.ts:104-124 | One step of the way: the container there is entered, or made when there is none. |
| FlatKeys.FlatKeyHeap.SetLast | packages/dt-module/src/flat-keys.ts:104-124 | The last step sets the entry and completes the insertion. |
| FlatKeys.FlatKeyHeap.TakeKey | packages/dt-module/src/flat-keys.ts:139-155 | One key is written or reported, as the rebuild says. |
| FlatKeys.FlatKeyHeap.Unflatten | packages/dt-module/src/flat-keys.ts:130-157 | The whole loop equals the rebuild over the sorted keys, and no cell of the caller is entered or changed. |
| StringOrder.SortedUnique | packages/dt-module/src/flat-keys.ts:130-157 | There is one sorted arrangement of the keys, so the order they arrive in leaves no trace. |
| AnalysisRuns.EveryHistory | packages/dt-module/src/dt-lg-analysis-ops.ts:85-601 | In every interleaving the table maps each session to its only unaborted run in flight, the frames of a session form one block a run, and a run that ends unaborted has published one terminal frame, its last. |
| AnalysisRuns.StepKeepsInv | packages/dt-module/src/dt-lg-analysis-ops.ts:487-601 | Each atomic step keeps all of that. |
| AnalysisRuns.StopSilences | packages/dt-module/src/dt-lg-analysis-ops.ts:97-157 | After a stop or a delete no run of the session started before it publishes again, whatever happens next. |
| AnalysisRuns.DisposeSilences | packages/dt-module/src/dt-lg-analysis-ops.ts:102-105 | After disposal no run started before it publishes again, on any session. |
| AnalysisRuns.StartSupersedes | packages/dt-module/src/dt-lg-analysis-ops.ts:487-601 | A new run silences every older run of its session. |
| AnalysisRuns.QuietForever | packages/dt-module/src/dt-lg-analysis-ops.ts:487-601 | Once the older runs of a session are silent they stay so through every further step. |
| AnalysisRuns.NoInterference | packages/dt-module/src/dt-lg-analysis-ops.ts:487-601 | Whatever the others do, an unaborted run has published exactly what it would alone, an aborted one an initial part of that. |
| AnalysisRuns.EndSays | packages/dt-module/src/dt-lg-analysis-ops.ts:532-579 | How an unaborted run ends, said of its history: the end of its stream adds one frame on its session, an error with the text of the last error event it read, or complete when it read none or that one gave no text. |
| AnalysisRuns.ErrorKept | packages/dt-module/src/dt-lg-analysis-ops.ts:525-537 | What an unaborted run has kept at any point of a history is the text of the last error event it read, taken from the event's own data. |
| AnalysisRuns.ThrowSays | packages/dt-module/src/dt-lg-analysis-ops.ts:580-594 | A stream that throws ends its unaborted run with one error frame of that message, whatever it had read. |
| AnalysisRuns.ChunkSays | packages/dt-module/src/dt-lg-analysis-ops.ts:523-561 | What an unaborted run publishes of a chunk: nothing of an error event; otherwise, where the event's name is one its mode listens to, the messages that have content, in tuple mode only message chunks, each once, in order, on its own session. |
| AnalysisRuns.AnalysisOps.AbortRunOf | packages/dt-module/src/dt-lg-analysis-ops.ts:85-99 | Aborts the registered controller of the session and clears its entry: the step of a stop and of a delete. |
| AnalysisRuns.AnalysisOps.AbortAllRuns | packages/dt-module/src/dt-lg-analysis-ops.ts:102-105 | Aborts every registered controller and empties the registry. |
| AnalysisRuns.AnalysisOps.StartStream | packages/dt-module/src/dt-lg-analysis-ops.ts:487-514 | A new controller takes the session's entry; the one it supersedes is aborted. |
| AnalysisRuns.AnalysisOps.OnChunk | packages/dt-module/src/dt-lg-analysis-ops.ts:523-561 | One chunk: nothing more once aborted, an error noted, or its messages published. |
| AnalysisRuns.AnalysisOps.OnStreamEnd | packages/dt-module/src/dt-lg-analysis-ops.ts:568-579 | The terminal frame unless aborted, then the run's own entry cleared; the answer is true exactly when no error text was kept. |
| AnalysisRuns.AnalysisOps.OnThrow | packages/dt-module/src/dt-lg-analysis-ops.ts:580-594 | A thrown error is published unless aborted, and the entry cleared. |
| AnalysisRuns.AnalysisOps.FinallyClear | packages/dt-module/src/dt-lg-analysis-ops.ts:595-600 | Only the run's own registry entry is cleared, never a newer run's. |
| Ddl.IdentifierHasNoSeparator | packages/dt-module/src/ddl.ts:35-42 | An accepted identifier never holds two underscores in a row, nor one at either end. |
| Ddl.IdentifierIff | packages/dt-module/src/ddl.ts:35-42 | An identifier is accepted exactly when it is letters, digits and single underscores between them, a letter first. |
| Ddl.NamesUnambiguous | packages/dt-module/src/ddl.ts:84-117 | Two accepted objects with one name are the same object, across all kinds. |
| SchemaReconcile.CreateIndexServes | packages/dt-module/src/schema.ts:251-305 | Creating the plain index of a key whose names are its own leaves the key served, or is reported. |
| SchemaReconcile.OwnConstraintKept | packages/dt-module/src/schema.ts:260-294 | A constraint on the key itself leaves it served by the constraint or by the index left or put back, or the failure is reported, or the index is still to come. |
| SchemaReconcile.CoverageKept | packages/dt-module/src/schema.ts:244-305 | Whatever the plan and however statements, reads and counts fail, a key served by a plain index before is served after, or the report names the index that could not be created, unless the key is losable. |
| SchemaReconcile.CoverageLost | packages/dt-module/src/schema.ts:260-294 | Every losable key is lost by the plan that asks for uniqueness on it, and no CREATE of its index is reported failed: the condition is exact. Nothing at all is reported where the constraint's name is the one taken, and the failed constraint alone where only the index's is. |
| SchemaRuns.SchemaSession.MakeWay | packages/dt-module/src/schema.ts:274-284 | The loop that drops the plain indexes in the way, refusing names that are not plain words. |
| SchemaRuns.SchemaSession.Constrain | packages/dt-module/src/schema.ts:260-294 | One declared constraint: skipped, not run, or run after making way, with the index put back on failure. |
| SchemaRuns.SchemaSession.ReadSchema | packages/dt-module/src/schema.ts:244-258 | What the run decides by: the listed schema and the keys its constraints cover, or a reported failure. |
| SchemaRuns.SchemaSession.EnsureSchema | packages/dt-module/src/schema.ts:197-305 | A plan with a bad name throws before anything has run; any other run is the reconciliation function, statement by statement. |
| SchemaSecondRun.TakenTracked | packages/dt-module/src/schema.ts:260-302 | What a constraint taken without a failure keeps: where each object comes from, why each key counts as unique, and an order in which the missing indexes could be dropped. |
| SchemaSecondRun.StandsInert | packages/dt-module/src/schema.ts:260-302 | A constraint taken without a failure is still there or still refused at the end, unless the schema is movable. |
| SchemaSecondRun.KeyInert | packages/dt-module/src/schema.ts:295-302 | So is the index of every key counted as unique. |
| SchemaSecondRun.FirstRunRests | packages/dt-module/src/schema.ts:244-305 | Unless the schema is movable, a run that reports no failure leaves one on which no statement of its plan can act. |
| SchemaSecondRun.RestsStill | packages/dt-module/src/schema.ts:244-305 | Over such a schema a run changes nothing and drops nothing, however its own statements, reads and counts fare. |
| SchemaSecondRun.SecondRunStill | packages/dt-module/src/schema.ts:244-305 | On a schema that is not movable, a second run after a failure-free first one changes nothing and drops nothing, whatever the plan and however the second run fares. |
| SchemaMoves.ClearChain | packages/dt-module/src/schema.ts:260-294 | Indexes that can be dropped in some order are dropped without a failure by the constraints on their keys, taken in that order. |
| SchemaMoves.KeyMoved | packages/dt-module/src/schema.ts:260-302 | Where a constraint's name belongs to something else, no constraint serves its key, the key's plain indexes can be dropped and the name of its index is free or can be freed, a second run whose constraints fail creates the index. |
| SchemaMoves.NameMoved | packages/dt-module/src/schema.ts:260-294 | On a quiet engine, where a constraint is taken for created because of an index that another constraint of the plan drops, a second run as smooth as the first creates it. |
| SchemaMoves.SecondRunIff | packages/dt-module/src/schema.ts:244-305 | A schema has a plan whose second run, after a failure-free first one, changes or drops something exactly when it is movable. |
| SchemaPlans.TakenExact | packages/dt-module/src/schema.ts:260-294 | What a run without failures has done after some of its constraints, exactly: which indexes are gone, which constraints it made and which keys it counts as unique, read off the listed schema and the constraints so far. |
| SchemaPlans.NoWorkRests | packages/dt-module/src/schema.ts:244-305 | A failure-free run leaves a schema on which its plan has nothing to do, unless the plan leaves work. |
| SchemaPlans.WorkMoves | packages/dt-module/src/schema.ts:244-305 | If it does, some second run changes the schema. |
| SchemaPlans.PlanIff | packages/dt-module/src/schema.ts:244-305 | Plan by plan: after a failure-free first run some second run changes or drops something exactly when the listed schema and the plan say that work is left. |
| SchemaReports.ConstraintOutcome | packages/dt-module/src/schema.ts:218-228 | The duplicate check, said of the count: a uniqueness constraint no listed one holds is reported as not run for any number above zero, with no statement issued and the schema as it was; for zero or a failed count its CREATE is issued. |
| SchemaReports.ConstraintsAccounted | packages/dt-module/src/schema.ts:260-294 | In the report of a run each declared constraint is skipped exactly for another edition, not run exactly when duplicates rule it out, and attempted otherwise; nothing else is reported as skipped for an edition or not run. |
| SchemaReports.IndexesAccounted | packages/dt-module/src/schema.ts:295-305 | Each index of the plan is skipped exactly where a constraint listed at the start or created by the run covers its key, and attempted otherwise. |
| SchemaReports.IndexLeftAlone | packages/dt-module/src/schema.ts:269-284 | A run leaves every listed index alone except a plain one on the key of a declared uniqueness constraint that no listed one holds and that duplicates do not rule out. |
| SchemaReports.DroppableNames | packages/dt-module/src/schema.ts:105-142 | Every name the code generates may be put into a DROP; no name with any other character than letters, digits and underscores may. |
| Zoning.ChainIsAcyclicAndBounded | modules/dethernety-threat-report/src/zoning-adapter.ts:270-281 | The walk with its visited set accepts exactly the chains that end within 50 ancestors. |
| Zoning.ChainOkMeans | modules/dethernety-threat-report/src/zoning-adapter.ts:270-281 | Which are those whose ancestors are at most 50 and all different. |
| Zoning.EveryBoundaryOnce | modules/dethernety-threat-report/src/zoning-adapter.ts:196-211 | Whatever the parent map, the tree below the root holds every boundary exactly once and nothing else. |
| Zoning.UnderDeclaredParent | modules/dethernety-threat-report/src/zoning-adapter.ts:196-211 | A boundary stands under its declared parent exactly when that parent exists and its chain is accepted, and otherwise directly under the root. |
| Zoning.EveryComponentPlaced | modules/dethernety-threat-report/src/zoning-adapter.ts:151-193 | A component stands under the boundary it names as often as the input holds it, and nowhere else. |
| Zoning.DepthBounded | modules/dethernety-threat-report/src/zoning-adapter.ts:196-211 | The height of the structure is at most that of a boundary and its 50 ancestors below the root. |
| Zoning.PathsBounded | modules/dethernety-threat-report/src/zoning-adapter.ts:196-211 | No path down the structure goes through more than a boundary and its 50 ancestors. |
| Zoning.GroupComponents | modules/dethernety-threat-report/src/zoning-adapter.ts:151-169 | Components grouped by the boundary they name, in order; one that names none is dropped. |
| Zoning.MakeShells | modules/dethernety-threat-report/src/zoning-adapter.ts:171-193 | One fresh shell for every boundary, with its components and no children. |
| Zoning.LinkOne | modules/dethernety-threat-report/src/zoning-adapter.ts:196-209 | One boundary is pushed last into its parent's list, or left to the root, and nothing else moves. |
| Zoning.GraphToZoningStructure | modules/dethernety-threat-report/src/zoning-adapter.ts:122-212 | The object graph built in place is the tree the other results are about. |
| OperationFields.TakenOutIffGone | packages/dt-module/src/operation-fields.ts:134-147 | An element is taken out exactly when its scope may not bind, its elements are no list, or all it holds is taken out. |
| OperationFields.UnchangedIffClean | packages/dt-module/src/operation-fields.ts:122-147 | An element is returned as it is exactly when there is nothing in it to take out. |
| OperationFields.LeavesClean | packages/dt-module/src/operation-fields.ts:122-147 | What is left of an element holds nothing to take out. |
| OperationFields.OthersStay | packages/dt-module/src/operation-fields.ts:122-147 | An element that stays keeps every entry but the two that are walked. |
| OperationFields.CategoryGoes | packages/dt-module/src/operation-fields.ts:106-120 | The platform's own category is taken out whole, which is what a second application relies on. |
| OperationFields.FieldsTwice | packages/dt-module/src/operation-fields.ts:161-181 | On every JSON template applying the fields twice gives what applying them once gives. |
| OperationFields.NothingUnboundLeft | packages/dt-module/src/operation-fields.ts:161-181 | No element reached through elements or option records carries a scope that may not bind, outside the platform's category, which stands first. |
| OperationFields.UntouchedIffClean | packages/dt-module/src/operation-fields.ts:161-169 | A template that takes no fields is returned as it is exactly when its uischema is clean. |
| OperationFields.SchemaOwnsReserved | packages/dt-module/src/operation-fields.ts:171-176 | Under the reserved prefix the schema declares the platform's fields and no others; its own properties stay. |
| OperationFields.GuideTwice | packages/dt-module/src/operation-fields.ts:259-263 | Applying the guide entries twice gives what applying them once gives. |
| OperationServed.ScopeIff | packages/dt-module/src/operation-fields.ts:54-62 | A scope may bind exactly when it is # and one or more /properties/<key>, whose keys are not empty, hold no path syntax and are not reserved. |
| OperationServed.FieldsServed | packages/dt-module/src/operation-fields.ts:74-104 | A template that takes the fields is served with exactly the class type's own under the reserved prefix: the operator a choice of two, the product and the version texts of at most 200 and 64 characters. For any other class type it is served as it came. |
| OperationServed.ControlsBindFields | packages/dt-module/src/operation-fields.ts:106-120 | The category that stands first binds each of those fields by one control, in order, and hides the version while the operator is a vendor. |
| OperationServed.GuideServed | packages/dt-module/src/operation-fields.ts:193-263 | The served guide answers for the same fields as the form, after its own entries, with the operator's two choices; for any other class type it is served as it came. |
| PayloadDigest.WalkFiles | pkg/payloaddigest/digest.go:81-105 | The walk appends the path of every regular file, or stops at the first entry it cannot take. |
| PayloadDigest.KeepInPlace | pkg/payloaddigest/digest.go:48-53 | The in-place filter leaves exactly the paths other than the root stamp, in order. |
| PayloadDigest.Compute | pkg/payloaddigest/digest.go:42-76 | What is written to the running hash is the framed stream, or the error that stopped it. |
| PayloadDigest.FrameInjective | pkg/payloaddigest/digest.go:60-74 | The framing is uniquely decodable: two lists of records with the same bytes are the same list. |
| PayloadDigest.WalkPaths | pkg/payloaddigest/digest.go:81-105 | The walk finds the path of each regular file, once. |
| PayloadDigest.SameStreamIffSameFiles | pkg/payloaddigest/digest.go:41-105 | Two trees feed the hash the same bytes exactly when they hold the same files with the same contents, the root stamp apart. |
| PayloadDigest.OrderLeavesNoTrace | pkg/payloaddigest/digest.go:41-105 | Listing directories in another order, at any level, changes neither whether there is a digest nor its bytes. |
| PayloadDigest.DigestIff | pkg/payloaddigest/digest.go:41-105 | There is a digest exactly when the tree holds regular files only, all readable but perhaps the root stamp. |
| Decimals.DecimalRoundTrip | pkg/payloaddigest/digest.go:68-75 | A printed length reads back as itself. |
| RemoteModule.EveryHistory | packages/dt-module/src/dt-remote-module.ts:187-505 | In every history of calls and refreshes at most one registration is in flight, hashes are held for the configured pin only, and the memo is what would be built now. |
| RemoteModule.StepKeepsInv | packages/dt-module/src/dt-remote-module.ts:187-505 | Each step keeps all of that. |
| RemoteModule.RegisteredForGood | packages/dt-module/src/dt-remote-module.ts:387-426 | Once registered a module stays registered, and once it holds its configured pin it keeps it. |
| RemoteModule.AnsweredAtOnce | packages/dt-module/src/dt-remote-module.ts:187-202 | A call begun once the module has registered is answered at once from the registered entry; it never fails and starts no registration. |
| RemoteModule.AnswersTrue | packages/dt-module/src/dt-remote-module.ts:428-436 | Whatever step answers a call, the document is the entry's with the hashes held for it at that moment, which are the configured pin's or none. |
| RemoteModule.OtherPinOnlyLate | packages/dt-module/src/dt-remote-module.ts:187-202 | While the configured pin is held, the calls answered from another pin's entry are exactly those resumed only now from a registration that took that entry, and they are given no hashes. |
| RemoteModule.FailuresAreOld | packages/dt-module/src/dt-remote-module.ts:187-202 | Once registered, the calls that fail are exactly those resumed only now from a registration that had failed. |
| RemoteModule.PromptHistory | packages/dt-module/src/dt-remote-module.ts:160-202 | In every history in which callers are resumed before anything further settles, a registered module fails no call, and one that holds its configured pin answers every call at that pin. |
| RemoteModule.LateAnswer | packages/dt-module/src/dt-remote-module.ts:187-202 | A history that is not of this kind and answers from another pin. |
| RemoteModule.LateFailure | packages/dt-module/src/dt-remote-module.ts:187-202 | A history that is not of this kind and fails a call of a registered module. |
| RemoteModule.ReportsExactly | packages/dt-module/src/dt-remote-module.ts:428-436 | In every history, the document a call is answered with is its entry's but for the policy hashes: a class of a served array carries what getPolicyHash answers for it at that moment if the entry is the registered one, and no other class carries any, whatever the document did. |
| RemoteModule.MetadataAgrees | packages/dt-module/src/dt-remote-module.ts:209-212 | What a served class carries in the metadata is what getPolicyHash answers for its id, in every state. |
| RemoteSettlements.ServesLastBrought | packages/dt-module/src/dt-remote-module.ts:387-426 | In every history the module serves the entry brought by the last settlement that brought one: the pin's own, and for a registration without it the newest cached one. getPolicyHash answers exactly the hashes that came with the pin's own. |
| RemoteSettlements.OtherPinOnlyWithoutOwn | packages/dt-module/src/dt-remote-module.ts:387-408 | A module that serves another pin took that entry from a registration that settled without its own pin's. |
| RemoteSettlements.RegistrationOutcome | packages/dt-module/src/dt-remote-module.ts:387-408 | A registration takes its pin's own entry when it is brought, else the newest cached one, and is rejected with its error exactly without either. |
| RemoteSettlements.FailuresAreBarren | packages/dt-module/src/dt-remote-module.ts:187-202 | In every history no call fails with an error but that of a registration that settled without any entry. |
| RemoteSettlements.OutcomesStay | packages/dt-module/src/dt-remote-module.ts:187-202 | What a registration has come to stays, and every call that waited for it ends with exactly that. |
| RemoteSettlements.CallOutcome | packages/dt-module/src/dt-remote-module.ts:187-202 | A call is answered at once when the module has registered, fails at once within a minute of a failure, joins a registration under way, and only else starts one. |
| RemoteSettlements.RefreshesSpaced | packages/dt-module/src/dt-remote-module.ts:489-505 | In every history a call starts a background refresh exactly when the module has registered, lacks its own pin or the portal origin, and no refresh started within the minute before. |
| RemoteSettlements.OriginLearnt | packages/dt-module/src/dt-remote-module.ts:511-519 | A known portal origin stays known, and is learnt only from an answer that names one, by a registration or refresh that was to ask. |
| RemoteModule.WithPolicyHashes | packages/dt-module/src/dt-remote-module.ts:624-638 | The copy made array by array is the document with those hashes. |
| RemoteModule.DtRemoteModule.BeginGetMetadata | packages/dt-module/src/dt-remote-module.ts:187-202 | getMetadata up to its await is the call step, fields and answer. |
| RemoteModule.DtRemoteModule.ServedMetadata | packages/dt-module/src/dt-remote-module.ts:430-436 | The memo is used for its own entry and made anew for another. |
| RemoteModule.DtRemoteModule.RefreshInBackground | packages/dt-module/src/dt-remote-module.ts:489-493 | A refresh starts only when one is needed and none started within the interval. |
| RemoteModule.DtRemoteModule.SettleRegister | packages/dt-module/src/dt-remote-module.ts:387-426 | The pin's own entry, else the newest cached one without hashes, else the error. |
| RemoteModule.DtRemoteModule.ResumeGetMetadata | packages/dt-module/src/dt-remote-module.ts:187-202 | getMetadata after its await is the resuming step, fields and answer. |
| RemoteModule.DtRemoteModule.PinPortalOrigin | packages/dt-module/src/dt-remote-module.ts:511-519 | The portal origin is set once asked for and answered, and otherwise stays. |
| RemoteModule.DtRemoteModule.SettleRefresh | packages/dt-module/src/dt-remote-module.ts:489-505 | A background refresh replaces the registered entry by the pin's or changes nothing. |
| RemoteModule.DtRemoteModule.GetPolicyHash | packages/dt-module/src/dt-remote-module.ts:209-212 | Answers only while the registered entry is the configured pin's. |
| RegoEngines.StripNonCode | packages/dt-module/src/rego-engine.ts:67-98 | Blanking block by block in place gives what reading one character at a time gives. |
| RegoEngines.StripKeepsPlaces | packages/dt-module/src/rego-engine.ts:62-98 | Length, offsets and line breaks stay, and each character is the source's own or a blank. |
| RegoEngines.StripTwice | packages/dt-module/src/rego-engine.ts:67-98 | Stripping twice is stripping once. |
| RegoEngines.EveryRegistrySound | packages/dt-module/src/rego-engine.ts:192-317 | In every history of registrations, prunings and disposals the owner map is the exact inverse of the registrations, and a disposed registry is empty. |
| RegoEngines.PackagesDiffer | packages/dt-module/src/rego-engine.ts:192-220 | No two keys ever hold the same package. |
| RegoEngines.ThrowsLeaveNoTrace | packages/dt-module/src/rego-engine.ts:192-220 | In every history the registrations that threw can be left out: the registry at the end is the same. |
| RegoEngines.EvaluatesRegistered | packages/dt-module/src/rego-engine.ts:252-294 | After a registration and any operations that do not touch its key, the key evaluates as in a registry that holds that policy alone. |
| RegoLaws.StripQuoted | packages/dt-module/src/rego-engine.ts:62-98 | A quoted string is blanked up to its closing quote, escaped quotes inside it included, and what follows is stripped on its own; one that does not close is blanked to the end. |
| RegoLaws.StripRaw | packages/dt-module/src/rego-engine.ts:62-98 | So is a raw string, up to the next backquote. |
| RegoLaws.StripComment | packages/dt-module/src/rego-engine.ts:62-98 | So is a comment, up to its line break. |
| RegoLaws.StripCode | packages/dt-module/src/rego-engine.ts:62-98 | Code before the first of them is kept as it is. |
| RegoLaws.RegistrationOutcome | packages/dt-module/src/rego-engine.ts:192-243 | A registration is refused for one reason, in order: a disposed registry, an empty key, a source without a package, not isolated or not parsed, or another key that holds a policy of its package; otherwise the key holds the source and no other key is touched. |
| RegoLaws.HoldsLastRegistered | packages/dt-module/src/rego-engine.ts:192-317 | In every history a key holds the source it was last registered with without being refused, until it is pruned or the registry disposed of. |
| RegoLaws.DisposedForGood | packages/dt-module/src/rego-engine.ts:311-317 | Once disposed of, a registry stays empty and refuses every registration and every evaluation. |
| RegoEngines.RegoEngine.Compile | packages/dt-module/src/rego-engine.ts:222-243 | An engine holding the policy, or an error with no engine left alive. |
| RegoEngines.RegoEngine.Register | packages/dt-module/src/rego-engine.ts:192-220 | The registration step, with the engines alive exactly the registered ones after it; when it throws nothing registered is freed or changed. |
| RegoEngines.RegoEngine.Release | packages/dt-module/src/rego-engine.ts:213-216 | One engine is freed, once, with its entry and its package's owner. |
| RegoEngines.RegoEngine.Evaluate | packages/dt-module/src/rego-engine.ts:252-294 | The engine used is alive and holds the key's own policy; nothing changes. |
| RegoEngines.RegoEngine.Prune | packages/dt-module/src/rego-engine.ts:297-309 | Exactly the keys not kept go, each freed once, and their number is returned. |
| RegoEngines.RegoEngine.Dispose | packages/dt-module/src/rego-engine.ts:311-317 | Every engine ever allocated is freed, none twice. |
| AtlasCrosswalk.FollowRevoked | modules/mitre-frameworks/scripts/atlas_stix.py:253-260 | The walk ends on every revoked-by graph, cycles included, and finds the live technique exactly when there is one. |
| AtlasCrosswalk.LoopLeadsNowhere | modules/mitre-frameworks/scripts/atlas_stix.py:253-260 | A walk that comes back to itself leads nowhere. |
| AtlasCrosswalk.LeadsOnce | modules/mitre-frameworks/scripts/atlas_stix.py:253-260 | A walk leads to one live technique at most. |
| AtlasCrosswalk.LeadsIff | modules/mitre-frameworks/scripts/atlas_stix.py:236-260 | The walk leads to a technique exactly when a chain of techniques, each revoked by the next, runs to it and it is not revoked. |
| AtlasCrosswalk.IndexByAttackId | modules/mitre-frameworks/scripts/atlas_stix.py:231-235 | Every technique is listed under each ATT&CK id it carries. |
| AtlasCrosswalk.ResolveOne | modules/mitre-frameworks/scripts/atlas_stix.py:248-272 | One citation resolves exactly when one technique carries it, its walk ends live and not deprecated, and the table agrees. |
| AtlasCrosswalk.ResolveAttackRefs | modules/mitre-frameworks/scripts/atlas_stix.py:215-278 | All citations resolve in order exactly when each does and every table entry is cited. |
| AtlasCrosswalk.DiffersAsExpected | modules/mitre-frameworks/scripts/atlas_stix.py:265-272 | A result differs from the cited id only as the table says, and is the id of the live technique reached from one that carries the cited id. |
| AtlasCrosswalk.OwnTable | modules/mitre-frameworks/scripts/atlas_stix.py:59-59 | By the loader's own table only T1656 resolves to another technique. |
| AtlasBundle.ReadableIff | modules/mitre-frameworks/scripts/atlas_stix.py:123-159 | The first pass, which checks each object against those before it, takes exactly the bundles whose concepts fit together in no order. |
| AtlasBundle.IdSpelling | modules/mitre-frameworks/scripts/atlas_stix.py:33-53 | An id fits its kind exactly when it is the kind's head and four digits, for a technique perhaps with a dot and three more, and perhaps a line break; the dot is what tells a subtechnique. |
| AtlasBundle.ReadMatrix | modules/mitre-frameworks/scripts/atlas_stix.py:161-169 | The matrix is taken exactly when it is the only one and places every tactic once; each tactic gets its position. |
| AtlasBundle.AddTechniques | modules/mitre-frameworks/scripts/atlas_stix.py:171-180 | Tactic edges are exactly those the phases name, or a phase does not fit. |
| AtlasBundle.AddRelationships | modules/mitre-frameworks/scripts/atlas_stix.py:182-195 | Relationship edges are exactly those of the relationships, or one does not join two concepts of the right kinds. |
| AtlasBundle.ParseAtlasBundle | modules/mitre-frameworks/scripts/atlas_stix.py:103-212 | A bundle is taken exactly when it fits, and the nodes, edges and citations returned are those it describes. |
| AtlasBundle.FitsAnyOrder | modules/mitre-frameworks/scripts/atlas_stix.py:103-212 | Whether a bundle fits does not depend on the order of its objects. |
| AtlasBundle.OrderLeavesNoTrace | modules/mitre-frameworks/scripts/atlas_stix.py:103-212 | Two orders of the same objects give the same nodes, edges and citations. |
| AtlasBundle.EdgesJoinNodes | modules/mitre-frameworks/scripts/atlas_stix.py:171-195 | Every edge joins two loaded nodes of the labels its type asks for. |
| AtlasBundle.MatrixNumbers | modules/mitre-frameworks/scripts/atlas_stix.py:161-169 | The positions number the tactics from 0 on, without gaps or repeats. |

## Left out

- CypherSplitRules.LoaderAgrees: is about the statements; whether the input ends inside a string or comment is compared only in HarmlessAgrees, since the loader does not report it.
- ExportOrder.ExportNodes: takes the records one query returned; the query, the driver and the file handles are not modelled, and a node's properties are written in the order the driver gives them.
- ExportOrder.ExportRelationships: takes the printing of values and dictionaries in sort keys as unknown functions.
- CypherValues.ValueRoundTrip: leaves out dictionary values, which the code prints without escaping backslashes.
- CypherValues.EscapeRoundTrip: is about the normalised text; the replacement table itself is taken as it stands.
- EmbeddingsFile.WriteCypherFile: the temporary file and the rename are not modelled; a failure simply returns no text.
- EmbedCache.CacheIsNotSeen: vectors are sequences of integers, since their components are only passed on.
- FlatKeyRebuild.RebuildAccounts: says nothing of null leaves, which count as free places.
- FlatKeys.FlatKeyHeap.Unflatten: sorting is by character code, where JavaScript sorts by UTF-16 unit; the rebuild's results hold for every order.
- AnalysisRuns.StopSilences: is about runs registered before the stop or the delete; a delete that lands before a starting run has registered is promised nothing.
- AnalysisRuns.EveryHistory: an in-stream error event whose text is empty counts as no error, as in the code.
- EmbeddingsFile.FileReadsBack: asks that a provider's own header lines begin as comments, which the code does not check, and that every item has a vector.
- The Memgraph branch of schema reconciliation and `dropSchemaObject`: a plain loop of statements and a filter.
- Zoning.GraphToZoningStructure: the other fields of a shell, the HANDLES inversion, flows and data items are copied or filtered one by one and are not modelled.
- OperationFields.GuideTwice: the prose of the guide entries is left out; only their names, kinds and typical values are kept.
- OperationFields.FieldsTwice: is about parsed JSON; parsing, printing and classTypeFromPath are not modelled.
- PayloadDigest.Compute: stops at the bytes written; the hash is not modelled, nor is reading the stamp.
- RemoteModule.EveryHistory: embeddings, class types, content and evaluation do not touch registration and are left out.
- RemoteModule.MetadataAgrees: takes policy hashes as not empty, as the reader of a pin's hashes ensures.
- RegoEngines.RegoEngine.Compile: finding the package and the isolation check are unknown functions of the source; their regular expressions are not modelled.
- RegoEngines.RegoEngine.Register: `keyFor` and the error texts are not modelled.
- AtlasBundle.ParseAtlasBundle: asks for distinct STIX ids, and takes required properties as present and digits as ASCII digits; the sorted lists it returns are kept as sets and maps, since sorting only arranges them.
- The user interface, the servers, the command line, database sessions, LangGraph calls, WASM evaluation, git, tar and signatures: plumbing or foreign code.
- `aggregateCoverage.ts`, `operation-adapter.ts`, `embedder.ts`, `frontend-manifest.ts`, `vector-search.ts`, `rego-lint.ts` and `cypher-lint.ts`: grouping, validation and heuristics, each a pass over its input without state of its own.
