/**
 * The plans that make a second run of schema reconciliation change a movable schema
 * (packages/dt-module/src/schema.ts), and the exact condition for one to exist.
 */
module SchemaMoves {
  import opened Prelude
  import opened Ddl
  import opened SchemaReconcile
  import opened SchemaRuns
  import opened SchemaSecondRun

  // ----- the runs that move a movable schema -----

  /** A server on which nothing goes wrong. */
  function Smooth(quiet: bool): Oracle { Oracle(true, quiet, true, (k: nat) => None, (k: nat) => true) }

  /** While a constraint has not been made, no row that is new has its name or its schema. */
  lemma MadeOnly(db0: Db, db: Db, c: ConstraintSpec, row: Row)
    requires Known(db0, db) && SpecAccepted(c) && ConstraintRow(c) !in db.constraints
    ensures row in db.indexes && row !in db0.indexes ==>
              row.name != NameOf(c) && !(c.kind == Unique && SameSchema(row, Node, c.nodeLabel, c.properties))
    ensures row in db.constraints && row !in db0.constraints ==>
              row.name != NameOf(c) && !(row.kind == ConstraintRow(c).kind && SameSchema(row, Node, c.nodeLabel, c.properties))
    ensures row in db.constraints && row !in db0.constraints ==> row.kind != NodeUniqueness
  {
    hide Name, Accepted;
    if row in db.indexes && row !in db0.indexes {
      var made :| SpecAccepted(made) && made.kind == Unique && row == OwnedRow(made) && ConstraintRow(made) in db.constraints;
      if NameOf(made) == NameOf(c) { SameConstraint(made, c); }
    }
    if row in db.constraints && row !in db0.constraints {
      var made :| SpecAccepted(made) && row == ConstraintRow(made) && (made.kind == Unique ==> OwnedRow(made) in db.indexes);
      if NameOf(made) == NameOf(c) { SameConstraint(made, c); }
    }
  }

  /** So its CREATE takes effect, once what stood in its way at the start is gone. */
  lemma TakesEffect(quiet: bool, db0: Db, db: Db, c: ConstraintSpec)
    requires Known(db0, db) && SpecAccepted(c) && ConstraintRow(c) !in db.constraints
    requires !Named(db0.constraints, NameOf(c)) && !HasConstraint(db0, c.kind, c.nodeLabel, c.properties)
    requires forall row :: row in db.indexes && row in db0.indexes ==>
               row.name != NameOf(c) && !(c.kind == Unique && row.kind == Range && SameSchema(row, Node, c.nodeLabel, c.properties))
    ensures !Inert(quiet, db, StatementOf(c))
  {
    hide Name, SpecAccepted, Known;
    forall row | row in db.indexes
      ensures row.name != NameOf(c) && !(c.kind == Unique && row.kind == Range && SameSchema(row, Node, c.nodeLabel, c.properties))
    {
      MadeOnly(db0, db, c, row);
    }
    forall row | row in db.constraints
      ensures row.name != NameOf(c)
      ensures SameSchema(row, Node, c.nodeLabel, c.properties) ==> row.kind != ConstraintRow(c).kind && (c.kind == Unique ==> row.kind != NodeUniqueness)
    {
      MadeOnly(db0, db, c, row);
      if row in db0.constraints {
        var k :| 0 <= k < |db0.constraints| && db0.constraints[k] == row;
      }
    }
  }

  /** With no plain index left on its key, nothing refuses a constraint that way has been made for. */
  lemma NeverRefused(quiet: bool, db0: Db, db: Db, gone: seq<Row>, c: ConstraintSpec)
    requires ValidDb(db0) && Known(db0, db) && Keeps(db0, db) && SpecAccepted(c) && IsSingleUnique(c)
    requires !UniqueServed(db0, KeyOf(c).0, KeyOf(c).1) && !PlainServed(db, KeyOf(c).0, KeyOf(c).1)
    requires MakesWay(quiet, db0, gone, KeyOf(c).0, KeyOf(c).1) && forall row :: row in gone ==> row !in db.indexes
    ensures AlreadyThere(quiet, db, StatementOf(c)) || !Refuses(quiet, db, StatementOf(c))
  {
    hide Name, SpecAccepted, Known, AllBacked;
    var l, p := KeyOf(c).0, KeyOf(c).1;
    assert c.properties == [p];
    if ConstraintRow(c) in db.constraints {
      NamedBy(db.constraints, ConstraintRow(c));
    } else if HeldByConstraint(db0, NameOf(c)) {
      var row :| row in db0.constraints && row.name == NameOf(c);
      NamedBy(db.constraints, row);
    } else {
      forall row | row in db.indexes
        ensures !(row.kind == Range && SameSchema(row, Node, l, [p])) && (!quiet ==> row.name != NameOf(c))
      {
        MadeOnly(db0, db, c, row);
      }
    }
  }

  /** A clearable key that way has been made for is taken without a failure. */
  lemma TakesKey(db0: Db, st: St, oracle: Oracle, plan: Plan, c: ConstraintSpec, gone: seq<Row>, way: seq<Row>)
    requires ValidDb(db0) && Tracked(oracle.quiet, db0, st.db, st.uniqueKeys, gone) && oracle == Smooth(oracle.quiet)
    requires SpecAccepted(c) && IsSingleUnique(c) && Clearable(db0, KeyOf(c).0, KeyOf(c).1) && st.report.failed == []
    requires MakesWay(oracle.quiet, db0, way, KeyOf(c).0, KeyOf(c).1) && forall row :: row in way ==> row !in st.db.indexes
    ensures TakeConstraint(st, oracle, Some(db0), plan, c).report.failed == []
  {
    hide NameOf, SpecAccepted, Known, KeysTaken, AllBacked, PlainName, IsIdentifier, Execute, Held, AlreadyThere, Refuses, MakesWay, DropRows;
    hide Blocking, Gone;
    var key := KeyOf(c);
    var rows := Blocking(st, Some(db0), c);
    var cleared := DropRows(st, oracle, rows);
    BlockingBlocks(db0, st, c);
    DropsAll(db0, st, oracle, c, gone);
    ClearedKnown(db0, st.db, cleared.db, rows);
    if key in st.uniqueKeys {
      KeyIsTaken(oracle.quiet, db0, st.db, st.uniqueKeys, key);
    } else {
      KeyCleared(db0, st.db, st.uniqueKeys, c, rows, cleared.db);
    }
    NeverRefused(oracle.quiet, db0, cleared.db, way, c);
    Succeeds(cleared, oracle, StatementOf(c));
  }

  lemma KeyIsTaken(quiet: bool, db0: Db, db: Db, keys: set<Key>, key: Key)
    requires KeysTaken(quiet, db0, db, keys) && key in keys
    ensures KeyTaken(quiet, db0, db, key)
  {
    hide KeyTaken;
  }

  lemma Succeeds(st: St, oracle: Oracle, s: Statement)
    requires oracle.ok(st.clock) && !s.DropIndex? && (AlreadyThere(oracle.quiet, st.db, s) || !Refuses(oracle.quiet, st.db, s))
    ensures Execute(st, oracle, s).report.failed == st.report.failed
  {
    hide AlreadyThere, Refuses, Effect;
  }

  /** Every drop that makes way for a clearable key succeeds. */
  lemma DropsAll(db0: Db, st: St, oracle: Oracle, c: ConstraintSpec, gone: seq<Row>)
    requires Tracked(oracle.quiet, db0, st.db, st.uniqueKeys, gone) && oracle == Smooth(oracle.quiet)
    requires IsSingleUnique(c) && Clearable(db0, KeyOf(c).0, KeyOf(c).1)
    ensures var rows := Blocking(st, Some(db0), c);
            var cleared := DropRows(st, oracle, rows);
            ClearedBy(st.db, cleared.db, rows) && cleared.report.failed == st.report.failed && cleared.uniqueKeys == st.uniqueKeys
            && forall row :: row in rows ==> row.owner == None
  {
    hide NameOf, Known, KeysTaken, ServedIn, Keeps, PlainName, IsIdentifier, Execute, DropRows, Blocking, Chain;
    var rows := Blocking(st, Some(db0), c);
    BlockingBlocks(db0, st, c);
    forall k | 0 <= k < |rows| ensures PlainName(rows[k].name) && rows[k].owner == None && rows[k] in st.db.indexes {
      assert rows[k] in rows;
      PlainKey(rows[k], KeyOf(c).0, KeyOf(c).1);
    }
    DropAllRows(st, oracle, rows, st.clock + |rows|);
  }

  /** The constraints that clear these indexes, in their order. */
  function Clearing(rows: seq<Row>): seq<ConstraintSpec>
    requires forall row :: row in rows ==> IsPlainIndex(row)
  {
    if rows == [] then [] else assert rows[0] in rows; [UniqueOn(IndexKey(rows[0]))] + Clearing(rows[1..])
  }

  lemma UniqueAccepted(key: Key)
    requires IsIdentifier(key.0) && IsIdentifier(key.1)
    ensures SpecAccepted(UniqueOn(key))
  {
    SingleAccepted(key.0, key.1);
  }

  /** Where another constraint is not the one asked for, or its name is never free, it is not made. */
  predicate Apart(db0: Db, c: ConstraintSpec, d: ConstraintSpec) { d != c || Named(db0.constraints, NameOf(c)) }

  lemma NotMade(quiet: bool, db0: Db, db: Db, keys: set<Key>, d: ConstraintSpec, rows: seq<Row>,
          cleared: Db, after: Db, c: ConstraintSpec)
    requires Taken(quiet, db0, db, keys, d, rows, cleared, after) && Keeps(db0, db)
    requires Apart(db0, c, d) && ConstraintRow(c) !in db.constraints
    ensures ConstraintRow(c) !in after.constraints
  {
    hide Name, Effect, Refuses, SpecAccepted, Blocks;
    TakenRows(quiet, db0, db, keys, d, rows, cleared, after);
    if c == d && after != cleared { NamedStays(db0.constraints, cleared.constraints, NameOf(c)); }
  }

  /** One constraint of the list: its key is taken, its plain indexes go, and `c` is still not made. */
  lemma ClearOne(db0: Db, st: St, oracle: Oracle, plan: Plan, gone: seq<Row>, way: seq<Row>, row: Row, c: ConstraintSpec)
    returns (more: seq<Row>)
    requires ValidDb(db0) && Tracked(oracle.quiet, db0, st.db, st.uniqueKeys, gone) && oracle == Smooth(oracle.quiet)
    requires st.report.failed == [] && Yields(oracle.quiet, db0, way, row)
    requires forall other :: other in way ==> IsPlainIndex(other) && other !in st.db.indexes
    requires Apart(db0, c, UniqueOn(IndexKey(row))) && ConstraintRow(c) !in st.db.constraints
    ensures var after := TakeConstraint(st, oracle, Some(db0), plan, UniqueOn(IndexKey(row)));
            after.report.failed == [] && Tracked(oracle.quiet, db0, after.db, after.uniqueKeys, more)
            && (forall other :: other in way || other == row ==> other !in after.db.indexes)
            && ConstraintRow(c) !in after.db.constraints && st.uniqueKeys <= after.uniqueKeys
            && SpecAccepted(UniqueOn(IndexKey(row)))
  {
    hide TakeConstraint, SpecAccepted, ValidDb, DropRows, Blocking, Known, KeysTaken, NameOf, PlainName, IsIdentifier, MakesWay, Chain;
    var d := UniqueOn(IndexKey(row));
    UniqueAccepted(IndexKey(row));
    assert KeyOf(d) == IndexKey(row);
    TakesKey(db0, st, oracle, plan, d, gone, way);
    TakeStep(db0, st, oracle, plan, d);
    var rows := Blocking(st, Some(db0), d);
    var cleared, after := DropRows(st, oracle, rows).db, TakeConstraint(st, oracle, Some(db0), plan, d);
    TakenTracked(oracle.quiet, db0, st.db, st.uniqueKeys, gone, d, rows, cleared, after.db);
    TakenRows(oracle.quiet, db0, st.db, st.uniqueKeys, d, rows, cleared, after.db);
    NotMade(oracle.quiet, db0, st.db, st.uniqueKeys, d, rows, cleared, after.db, c);
    more := gone + rows;
    KeyIsTaken(oracle.quiet, db0, after.db, after.uniqueKeys, KeyOf(d));
    PlainKey(row, KeyOf(d).0, KeyOf(d).1);
    StaysGone(db0, st.db, after.db, d, way);
  }

  lemma StaysGone(db0: Db, db: Db, after: Db, d: ConstraintSpec, way: seq<Row>)
    requires forall row :: row in after.indexes ==> row in db.indexes || row == OwnedRow(d)
    requires forall row :: row in way ==> row !in db.indexes && row.owner == None
    ensures forall row :: row in way ==> row !in after.indexes
  {
    hide NameOf;
  }

  lemma {:induction false} ClearChain(db0: Db, st: St, oracle: Oracle, plan: Plan, gone: seq<Row>, way: seq<Row>,
          rows: seq<Row>, c: ConstraintSpec)
    returns (more: seq<Row>)
    requires ValidDb(db0) && Tracked(oracle.quiet, db0, st.db, st.uniqueKeys, gone) && oracle == Smooth(oracle.quiet)
    requires st.report.failed == [] && Chain(oracle.quiet, db0, way + rows)
    requires forall row :: row in way + rows ==> IsPlainIndex(row)
    requires forall row :: row in way ==> row !in st.db.indexes
    requires forall row :: row in rows ==> Apart(db0, c, UniqueOn(IndexKey(row)))
    requires ConstraintRow(c) !in st.db.constraints
    ensures var after := TakeConstraints(st, oracle, Some(db0), plan, Clearing(rows));
            after.report.failed == [] && Tracked(oracle.quiet, db0, after.db, after.uniqueKeys, more)
            && (forall row :: row in way + rows ==> row !in after.db.indexes)
            && ConstraintRow(c) !in after.db.constraints && st.uniqueKeys <= after.uniqueKeys
    ensures SpecsAccepted(Clearing(rows))
    decreases |rows|
  {
    hide TakeConstraint, SpecAccepted, ValidDb, Tracked, ConstraintRow, Yields, Apart, IsPlainIndex;
    more := gone;
    if rows == [] {
      assert way + rows == way;
    } else {
      var row := rows[0];
      assert (way + rows)[..|way|] == way && (way + rows)[|way|] == row;
      var tracked := ClearOne(db0, st, oracle, plan, gone, way, row, c);
      var next := TakeConstraint(st, oracle, Some(db0), plan, UniqueOn(IndexKey(row)));
      assert (way + [row]) + rows[1..] == way + rows;
      more := ClearChain(db0, next, oracle, plan, tracked, way + [row], rows[1..], c);
      assert Clearing(rows) == [UniqueOn(IndexKey(row))] + Clearing(rows[1..]);
    }
  }

  /** A constraint taken for one that is there, once its key is cleared, makes nothing. */
  lemma TakesThere(db0: Db, st: St, oracle: Oracle, plan: Plan, c: ConstraintSpec, gone: seq<Row>)
    requires ValidDb(db0) && Tracked(oracle.quiet, db0, st.db, st.uniqueKeys, gone) && oracle == Smooth(oracle.quiet)
    requires SpecAccepted(c) && st.report.failed == [] && (IsSingleUnique(c) ==> Clearable(db0, KeyOf(c).0, KeyOf(c).1))
    requires forall cleared :: ClearedBy(st.db, cleared, Blocking(st, Some(db0), c)) ==> AlreadyThere(oracle.quiet, cleared, StatementOf(c))
    ensures var after := TakeConstraint(st, oracle, Some(db0), plan, c);
            after.report.failed == [] && after.db.constraints == st.db.constraints
            && Tracked(oracle.quiet, db0, after.db, after.uniqueKeys, gone + Blocking(st, Some(db0), c))
            && Stands(oracle.quiet, db0, after.db, after.uniqueKeys, c) && after.uniqueKeys == NextKeys(st.uniqueKeys, c)
  {
    hide NameOf, SpecAccepted, ValidDb, Tracked, Clearable, Stands, Blocking, DropRows, Execute, AlreadyThere, Refuses, Held, AnyDroppable, Effect;
    hide Blocks;
    var rows := Blocking(st, Some(db0), c);
    var cleared := DropRows(st, oracle, rows);
    if IsSingleUnique(c) {
      DropsAll(db0, st, oracle, c, gone);
    } else {
      assert rows == [] by { BlockingBlocks(db0, st, c); NotSingle(db0, st, c); }
      NoRows(st, oracle);
    }
    assert ClearedBy(st.db, cleared.db, rows);
    Succeeds(cleared, oracle, StatementOf(c));
    TrackedParts(oracle.quiet, db0, st.db, st.uniqueKeys, gone);
    TakeStep(db0, st, oracle, plan, c);
    StepTracked(db0, st, oracle, plan, c, gone);
  }

  lemma NotSingle(db0: Db, st: St, c: ConstraintSpec)
    requires !IsSingleUnique(c)
    ensures Blocking(st, Some(db0), c) == []
  {
  }

  lemma TrackedParts(quiet: bool, db0: Db, db: Db, keys: set<Key>, gone: seq<Row>)
    requires Tracked(quiet, db0, db, keys, gone)
    ensures Known(db0, db) && KeysTaken(quiet, db0, db, keys) && Keeps(db0, db)
  {
    hide Known, KeysTaken, Keeps, Gone, ServedIn, NamesDiffer;
  }

  /** A list that frees the name of the key's index without making the key's own constraint. */
  lemma PickChain(quiet: bool, db: Db, l: string, p: string) returns (rows: seq<Row>)
    requires ValidDb(db) && KeyMoves(quiet, db, l, p)
    ensures Chain(quiet, db, rows) && NameFreed(db, rows, l, p)
    ensures forall row :: row in rows ==> IsPlainIndex(row) && Apart(db, UniqueOn((l, p)), UniqueOn(IndexKey(row)))
    ensures forall row :: row in rows ==> row in db.indexes
  {
    hide Name, AllBacked, Clearable;
    rows :| Chain(quiet, db, rows) && NameFreed(db, rows, l, p);
    var c := UniqueOn((l, p));
    if !quiet {
      var held :| held in db.constraints && held.name == NameOf(c);
      NamedBy(db.constraints, held);
      forall row | row in rows ensures IsPlainIndex(row) && row in db.indexes {
        var k :| 0 <= k < |rows| && rows[k] == row;
        assert Yields(quiet, db, rows[..k], rows[k]);
      }
    } else if row :| row in db.indexes && row.name == Name(NodeIndex(l, p)) && !IsPlainIndexOn(row, l, p) {
      var k :| 0 <= k < |rows| && rows[k] == row;
      assert Yields(quiet, db, rows[..k], rows[k]);
      rows := [row];
      PlainKey(row, l, p);
    } else {
      rows := [];
    }
  }

  /** After such a first run the key's index is neither there nor refused. */
  lemma IndexFree(quiet: bool, db0: Db, db: Db, keys: set<Key>, gone: seq<Row>, rows: seq<Row>, l: string, p: string)
    requires ValidDb(db0) && Tracked(quiet, db0, db, keys, gone) && (l, p) in keys && Clearable(db0, l, p)
    requires NameFreed(db0, rows, l, p) && (forall row :: row in rows ==> row !in db.indexes)
    requires !HeldByConstraint(db0, Name(NodeIndex(l, p))) && ConstraintRow(UniqueOn((l, p))) !in db.constraints
    ensures !Inert(quiet, db, CreateIndex(l, p)) && !UniqueServed(db, l, p)
  {
    hide Name, IsIdentifier, AllBacked, PlainName, NamesDiffer, ServedIn, Gone, Keeps, KeysTaken, Accepted, ConstraintNameTaken;
    var c := UniqueOn((l, p));
    KeyIsTaken(quiet, db0, db, keys, (l, p));
    UniqueAccepted((l, p));
    forall row | row in db.constraints
      ensures !(CoversIndex(row.kind) && SameSchema(row, Node, l, [p])) && row.name != Name(NodeIndex(l, p))
    {
      MadeOnly(db0, db, c, row);
      if row !in db0.constraints { NotAnIndexName(db0, db, row, l, p); }
    }
    forall row | row in db.indexes
      ensures !(row.kind == Range && SameSchema(row, Node, l, [p])) && row.name != Name(NodeIndex(l, p))
    {
      MadeOnly(db0, db, c, row);
      if row !in db0.indexes { NotAnIndexName(db0, db, row, l, p); }
    }
  }

  lemma NotAnIndexName(db0: Db, db: Db, row: Row, l: string, p: string)
    requires Known(db0, db) && IsIdentifier(l) && IsIdentifier(p)
    ensures row in db.indexes && row !in db0.indexes ==> row.name != Name(NodeIndex(l, p))
    ensures row in db.constraints && row !in db0.constraints ==> row.name != Name(NodeIndex(l, p))
  {
    hide Name, IsIdentifier, Accepted;
    assert Accepted(NodeIndex(l, p)) by { SingleAccepted(l, p); }
    if row in db.indexes && row !in db0.indexes {
      var made :| SpecAccepted(made) && made.kind == Unique && row == OwnedRow(made) && ConstraintRow(made) in db.constraints;
      NameClash(Constraint(made.nodeLabel, made.properties, made.kind), NodeIndex(l, p));
    }
    if row in db.constraints && row !in db0.constraints {
      var made :| SpecAccepted(made) && row == ConstraintRow(made) && (made.kind == Unique ==> OwnedRow(made) in db.indexes);
      NameClash(Constraint(made.nodeLabel, made.properties, made.kind), NodeIndex(l, p));
    }
  }

  /** A server on which one statement succeeds and every other fails. */
  function AllBut(quiet: bool, enterprise: bool, n: nat): Oracle {
    Oracle(enterprise, quiet, true, (k: nat) => None, (k: nat) => k == n)
  }

  /** The constraints of the list that are attempted. */
  function Turns(oracle: Oracle, cs: seq<ConstraintSpec>): nat {
    if cs == [] then 0 else (if Wanted(oracle, cs[0]) then 1 else 0) + Turns(oracle, cs[1..])
  }

  /** The constraints of the plan find no plain index in their way. */
  ghost predicate AllBare(db: Db, oracle: Oracle, cs: seq<ConstraintSpec>) {
    forall c :: c in cs && Wanted(oracle, c) ==> Bare(db, c)
  }

  lemma NoBlocking(db: Db, oracle: Oracle, st: St, c: ConstraintSpec)
    requires Still(db, oracle, st) && Bare(db, c) && oracle.readable
    ensures Blocking(st, Some(db), c) == []
  {
    hide Still, Bare, PlainRows;
    if IsSingleUnique(c) { NothingBlocks(db, oracle, st, c); }
  }

  /** Constraints that all fail, with nothing in their way, leave the schema alone. */
  lemma {:induction false} AllFail(db: Db, st: St, oracle: Oracle, plan: Plan, cs: seq<ConstraintSpec>, n: nat)
    requires Still(db, oracle, st) && oracle == AllBut(oracle.quiet, oracle.enterprise, n)
    requires st.clock + Turns(oracle, cs) <= n && AllBare(db, oracle, cs)
    ensures var after := TakeConstraints(st, oracle, Some(db), plan, cs);
            Still(db, oracle, after) && after.clock == st.clock + Turns(oracle, cs) && after.uniqueKeys == st.uniqueKeys
    decreases |cs|
  {
    hide Bare, CoveredKeys, Held, Blocking, Exec;
    if cs != [] {
      var c := cs[0];
      assert c in cs;
      if Wanted(oracle, c) {
        NoBlocking(db, oracle, st, c);
        NoRows(st, oracle);
        Fails(st, oracle, StatementOf(c));
      }
      assert forall other :: other in cs[1..] ==> other in cs;
      AllFail(db, TakeConstraint(st, oracle, Some(db), plan, c), oracle, plan, cs[1..], n);
    }
  }

  lemma {:induction false} ConstraintsSplit(st: St, oracle: Oracle, existing: Option<Db>, plan: Plan,
          a: seq<ConstraintSpec>, b: seq<ConstraintSpec>)
    ensures TakeConstraints(st, oracle, existing, plan, a + b)
         == TakeConstraints(TakeConstraints(st, oracle, existing, plan, a), oracle, existing, plan, b)
    decreases |a|
  {
    hide TakeConstraint;
    if a == [] {
      assert a + b == b;
    } else {
      assert (a + b)[1..] == a[1..] + b;
      ConstraintsSplit(TakeConstraint(st, oracle, existing, plan, a[0]), oracle, existing, plan, a[1..], b);
    }
  }

  lemma {:induction false} IndexesSplit(st: St, oracle: Oracle, a: seq<Key>, b: seq<Key>)
    ensures TakeIndexes(st, oracle, a + b) == TakeIndexes(TakeIndexes(st, oracle, a), oracle, b)
    decreases |a|
  {
    hide TakeIndex;
    if a == [] {
      assert a + b == b;
    } else {
      assert (a + b)[1..] == a[1..] + b;
      IndexesSplit(TakeIndex(st, oracle, a[0]), oracle, a[1..], b);
    }
  }

  /** Nothing is dropped after the constraints. */
  ghost predicate Grows(a: Db, b: Db) { Keeps(a, b) && forall row :: row in a.indexes ==> row in b.indexes }

  lemma CreateGrows(st: St, oracle: Oracle, s: Statement)
    requires !s.DropIndex?
    ensures Grows(st.db, Execute(st, oracle, s).db)
  {
    hide Name, AlreadyThere, Refuses;
  }

  lemma {:induction false} IndexesGrow(st: St, oracle: Oracle, keys: seq<Key>)
    ensures Grows(st.db, TakeIndexes(st, oracle, keys).db)
    decreases |keys|
  {
    hide Execute;
    if keys != [] {
      CreateGrows(st, oracle, CreateIndex(keys[0].0, keys[0].1));
      IndexesGrow(TakeIndex(st, oracle, keys[0]), oracle, keys[1..]);
    }
  }

  lemma {:induction false} RelationshipIndexesGrow(st: St, oracle: Oracle, keys: seq<Key>)
    ensures Grows(st.db, TakeRelationshipIndexes(st, oracle, keys).db)
    decreases |keys|
  {
    hide Execute;
    if keys != [] {
      var s := CreateRelationshipIndex(keys[0].0, keys[0].1);
      CreateGrows(st, oracle, s);
      RelationshipIndexesGrow(Execute(st, oracle, s), oracle, keys[1..]);
    }
  }

  /** The attempts at the indexes of the list. */
  function Tries(keys: seq<Key>, covered: set<Key>): nat {
    if keys == [] then 0 else (if keys[0] in covered then 0 else 1) + Tries(keys[1..], covered)
  }

  lemma {:induction false} IndexesAllFail(st: St, oracle: Oracle, keys: seq<Key>, n: nat)
    requires oracle == AllBut(oracle.quiet, oracle.enterprise, n) && st.clock + Tries(keys, st.uniqueKeys) <= n
    ensures var after := TakeIndexes(st, oracle, keys);
            after.db == st.db && after.clock == st.clock + Tries(keys, st.uniqueKeys) && after.uniqueKeys == st.uniqueKeys
    decreases |keys|
  {
    hide Exec;
    if keys != [] {
      if keys[0] !in st.uniqueKeys { Fails(st, oracle, CreateIndex(keys[0].0, keys[0].1)); }
      IndexesAllFail(TakeIndex(st, oracle, keys[0]), oracle, keys[1..], n);
    }
  }

  /** A constraint of the plan that can take effect does so on a run on which everything else fails. */
  lemma MovedByConstraint(db: Db, quiet: bool, enterprise: bool, plan: Plan, i: nat) returns (oracle: Oracle)
    requires i < |plan.constraints| && AllBare(db, AllBut(quiet, enterprise, 0), plan.constraints)
    requires Wanted(AllBut(quiet, enterprise, 0), plan.constraints[i]) && !Inert(quiet, db, StatementOf(plan.constraints[i]))
    ensures oracle.quiet == quiet && oracle.enterprise == enterprise && Ensure(db, oracle, plan).db != db
  {
    hide CoveredKeys, TakeConstraint, Bare, NameOf, Inert;
    var cs, c := plan.constraints, plan.constraints[i];
    var before := cs[..i];
    var n := Turns(AllBut(quiet, enterprise, 0), before);
    oracle := AllBut(quiet, enterprise, n);
    SameTurns(AllBut(quiet, enterprise, 0), oracle, before);
    var begin := Begin(db, oracle);
    assert forall other :: other in before ==> other in cs;
    AllFail(db, begin, oracle, plan, before, n);
    var st := TakeConstraints(begin, oracle, Some(db), plan, before);
    var next := TakeConstraint(st, oracle, Some(db), plan, c);
    assert c in cs;
    ConstraintMade(db, oracle, st, plan, c);
    assert cs == before + cs[i..] && cs[i..][0] == c;
    ConstraintsSplit(begin, oracle, Some(db), plan, before, cs[i..]);
    var a := TakeConstraints(next, oracle, Some(db), plan, cs[i..][1..]);
    assert a == TakeConstraints(begin, oracle, Some(db), plan, cs);
    TakeConstraintsKeep(next, oracle, Some(db), plan, cs[i..][1..]);
    IndexesGrow(a, oracle, plan.indexes);
    RelationshipIndexesGrow(TakeIndexes(a, oracle, plan.indexes), oracle, plan.relationshipIndexes);
    assert ConstraintRow(c) in Ensure(db, oracle, plan).db.constraints;
  }

  lemma {:induction false} SameTurns(a: Oracle, b: Oracle, cs: seq<ConstraintSpec>)
    requires a.enterprise == b.enterprise
    ensures Turns(a, cs) == Turns(b, cs)
    decreases |cs|
  {
    if cs != [] { SameTurns(a, b, cs[1..]); }
  }

  lemma ConstraintMade(db: Db, oracle: Oracle, st: St, plan: Plan, c: ConstraintSpec)
    requires Still(db, oracle, st) && oracle == AllBut(oracle.quiet, oracle.enterprise, st.clock) && Bare(db, c) && Wanted(oracle, c)
    requires !Inert(oracle.quiet, db, StatementOf(c))
    ensures ConstraintRow(c) in TakeConstraint(st, oracle, Some(db), plan, c).db.constraints && ConstraintRow(c) !in db.constraints
  {
    hide NameOf, Bare, CoveredKeys, Held, Blocking, Refuses, Name, NoDrops;
    if ConstraintRow(c) in db.constraints { NamedBy(db.constraints, ConstraintRow(c)); }
    NoBlocking(db, oracle, st, c);
    NoRows(st, oracle);
    EffectRows(db, c);
  }

  /** So does an index of the plan whose key nothing serves. */
  lemma MovedByIndex(db: Db, quiet: bool, enterprise: bool, plan: Plan, i: nat) returns (oracle: Oracle)
    requires i < |plan.indexes| && AllBare(db, AllBut(quiet, enterprise, 0), plan.constraints)
    requires var key := plan.indexes[i]; !UniqueServed(db, key.0, key.1) && !Inert(quiet, db, CreateIndex(key.0, key.1))
    ensures oracle.quiet == quiet && oracle.enterprise == enterprise && Ensure(db, oracle, plan).db != db
  {
    hide CoveredKeys, TakeConstraint, Bare, Inert, UniqueServed, Name, Execute;
    var covered, keys, key := CoveredKeys(db.constraints), plan.indexes, plan.indexes[i];
    var turns := Turns(AllBut(quiet, enterprise, 0), plan.constraints);
    var n := turns + Tries(keys[..i], covered);
    oracle := AllBut(quiet, enterprise, n);
    SameTurns(AllBut(quiet, enterprise, 0), oracle, plan.constraints);
    var begin := Begin(db, oracle);
    AllFail(db, begin, oracle, plan, plan.constraints, n);
    var a := TakeConstraints(begin, oracle, Some(db), plan, plan.constraints);
    IndexesAllFail(a, oracle, keys[..i], n);
    var st := TakeIndexes(a, oracle, keys[..i]);
    if key in covered { CoveredKeysServed(db, key.0, key.1); }
    IndexMade(st, oracle, key);
    var next := TakeIndex(st, oracle, key);
    assert keys == keys[..i] + keys[i..] && keys[i..][0] == key;
    IndexesSplit(a, oracle, keys[..i], keys[i..]);
    var b := TakeIndexes(next, oracle, keys[i..][1..]);
    assert b == TakeIndexes(a, oracle, keys);
    IndexesGrow(next, oracle, keys[i..][1..]);
    RelationshipIndexesGrow(b, oracle, plan.relationshipIndexes);
    assert IndexRow(key) in Ensure(db, oracle, plan).db.indexes;
  }

  lemma IndexMade(st: St, oracle: Oracle, key: Key)
    requires key !in st.uniqueKeys && oracle.ok(st.clock) && !Inert(oracle.quiet, st.db, CreateIndex(key.0, key.1))
    ensures IndexRow(key) in TakeIndex(st, oracle, key).db.indexes && IndexRow(key) !in st.db.indexes
  {
    hide Refuses, Name;
    if IndexRow(key) in st.db.indexes { NamedBy(st.db.indexes, IndexRow(key)); }
  }

  lemma Fails(st: St, oracle: Oracle, s: Statement)
    requires !oracle.ok(st.clock)
    ensures Execute(st, oracle, s)
         == St(st.db, st.clock + 1, st.report.(failed := st.report.failed + [StatementFailed(s)]), st.uniqueKeys)
  {
    hide AlreadyThere, Refuses, Effect;
  }

  /** The plan that takes the key for served, frees the name of its index, and lists that index. */
  function KeyPlan(l: string, p: string, rows: seq<Row>): Plan
    requires forall row :: row in rows ==> IsPlainIndex(row)
  {
    Plan([(l, p)], [], [UniqueOn((l, p))] + Clearing(rows))
  }

  /** Its first run: no failure, the key counted as unique with nothing to serve it, its index's name free. */
  lemma KeyFirstRun(quiet: bool, db: Db, l: string, p: string, rows: seq<Row>) returns (gone: seq<Row>)
    requires ValidDb(db) && KeyMoves(quiet, db, l, p) && Chain(quiet, db, rows) && NameFreed(db, rows, l, p)
    requires forall row :: row in rows ==> IsPlainIndex(row) && Apart(db, UniqueOn((l, p)), UniqueOn(IndexKey(row)))
    ensures var plan, oracle := KeyPlan(l, p, rows), Smooth(quiet);
            var a := TakeConstraints(Begin(db, oracle), oracle, Some(db), plan, plan.constraints);
            PlanAccepted(plan) && Ensure(db, oracle, plan).db == a.db && Ensure(db, oracle, plan).report.failed == []
            && Tracked(quiet, db, a.db, a.uniqueKeys, gone) && (l, p) in a.uniqueKeys
            && !Inert(quiet, a.db, CreateIndex(l, p)) && !UniqueServed(a.db, l, p)
            && forall row :: row in rows ==> row !in a.db.indexes
  {
    hide ValidDb, Tracked, Chain, NameFreed, SpecAccepted, IsIdentifier, Inert, Stands, NameOf, TakeConstraint, CoveredKeys, IsPlainIndex, Apart;
    hide ConstraintNameTaken, Clearable, Blocking, PlainName;
    var c, plan, oracle := UniqueOn((l, p)), KeyPlan(l, p, rows), Smooth(quiet);
    var begin := Begin(db, oracle);
    BeginTracked(quiet, db);
    KeyBegins(quiet, db, begin, l, p);
    TakesThere(db, begin, oracle, plan, c, []);
    var next := TakeConstraint(begin, oracle, Some(db), plan, c);
    assert [] + rows == rows;
    gone := ClearChain(db, next, oracle, plan, [] + Blocking(begin, Some(db), c), [], rows, c);
    var a := TakeConstraints(next, oracle, Some(db), plan, Clearing(rows));
    assert plan.constraints[1..] == Clearing(rows) && plan.constraints[0] == c;
    assert a == TakeConstraints(begin, oracle, Some(db), plan, plan.constraints);
    IndexFree(quiet, db, a.db, a.uniqueKeys, gone, rows, l, p);
    KeyAccepted(plan, db, rows, l, p);
    SkipsIndex(a, oracle, (l, p));
  }

  lemma SkipsIndex(st: St, oracle: Oracle, key: Key)
    requires key in st.uniqueKeys
    ensures TakeRelationshipIndexes(TakeIndexes(st, oracle, [key]), oracle, []).db == st.db
    ensures TakeRelationshipIndexes(TakeIndexes(st, oracle, [key]), oracle, []).report.failed == st.report.failed
  {
    assert [key][1..] == [];
    assert TakeIndexes(TakeIndex(st, oracle, key), oracle, []) == TakeIndex(st, oracle, key);
  }

  lemma KeyAccepted(plan: Plan, db: Db, rows: seq<Row>, l: string, p: string)
    requires (forall row :: row in rows ==> IsPlainIndex(row)) && plan == KeyPlan(l, p, rows)
    requires SpecsAccepted(Clearing(rows)) && Clearable(db, l, p)
    ensures PlanAccepted(plan)
  {
    hide IsIdentifier, Accepted, IsPlainIndex, PlainName;
    SingleAccepted(l, p);
    forall k | 0 <= k < |plan.constraints| ensures SpecAccepted(plan.constraints[k]) {
      if k > 0 { assert plan.constraints[k] == Clearing(rows)[k - 1]; }
    }
  }

  /** The first constraint finds its name taken, even with its key's indexes cleared. */
  lemma KeyBegins(quiet: bool, db: Db, begin: St, l: string, p: string)
    requires Clearable(db, l, p) && ConstraintNameTaken(quiet, db, l, p) && begin.db == db
    ensures SpecAccepted(UniqueOn((l, p))) && ConstraintRow(UniqueOn((l, p))) !in db.constraints
    ensures forall cleared :: ClearedBy(db, cleared, Blocking(begin, Some(db), UniqueOn((l, p)))) ==>
                                AlreadyThere(quiet, cleared, StatementOf(UniqueOn((l, p))))
  {
    hide NameOf, Name, IsIdentifier, AlreadyThere, ConstraintNameTaken, PlainName, Blocking, Accepted, Blocks, UniqueServed;
    var c := UniqueOn((l, p));
    UniqueAccepted((l, p));
    if ConstraintRow(c) in db.constraints { RowServes(db, c); }
    forall cleared | ClearedBy(db, cleared, Blocking(begin, Some(db), c)) ensures AlreadyThere(quiet, cleared, StatementOf(c)) {
      OnlyPlainBlocks(db, begin, l, p);
      ConstraintTaken(quiet, db, cleared, l, p);
    }
  }

  lemma OnlyPlainBlocks(db: Db, st: St, l: string, p: string)
    ensures forall row :: row in Blocking(st, Some(db), UniqueOn((l, p))) ==> IsPlainIndexOn(row, l, p)
  {
    BlockingBlocks(db, st, UniqueOn((l, p)));
  }

  /** No plain index is left in the way of a plan run without failures. */
  lemma SettledBare(db: Db, first: Oracle, plan: Plan)
    requires ValidDb(db) && PlanAccepted(plan) && Ensure(db, first, plan).report.failed == []
    ensures AllBare(Ensure(db, first, plan).db, first, plan.constraints)
  {
    hide ValidDb, PlanAccepted, Ensure, Constrained, Inert, Bare, Stands, Extends, Tracked, SpecAccepted;
    var gone := FirstRunParts(db, first, plan);
    var a := Constrained(db, first, plan);
    forall c | c in plan.constraints && Wanted(first, c) ensures Bare(Ensure(db, first, plan).db, c) {
      StandsBare(first.quiet, db, a.db, a.uniqueKeys, gone, c);
      StandsKey(first.quiet, db, a.db, a.uniqueKeys, c);
      if IsSingleUnique(c) { BareStays(a.db, Ensure(db, first, plan).db, a.uniqueKeys, c); } else { NotSingleBare(Ensure(db, first, plan).db, c); }
    }
  }

  lemma NotSingleBare(db: Db, c: ConstraintSpec)
    requires !IsSingleUnique(c)
    ensures Bare(db, c)
  {
  }

  /** A key that moves is moved by its plan, on a second run whose constraints fail. */
  lemma KeyMoved(quiet: bool, db: Db, l: string, p: string) returns (plan: Plan, first: Oracle, second: Oracle)
    requires ValidDb(db) && KeyMoves(quiet, db, l, p)
    ensures first.quiet == quiet && RunTwice(db, plan, first, second) && !SecondStill(db, plan, first, second)
  {
    hide ValidDb, Tracked, Chain, NameFreed, Inert, NameOf, TakeConstraints, Begin, IsPlainIndex, Apart, PlanAccepted, KeyMoves, Ensure, Bare;
    var rows := PickChain(quiet, db, l, p);
    plan, first := KeyPlan(l, p, rows), Smooth(quiet);
    var gone := KeyFirstRun(quiet, db, l, p, rows);
    SettledBare(db, first, plan);
    second := MovedByIndex(Ensure(db, first, plan).db, quiet, true, plan, 0);
  }

  /** The plan that takes the constraint for created and then drops the index that had its name. */
  function NamePlan(c: ConstraintSpec, row: Row): Plan
    requires IsPlainIndex(row)
  {
    Plan([], [], [c, UniqueOn(IndexKey(row))])
  }

  /** A quiet engine takes the constraint for created while the index is there. */
  lemma NameBegins(db: Db, begin: St, c: ConstraintSpec, row: Row)
    requires ValidDb(db) && NameMoves(db, c, row) && begin.db == db
    ensures ConstraintRow(c) !in db.constraints
    ensures forall cleared :: ClearedBy(db, cleared, Blocking(begin, Some(db), c)) ==> AlreadyThere(true, cleared, StatementOf(c))
  {
    hide Name, SpecAccepted, AllBacked, Clearable, Blocking;
    if ConstraintRow(c) in db.constraints { NamedBy(db.constraints, ConstraintRow(c)); }
    BlockingBlocks(db, begin, c);
    assert row !in Blocking(begin, Some(db), c);
    forall cleared | ClearedBy(db, cleared, Blocking(begin, Some(db), c)) ensures AlreadyThere(true, cleared, StatementOf(c)) {
      NamedBy(cleared.indexes, row);
    }
  }

  /** Its first run: no failure, the index gone, the constraint not made and its CREATE free to take effect. */
  lemma NameFirstRun(db: Db, c: ConstraintSpec, row: Row) returns (gone: seq<Row>)
    requires ValidDb(db) && NameMoves(db, c, row)
    ensures var plan, oracle := NamePlan(c, row), Smooth(true);
            var after := Ensure(db, oracle, plan);
            PlanAccepted(plan) && after.report.failed == [] && Tracked(true, db, after.db, after.uniqueKeys, gone)
            && (IsSingleUnique(c) ==> KeyOf(c) in after.uniqueKeys)
            && row !in after.db.indexes && ConstraintRow(c) !in after.db.constraints
  {
    hide ValidDb, Tracked, SpecAccepted, IsIdentifier, NameOf, TakeConstraint, CoveredKeys, IsPlainIndex, Clearable, Blocking, PlainName;
    hide Stands, AlreadyThere, ConstraintRow, HasConstraint, HasIndex;
    var plan, oracle := NamePlan(c, row), Smooth(true);
    var begin := Begin(db, oracle);
    BeginTracked(true, db);
    NameBegins(db, begin, c, row);
    TakesThere(db, begin, oracle, plan, c, []);
    var next := TakeConstraint(begin, oracle, Some(db), plan, c);
    assert [] + [row] == [row] && [row][..0] == [];
    assert Apart(db, c, UniqueOn(IndexKey(row))) by { OtherConstraint(db, c, row); }
    gone := ClearChain(db, next, oracle, plan, [] + Blocking(begin, Some(db), c), [], [row], c);
    assert Clearing([row]) == [UniqueOn(IndexKey(row))] by { assert [row][1..] == []; }
    assert plan.constraints[1..] == Clearing([row]);
    assert plan.constraints == [c] + Clearing([row]);
    var a := TakeConstraints(next, oracle, Some(db), plan, Clearing([row]));
    assert a == TakeConstraints(begin, oracle, Some(db), plan, plan.constraints);
    NoIndexes(a, oracle);
    assert SpecsAccepted(plan.constraints);
    OnlyConstraints(plan);
  }

  lemma OnlyConstraints(plan: Plan)
    requires SpecsAccepted(plan.constraints) && plan.indexes == [] && plan.relationshipIndexes == []
    ensures PlanAccepted(plan)
  {
    hide Accepted;
    assert forall k :: 0 <= k < |plan.constraints| ==> SpecAccepted(plan.constraints[k]);
  }

  lemma OtherConstraint(db: Db, c: ConstraintSpec, row: Row)
    requires NameMoves(db, c, row)
    ensures c != UniqueOn(IndexKey(row))
  {
    hide NameOf, Clearable, SpecAccepted;
    PlainKey(row, IndexKey(row).0, IndexKey(row).1);
  }

  /** With the index gone, the constraint's CREATE takes effect. */
  lemma NameFree(db0: Db, db: Db, keys: set<Key>, gone: seq<Row>, c: ConstraintSpec, row: Row)
    requires ValidDb(db0) && Tracked(true, db0, db, keys, gone) && NameMoves(db0, c, row)
    requires row !in db.indexes && ConstraintRow(c) !in db.constraints && (IsSingleUnique(c) ==> KeyOf(c) in keys)
    ensures !Inert(true, db, StatementOf(c)) && Bare(db, c)
  {
    hide NameOf, Name, SpecAccepted, AllBacked, Known, Gone, ServedIn, NamesDiffer, Keeps, KeysTaken, IsIdentifier, PlainName, ConstraintNameTaken;
    if IsSingleUnique(c) {
      KeyIsTaken(true, db0, db, keys, KeyOf(c));
      assert c.properties == [KeyOf(c).1];
    }
    forall other | other in db.indexes && other in db0.indexes
      ensures other.name != NameOf(c)
      ensures !(c.kind == Unique && other.kind == Range && SameSchema(other, Node, c.nodeLabel, c.properties))
    {
      if !IsSingleUnique(c) {
        var k :| 0 <= k < |db0.indexes| && db0.indexes[k] == other;
      }
    }
    TakesEffect(true, db0, db, c);
  }

  /** Constraints are never dropped. */
  lemma ExecuteKeeps(st: St, oracle: Oracle, s: Statement)
    ensures Keeps(st.db, Execute(st, oracle, s).db)
  {
    hide Name, AlreadyThere, Refuses;
  }

  lemma {:induction false} DropRowsKeep(st: St, oracle: Oracle, rows: seq<Row>)
    ensures Keeps(st.db, DropRows(st, oracle, rows).db)
    decreases |rows|
  {
    hide Execute, PlainName;
    if rows != [] {
      ExecuteKeeps(st, oracle, DropIndex(rows[0].name));
      DropRowsKeep(if PlainName(rows[0].name) then Execute(st, oracle, DropIndex(rows[0].name)) else Fail(st, RefusedName(rows[0].name)),
        oracle, rows[1..]);
    }
  }

  lemma {:induction false} TakeConstraintsKeep(st: St, oracle: Oracle, existing: Option<Db>, plan: Plan, cs: seq<ConstraintSpec>)
    ensures Keeps(st.db, TakeConstraints(st, oracle, existing, plan, cs).db)
    decreases |cs|
  {
    hide Execute, DropRows, Held, Blocking, AnyDroppable;
    if cs != [] {
      var c := cs[0];
      var cleared := DropRows(st, oracle, Blocking(st, existing, c));
      var created := Execute(cleared, oracle, StatementOf(c));
      DropRowsKeep(st, oracle, Blocking(st, existing, c));
      ExecuteKeeps(cleared, oracle, StatementOf(c));
      if IsSingleUnique(c) { ExecuteKeeps(created, oracle, CreateIndex(KeyOf(c).0, KeyOf(c).1)); }
      TakeConstraintsKeep(TakeConstraint(st, oracle, existing, plan, c), oracle, existing, plan, cs[1..]);
    }
  }

  /** The first constraint of a smooth run is made if its statement can take effect. */
  lemma FirstMade(db: Db, oracle: Oracle, plan: Plan)
    requires oracle == Smooth(oracle.quiet) && plan.constraints != [] && plan.indexes == [] && plan.relationshipIndexes == []
    requires !Inert(oracle.quiet, db, StatementOf(plan.constraints[0])) && Bare(db, plan.constraints[0])
    ensures ConstraintRow(plan.constraints[0]) in Ensure(db, oracle, plan).db.constraints
  {
    hide NameOf, UniqueServed, PlainServed, CoveredKeys, Held, PlainRows, AlreadyThere, Refuses;
    var c, begin := plan.constraints[0], Begin(db, oracle);
    if IsSingleUnique(c) { NothingBlocks(db, oracle, begin, c); }
    assert Blocking(begin, Some(db), c) == [];
    NoRows(begin, oracle);
    EffectRows(db, c);
    var next := TakeConstraint(begin, oracle, Some(db), plan, c);
    assert ConstraintRow(c) in next.db.constraints;
    TakeConstraintsKeep(next, oracle, Some(db), plan, plan.constraints[1..]);
    NoIndexes(TakeConstraints(begin, oracle, Some(db), plan, plan.constraints), oracle);
  }

  /** A constraint that loses the index it was taken for is made by a second run as smooth as the first. */
  lemma NameMoved(db: Db, c: ConstraintSpec, row: Row) returns (plan: Plan, first: Oracle, second: Oracle)
    requires ValidDb(db) && NameMoves(db, c, row)
    ensures first.quiet && RunTwice(db, plan, first, second) && !SecondStill(db, plan, first, second)
  {
    hide ValidDb, Tracked, Inert, ConstraintRow, Bare, Ensure, PlanAccepted, NameMoves, IsPlainIndex;
    assert IsPlainIndex(row) by { PlainOne(db, c, row); }
    plan, first, second := NamePlan(c, row), Smooth(true), Smooth(true);
    var gone := NameFirstRun(db, c, row);
    var after := Ensure(db, first, plan);
    NameFree(db, after.db, after.uniqueKeys, gone, c, row);
    FirstMade(after.db, second, plan);
  }

  lemma PlainOne(db: Db, c: ConstraintSpec, row: Row)
    requires NameMoves(db, c, row)
    ensures IsPlainIndex(row)
  {
  }

  /** Some plan, run twice and the first time without failures, is not still the second time. */
  ghost predicate Moves(quiet: bool, db: Db) {
    exists plan, first: Oracle, second: Oracle ::
      first.quiet == quiet && RunTwice(db, plan, first, second) && !SecondStill(db, plan, first, second)
  }

  /** Exactly the movable schemas have a plan whose second run changes or drops something. */
  lemma SecondRunIff(quiet: bool, db: Db)
    requires ValidDb(db)
    ensures Moves(quiet, db) <==> Movable(quiet, db)
  {
    hide ValidDb, RunTwice, SecondStill, KeyMoves, NameMoves;
    if Movable(quiet, db) {
      if l, p :| KeyMoves(quiet, db, l, p) {
        var plan, first, second := KeyMoved(quiet, db, l, p);
      } else {
        var c, row :| NameMoves(db, c, row);
        var plan, first, second := NameMoved(db, c, row);
      }
    } else if plan, first: Oracle, second: Oracle :|
        first.quiet == quiet && RunTwice(db, plan, first, second) && !SecondStill(db, plan, first, second) {
      SecondRunStill(db, plan, first, second);
    }
  }
}
