/**
 * One call of ensureSchema in place (packages/dt-module/src/schema.ts): the session that issues the
 * statements and fills the report.
 */
module SchemaRuns {
  import opened Prelude
  import opened Ddl
  import opened SchemaReconcile

  // ----- the session -----

  /** One call of ensureSchema against Neo4j: the database it talks to and the report it fills. */
  class SchemaSession {
    const oracle: Oracle
    var db: Db
    var clock: nat
    var report: Report
    var uniqueKeys: set<Key>

    function View(): St
      reads this
    {
      St(db, clock, report, uniqueKeys)
    }

    constructor (db: Db, oracle: Oracle)
      ensures View() == St(db, 0, NO_REPORT, {}) && this.oracle == oracle
    {
      this.db, this.oracle := db, oracle;
      clock, report, uniqueKeys := 0, NO_REPORT, {};
    }

    /** execute */
    method Run(s: Statement)
      modifies this
      ensures View() == Execute(old(View()), oracle, s)
    {
      var answer := Exec(oracle.quiet, db, s, oracle.ok(clock));
      if answer.1 {
        db := answer.0;
        report := report.(applied := report.applied + [s]);
      } else {
        report := report.(failed := report.failed + [StatementFailed(s)]);
      }
      clock := clock + 1;
    }

    /** Drops the plain indexes in the way of a constraint on the key, and says whether a drop was issued. */
    method MakeWay(indexes: seq<Row>, l: string, p: string) returns (droppedIndex: bool)
      modifies this
      ensures View() == DropRows(old(View()), oracle, PlainRows(indexes, l, p))
      ensures droppedIndex == AnyDroppable(PlainRows(indexes, l, p))
    {
      hide Execute, DropRows, IsPlainIndexOn, PlainName, AnyDroppable, PlainRows;
      droppedIndex := false;
      PlainStart(indexes, l, p);
      ghost var done: seq<Row> := [];
      NoRows(View(), oracle);
      var i := 0;
      while i < |indexes|
        invariant 0 <= i <= |indexes|
        invariant PlainRows(indexes, l, p) == done + PlainRows(indexes[i..], l, p)
        invariant View() == DropRows(old(View()), oracle, done)
        invariant droppedIndex == AnyDroppable(done)
      {
        var row := indexes[i];
        PlainStep(indexes, i, l, p);
        if IsPlainIndexOn(row, l, p) {
          DropRowsStep(old(View()), oracle, done, row);
          assert done + PlainRows(indexes[i..], l, p) == (done + [row]) + PlainRows(indexes[i + 1..], l, p);
          DroppableStep(done, row);
          if PlainName(row.name) {
            Run(DropIndex(row.name));
            droppedIndex := true;
          } else {
            report := report.(failed := report.failed + [RefusedName(row.name)]);
          }
          done := done + [row];
        }
        i := i + 1;
      }
      PlainEnd(indexes, i, l, p);
      assert done + [] == done;
    }

    /** One pass of the loop over the declared constraints. */
    method Constrain(existing: Option<Db>, plan: Plan, c: ConstraintSpec)
      modifies this
      ensures View() == TakeConstraint(old(View()), oracle, existing, plan, c)
    {
      hide Execute, DropRows, PlainRows;
      if c.kind == Exists && !oracle.enterprise {
        report := report.(skipped := report.skipped + [NeedsEnterprise(c)]);
        return;
      }
      if c.kind == Unique && !Held(existing, c) {
        var duplicated := oracle.duplicated(clock);
        if duplicated.Some? && duplicated.value > 0 {
          report := report.(failed := report.failed + [NotRun(StatementOf(c))]);
          clock := clock + 1;
          return;
        }
      }
      var droppedIndex := false;
      ghost var start := View();
      if IsSingleUnique(c) && existing.Some? && KeyOf(c) !in uniqueKeys {
        droppedIndex := MakeWay(existing.value.indexes, c.nodeLabel, c.properties[0]);
      } else {
        NoRows(View(), oracle);
      }
      assert View() == DropRows(start, oracle, Blocking(start, existing, c));
      var failuresBefore := |report.failed|;
      ghost var cleared := View();
      Run(StatementOf(c));
      if !IsSingleUnique(c) { return; }
      if |report.failed| == failuresBefore {
        uniqueKeys := uniqueKeys + {KeyOf(c)};
      } else if droppedIndex && KeyOf(c) !in plan.indexes {
        Run(CreateIndex(KeyOf(c).0, KeyOf(c).1));
      }
    }

    /** Reads the schema the run decides by, and the keys its constraints cover. */
    method ReadSchema() returns (existing: Option<Db>)
      requires View() == St(db, 0, NO_REPORT, {})
      modifies this
      ensures View() == Begin(old(db), oracle) && existing == if oracle.readable then Some(old(db)) else None
    {
      if !oracle.readable {
        report := report.(failed := report.failed + [ShowFailed]);
        return None;
      }
      var i := 0;
      while i < |db.constraints|
        invariant 0 <= i <= |db.constraints|
        invariant View() == St(old(db), 0, NO_REPORT, CoveredKeys(db.constraints[..i]))
      {
        var row := db.constraints[i];
        assert db.constraints[..i + 1] == db.constraints[..i] + [row];
        CoveredStep(db.constraints[..i], row);
        if CoversIndex(row.kind) && row.entity == Node && |row.labels| == 1 && |row.properties| == 1 {
          uniqueKeys := uniqueKeys + {(row.labels[0], row.properties[0])};
        }
        i := i + 1;
      }
      assert db.constraints[..i] == db.constraints;
      return Some(db);
    }

    /** ensureSchema: a plan with a bad name throws before anything has run. */
    method EnsureSchema(plan: Plan) returns (thrown: bool)
      requires View() == St(db, 0, NO_REPORT, {})
      modifies this
      ensures thrown <==> !PlanAccepted(plan)
      ensures View() == if thrown then old(View()) else Ensure(old(db), oracle, plan)
    {
      hide Execute, TakeConstraint, TakeIndex, Begin;
      if !PlanAccepted(plan) { return true; }
      var existing := ReadSchema();
      ghost var a := View();
      var i := 0;
      while i < |plan.constraints|
        invariant 0 <= i <= |plan.constraints|
        invariant TakeConstraints(View(), oracle, existing, plan, plan.constraints[i..])
               == TakeConstraints(a, oracle, existing, plan, plan.constraints)
      {
        assert plan.constraints[i..][1..] == plan.constraints[i + 1..];
        Constrain(existing, plan, plan.constraints[i]);
        i := i + 1;
      }
      ghost var b := View();
      assert b == TakeConstraints(a, oracle, existing, plan, plan.constraints);
      i := 0;
      while i < |plan.indexes|
        invariant 0 <= i <= |plan.indexes|
        invariant TakeIndexes(View(), oracle, plan.indexes[i..]) == TakeIndexes(b, oracle, plan.indexes)
      {
        assert plan.indexes[i..][1..] == plan.indexes[i + 1..];
        Index(plan.indexes[i]);
        i := i + 1;
      }
      ghost var c := View();
      assert c == TakeIndexes(b, oracle, plan.indexes);
      i := 0;
      while i < |plan.relationshipIndexes|
        invariant 0 <= i <= |plan.relationshipIndexes|
        invariant TakeRelationshipIndexes(View(), oracle, plan.relationshipIndexes[i..])
               == TakeRelationshipIndexes(c, oracle, plan.relationshipIndexes)
      {
        var key := plan.relationshipIndexes[i];
        assert plan.relationshipIndexes[i..][1..] == plan.relationshipIndexes[i + 1..];
        Run(CreateRelationshipIndex(key.0, key.1));
        i := i + 1;
      }
      return false;
    }

    method Index(key: Key)
      modifies this
      ensures View() == TakeIndex(old(View()), oracle, key)
    {
      if key in uniqueKeys {
        report := report.(skipped := report.skipped + [CoveredByConstraint(key)]);
      } else {
        Run(CreateIndex(key.0, key.1));
      }
    }
  }

  lemma PlainStart(rows: seq<Row>, l: string, p: string)
    ensures PlainRows(rows, l, p) == [] + PlainRows(rows[0..], l, p)
  {
    assert rows[0..] == rows;
  }

  lemma PlainStep(rows: seq<Row>, i: nat, l: string, p: string)
    requires i < |rows|
    ensures PlainRows(rows[i..], l, p) == (if IsPlainIndexOn(rows[i], l, p) then [rows[i]] else []) + PlainRows(rows[i + 1..], l, p)
    ensures !IsPlainIndexOn(rows[i], l, p) ==> PlainRows(rows[i..], l, p) == PlainRows(rows[i + 1..], l, p)
  {
    hide IsPlainIndexOn;
    assert rows[i..][1..] == rows[i + 1..];
  }

  lemma PlainEnd(rows: seq<Row>, i: nat, l: string, p: string)
    requires i == |rows|
    ensures PlainRows(rows[i..], l, p) == []
  {
  }

  lemma NoRows(st: St, oracle: Oracle)
    ensures DropRows(st, oracle, []) == st && !AnyDroppable([])
  {
  }

  lemma {:induction false} DropRowsStep(st: St, oracle: Oracle, rows: seq<Row>, row: Row)
    ensures var before := DropRows(st, oracle, rows);
            DropRows(st, oracle, rows + [row])
            == if PlainName(row.name) then Execute(before, oracle, DropIndex(row.name)) else Fail(before, RefusedName(row.name))
    decreases |rows|
  {
    hide Execute, PlainName;
    if rows == [] {
      assert (rows + [row])[1..] == [];
    } else {
      var next := if PlainName(rows[0].name) then Execute(st, oracle, DropIndex(rows[0].name)) else Fail(st, RefusedName(rows[0].name));
      assert (rows + [row])[1..] == rows[1..] + [row];
      DropRowsStep(next, oracle, rows[1..], row);
    }
  }

  lemma DroppableStep(rows: seq<Row>, row: Row)
    ensures AnyDroppable(rows + [row]) <==> AnyDroppable(rows) || PlainName(row.name)
  {
    hide PlainName;
    var all := rows + [row];
    if PlainName(row.name) { assert all[|rows|] == row; }
    if AnyDroppable(rows) {
      var k :| 0 <= k < |rows| && PlainName(rows[k].name);
      assert all[k] == rows[k];
    }
  }

  lemma CoveredStep(rows: seq<Row>, row: Row)
    ensures CoveredKeys(rows + [row]) == CoveredKeys(rows)
      + if CoversIndex(row.kind) && row.entity == Node && |row.labels| == 1 && |row.properties| == 1
        then {(row.labels[0], row.properties[0])} else {}
  {
    var all := rows + [row];
    assert all[|rows|] == row;
    forall k | 0 <= k < |rows| ensures all[k] == rows[k] {}
    forall key: Key | key in CoveredKeys(rows) ensures key in CoveredKeys(all) {
      var k :| 0 <= k < |rows| && CoversIndex(rows[k].kind) && rows[k].entity == Node && |rows[k].labels| == 1 && |rows[k].properties| == 1
        && key == (rows[k].labels[0], rows[k].properties[0]);
      assert all[k] == rows[k];
    }
  }
}
