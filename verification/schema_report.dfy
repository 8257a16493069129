/**
 * What a run of `ensureSchema` does about each declared object (packages/dt-module/src/schema.ts), said
 * of the key counts the engine answers, the report, and the indexes that are listed afterwards.
 */
module SchemaReports {
  import opened Prelude
  import opened Ddl
  import opened SchemaReconcile

  // ----- the run, constraint by constraint -----

  function Listed(db: Db, oracle: Oracle): Option<Db> { if oracle.readable then Some(db) else None }

  /** The run just before the declared constraint `i`. */
  function Reached(db: Db, oracle: Oracle, plan: Plan, i: nat): St
    requires i <= |plan.constraints|
  {
    TakeConstraints(Begin(db, oracle), oracle, Listed(db, oracle), plan, plan.constraints[..i])
  }

  /** The engine answers that key values are on more than one node. */
  predicate Duplicates(oracle: Oracle, st: St) {
    match oracle.duplicated(st.clock)
    case Some(count) => count != 0
    case None => false
  }

  /** A listed constraint makes the key unique already. */
  ghost predicate AlreadyHeld(db: Db, oracle: Oracle, c: ConstraintSpec) {
    oracle.readable && exists row :: row in db.constraints && CoversIndex(row.kind) && SameSchema(row, Node, c.nodeLabel, c.properties)
  }

  /** Duplicate keys rule the constraint out. */
  ghost predicate RuledOut(db: Db, oracle: Oracle, plan: Plan, i: nat)
    requires i < |plan.constraints|
  {
    var c := plan.constraints[i];
    c.kind == Unique && !AlreadyHeld(db, oracle, c) && Duplicates(oracle, Reached(db, oracle, plan, i))
  }

  /** Only another edition of the engine can hold the constraint. */
  predicate NotForEdition(oracle: Oracle, c: ConstraintSpec) { c.kind == Exists && !oracle.enterprise }

  predicate Tried(report: Report, s: Statement) { s in report.applied || StatementFailed(s) in report.failed }

  /** What the second report says on top of the first. */
  predicate Extends(a: Report, b: Report) { a.applied <= b.applied && a.skipped <= b.skipped && a.failed <= b.failed }

  function Since(a: Report, b: Report): Report
    requires Extends(a, b)
  {
    Report(b.applied[|a.applied|..], b.skipped[|a.skipped|..], b.failed[|a.failed|..])
  }

  ghost predicate NoRefusal(report: Report) { forall f :: f in report.failed ==> !f.NotRun? }

  // ----- one constraint -----

  lemma {:induction false} DropRowsExtend(st: St, oracle: Oracle, rows: seq<Row>)
    ensures var after := DropRows(st, oracle, rows);
            Extends(st.report, after.report) && NoRefusal(Since(st.report, after.report)) && after.report.skipped == st.report.skipped
    decreases |rows|
  {
    hide PlainName, Exec;
    if rows != [] {
      var next := if PlainName(rows[0].name) then Execute(st, oracle, DropIndex(rows[0].name)) else Fail(st, RefusedName(rows[0].name));
      DropRowsExtend(next, oracle, rows[1..]);
      var after := DropRows(next, oracle, rows[1..]);
      assert after.report.failed[|st.report.failed|..]
          == next.report.failed[|st.report.failed|..] + after.report.failed[|next.report.failed|..];
    }
  }

  lemma ExecuteExtends(st: St, oracle: Oracle, s: Statement)
    ensures var after := Execute(st, oracle, s);
            Extends(st.report, after.report) && NoRefusal(Since(st.report, after.report)) && after.report.skipped == st.report.skipped
    ensures Tried(Since(st.report, Execute(st, oracle, s).report), s)
  {
    hide Exec;
    var after := Execute(st, oracle, s);
    var since := Since(st.report, after.report);
    if after.report.failed == st.report.failed {
      assert since.applied == [s];
    } else {
      assert since.failed == [StatementFailed(s)];
    }
  }

  lemma SinceOn(a: Report, b: Report, c: Report)
    requires Extends(a, b) && Extends(b, c)
    ensures Extends(a, c)
    ensures Since(a, c).applied == Since(a, b).applied + Since(b, c).applied
    ensures Since(a, c).failed == Since(a, b).failed + Since(b, c).failed
    ensures Since(a, c).skipped == Since(a, b).skipped + Since(b, c).skipped
  {
  }

  /** One declared constraint, from the count: left alone and reported, left to another edition, or attempted. */
  ghost predicate Outcome(from: St, to: St, c: ConstraintSpec, other: bool, duplicates: bool) {
    Extends(from.report, to.report)
    && var since := Since(from.report, to.report);
       if other then to.db == from.db && since == Report([], [NeedsEnterprise(c)], [])
       else if duplicates then to.db == from.db && since == Report([], [], [NotRun(StatementOf(c))])
       else Tried(since, StatementOf(c)) && NoRefusal(since) && since.skipped == []
  }

  lemma StepOutcome(st: St, oracle: Oracle, existing: Option<Db>, plan: Plan, c: ConstraintSpec)
    ensures Outcome(st, TakeConstraint(st, oracle, existing, plan, c), c, NotForEdition(oracle, c),
                    c.kind == Unique && !Held(existing, c) && Duplicates(oracle, st))
  {
    hide Execute, DropRows, Held, Blocking, AnyDroppable;
    var after := TakeConstraint(st, oracle, existing, plan, c);
    if !NotForEdition(oracle, c) && !(c.kind == Unique && !Held(existing, c) && Duplicates(oracle, st)) {
      var cleared := DropRows(st, oracle, Blocking(st, existing, c));
      var created := Execute(cleared, oracle, StatementOf(c));
      DropRowsExtend(st, oracle, Blocking(st, existing, c));
      ExecuteExtends(cleared, oracle, StatementOf(c));
      SinceOn(st.report, cleared.report, created.report);
      if after.report != created.report {
        ExecuteExtends(created, oracle, CreateIndex(KeyOf(c).0, KeyOf(c).1));
        SinceOn(st.report, created.report, after.report);
      }
    }
  }

  lemma HeldMeans(db: Db, oracle: Oracle, c: ConstraintSpec)
    ensures Held(Listed(db, oracle), c) <==> c.kind == Unique && AlreadyHeld(db, oracle, c)
  {
    if c.kind == Unique && AlreadyHeld(db, oracle, c) {
      var row :| row in db.constraints && CoversIndex(row.kind) && SameSchema(row, Node, c.nodeLabel, c.properties);
      var k :| 0 <= k < |db.constraints| && db.constraints[k] == row;
    }
    if Held(Listed(db, oracle), c) {
      var k :| 0 <= k < |db.constraints| && CoversIndex(db.constraints[k].kind)
               && SameSchema(db.constraints[k], Node, c.nodeLabel, c.properties);
      assert db.constraints[k] in db.constraints;
    }
  }

  lemma {:induction false} TakeLast(st: St, oracle: Oracle, existing: Option<Db>, plan: Plan, cs: seq<ConstraintSpec>, c: ConstraintSpec)
    ensures TakeConstraints(st, oracle, existing, plan, cs + [c])
         == TakeConstraint(TakeConstraints(st, oracle, existing, plan, cs), oracle, existing, plan, c)
    decreases |cs|
  {
    hide TakeConstraint;
    if cs == [] {
      assert [] + [c] == [c] && [c][1..] == [];
    } else {
      assert (cs + [c])[1..] == cs[1..] + [c];
      TakeLast(TakeConstraint(st, oracle, existing, plan, cs[0]), oracle, existing, plan, cs[1..], c);
    }
  }

  lemma ReachedNext(db: Db, oracle: Oracle, plan: Plan, i: nat)
    requires i < |plan.constraints|
    ensures Reached(db, oracle, plan, i + 1)
         == TakeConstraint(Reached(db, oracle, plan, i), oracle, Listed(db, oracle), plan, plan.constraints[i])
  {
    hide TakeConstraint, Begin;
    assert plan.constraints[..i + 1] == plan.constraints[..i] + [plan.constraints[i]];
    TakeLast(Begin(db, oracle), oracle, Listed(db, oracle), plan, plan.constraints[..i], plan.constraints[i]);
  }

  /**
   * The duplicate check, from the count alone: a uniqueness constraint no listed one holds is reported as not
   * run for any number above zero, with no statement issued and the schema as it was; for zero, or when
   * the count fails, its CREATE is issued.
   */
  lemma ConstraintOutcome(db: Db, oracle: Oracle, plan: Plan, i: nat)
    requires i < |plan.constraints|
    ensures Outcome(Reached(db, oracle, plan, i), Reached(db, oracle, plan, i + 1), plan.constraints[i],
                    NotForEdition(oracle, plan.constraints[i]), RuledOut(db, oracle, plan, i))
  {
    hide TakeConstraint, Begin, Held, AlreadyHeld, Outcome, Reached;
    ReachedNext(db, oracle, plan, i);
    HeldMeans(db, oracle, plan.constraints[i]);
    StepOutcome(Reached(db, oracle, plan, i), oracle, Listed(db, oracle), plan, plan.constraints[i]);
  }

  // ----- the whole report -----

  lemma {:induction false} IndexesExtend(st: St, oracle: Oracle, keys: seq<Key>)
    ensures var after := TakeIndexes(st, oracle, keys);
            Extends(st.report, after.report) && NoRefusal(Since(st.report, after.report)) && after.uniqueKeys == st.uniqueKeys
    ensures forall key :: key in keys ==>
              var since := Since(st.report, TakeIndexes(st, oracle, keys).report);
              if key in st.uniqueKeys then CoveredByConstraint(key) in since.skipped else Tried(since, CreateIndex(key.0, key.1))
    ensures forall skip :: skip in Since(st.report, TakeIndexes(st, oracle, keys).report).skipped ==>
              skip.CoveredByConstraint? && skip.key in keys && skip.key in st.uniqueKeys
    decreases |keys|
  {
    hide Exec;
    if keys != [] {
      var next := TakeIndex(st, oracle, keys[0]);
      if keys[0] !in st.uniqueKeys { ExecuteExtends(st, oracle, CreateIndex(keys[0].0, keys[0].1)); }
      IndexesExtend(next, oracle, keys[1..]);
      SinceOn(st.report, next.report, TakeIndexes(st, oracle, keys).report);
    }
  }

  lemma {:induction false} RelationshipsExtend(st: St, oracle: Oracle, keys: seq<Key>)
    ensures var after := TakeRelationshipIndexes(st, oracle, keys);
            Extends(st.report, after.report) && NoRefusal(Since(st.report, after.report)) && after.report.skipped == st.report.skipped
    ensures forall key :: key in keys ==>
              Tried(Since(st.report, TakeRelationshipIndexes(st, oracle, keys).report), CreateRelationshipIndex(key.0, key.1))
    decreases |keys|
  {
    hide Execute;
    if keys != [] {
      var next := Execute(st, oracle, CreateRelationshipIndex(keys[0].0, keys[0].1));
      ExecuteExtends(st, oracle, CreateRelationshipIndex(keys[0].0, keys[0].1));
      RelationshipsExtend(next, oracle, keys[1..]);
      SinceOn(st.report, next.report, TakeRelationshipIndexes(st, oracle, keys).report);
    }
  }

  lemma {:induction false} ReachedExtends(db: Db, oracle: Oracle, plan: Plan, i: nat, j: nat)
    requires i <= j <= |plan.constraints|
    ensures Extends(Reached(db, oracle, plan, i).report, Reached(db, oracle, plan, j).report)
    ensures forall f :: f in Since(Reached(db, oracle, plan, i).report, Reached(db, oracle, plan, j).report).failed && f.NotRun? ==>
              exists k :: i <= k < j && RuledOut(db, oracle, plan, k) && f == NotRun(StatementOf(plan.constraints[k]))
    ensures forall skip :: skip in Since(Reached(db, oracle, plan, i).report, Reached(db, oracle, plan, j).report).skipped ==>
              exists k :: i <= k < j && NotForEdition(oracle, plan.constraints[k]) && skip == NeedsEnterprise(plan.constraints[k])
    decreases j - i
  {
    hide Reached, RuledOut, NotForEdition, StatementOf;
    if i < j {
      ReachedExtends(db, oracle, plan, i, j - 1);
      ConstraintOutcome(db, oracle, plan, j - 1);
      SinceOn(Reached(db, oracle, plan, i).report, Reached(db, oracle, plan, j - 1).report, Reached(db, oracle, plan, j).report);
    }
  }

  /** The phases after the constraints. */
  lemma EnsureParts(db: Db, oracle: Oracle, plan: Plan) returns (a: St, b: St)
    ensures a == Reached(db, oracle, plan, |plan.constraints|) && b == TakeIndexes(a, oracle, plan.indexes)
    ensures Ensure(db, oracle, plan) == TakeRelationshipIndexes(b, oracle, plan.relationshipIndexes)
    ensures Extends(a.report, b.report) && Extends(b.report, Ensure(db, oracle, plan).report)
    ensures NoRefusal(Since(a.report, b.report)) && NoRefusal(Since(b.report, Ensure(db, oracle, plan).report))
  {
    hide TakeConstraints, TakeIndexes, TakeRelationshipIndexes, NoRefusal, Begin;
    assert plan.constraints[..|plan.constraints|] == plan.constraints;
    a := Reached(db, oracle, plan, |plan.constraints|);
    b := TakeIndexes(a, oracle, plan.indexes);
    IndexesExtend(a, oracle, plan.indexes);
    RelationshipsExtend(b, oracle, plan.relationshipIndexes);
  }

  /**
   * Every declared constraint is accounted for in the report of the run: skipped exactly for another
   * edition, reported as not run exactly when duplicate keys rule it out, attempted otherwise.
   */
  lemma ConstraintsAccounted(db: Db, oracle: Oracle, plan: Plan)
    ensures var report := Ensure(db, oracle, plan).report;
            forall i: nat :: i < |plan.constraints| ==>
              var c := plan.constraints[i];
              if NotForEdition(oracle, c) then NeedsEnterprise(c) in report.skipped
              else if RuledOut(db, oracle, plan, i) then NotRun(StatementOf(c)) in report.failed
              else Tried(report, StatementOf(c))
    ensures forall f :: f in Ensure(db, oracle, plan).report.failed && f.NotRun? ==>
              exists i: nat :: i < |plan.constraints| && RuledOut(db, oracle, plan, i) && f == NotRun(StatementOf(plan.constraints[i]))
    ensures forall c :: NeedsEnterprise(c) in Ensure(db, oracle, plan).report.skipped ==>
              c in plan.constraints && NotForEdition(oracle, c)
  {
    hide Reached, RuledOut, NotForEdition, StatementOf, TakeIndexes, TakeRelationshipIndexes, Ensure, NoRefusal;
    var n := |plan.constraints|;
    var final := Ensure(db, oracle, plan).report;
    var a, b := EnsureParts(db, oracle, plan);
    SinceOn(a.report, b.report, final);
    forall i: nat | i < n ensures var c := plan.constraints[i];
              if NotForEdition(oracle, c) then NeedsEnterprise(c) in final.skipped
              else if RuledOut(db, oracle, plan, i) then NotRun(StatementOf(c)) in final.failed
              else Tried(final, StatementOf(c)) {
      ConstraintOutcome(db, oracle, plan, i);
      ReachedExtends(db, oracle, plan, i + 1, n);
      SaidStays(Reached(db, oracle, plan, i).report, Reached(db, oracle, plan, i + 1).report, final);
    }
    NotRunEnds(db, oracle, plan, a, b);
    SkippedEnds(db, oracle, plan, a, b);
  }

  lemma SaidStays(a: Report, b: Report, c: Report)
    requires Extends(a, b) && Extends(b, c)
    ensures forall s :: s in Since(a, b).applied ==> s in c.applied
    ensures forall s :: s in Since(a, b).skipped ==> s in c.skipped
    ensures forall f :: f in Since(a, b).failed ==> f in c.failed
  {
    assert forall k :: 0 <= k < |b.applied| ==> b.applied[k] == c.applied[k];
    assert forall k :: 0 <= k < |b.skipped| ==> b.skipped[k] == c.skipped[k];
    assert forall k :: 0 <= k < |b.failed| ==> b.failed[k] == c.failed[k];
  }

  lemma NotRunEnds(db: Db, oracle: Oracle, plan: Plan, a: St, b: St)
    requires a == Reached(db, oracle, plan, |plan.constraints|)
    requires Extends(a.report, b.report) && Extends(b.report, Ensure(db, oracle, plan).report)
    requires NoRefusal(Since(a.report, b.report)) && NoRefusal(Since(b.report, Ensure(db, oracle, plan).report))
    ensures forall f :: f in Ensure(db, oracle, plan).report.failed && f.NotRun? ==>
              exists i: nat :: i < |plan.constraints| && RuledOut(db, oracle, plan, i) && f == NotRun(StatementOf(plan.constraints[i]))
  {
    hide RuledOut, StatementOf, TakeConstraints, Ensure;
    var n, final := |plan.constraints|, Ensure(db, oracle, plan).report;
    var start := Reached(db, oracle, plan, 0).report;
    ReachedExtends(db, oracle, plan, 0, n);
    SinceOn(a.report, b.report, final);
    SinceOn(start, a.report, final);
    StartSays(db, oracle, plan);
    assert final.failed == start.failed + Since(start, a.report).failed + Since(a.report, b.report).failed + Since(b.report, final).failed;
  }

  lemma SkippedEnds(db: Db, oracle: Oracle, plan: Plan, a: St, b: St)
    requires a == Reached(db, oracle, plan, |plan.constraints|) && b == TakeIndexes(a, oracle, plan.indexes)
    requires Ensure(db, oracle, plan) == TakeRelationshipIndexes(b, oracle, plan.relationshipIndexes)
    ensures forall c :: NeedsEnterprise(c) in Ensure(db, oracle, plan).report.skipped ==>
              c in plan.constraints && NotForEdition(oracle, c)
  {
    hide NotForEdition, TakeConstraints, Ensure, Tried, NoRefusal;
    var n, final := |plan.constraints|, Ensure(db, oracle, plan).report;
    var start := Reached(db, oracle, plan, 0).report;
    ReachedExtends(db, oracle, plan, 0, n);
    IndexesExtend(a, oracle, plan.indexes);
    RelationshipsExtend(b, oracle, plan.relationshipIndexes);
    SinceOn(start, a.report, b.report);
    StartSays(db, oracle, plan);
    assert final.skipped == start.skipped + Since(start, a.report).skipped + Since(a.report, b.report).skipped;
  }

  lemma StartSays(db: Db, oracle: Oracle, plan: Plan)
    ensures Reached(db, oracle, plan, 0) == Begin(db, oracle)
    ensures Begin(db, oracle).report.applied == [] && Begin(db, oracle).report.skipped == []
    ensures Begin(db, oracle).report.failed == if oracle.readable then [] else [ShowFailed]
  {
    assert plan.constraints[..0] == [];
  }

  // ----- the indexes of the plan -----

  /** A uniqueness constraint brings the key an index: one listed when the run began, or one the run created. */
  ghost predicate Covered(db: Db, oracle: Oracle, report: Report, key: Key) {
    (oracle.readable && UniqueServed(db, key.0, key.1)) || CreateConstraint(key.0, [key.1], Unique) in report.applied
  }

  lemma BeginCovers(db: Db, oracle: Oracle, key: Key)
    ensures key in Begin(db, oracle).uniqueKeys <==> Covered(db, oracle, Begin(db, oracle).report, key)
  {
    if UniqueServed(db, key.0, key.1) {
      var row :| row in db.constraints && CoversIndex(row.kind) && SameSchema(row, Node, key.0, [key.1]);
      var k :| 0 <= k < |db.constraints| && db.constraints[k] == row;
    }
    if key in CoveredKeys(db.constraints) { CoveredKeysServed(db, key.0, key.1); }
  }

  lemma {:induction false} DropRowsApply(st: St, oracle: Oracle, rows: seq<Row>)
    ensures DropRows(st, oracle, rows).uniqueKeys == st.uniqueKeys
    ensures forall s: Statement :: !s.DropIndex? ==> (s in DropRows(st, oracle, rows).report.applied <==> s in st.report.applied)
    decreases |rows|
  {
    hide PlainName, Exec;
    if rows != [] {
      DropRowsApply(if PlainName(rows[0].name) then Execute(st, oracle, DropIndex(rows[0].name)) else Fail(st, RefusedName(rows[0].name)),
                    oracle, rows[1..]);
    }
  }

  /** A key joins the covered ones exactly when the CREATE of its constraint goes through. */
  lemma StepCovers(db: Db, st: St, oracle: Oracle, existing: Option<Db>, plan: Plan, c: ConstraintSpec, key: Key)
    requires key in st.uniqueKeys <==> Covered(db, oracle, st.report, key)
    ensures var after := TakeConstraint(st, oracle, existing, plan, c);
            key in after.uniqueKeys <==> Covered(db, oracle, after.report, key)
  {
    hide Exec, DropRows, Held, Blocking, AnyDroppable, UniqueServed;
    DropRowsApply(st, oracle, Blocking(st, existing, c));
    if IsSingleUnique(c) { assert c.properties == [c.properties[0]]; }
  }

  lemma {:induction false} ReachedCovers(db: Db, oracle: Oracle, plan: Plan, i: nat, key: Key)
    requires i <= |plan.constraints|
    ensures key in Reached(db, oracle, plan, i).uniqueKeys <==> Covered(db, oracle, Reached(db, oracle, plan, i).report, key)
    decreases i
  {
    hide Covered, TakeConstraint, TakeConstraints, Begin;
    if i == 0 {
      StartSays(db, oracle, plan);
      BeginCovers(db, oracle, key);
    } else {
      ReachedCovers(db, oracle, plan, i - 1, key);
      ReachedNext(db, oracle, plan, i - 1);
      StepCovers(db, Reached(db, oracle, plan, i - 1), oracle, Listed(db, oracle), plan, plan.constraints[i - 1], key);
    }
  }

  lemma {:induction false} IndexesApply(st: St, oracle: Oracle, keys: seq<Key>)
    ensures forall s: Statement :: s.CreateConstraint? ==>
              (s in TakeIndexes(st, oracle, keys).report.applied <==> s in st.report.applied)
    ensures forall s: Statement :: s.CreateConstraint? ==>
              (s in TakeRelationshipIndexes(st, oracle, keys).report.applied <==> s in st.report.applied)
    decreases |keys|
  {
    hide Exec;
    if keys != [] {
      IndexesApply(TakeIndex(st, oracle, keys[0]), oracle, keys[1..]);
      IndexesApply(Execute(st, oracle, CreateRelationshipIndex(keys[0].0, keys[0].1)), oracle, keys[1..]);
    }
  }

  /** Every index of the plan is skipped exactly where a constraint covers its key, and attempted otherwise. */
  lemma IndexesAccounted(db: Db, oracle: Oracle, plan: Plan)
    ensures var report := Ensure(db, oracle, plan).report;
            forall key :: key in plan.indexes ==>
              if Covered(db, oracle, report, key) then CoveredByConstraint(key) in report.skipped
              else Tried(report, CreateIndex(key.0, key.1))
    ensures var report := Ensure(db, oracle, plan).report;
            forall key :: CoveredByConstraint(key) in report.skipped ==> key in plan.indexes && Covered(db, oracle, report, key)
    ensures forall key :: key in plan.relationshipIndexes ==>
              Tried(Ensure(db, oracle, plan).report, CreateRelationshipIndex(key.0, key.1))
  {
    hide Covered, Ensure, Reached, TakeIndexes, TakeRelationshipIndexes, NoRefusal;
    var a, b := EnsureParts(db, oracle, plan);
    var final := Ensure(db, oracle, plan).report;
    IndexesExtend(a, oracle, plan.indexes);
    RelationshipsExtend(b, oracle, plan.relationshipIndexes);
    SaidStays(a.report, b.report, final);
    SaidStays(b.report, final, final);
    forall key: Key ensures key in a.uniqueKeys <==> Covered(db, oracle, final, key) {
      ReachedCovers(db, oracle, plan, |plan.constraints|, key);
      IndexesApply(a, oracle, plan.indexes);
      IndexesApply(b, oracle, plan.relationshipIndexes);
      SameCover(db, oracle, a.report, final, key);
    }
    IndexesSkipped(db, oracle, plan, a, b);
  }

  lemma SameCover(db: Db, oracle: Oracle, a: Report, b: Report, key: Key)
    requires forall s: Statement :: s.CreateConstraint? ==> (s in a.applied <==> s in b.applied)
    ensures Covered(db, oracle, a, key) <==> Covered(db, oracle, b, key)
  {
  }

  lemma IndexesSkipped(db: Db, oracle: Oracle, plan: Plan, a: St, b: St)
    requires a == Reached(db, oracle, plan, |plan.constraints|) && b == TakeIndexes(a, oracle, plan.indexes)
    requires Ensure(db, oracle, plan) == TakeRelationshipIndexes(b, oracle, plan.relationshipIndexes)
    ensures forall key :: CoveredByConstraint(key) in Ensure(db, oracle, plan).report.skipped ==> key in plan.indexes && key in a.uniqueKeys
  {
    hide NotForEdition, TakeConstraints, Ensure, Tried, NoRefusal;
    var start := Reached(db, oracle, plan, 0).report;
    ReachedExtends(db, oracle, plan, 0, |plan.constraints|);
    IndexesExtend(a, oracle, plan.indexes);
    RelationshipsExtend(b, oracle, plan.relationshipIndexes);
    SinceOn(start, a.report, b.report);
    StartSays(db, oracle, plan);
    assert Ensure(db, oracle, plan).report.skipped == start.skipped + Since(start, a.report).skipped + Since(a.report, b.report).skipped;
  }

  // ----- the indexes listed at the start -----

  /** A constraint of the plan has its CREATE issued and would be blocked by this index. */
  ghost predicate MadeWayFor(db: Db, oracle: Oracle, plan: Plan, i: nat, row: Row) {
    i < |plan.constraints|
    && var c := plan.constraints[i];
       IsSingleUnique(c) && IsPlainIndexOn(row, c.nodeLabel, c.properties[0])
       && oracle.readable && !UniqueServed(db, c.nodeLabel, c.properties[0]) && !RuledOut(db, oracle, plan, i)
  }

  lemma {:induction false} DropRowsLeave(st: St, oracle: Oracle, rows: seq<Row>, row: Row)
    requires row in st.db.indexes && forall other :: other in rows ==> other.name != row.name
    ensures row in DropRows(st, oracle, rows).db.indexes
    decreases |rows|
  {
    hide PlainName, Refuses;
    if rows != [] {
      assert rows[0] in rows;
      WithoutNameMembers(st.db.indexes, rows[0].name);
      DropRowsLeave(if PlainName(rows[0].name) then Execute(st, oracle, DropIndex(rows[0].name)) else Fail(st, RefusedName(rows[0].name)),
                    oracle, rows[1..], row);
    }
  }

  lemma CreateLeaves(st: St, oracle: Oracle, s: Statement, row: Row)
    requires row in st.db.indexes && !s.DropIndex?
    ensures row in Execute(st, oracle, s).db.indexes
  {
    hide Refuses, AlreadyThere;
  }

  /** An index leaves only while a constraint it blocks is attempted. */
  lemma StepLeaves(db: Db, oracle: Oracle, plan: Plan, i: nat, row: Row)
    requires ValidDb(db) && PlanAccepted(plan) && i < |plan.constraints|
    requires row in db.indexes && row in Reached(db, oracle, plan, i).db.indexes && !MadeWayFor(db, oracle, plan, i, row)
    ensures row in Reached(db, oracle, plan, i + 1).db.indexes
  {
    hide Execute, DropRows, Held, AnyDroppable, TakeConstraints, Outcome;
    var st, c := Reached(db, oracle, plan, i), plan.constraints[i];
    ReachedNext(db, oracle, plan, i);
    if RuledOut(db, oracle, plan, i) {
      ConstraintOutcome(db, oracle, plan, i);
      assert Outcome(st, Reached(db, oracle, plan, i + 1), c, NotForEdition(oracle, c), true);
      RuledOutLeaves(st, Reached(db, oracle, plan, i + 1), c, NotForEdition(oracle, c));
    } else {
      var blocking := Blocking(st, Listed(db, oracle), c);
      BlockingElsewhere(db, oracle, plan, i, row);
      DropRowsLeave(st, oracle, blocking, row);
      var cleared := DropRows(st, oracle, blocking);
      CreateLeaves(cleared, oracle, StatementOf(c), row);
      if IsSingleUnique(c) { CreateLeaves(Execute(cleared, oracle, StatementOf(c)), oracle, CreateIndex(KeyOf(c).0, KeyOf(c).1), row); }
    }
  }

  lemma RuledOutLeaves(from: St, to: St, c: ConstraintSpec, other: bool)
    requires Outcome(from, to, c, other, true)
    ensures to.db == from.db
  {
  }

  lemma BlockingElsewhere(db: Db, oracle: Oracle, plan: Plan, i: nat, row: Row)
    requires ValidDb(db) && PlanAccepted(plan) && i < |plan.constraints| && row in db.indexes
    requires !MadeWayFor(db, oracle, plan, i, row) && !RuledOut(db, oracle, plan, i)
    ensures forall other :: other in Blocking(Reached(db, oracle, plan, i), Listed(db, oracle), plan.constraints[i]) ==> other.name != row.name
  {
    hide Execute, DropRows, Held, AnyDroppable, TakeConstraints, IsIdentifier, Accepted, UniqueServed, RuledOut, Blocking, AllBacked;
    var st, c := Reached(db, oracle, plan, i), plan.constraints[i];
    BlockingRows(db, st, Listed(db, oracle), c);
    if Blocking(st, Listed(db, oracle), c) != [] {
      ReachedCovers(db, oracle, plan, i, KeyOf(c));
      forall other | other in Blocking(st, Listed(db, oracle), c) ensures other.name != row.name {
        assert other in db.indexes && IsPlainIndexOn(other, c.nodeLabel, c.properties[0]);
      }
    }
  }

  lemma {:induction false} ReachedLeaves(db: Db, oracle: Oracle, plan: Plan, i: nat, row: Row)
    requires ValidDb(db) && PlanAccepted(plan) && i <= |plan.constraints|
    requires row in db.indexes && forall k: nat :: k < i ==> !MadeWayFor(db, oracle, plan, k, row)
    ensures row in Reached(db, oracle, plan, i).db.indexes
    decreases i
  {
    hide ValidDb, PlanAccepted, MadeWayFor, TakeConstraints;
    if i == 0 {
      StartSays(db, oracle, plan);
    } else {
      ReachedLeaves(db, oracle, plan, i - 1, row);
      StepLeaves(db, oracle, plan, i - 1, row);
    }
  }

  lemma {:induction false} IndexesLeave(st: St, oracle: Oracle, keys: seq<Key>, row: Row)
    requires row in st.db.indexes
    ensures row in TakeIndexes(st, oracle, keys).db.indexes && row in TakeRelationshipIndexes(st, oracle, keys).db.indexes
    decreases |keys|
  {
    hide Execute;
    if keys != [] {
      CreateLeaves(st, oracle, CreateIndex(keys[0].0, keys[0].1), row);
      IndexesLeave(TakeIndex(st, oracle, keys[0]), oracle, keys[1..], row);
      CreateLeaves(st, oracle, CreateRelationshipIndex(keys[0].0, keys[0].1), row);
      IndexesLeave(Execute(st, oracle, CreateRelationshipIndex(keys[0].0, keys[0].1)), oracle, keys[1..], row);
    }
  }

  /**
   * A run leaves every listed index alone except a plain one on the key of a uniqueness constraint that is
   * attempted: the plan declares it, no listed constraint serves the key, and duplicate keys do not rule it out.
   */
  lemma IndexLeftAlone(db: Db, oracle: Oracle, plan: Plan, row: Row)
    requires ValidDb(db) && PlanAccepted(plan) && row in db.indexes
    ensures row in Ensure(db, oracle, plan).db.indexes
         || exists i: nat :: MadeWayFor(db, oracle, plan, i, row)
  {
    hide ValidDb, PlanAccepted, MadeWayFor, Ensure, Reached, TakeIndexes, TakeRelationshipIndexes;
    if forall i: nat :: !MadeWayFor(db, oracle, plan, i, row) {
      ReachedLeaves(db, oracle, plan, |plan.constraints|, row);
      var a, b := EnsureParts(db, oracle, plan);
      IndexesLeave(a, oracle, plan.indexes, row);
      IndexesLeave(b, oracle, plan.relationshipIndexes, row);
    }
  }

  // ----- the names that may be dropped -----

  /** Every name the code generates may be put into a DROP; no name with a quote, a blank or any other such character may. */
  lemma DroppableNames(o: SchemaObject, name: string, k: nat)
    requires Accepted(o) && k < |name| && !IsAlnum(name[k]) && name[k] != '_'
    ensures PlainName(Name(o)) && !PlainName(name)
  {
    hide Accepted;
    NamesAreWords(o);
    assert Name(o)[0] == Name(o)[..3][0];
  }
}
