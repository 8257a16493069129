/**
 * Plan by plan: when a second run of schema reconciliation has something left to do after a first
 * run of the same plan without failures (packages/dt-module/src/schema.ts).
 */
module SchemaPlans {
  import opened Prelude
  import opened Ddl
  import opened SchemaReconcile
  import opened SchemaRuns
  import opened SchemaSecondRun
  import opened SchemaMoves

  // ----- the condition, on the listed schema and the plan -----

  /** The constraints drop the index: one asks for uniqueness on its key, and none there serves the key. */
  ghost predicate Dropped(db: Db, cs: seq<ConstraintSpec>, row: Row) {
    row in db.indexes && IsPlainIndex(row) && UniqueOn(IndexKey(row)) in cs && !UniqueServed(db, IndexKey(row).0, IndexKey(row).1)
  }

  /** No index keeps the name. */
  ghost predicate NameDropped(db: Db, cs: seq<ConstraintSpec>, name: string) {
    forall row :: row in db.indexes && row.name == name ==> Dropped(db, cs, row)
  }

  predicate ThereAtStart(db: Db, c: ConstraintSpec) {
    Named(db.constraints, NameOf(c)) || HasConstraint(db, c.kind, c.nodeLabel, c.properties)
  }

  /** The constraint has a turn at which no index keeps its name; an engine that is not quiet refuses it at any other. */
  ghost predicate Made(quiet: bool, db: Db, cs: seq<ConstraintSpec>, c: ConstraintSpec) {
    exists j :: 0 <= j < |cs| && cs[j] == c && (quiet ==> NameDropped(db, cs[..j + 1], NameOf(c)))
  }

  /** An index of the plan that the first run skips for a constraint it never makes, and whose name is free at the end. */
  ghost predicate KeyLeft(quiet: bool, db: Db, plan: Plan, key: Key) {
    key in plan.indexes && UniqueOn(key) in plan.constraints && !UniqueServed(db, key.0, key.1)
    && (Named(db.constraints, NameOf(UniqueOn(key))) || !Made(quiet, db, plan.constraints, UniqueOn(key)))
    && !Named(db.constraints, Name(NodeIndex(key.0, key.1))) && NameDropped(db, plan.constraints, Name(NodeIndex(key.0, key.1)))
  }

  /** A constraint of the plan that the first run never makes, and whose name is free at the end. */
  ghost predicate NameLeft(quiet: bool, db: Db, plan: Plan, c: ConstraintSpec) {
    quiet && c in plan.constraints && !ThereAtStart(db, c) && !Made(quiet, db, plan.constraints, c)
    && NameDropped(db, plan.constraints, NameOf(c))
    && if IsSingleUnique(c) then !UniqueServed(db, KeyOf(c).0, KeyOf(c).1)
       else c.kind == Unique ==> !HasIndex(db, Node, c.nodeLabel, c.properties)
  }

  /** The first run of the plan leaves a second run something to do. */
  ghost predicate LeavesWork(quiet: bool, enterprise: bool, db: Db, plan: Plan) {
    (exists key :: KeyLeft(quiet, db, plan, key)) || exists c: ConstraintSpec :: (c.kind == Unique || enterprise) && NameLeft(quiet, db, plan, c)
  }

  // ----- what exactly a run without failures has done after some of its constraints -----

  ghost predicate IndexesExact(db0: Db, cs: seq<ConstraintSpec>, db: Db) {
    forall row :: row in db0.indexes ==> (row in db.indexes <==> !Dropped(db0, cs, row))
  }

  ghost predicate MadeExact(oracle: Oracle, db0: Db, cs: seq<ConstraintSpec>, db: Db) {
    forall c: ConstraintSpec :: SpecAccepted(c) && Wanted(oracle, c) ==>
      (ConstraintRow(c) in db.constraints <==>
         ConstraintRow(c) in db0.constraints || (!ThereAtStart(db0, c) && Made(oracle.quiet, db0, cs, c)))
  }

  ghost predicate KeysExact(db0: Db, cs: seq<ConstraintSpec>, keys: set<Key>) {
    forall key: Key :: key in keys <==> UniqueServed(db0, key.0, key.1) || UniqueOn(key) in cs
  }

  ghost predicate Exact(oracle: Oracle, db0: Db, cs: seq<ConstraintSpec>, db: Db, keys: set<Key>) {
    IndexesExact(db0, cs, db) && MadeExact(oracle, db0, cs, db) && KeysExact(db0, cs, keys)
  }

  lemma BeginExact(oracle: Oracle, db: Db)
    ensures Exact(oracle, db, [], db, CoveredKeys(db.constraints))
  {
    hide CoveredKeys, UniqueServed;
    forall key: Key ensures key in CoveredKeys(db.constraints) <==> UniqueServed(db, key.0, key.1) {
      if UniqueServed(db, key.0, key.1) { ServedCovered(db, key); }
      if key in CoveredKeys(db.constraints) { CoveredKeysServed(db, key.0, key.1); }
    }
  }

  lemma SingleIsOn(c: ConstraintSpec)
    requires IsSingleUnique(c)
    ensures c == UniqueOn(KeyOf(c))
  {
    assert c.properties == [KeyOf(c).1];
  }

  lemma OnKey(key: Key, c: ConstraintSpec)
    ensures UniqueOn(key) == c ==> IsSingleUnique(c) && KeyOf(c) == key
  {
  }

  lemma TakenIndexes(oracle: Oracle, db0: Db, db: Db, keys: set<Key>, cs: seq<ConstraintSpec>, c: ConstraintSpec,
          rows: seq<Row>, cleared: Db, after: Db)
    requires Taken(oracle.quiet, db0, db, keys, c, rows, cleared, after)
    requires IndexesExact(db0, cs, db) && KeysExact(db0, cs, keys)
    ensures IndexesExact(db0, cs + [c], cleared) && IndexesExact(db0, cs + [c], after)
  {
    hide NameOf, Effect, AlreadyThere, Refuses, SpecAccepted, UniqueServed;
    TakenRows(oracle.quiet, db0, db, keys, c, rows, cleared, after);
    forall row | row in db0.indexes
      ensures row in cleared.indexes <==> !Dropped(db0, cs + [c], row)
      ensures row in after.indexes <==> !Dropped(db0, cs + [c], row)
    {
      if IsPlainIndex(row) {
        OnKey(IndexKey(row), c);
        PlainKey(row, IndexKey(row).0, IndexKey(row).1);
      }
      if IsSingleUnique(c) {
        SingleIsOn(c);
        PlainKey(row, KeyOf(c).0, KeyOf(c).1);
      }
    }
  }

  lemma TakenKeysExact(db0: Db, keys: set<Key>, cs: seq<ConstraintSpec>, c: ConstraintSpec)
    requires KeysExact(db0, cs, keys)
    ensures KeysExact(db0, cs + [c], NextKeys(keys, c))
  {
    hide UniqueServed;
    if IsSingleUnique(c) { SingleIsOn(c); }
    forall key: Key ensures key in NextKeys(keys, c) <==> UniqueServed(db0, key.0, key.1) || UniqueOn(key) in cs + [c] {
      OnKey(key, c);
    }
  }

  lemma MadeStep(quiet: bool, db: Db, cs: seq<ConstraintSpec>, d: ConstraintSpec, c: ConstraintSpec)
    ensures Made(quiet, db, cs + [d], c) <==>
              Made(quiet, db, cs, c) || (d == c && (quiet ==> NameDropped(db, cs + [d], NameOf(c))))
  {
    hide NameDropped, NameOf;
    var all := cs + [d];
    assert all[..|cs| + 1] == all;
    assert forall j :: 0 <= j < |cs| ==> all[j] == cs[j] && all[..j + 1] == cs[..j + 1];
    if Made(quiet, db, cs, c) {
      var j :| 0 <= j < |cs| && cs[j] == c && (quiet ==> NameDropped(db, cs[..j + 1], NameOf(c)));
      assert all[j] == c;
    }
    if d == c && (quiet ==> NameDropped(db, all, NameOf(c))) { assert all[|cs|] == c; }
  }

  /** A constraint not made yet takes effect exactly when it was not there at the start and its name is free. */
  lemma TurnExact(oracle: Oracle, db0: Db, db: Db, keys: set<Key>, cs: seq<ConstraintSpec>, c: ConstraintSpec,
          rows: seq<Row>, cleared: Db, after: Db)
    requires Taken(oracle.quiet, db0, db, keys, c, rows, cleared, after) && Keeps(db0, db) && Known(db0, db)
    requires IndexesExact(db0, cs + [c], cleared) && ConstraintRow(c) !in db.constraints
    ensures AlreadyThere(oracle.quiet, cleared, StatementOf(c)) <==>
              ThereAtStart(db0, c) || (oracle.quiet && !NameDropped(db0, cs + [c], NameOf(c)))
  {
    hide Name, Effect, Refuses, SpecAccepted, Dropped, Known, ConstraintRow, Blocks;
    var name := NameOf(c);
    if Named(db0.constraints, name) { NamedStays(db0.constraints, cleared.constraints, name); }
    if HasConstraint(db0, c.kind, c.nodeLabel, c.properties) { HasConstraintStays(db0, cleared, c.kind, c.nodeLabel, c.properties); }
    if !NameDropped(db0, cs + [c], name) {
      var row :| row in db0.indexes && row.name == name && !Dropped(db0, cs + [c], row);
      NamedBy(cleared.indexes, row);
    }
    if !ThereAtStart(db0, c) { NothingNew(db0, db, cleared, c, rows); }
    if !ThereAtStart(db0, c) && Named(cleared.indexes, name) {
      var k :| 0 <= k < |cleared.indexes| && cleared.indexes[k].name == name;
      assert cleared.indexes[k] in cleared.indexes;
      MadeOnly(db0, db, c, cleared.indexes[k]);
    }
  }

  lemma NothingNew(db0: Db, db: Db, cleared: Db, c: ConstraintSpec, rows: seq<Row>)
    requires Known(db0, db) && SpecAccepted(c) && ConstraintRow(c) !in db.constraints && ClearedBy(db, cleared, rows) && !ThereAtStart(db0, c)
    ensures !Named(cleared.constraints, NameOf(c)) && !HasConstraint(cleared, c.kind, c.nodeLabel, c.properties)
  {
    hide Name, SpecAccepted, Known;
    forall row | row in db.constraints
      ensures row.name != NameOf(c)
      ensures SameSchema(row, Node, c.nodeLabel, c.properties) ==> row.kind != ConstraintRow(c).kind && (c.kind == Unique ==> row.kind != NodeUniqueness)
    {
      MadeOnly(db0, db, c, row);
      if row in db0.constraints {
        var k :| 0 <= k < |db0.constraints| && db0.constraints[k] == row;
      }
    }
  }

  lemma TakenMade(oracle: Oracle, db0: Db, db: Db, keys: set<Key>, cs: seq<ConstraintSpec>, c: ConstraintSpec,
          rows: seq<Row>, cleared: Db, after: Db, other: ConstraintSpec)
    requires Taken(oracle.quiet, db0, db, keys, c, rows, cleared, after) && Keeps(db0, db) && Known(db0, db)
    requires IndexesExact(db0, cs + [c], cleared) && MadeExact(oracle, db0, cs, db)
    requires SpecAccepted(other) && Wanted(oracle, other)
    ensures ConstraintRow(other) in after.constraints <==>
              ConstraintRow(other) in db0.constraints || (!ThereAtStart(db0, other) && Made(oracle.quiet, db0, cs + [c], other))
  {
    hide Name, NameOf, Effect, Refuses, SpecAccepted, IndexesExact, NameDropped, Made, Known, AlreadyThere, Blocks, ClearedBy, ThereAtStart, Wanted;
    TakenRows(oracle.quiet, db0, db, keys, c, rows, cleared, after);
    MadeStep(oracle.quiet, db0, cs, c, other);
    RowsDiffer(c, other);
    if c == other && ConstraintRow(c) !in db.constraints {
      TurnExact(oracle, db0, db, keys, cs, c, rows, cleared, after);
      EffectRows(cleared, c);
    }
  }

  lemma RowsDiffer(a: ConstraintSpec, b: ConstraintSpec)
    ensures ConstraintRow(a) == ConstraintRow(b) ==> a == b
  {
    hide NameOf;
    assert ConstraintRow(a).labels[0] == a.nodeLabel && ConstraintRow(b).labels[0] == b.nodeLabel;
  }

  lemma TakenExact(oracle: Oracle, db0: Db, db: Db, keys: set<Key>, cs: seq<ConstraintSpec>, c: ConstraintSpec,
          rows: seq<Row>, cleared: Db, after: Db)
    requires Taken(oracle.quiet, db0, db, keys, c, rows, cleared, after) && Keeps(db0, db) && Known(db0, db)
    requires Exact(oracle, db0, cs, db, keys)
    ensures Exact(oracle, db0, cs + [c], after, NextKeys(keys, c))
  {
    hide Taken, Known, Keeps, IndexesExact, KeysExact, SpecAccepted, Made, ThereAtStart, Wanted;
    TakenIndexes(oracle, db0, db, keys, cs, c, rows, cleared, after);
    TakenKeysExact(db0, keys, cs, c);
    forall other | SpecAccepted(other) && Wanted(oracle, other)
      ensures ConstraintRow(other) in after.constraints <==>
                ConstraintRow(other) in db0.constraints || (!ThereAtStart(db0, other) && Made(oracle.quiet, db0, cs + [c], other))
    {
      TakenMade(oracle, db0, db, keys, cs, c, rows, cleared, after, other);
    }
  }

  lemma UnwantedExact(oracle: Oracle, db0: Db, db: Db, keys: set<Key>, cs: seq<ConstraintSpec>, c: ConstraintSpec)
    requires !Wanted(oracle, c) && Exact(oracle, db0, cs, db, keys)
    ensures Exact(oracle, db0, cs + [c], db, keys)
  {
    hide Made, NameOf, UniqueServed, SpecAccepted, ThereAtStart;
    forall other | SpecAccepted(other) && Wanted(oracle, other) ensures Made(oracle.quiet, db0, cs + [c], other) <==> Made(oracle.quiet, db0, cs, other) {
      MadeStep(oracle.quiet, db0, cs, c, other);
    }
  }

  /** The constraints of a run without failures, followed exactly. */
  lemma {:induction false} TakeConstraintsExact(db0: Db, st: St, oracle: Oracle, plan: Plan, before: seq<ConstraintSpec>,
          cs: seq<ConstraintSpec>, gone: seq<Row>)
    requires ValidDb(db0) && SpecsAccepted(cs) && Tracked(oracle.quiet, db0, st.db, st.uniqueKeys, gone)
    requires Exact(oracle, db0, before, st.db, st.uniqueKeys)
    requires TakeConstraints(st, oracle, Some(db0), plan, cs).report.failed == []
    ensures var after := TakeConstraints(st, oracle, Some(db0), plan, cs);
            Exact(oracle, db0, before + cs, after.db, after.uniqueKeys)
    decreases |cs|
  {
    hide TakeConstraint, Tracked, Exact, SpecAccepted, ValidDb, Blocking, Steady, Stands, Taken, DropRows;
    if cs == [] {
      assert before + cs == before;
    } else {
      var c, next := cs[0], TakeConstraint(st, oracle, Some(db0), plan, cs[0]);
      var tracked := gone;
      TakeConstraintsSteady(db0, next, oracle, Some(db0), plan, cs[1..]);
      NoFailureBefore(db0, next, TakeConstraints(next, oracle, Some(db0), plan, cs[1..]));
      if Wanted(oracle, c) {
        StepTracked(db0, st, oracle, plan, c, gone);
        tracked := gone + Blocking(st, Some(db0), c);
        TrackedParts(oracle.quiet, db0, st.db, st.uniqueKeys, gone);
        TakeStep(db0, st, oracle, plan, c);
        var rows := Blocking(st, Some(db0), c);
        TakenExact(oracle, db0, st.db, st.uniqueKeys, before, c, rows, DropRows(st, oracle, rows).db, next.db);
      } else {
        Unwanted(st, oracle, Some(db0), plan, c);
        UnwantedExact(oracle, db0, st.db, st.uniqueKeys, before, c);
      }
      assert (before + [c]) + cs[1..] == before + cs;
      TakeConstraintsExact(db0, next, oracle, plan, before + [c], cs[1..], tracked);
    }
  }

  // ----- what is left at the end of the constraints -----

  /** A wanted constraint that can still take effect is one left. */
  lemma ActiveIsLeft(oracle: Oracle, db0: Db, plan: Plan, db: Db, keys: set<Key>, gone: seq<Row>, c: ConstraintSpec)
    requires ValidDb(db0) && Tracked(oracle.quiet, db0, db, keys, gone) && Exact(oracle, db0, plan.constraints, db, keys)
    requires c in plan.constraints && SpecAccepted(c) && Wanted(oracle, c) && !Inert(oracle.quiet, db, StatementOf(c))
    ensures NameLeft(oracle.quiet, db0, plan, c)
  {
    hide Name, ValidDb, Known, NamesDiffer, ServedIn, SpecAccepted, Dropped, KeysExact, KeysTaken;
    var name := NameOf(c);
    if Named(db0.constraints, name) { NamedStays(db0.constraints, db.constraints, name); }
    if HasConstraint(db0, c.kind, c.nodeLabel, c.properties) { HasConstraintStays(db0, db, c.kind, c.nodeLabel, c.properties); }
    if ConstraintRow(c) in db.constraints { NamedBy(db.constraints, ConstraintRow(c)); }
    assert !Made(oracle.quiet, db0, plan.constraints, c);
    var j :| 0 <= j < |plan.constraints| && plan.constraints[j] == c;
    assert oracle.quiet;
    forall row | row in db0.indexes && row.name == name ensures Dropped(db0, plan.constraints, row) {
      if row in db.indexes { NamedBy(db.indexes, row); }
    }
    if IsSingleUnique(c) {
      assert c.properties == [KeyOf(c).1];
      if UniqueServed(db0, KeyOf(c).0, KeyOf(c).1) {
        ServedStays(db0, db, KeyOf(c));
        TrackedBacked(oracle.quiet, db0, db, keys, gone);
        ServedHasIndex(db, KeyOf(c));
      }
    } else if c.kind == Unique && HasIndex(db0, Node, c.nodeLabel, c.properties) {
      CompositeStays(oracle.quiet, db0, db, keys, gone, c);
    }
  }

  /** And the other way round. */
  lemma LeftIsActive(oracle: Oracle, db0: Db, plan: Plan, db: Db, keys: set<Key>, gone: seq<Row>, c: ConstraintSpec)
    requires ValidDb(db0) && Tracked(oracle.quiet, db0, db, keys, gone) && Exact(oracle, db0, plan.constraints, db, keys)
    requires SpecAccepted(c) && Wanted(oracle, c) && NameLeft(oracle.quiet, db0, plan, c)
    ensures !Inert(oracle.quiet, db, StatementOf(c))
  {
    hide Name, NameOf, SpecAccepted, AllBacked, Known, Gone, ServedIn, NamesDiffer, Keeps, Made, IsIdentifier, PlainName, ConstraintNameTaken;
    assert ConstraintRow(c) !in db.constraints by {
      if ConstraintRow(c) in db0.constraints { NamedBy(db0.constraints, ConstraintRow(c)); }
    }
    if IsSingleUnique(c) {
      SingleIsOn(c);
      KeyIsTaken(oracle.quiet, db0, db, keys, KeyOf(c));
    }
    forall other | other in db.indexes && other in db0.indexes
      ensures other.name != NameOf(c)
      ensures !(c.kind == Unique && other.kind == Range && SameSchema(other, Node, c.nodeLabel, c.properties))
    {
      if !IsSingleUnique(c) {
        var k :| 0 <= k < |db0.indexes| && db0.indexes[k] == other;
      }
    }
    TakesEffect(oracle.quiet, db0, db, c);
  }

  /** An index of the plan that can still be created is one left. */
  lemma ActiveKeyIsLeft(oracle: Oracle, db0: Db, plan: Plan, db: Db, keys: set<Key>, gone: seq<Row>, key: Key)
    requires ValidDb(db0) && Tracked(oracle.quiet, db0, db, keys, gone) && Exact(oracle, db0, plan.constraints, db, keys)
    requires key in plan.indexes && key in keys && !Inert(oracle.quiet, db, CreateIndex(key.0, key.1))
    requires SpecsAccepted(plan.constraints)
    ensures KeyLeft(oracle.quiet, db0, plan, key)
  {
    hide Name, NameOf, ValidDb, Known, NamesDiffer, ServedIn, SpecAccepted, Dropped, KeysTaken, Gone, Made, UniqueServed;
    var c, name := UniqueOn(key), Name(NodeIndex(key.0, key.1));
    assert !UniqueServed(db, key.0, key.1) by {
      if UniqueServed(db, key.0, key.1) {
        TrackedBacked(oracle.quiet, db0, db, keys, gone);
        ServedHasIndex(db, key);
      }
    }
    assert !UniqueServed(db0, key.0, key.1) by { if UniqueServed(db0, key.0, key.1) { ServedStays(db0, db, key); } }
    assert c in plan.constraints;
    var k :| 0 <= k < |plan.constraints| && plan.constraints[k] == c;
    assert SpecAccepted(plan.constraints[k]) && IsSingleUnique(c) && KeyOf(c) == key;
    if ConstraintRow(c) in db.constraints { RowServes(db, c); }
    if HasConstraint(db0, Unique, key.0, [key.1]) { HasServes(db0, key); }
    if Named(db0.constraints, name) { NamedStays(db0.constraints, db.constraints, name); }
    forall row | row in db0.indexes && row.name == name ensures Dropped(db0, plan.constraints, row) {
      if row in db.indexes { NamedBy(db.indexes, row); }
    }
  }

  lemma HasServes(db: Db, key: Key)
    requires HasConstraint(db, Unique, key.0, [key.1])
    ensures UniqueServed(db, key.0, key.1)
  {
    var k :| 0 <= k < |db.constraints| && SameSchema(db.constraints[k], Node, key.0, [key.1])
      && (db.constraints[k].kind == Uniqueness || db.constraints[k].kind == NodeUniqueness);
    assert db.constraints[k] in db.constraints;
  }

  lemma LeftKeyIsActive(oracle: Oracle, db0: Db, plan: Plan, db: Db, keys: set<Key>, gone: seq<Row>, key: Key)
    requires ValidDb(db0) && Tracked(oracle.quiet, db0, db, keys, gone) && Exact(oracle, db0, plan.constraints, db, keys)
    requires KeyLeft(oracle.quiet, db0, plan, key) && SpecsAccepted(plan.constraints)
    ensures key in keys && !Inert(oracle.quiet, db, CreateIndex(key.0, key.1)) && !UniqueServed(db, key.0, key.1)
  {
    hide Name, IsIdentifier, AllBacked, PlainName, NamesDiffer, ServedIn, Gone, Keeps, KeysTaken, Accepted, ConstraintNameTaken, Made, NameOf;
    var c, name, l, p := UniqueOn(key), Name(NodeIndex(key.0, key.1)), key.0, key.1;
    var k :| 0 <= k < |plan.constraints| && plan.constraints[k] == c;
    assert SpecAccepted(plan.constraints[k]);
    KeyIsTaken(oracle.quiet, db0, db, keys, key);
    assert ConstraintRow(c) !in db.constraints by {
      if ConstraintRow(c) in db0.constraints { RowServes(db0, c); }
    }
    forall row | row in db.constraints ensures !(CoversIndex(row.kind) && SameSchema(row, Node, l, [p])) && row.name != name {
      MadeOnly(db0, db, c, row);
      if row in db0.constraints { NamedBy(db0.constraints, row); } else { NotAnIndexName(db0, db, row, l, p); }
    }
    forall row | row in db.indexes ensures !(row.kind == Range && SameSchema(row, Node, l, [p])) && row.name != name {
      MadeOnly(db0, db, c, row);
      if row !in db0.indexes { NotAnIndexName(db0, db, row, l, p); }
    }
  }

  // ----- what is left stays so over the indexes -----

  lemma AddedApart(row: Row, keys: set<Key>, c: ConstraintSpec)
    requires Added(row, keys) && SpecAccepted(c) && (IsSingleUnique(c) ==> KeyOf(c) in keys)
    ensures row.name != NameOf(c) && !(c.kind == Unique && SameSchema(row, Node, c.nodeLabel, c.properties))
  {
    hide Name, IsIdentifier, Accepted;
    var key: Key :| IsIdentifier(key.0) && IsIdentifier(key.1) && ((key !in keys && row == IndexRow(key)) || row == RelationshipRow(key));
    SingleAccepted(key.0, key.1);
    NameClash(NodeIndex(key.0, key.1), Constraint(c.nodeLabel, c.properties, c.kind));
    NameClash(RelationshipIndex(key.0, key.1), Constraint(c.nodeLabel, c.properties, c.kind));
    assert row.labels[0] == key.0 && row.properties[0] == key.1 && |row.properties| == 1;
  }

  lemma ActiveStays(quiet: bool, a: Db, b: Db, keys: set<Key>, c: ConstraintSpec)
    requires Extends(a, b, keys) && SpecAccepted(c) && (IsSingleUnique(c) ==> KeyOf(c) in keys)
    requires !Inert(quiet, a, StatementOf(c))
    ensures !Inert(quiet, b, StatementOf(c))
  {
    hide Name, Added, SpecAccepted;
    forall row | row in b.indexes
      ensures row.name == NameOf(c) ==> row in a.indexes
      ensures c.kind == Unique && SameSchema(row, Node, c.nodeLabel, c.properties) ==> row in a.indexes
    {
      if row !in a.indexes { AddedApart(row, keys, c); }
    }
    if Named(b.indexes, NameOf(c)) { NamedInSmaller(a.indexes, b.indexes, NameOf(c)); }
    if c.kind == Unique && HasIndex(b, Node, c.nodeLabel, c.properties) { HasIndexStays(b, a, Node, c.nodeLabel, c.properties); }
  }

  lemma NamedInSmaller(a: seq<Row>, b: seq<Row>, name: string)
    requires (forall row :: row in b && row.name == name ==> row in a) && Named(b, name)
    ensures Named(a, name)
  {
    var k :| 0 <= k < |b| && b[k].name == name;
    NamedBy(a, b[k]);
  }

  lemma AddedOff(row: Row, keys: set<Key>, key: Key)
    requires Added(row, keys) && key in keys && IsIdentifier(key.0) && IsIdentifier(key.1)
    ensures row.name != Name(NodeIndex(key.0, key.1)) && !SameSchema(row, Node, key.0, [key.1])
  {
    hide Name, IsIdentifier;
    var other: Key :| IsIdentifier(other.0) && IsIdentifier(other.1) && ((other !in keys && row == IndexRow(other)) || row == RelationshipRow(other));
    SingleAccepted(key.0, key.1);
    SingleAccepted(other.0, other.1);
    hide Accepted;
    NameClash(NodeIndex(other.0, other.1), NodeIndex(key.0, key.1));
    NameClash(RelationshipIndex(other.0, other.1), NodeIndex(key.0, key.1));
    assert row.labels[0] == other.0 && row.properties[0] == other.1;
  }

  lemma ActiveKeyStays(quiet: bool, a: Db, b: Db, keys: set<Key>, key: Key)
    requires Extends(a, b, keys) && key in keys && IsIdentifier(key.0) && IsIdentifier(key.1)
    requires !Inert(quiet, a, CreateIndex(key.0, key.1))
    ensures !Inert(quiet, b, CreateIndex(key.0, key.1))
  {
    hide Name, Added, IsIdentifier;
    var name := Name(NodeIndex(key.0, key.1));
    forall row | row in b.indexes
      ensures row.name == name || SameSchema(row, Node, key.0, [key.1]) ==> row in a.indexes
    {
      if row !in a.indexes { AddedOff(row, keys, key); }
    }
    if Named(b.indexes, name) { NamedInSmaller(a.indexes, b.indexes, name); }
    if HasIndex(b, Node, key.0, [key.1]) { HasIndexStays(b, a, Node, key.0, [key.1]); }
  }

  // ----- a run without failures, and the run after it -----

  lemma ConstrainedExact(db: Db, oracle: Oracle, plan: Plan)
    requires ValidDb(db) && PlanAccepted(plan) && oracle.readable && Constrained(db, oracle, plan).report.failed == []
    ensures var a := Constrained(db, oracle, plan); Exact(oracle, db, plan.constraints, a.db, a.uniqueKeys)
    ensures SpecsAccepted(plan.constraints)
  {
    hide ValidDb, Tracked, Exact, CoveredKeys, TakeConstraint, IsIdentifier;
    BeginTracked(oracle.quiet, db);
    BeginExact(oracle, db);
    assert SpecsAccepted(plan.constraints);
    assert [] + plan.constraints == plan.constraints;
    TakeConstraintsExact(db, Begin(db, oracle), oracle, plan, [], plan.constraints, []);
  }

  /** A run without failures rests unless its plan leaves work. */
  lemma NoWorkRests(db: Db, oracle: Oracle, plan: Plan)
    requires ValidDb(db) && PlanAccepted(plan) && Ensure(db, oracle, plan).report.failed == []
    requires !LeavesWork(oracle.quiet, oracle.enterprise, db, plan)
    ensures Rests(Ensure(db, oracle, plan).db, oracle, plan)
  {
    hide ValidDb, Inert, Tracked, Stands, Constrained, Ensure, Extends, Bare, PlanAccepted, SpecAccepted, Exact, SpecsAccepted, KeyLeft, NameLeft;
    var gone := FirstRunParts(db, oracle, plan);
    var a, after := Constrained(db, oracle, plan), Ensure(db, oracle, plan);
    ConstrainedExact(db, oracle, plan);
    forall key | key in plan.indexes && key in a.uniqueKeys ensures Inert(oracle.quiet, a.db, CreateIndex(key.0, key.1)) {
      if !Inert(oracle.quiet, a.db, CreateIndex(key.0, key.1)) { ActiveKeyIsLeft(oracle, db, plan, a.db, a.uniqueKeys, gone, key); }
    }
    forall c | c in plan.constraints && Wanted(oracle, c) ensures ConstraintRests(oracle.quiet, after.db, c) {
      if !Inert(oracle.quiet, a.db, StatementOf(c)) { ActiveIsLeft(oracle, db, plan, a.db, a.uniqueKeys, gone, c); }
      StandsBare(oracle.quiet, db, a.db, a.uniqueKeys, gone, c);
      StandsKey(oracle.quiet, db, a.db, a.uniqueKeys, c);
      RestsStay(oracle.quiet, a.db, after.db, a.uniqueKeys, c);
    }
  }

  /** What the first run leaves undone a second one does. */
  lemma WorkMoves(db: Db, plan: Plan, first: Oracle) returns (second: Oracle)
    requires ValidDb(db) && PlanAccepted(plan) && Ensure(db, first, plan).report.failed == []
    requires LeavesWork(first.quiet, first.enterprise, db, plan)
    ensures RunTwice(db, plan, first, second) && !SecondStill(db, plan, first, second)
  {
    hide ValidDb, Inert, Tracked, Stands, Constrained, Ensure, Extends, Bare, PlanAccepted, SpecAccepted, Exact, KeyLeft, NameLeft;
    var gone := FirstRunParts(db, first, plan);
    var quiet, a, settled := first.quiet, Constrained(db, first, plan), Ensure(db, first, plan).db;
    ConstrainedExact(db, first, plan);
    SettledBare(db, first, plan);
    if key :| KeyLeft(quiet, db, plan, key) {
      LeftKeyIsActive(first, db, plan, a.db, a.uniqueKeys, gone, key);
      var i := KeyPlace(plan, quiet, db, key);
      ActiveKeyStays(quiet, a.db, settled, a.uniqueKeys, key);
      StillUnserved(a.db, settled, a.uniqueKeys, key);
      second := MovedByIndex(settled, quiet, first.enterprise, plan, i);
    } else {
      var c: ConstraintSpec :| (c.kind == Unique || first.enterprise) && NameLeft(quiet, db, plan, c);
      var i := ConstraintPlace(plan, quiet, db, c);
      LeftIsActive(first, db, plan, a.db, a.uniqueKeys, gone, c);
      StandsKey(quiet, db, a.db, a.uniqueKeys, c);
      ActiveStays(quiet, a.db, settled, a.uniqueKeys, c);
      second := MovedByConstraint(settled, quiet, first.enterprise, plan, i);
    }
  }

  lemma KeyPlace(plan: Plan, quiet: bool, db: Db, key: Key) returns (i: nat)
    requires KeyLeft(quiet, db, plan, key) && PlanAccepted(plan)
    ensures i < |plan.indexes| && plan.indexes[i] == key && IsIdentifier(key.0) && IsIdentifier(key.1)
  {
    hide Name, NameOf, IsIdentifier, Made, NameDropped, UniqueServed;
    var k :| 0 <= k < |plan.indexes| && plan.indexes[k] == key;
    i := k;
    assert Accepted(NodeIndex(plan.indexes[k].0, plan.indexes[k].1));
  }

  lemma ConstraintPlace(plan: Plan, quiet: bool, db: Db, c: ConstraintSpec) returns (i: nat)
    requires NameLeft(quiet, db, plan, c)
    ensures i < |plan.constraints| && plan.constraints[i] == c && c in plan.constraints
  {
    hide NameOf, Made, NameDropped, UniqueServed, ThereAtStart;
    var k :| 0 <= k < |plan.constraints| && plan.constraints[k] == c;
    i := k;
  }

  lemma StillUnserved(a: Db, b: Db, keys: set<Key>, key: Key)
    requires Extends(a, b, keys) && !UniqueServed(a, key.0, key.1)
    ensures !UniqueServed(b, key.0, key.1)
  {
    hide Added;
  }

  /**
   * Plan by plan: after a first run without failures some second run on the same server changes or
   * drops something exactly when the schema and the plan say that work is left.
   */
  lemma PlanIff(db: Db, plan: Plan, first: Oracle)
    requires ValidDb(db) && PlanAccepted(plan) && Ensure(db, first, plan).report.failed == []
    ensures (exists second: Oracle :: RunTwice(db, plan, first, second) && !SecondStill(db, plan, first, second))
       <==> LeavesWork(first.quiet, first.enterprise, db, plan)
  {
    hide ValidDb, Ensure, PlanAccepted, LeavesWork, Rests, SecondStill;
    if LeavesWork(first.quiet, first.enterprise, db, plan) {
      var second := WorkMoves(db, plan, first);
    } else {
      NoWorkRests(db, first, plan);
      forall second: Oracle | RunTwice(db, plan, first, second) ensures SecondStill(db, plan, first, second) {
        SameServer(Ensure(db, first, plan).db, first, second, plan);
        StillAfter(db, plan, first, second);
      }
    }
  }

  lemma SameServer(db: Db, first: Oracle, second: Oracle, plan: Plan)
    requires Rests(db, first, plan) && second.enterprise == first.enterprise && second.quiet == first.quiet
    ensures Rests(db, second, plan)
  {
    hide ConstraintRests, Inert;
  }

  lemma StillAfter(db: Db, plan: Plan, first: Oracle, second: Oracle)
    requires Rests(Ensure(db, first, plan).db, second, plan)
    ensures SecondStill(db, plan, first, second)
  {
    hide Ensure, Rests;
    RestsStill(Ensure(db, first, plan).db, second, plan);
  }
}
