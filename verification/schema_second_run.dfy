/**
 * A second run of schema reconciliation after a first one without failures
 * (packages/dt-module/src/schema.ts): the schemas on which some plan makes it change anything.
 */
module SchemaSecondRun {
  import opened Prelude
  import opened Ddl
  import opened SchemaReconcile
  import opened SchemaRuns

  // ----- the rows a constraint brings -----

  function NameOf(c: ConstraintSpec): string { Name(Constraint(c.nodeLabel, c.properties, c.kind)) }

  function ConstraintRow(c: ConstraintSpec): Row {
    Row(NameOf(c), if c.kind == Unique then Uniqueness else Existence, Node, [c.nodeLabel], c.properties, None)
  }

  function OwnedRow(c: ConstraintSpec): Row { Row(NameOf(c), Range, Node, [c.nodeLabel], c.properties, Some(NameOf(c))) }

  lemma EffectRows(db: Db, c: ConstraintSpec)
    ensures Effect(db, StatementOf(c))
         == Db(db.indexes + (if c.kind == Unique then [OwnedRow(c)] else []), db.constraints + [ConstraintRow(c)])
  {
    hide Name;
  }

  /** The constraint that asks for uniqueness on one key. */
  function UniqueOn(key: Key): ConstraintSpec { ConstraintSpec(key.0, [key.1], Unique) }

  predicate IsPlainIndex(row: Row) {
    row.kind == Range && row.owner == None && row.entity == Node && |row.labels| == 1 && |row.properties| == 1
  }

  function IndexKey(row: Row): Key
    requires IsPlainIndex(row)
  {
    (row.labels[0], row.properties[0])
  }

  lemma PlainKey(row: Row, l: string, p: string)
    ensures IsPlainIndexOn(row, l, p) <==> IsPlainIndex(row) && IndexKey(row) == (l, p)
  {
    if IsPlainIndex(row) { assert row.labels == [row.labels[0]] && row.properties == [row.properties[0]]; }
  }

  // ----- which schemas a second run can change -----

  /**
   * A uniqueness constraint on the key can be taken without a failure once the plain indexes on the
   * key and the indexes in `gone` are dropped.
   */
  ghost predicate MakesWay(quiet: bool, db: Db, gone: seq<Row>, l: string, p: string) {
    quiet || HeldByConstraint(db, Name(Constraint(l, [p], Unique)))
    || forall other :: other in db.indexes && other.name == Name(Constraint(l, [p], Unique)) ==> IsPlainIndexOn(other, l, p) || other in gone
  }

  /** A plain index that a run without failures can drop once the indexes in `gone` are dropped. */
  ghost predicate Yields(quiet: bool, db: Db, gone: seq<Row>, row: Row) {
    row in db.indexes && IsPlainIndex(row)
    && Clearable(db, IndexKey(row).0, IndexKey(row).1) && MakesWay(quiet, db, gone, IndexKey(row).0, IndexKey(row).1)
  }

  /** Indexes that can be dropped in this order. */
  ghost predicate Chain(quiet: bool, db: Db, rows: seq<Row>) {
    forall k :: 0 <= k < |rows| ==> Yields(quiet, db, rows[..k], rows[k])
  }

  /** What holds the name of the key's index, if it is not a plain index on the key, can be dropped. */
  ghost predicate NameFreed(db: Db, rows: seq<Row>, l: string, p: string) {
    forall row :: row in db.indexes && row.name == Name(NodeIndex(l, p)) ==> IsPlainIndexOn(row, l, p) || row in rows
  }

  /**
   * A key that a run takes for served while nothing serves it: the constraint's name belongs to
   * something else. A later run whose constraint fails creates the index, if its name is free by then.
   */
  ghost predicate KeyMoves(quiet: bool, db: Db, l: string, p: string) {
    Clearable(db, l, p) && ConstraintNameTaken(quiet, db, l, p) && !HeldByConstraint(db, Name(NodeIndex(l, p)))
    && exists rows :: Chain(quiet, db, rows) && NameFreed(db, rows, l, p)
  }

  /** Nothing but the index named like the constraint stands in its way. */
  ghost predicate OnlyNamed(db: Db, c: ConstraintSpec, row: Row) {
    row.name == NameOf(c) && !Named(db.constraints, NameOf(c)) && !HasConstraint(db, c.kind, c.nodeLabel, c.properties)
    && if IsSingleUnique(c) then Clearable(db, KeyOf(c).0, KeyOf(c).1) && !IsPlainIndexOn(row, KeyOf(c).0, KeyOf(c).1)
       else c.kind == Unique ==> !HasIndex(db, Node, c.nodeLabel, c.properties)
  }

  /** A constraint taken for created because of an index that another constraint of the plan drops. */
  ghost predicate NameMoves(db: Db, c: ConstraintSpec, row: Row) {
    SpecAccepted(c) && Yields(true, db, [], row) && OnlyNamed(db, c, row)
  }

  /** The schemas on which some second run changes something. */
  ghost predicate Movable(quiet: bool, db: Db) {
    (exists l, p :: KeyMoves(quiet, db, l, p)) || (quiet && exists c, row :: NameMoves(db, c, row))
  }

  // ----- what a run without failures keeps -----

  ghost predicate Keeps(a: Db, b: Db) { forall row :: row in a.constraints ==> row in b.constraints }

  ghost predicate MadeConstraint(db: Db, row: Row) {
    exists c :: SpecAccepted(c) && row == ConstraintRow(c) && (c.kind == Unique ==> OwnedRow(c) in db.indexes)
  }

  ghost predicate MadeIndex(db: Db, row: Row) {
    exists c :: SpecAccepted(c) && c.kind == Unique && row == OwnedRow(c) && ConstraintRow(c) in db.constraints
  }

  /** Every row was there at the start or came with a constraint. */
  ghost predicate Known(db0: Db, db: Db) {
    (forall row :: row in db.constraints ==> row in db0.constraints || MadeConstraint(db, row))
    && (forall row :: row in db.indexes ==> row in db0.indexes || MadeIndex(db, row))
  }

  ghost predicate NamesDiffer(db: Db) { forall a, b :: a in db.indexes && b in db.indexes && a.name == b.name ==> a == b }

  ghost predicate ServedIn(db: Db, keys: set<Key>) { forall key: Key :: UniqueServed(db, key.0, key.1) ==> key in keys }

  /** Why a key is counted as unique. */
  ghost predicate KeyTaken(quiet: bool, db0: Db, db: Db, key: Key) {
    UniqueServed(db0, key.0, key.1)
    || (!PlainServed(db, key.0, key.1) && Clearable(db0, key.0, key.1)
        && (UniqueServed(db, key.0, key.1) || ConstraintNameTaken(quiet, db0, key.0, key.1)))
  }

  ghost predicate KeysTaken(quiet: bool, db0: Db, db: Db, keys: set<Key>) { forall key :: key in keys ==> KeyTaken(quiet, db0, db, key) }

  /** The indexes dropped so far, in order: all that is missing, each by a constraint on its key. */
  ghost predicate Gone(quiet: bool, db0: Db, db: Db, keys: set<Key>, gone: seq<Row>) {
    Chain(quiet, db0, gone)
    && (forall row :: row in db0.indexes ==> row in db.indexes || row in gone)
    && forall row :: row in gone ==> row !in db.indexes && IsPlainIndex(row) && IndexKey(row) in keys
  }

  ghost predicate Tracked(quiet: bool, db0: Db, db: Db, keys: set<Key>, gone: seq<Row>) {
    Keeps(db0, db) && Known(db0, db) && NamesDiffer(db) && ServedIn(db, keys) && KeysTaken(quiet, db0, db, keys)
    && Gone(quiet, db0, db, keys, gone)
  }

  // ----- one constraint -----

  function NextKeys(keys: set<Key>, c: ConstraintSpec): set<Key> { keys + if IsSingleUnique(c) then {KeyOf(c)} else {} }

  /** The plain indexes dropped to make way for the constraint. */
  ghost predicate Blocks(db0: Db, keys: set<Key>, c: ConstraintSpec, rows: seq<Row>) {
    if IsSingleUnique(c) && KeyOf(c) !in keys
    then forall row :: row in rows <==> row in db0.indexes && IsPlainIndexOn(row, KeyOf(c).0, KeyOf(c).1)
    else rows == []
  }

  ghost predicate ClearedBy(db: Db, cleared: Db, rows: seq<Row>) {
    cleared.constraints == db.constraints && forall row :: row in cleared.indexes <==> row in db.indexes && row !in rows
  }

  ghost predicate CreatedBy(quiet: bool, cleared: Db, after: Db, c: ConstraintSpec) {
    if AlreadyThere(quiet, cleared, StatementOf(c)) then after == cleared
    else !Refuses(quiet, cleared, StatementOf(c)) && after == Effect(cleared, StatementOf(c))
  }

  /** One constraint taken without a failure, as the change it makes. */
  ghost predicate Taken(quiet: bool, db0: Db, db: Db, keys: set<Key>, c: ConstraintSpec, rows: seq<Row>, cleared: Db, after: Db) {
    SpecAccepted(c) && Blocks(db0, keys, c, rows) && ClearedBy(db, cleared, rows) && CreatedBy(quiet, cleared, after, c)
    && forall k :: 0 <= k < |rows| ==> PlainName(rows[k].name)
  }

  /** Only the constraint's own rows are new, and only the blocking ones are gone. */
  lemma TakenRows(quiet: bool, db0: Db, db: Db, keys: set<Key>, c: ConstraintSpec, rows: seq<Row>, cleared: Db, after: Db)
    requires Taken(quiet, db0, db, keys, c, rows, cleared, after)
    ensures after == cleared || after == Effect(cleared, StatementOf(c))
    ensures forall row :: row in after.constraints <==> row in db.constraints || (after != cleared && row == ConstraintRow(c))
    ensures forall row :: row in after.indexes <==>
              (row in db.indexes && row !in rows) || (after != cleared && c.kind == Unique && row == OwnedRow(c))
  {
    hide NameOf, AlreadyThere, Refuses, Blocks, SpecAccepted;
    EffectRows(cleared, c);
    if after != cleared {
      assert forall row :: row in after.constraints <==> row in cleared.constraints || row == ConstraintRow(c);
    }
  }

  lemma TakenKnown(quiet: bool, db0: Db, db: Db, keys: set<Key>, c: ConstraintSpec, rows: seq<Row>, cleared: Db, after: Db)
    requires Taken(quiet, db0, db, keys, c, rows, cleared, after) && Known(db0, db)
    ensures Known(db0, after)
  {
    hide NameOf, Effect, AlreadyThere, Refuses, SpecAccepted, ClearedBy;
    TakenRows(quiet, db0, db, keys, c, rows, cleared, after);
    forall row | row in after.constraints ensures row in db0.constraints || MadeConstraint(after, row) {
      if row in db.constraints && row !in db0.constraints {
        var made :| SpecAccepted(made) && row == ConstraintRow(made) && (made.kind == Unique ==> OwnedRow(made) in db.indexes);
        assert OwnedRow(made) !in rows;
      } else if row !in db.constraints {
        assert row == ConstraintRow(c) && (c.kind == Unique ==> OwnedRow(c) in after.indexes);
      }
    }
    forall row | row in after.indexes ensures row in db0.indexes || MadeIndex(after, row) {
      if row in db.indexes && row !in db0.indexes {
        var made :| SpecAccepted(made) && made.kind == Unique && row == OwnedRow(made) && ConstraintRow(made) in db.constraints;
        assert ConstraintRow(made) in after.constraints;
      } else if row !in db.indexes {
        assert row == OwnedRow(c) && ConstraintRow(c) in after.constraints;
      }
    }
  }

  lemma TakenNames(quiet: bool, db0: Db, db: Db, keys: set<Key>, c: ConstraintSpec, rows: seq<Row>, cleared: Db, after: Db)
    requires Taken(quiet, db0, db, keys, c, rows, cleared, after) && NamesDiffer(db)
    ensures NamesDiffer(after)
  {
    hide Name, Effect, SpecAccepted, Blocks;
    TakenRows(quiet, db0, db, keys, c, rows, cleared, after);
    if after != cleared {
      forall row | row in cleared.indexes ensures row.name != NameOf(c) { NamedBy(cleared.indexes, row); }
    }
  }

  lemma TakenServed(quiet: bool, db0: Db, db: Db, keys: set<Key>, c: ConstraintSpec, rows: seq<Row>, cleared: Db, after: Db)
    requires Taken(quiet, db0, db, keys, c, rows, cleared, after) && ServedIn(db, keys)
    ensures ServedIn(after, NextKeys(keys, c))
  {
    hide NameOf, Effect, AlreadyThere, Refuses, SpecAccepted, Blocks, ClearedBy;
    TakenRows(quiet, db0, db, keys, c, rows, cleared, after);
    forall key: Key | UniqueServed(after, key.0, key.1) ensures key in NextKeys(keys, c) {
      var row :| row in after.constraints && CoversIndex(row.kind) && SameSchema(row, Node, key.0, [key.1]);
      if row in db.constraints {
        assert UniqueServed(db, key.0, key.1);
      } else {
        assert row == ConstraintRow(c) && [c.nodeLabel] == [key.0];
      }
    }
  }

  lemma ServedStays(a: Db, b: Db, key: Key)
    requires Keeps(a, b) && UniqueServed(a, key.0, key.1)
    ensures UniqueServed(b, key.0, key.1)
  {
    var row :| row in a.constraints && CoversIndex(row.kind) && SameSchema(row, Node, key.0, [key.1]);
    assert row in b.constraints;
  }

  lemma TakenOldKey(quiet: bool, db0: Db, db: Db, keys: set<Key>, c: ConstraintSpec, rows: seq<Row>,
          cleared: Db, after: Db, key: Key)
    requires Taken(quiet, db0, db, keys, c, rows, cleared, after) && KeyTaken(quiet, db0, db, key)
    ensures KeyTaken(quiet, db0, after, key)
  {
    hide NameOf, Effect, AlreadyThere, Refuses, SpecAccepted, Blocks, ClearedBy, Clearable, ConstraintNameTaken;
    TakenRows(quiet, db0, db, keys, c, rows, cleared, after);
    assert Keeps(db, after);
    if UniqueServed(db, key.0, key.1) { ServedStays(db, after, key); }
    if PlainServed(after, key.0, key.1) {
      var row :| row in after.indexes && IsPlainIndexOn(row, key.0, key.1);
      assert row in db.indexes;
    }
  }

  /** A name a constraint made is the name of that constraint alone. */
  lemma SameConstraint(a: ConstraintSpec, b: ConstraintSpec)
    requires SpecAccepted(a) && SpecAccepted(b) && NameOf(a) == NameOf(b)
    ensures a == b
  {
    hide Name, Accepted;
    NameClash(Constraint(a.nodeLabel, a.properties, a.kind), Constraint(b.nodeLabel, b.properties, b.kind));
  }

  lemma RowServes(db: Db, c: ConstraintSpec)
    requires IsSingleUnique(c) && ConstraintRow(c) in db.constraints
    ensures UniqueServed(db, KeyOf(c).0, KeyOf(c).1)
  {
    hide NameOf;
    var row := ConstraintRow(c);
    assert c.properties == [KeyOf(c).1];
    assert CoversIndex(row.kind) && SameSchema(row, Node, KeyOf(c).0, [KeyOf(c).1]);
  }

  /** With the constraint taken for one that is there, either it is or its name is taken. */
  lemma TakenForThere(quiet: bool, db0: Db, cleared: Db, c: ConstraintSpec)
    requires Known(db0, cleared) && SpecAccepted(c) && IsSingleUnique(c)
    requires !PlainServed(cleared, KeyOf(c).0, KeyOf(c).1) && AlreadyThere(quiet, cleared, StatementOf(c))
    ensures UniqueServed(cleared, KeyOf(c).0, KeyOf(c).1) || ConstraintNameTaken(quiet, db0, KeyOf(c).0, KeyOf(c).1)
  {
    hide Name, SpecAccepted;
    assert c.properties == [KeyOf(c).1];
    if Named(cleared.constraints, NameOf(c)) {
      var k :| 0 <= k < |cleared.constraints| && cleared.constraints[k].name == NameOf(c);
      var row := cleared.constraints[k];
      assert row in cleared.constraints;
      if row !in db0.constraints {
        var made :| SpecAccepted(made) && row == ConstraintRow(made) && (made.kind == Unique ==> OwnedRow(made) in cleared.indexes);
        SameConstraint(made, c);
        RowServes(cleared, c);
      }
    } else if HasConstraint(cleared, Unique, c.nodeLabel, c.properties) {
      var k :| 0 <= k < |cleared.constraints| && SameSchema(cleared.constraints[k], Node, c.nodeLabel, c.properties)
        && (cleared.constraints[k].kind == Uniqueness || cleared.constraints[k].kind == NodeUniqueness);
      assert cleared.constraints[k] in cleared.constraints;
    } else {
      var k :| 0 <= k < |cleared.indexes| && cleared.indexes[k].name == NameOf(c);
      var row := cleared.indexes[k];
      assert row in cleared.indexes && !IsPlainIndexOn(row, KeyOf(c).0, KeyOf(c).1);
      assert row in db0.indexes;
    }
  }

  lemma ClearedKnown(db0: Db, db: Db, cleared: Db, rows: seq<Row>)
    requires Known(db0, db) && ClearedBy(db, cleared, rows) && forall row :: row in rows ==> row.owner == None
    ensures Known(db0, cleared)
  {
    hide NameOf, SpecAccepted;
    forall row | row in cleared.constraints ensures row in db0.constraints || MadeConstraint(cleared, row) {
      if row !in db0.constraints {
        var made :| SpecAccepted(made) && row == ConstraintRow(made) && (made.kind == Unique ==> OwnedRow(made) in db.indexes);
        assert OwnedRow(made) !in rows;
      }
    }
    forall row | row in cleared.indexes ensures row in db0.indexes || MadeIndex(cleared, row) {
      if row !in db0.indexes {
        var made :| SpecAccepted(made) && made.kind == Unique && row == OwnedRow(made) && ConstraintRow(made) in db.constraints;
      }
    }
  }

  /** Before its constraint is created, no plain index is left on a key taken for the first time. */
  lemma KeyCleared(db0: Db, db: Db, keys: set<Key>, c: ConstraintSpec, rows: seq<Row>, cleared: Db)
    requires Known(db0, db) && IsSingleUnique(c) && KeyOf(c) !in keys && Blocks(db0, keys, c, rows) && ClearedBy(db, cleared, rows)
    ensures !PlainServed(cleared, KeyOf(c).0, KeyOf(c).1)
  {
    hide NameOf, SpecAccepted;
  }

  lemma TakenClearable(quiet: bool, db0: Db, db: Db, keys: set<Key>, c: ConstraintSpec, rows: seq<Row>, cleared: Db, after: Db)
    requires Taken(quiet, db0, db, keys, c, rows, cleared, after) && Keeps(db0, db) && ServedIn(db, keys)
    requires IsSingleUnique(c) && KeyOf(c) !in keys
    ensures Clearable(db0, KeyOf(c).0, KeyOf(c).1) && !UniqueServed(db, KeyOf(c).0, KeyOf(c).1)
  {
    hide NameOf, Effect, AlreadyThere, Refuses, ClearedBy, PlainName, IsIdentifier;
    if UniqueServed(db0, KeyOf(c).0, KeyOf(c).1) { ServedStays(db0, db, KeyOf(c)); }
    forall row | row in db0.indexes && IsPlainIndexOn(row, KeyOf(c).0, KeyOf(c).1) ensures PlainName(row.name) {
      assert row in rows;
      var k :| 0 <= k < |rows| && rows[k] == row;
    }
    assert Accepted(Constraint(c.nodeLabel, c.properties, c.kind));
  }

  lemma TakenNewKey(quiet: bool, db0: Db, db: Db, keys: set<Key>, c: ConstraintSpec, rows: seq<Row>, cleared: Db, after: Db)
    requires Taken(quiet, db0, db, keys, c, rows, cleared, after) && Keeps(db0, db) && Known(db0, db) && ServedIn(db, keys)
    requires IsSingleUnique(c) && KeyOf(c) !in keys
    ensures KeyTaken(quiet, db0, after, KeyOf(c))
  {
    hide NameOf, Effect, AlreadyThere, Refuses, SpecAccepted, Clearable, ConstraintNameTaken;
    TakenRows(quiet, db0, db, keys, c, rows, cleared, after);
    TakenClearable(quiet, db0, db, keys, c, rows, cleared, after);
    KeyCleared(db0, db, keys, c, rows, cleared);
    ClearedKnown(db0, db, cleared, rows);
    if after == cleared {
      assert AlreadyThere(quiet, cleared, StatementOf(c)) by { EffectRows(cleared, c); }
      TakenForThere(quiet, db0, cleared, c);
    } else {
      RowServes(after, c);
      assert forall row :: row in after.indexes && IsPlainIndexOn(row, KeyOf(c).0, KeyOf(c).1) ==> row in cleared.indexes;
    }
  }

  lemma TakenKeys(quiet: bool, db0: Db, db: Db, keys: set<Key>, c: ConstraintSpec, rows: seq<Row>, cleared: Db, after: Db)
    requires Taken(quiet, db0, db, keys, c, rows, cleared, after) && Keeps(db0, db) && Known(db0, db) && ServedIn(db, keys)
    requires KeysTaken(quiet, db0, db, keys)
    ensures KeysTaken(quiet, db0, after, NextKeys(keys, c))
  {
    hide Taken, Known, KeyTaken, Keeps, ServedIn;
    forall key | key in NextKeys(keys, c) ensures KeyTaken(quiet, db0, after, key) {
      if key in keys {
        TakenOldKey(quiet, db0, db, keys, c, rows, cleared, after, key);
      } else {
        TakenNewKey(quiet, db0, db, keys, c, rows, cleared, after);
      }
    }
  }

  /** The rows cleared could be dropped: nothing else of the start still held the constraint's name. */
  lemma TakenMakesWay(quiet: bool, db0: Db, db: Db, keys: set<Key>, gone: seq<Row>, c: ConstraintSpec,
          rows: seq<Row>, cleared: Db, after: Db)
    requires Taken(quiet, db0, db, keys, c, rows, cleared, after) && Tracked(quiet, db0, db, keys, gone)
    requires IsSingleUnique(c) && KeyOf(c) !in keys
    ensures MakesWay(quiet, db0, gone, KeyOf(c).0, KeyOf(c).1)
  {
    hide Name, Effect, SpecAccepted, KeysTaken, NamesDiffer, Chain;
    var l, p := KeyOf(c).0, KeyOf(c).1;
    assert c.properties == [p];
    TakenClearable(quiet, db0, db, keys, c, rows, cleared, after);
    KeyCleared(db0, db, keys, c, rows, cleared);
    ClearedKnown(db0, db, cleared, rows);
    if !quiet && !HeldByConstraint(db0, NameOf(c)) {
      if AlreadyThere(quiet, cleared, StatementOf(c)) {
        TakenForThere(quiet, db0, cleared, c);
        ServedStays(cleared, db, KeyOf(c));
      }
      forall other | other in db0.indexes && other.name == NameOf(c) ensures IsPlainIndexOn(other, l, p) || other in gone {
        if other in db.indexes && !IsPlainIndexOn(other, l, p) {
          assert other in cleared.indexes;
          NamedBy(cleared.indexes, other);
        }
      }
    }
  }

  lemma ChainGrows(quiet: bool, db0: Db, gone: seq<Row>, rows: seq<Row>, l: string, p: string)
    requires Chain(quiet, db0, gone) && Clearable(db0, l, p) && MakesWay(quiet, db0, gone, l, p)
    requires forall row :: row in rows ==> row in db0.indexes && IsPlainIndexOn(row, l, p)
    ensures Chain(quiet, db0, gone + rows)
  {
    hide Clearable, HeldByConstraint, Name;
    var all := gone + rows;
    forall k | 0 <= k < |all| ensures Yields(quiet, db0, all[..k], all[k]) {
      if k < |gone| {
        assert all[..k] == gone[..k];
      } else {
        PlainKey(all[k], l, p);
        assert forall row :: row in gone ==> row in all[..k] by {
          forall row | row in gone ensures row in all[..k] {
            var j :| 0 <= j < |gone| && gone[j] == row;
            assert all[..k][j] == row;
          }
        }
      }
    }
  }

  lemma TakenGone(quiet: bool, db0: Db, db: Db, keys: set<Key>, gone: seq<Row>, c: ConstraintSpec,
          rows: seq<Row>, cleared: Db, after: Db)
    requires Taken(quiet, db0, db, keys, c, rows, cleared, after) && Tracked(quiet, db0, db, keys, gone)
    ensures Gone(quiet, db0, after, NextKeys(keys, c), gone + rows)
  {
    hide NameOf, Effect, AlreadyThere, Refuses, SpecAccepted, KeysTaken, NamesDiffer, Chain, Known;
    TakenRows(quiet, db0, db, keys, c, rows, cleared, after);
    if IsSingleUnique(c) && KeyOf(c) !in keys {
      TakenMakesWay(quiet, db0, db, keys, gone, c, rows, cleared, after);
      TakenClearable(quiet, db0, db, keys, c, rows, cleared, after);
      ChainGrows(quiet, db0, gone, rows, KeyOf(c).0, KeyOf(c).1);
      forall row | row in rows ensures IsPlainIndex(row) && IndexKey(row) == KeyOf(c) { PlainKey(row, KeyOf(c).0, KeyOf(c).1); }
    } else {
      assert gone + rows == gone;
    }
  }

  lemma TakenTracked(quiet: bool, db0: Db, db: Db, keys: set<Key>, gone: seq<Row>, c: ConstraintSpec,
          rows: seq<Row>, cleared: Db, after: Db)
    requires Taken(quiet, db0, db, keys, c, rows, cleared, after) && Tracked(quiet, db0, db, keys, gone)
    ensures Tracked(quiet, db0, after, NextKeys(keys, c), gone + rows)
  {
    hide Taken, Known, NamesDiffer, ServedIn, KeysTaken, Gone;
    TakenRows(quiet, db0, db, keys, c, rows, cleared, after);
    TakenKnown(quiet, db0, db, keys, c, rows, cleared, after);
    TakenNames(quiet, db0, db, keys, c, rows, cleared, after);
    TakenServed(quiet, db0, db, keys, c, rows, cleared, after);
    TakenKeys(quiet, db0, db, keys, c, rows, cleared, after);
    TakenGone(quiet, db0, db, keys, gone, c, rows, cleared, after);
  }

  // ----- the constraints of a plan -----

  predicate Wanted(oracle: Oracle, c: ConstraintSpec) { c.kind == Unique || oracle.enterprise }

  lemma {:induction false} DropsSucceed(st: St, oracle: Oracle, rows: seq<Row>)
    requires DropRows(st, oracle, rows).report.failed == []
    ensures var cleared := DropRows(st, oracle, rows);
            st.report.failed == [] && cleared.uniqueKeys == st.uniqueKeys && cleared.db.constraints == st.db.constraints
            && forall row :: row in cleared.db.indexes <==> row in st.db.indexes && forall k :: 0 <= k < |rows| ==> row.name != rows[k].name
    ensures forall k :: 0 <= k < |rows| ==> PlainName(rows[k].name)
    ensures forall row, k :: row in st.db.indexes && 0 <= k < |rows| && row.name == rows[k].name ==> row.owner == None
    decreases |rows|
  {
    hide PlainName;
    if rows != [] {
      var next := if PlainName(rows[0].name) then Execute(st, oracle, DropIndex(rows[0].name)) else Fail(st, RefusedName(rows[0].name));
      DropsSucceed(next, oracle, rows[1..]);
      WithoutNameMembers(st.db.indexes, rows[0].name);
      forall row | row in st.db.indexes && row.name == rows[0].name ensures row.owner == None {
        var k :| 0 <= k < |st.db.indexes| && st.db.indexes[k] == row;
      }
      assert forall k :: 0 < k < |rows| ==> rows[k] == rows[1..][k - 1];
      assert forall k :: 0 <= k < |rows[1..]| ==> rows[1..][k] == rows[k + 1];
    }
  }

  lemma ExecuteSucceeds(st: St, oracle: Oracle, s: Statement)
    requires Execute(st, oracle, s).report.failed == []
    ensures st.report.failed == [] && Exec(oracle.quiet, st.db, s, oracle.ok(st.clock)).1
    ensures Execute(st, oracle, s).db == Exec(oracle.quiet, st.db, s, oracle.ok(st.clock)).0
  {
    hide Exec;
  }

  lemma BlockingBlocks(db0: Db, st: St, c: ConstraintSpec)
    ensures Blocks(db0, st.uniqueKeys, c, Blocking(st, Some(db0), c))
  {
    if IsSingleUnique(c) { PlainRowsMembers(db0.indexes, c.nodeLabel, c.properties[0]); }
  }

  lemma DropsClear(db0: Db, st: St, oracle: Oracle, c: ConstraintSpec)
    requires ValidDb(db0) && Known(db0, st.db)
    requires DropRows(st, oracle, Blocking(st, Some(db0), c)).report.failed == []
    ensures ClearedBy(st.db, DropRows(st, oracle, Blocking(st, Some(db0), c)).db, Blocking(st, Some(db0), c))
  {
    hide NameOf, SpecAccepted, PlainName, Blocking, DropRows;
    var rows := Blocking(st, Some(db0), c);
    BlockingBlocks(db0, st, c);
    DropsSucceed(st, oracle, rows);
    forall row | row in st.db.indexes
      ensures row in rows <==> exists k :: 0 <= k < |rows| && row.name == rows[k].name
    {
      if row in rows {
        var k :| 0 <= k < |rows| && rows[k] == row;
      }
      if k :| 0 <= k < |rows| && row.name == rows[k].name {
        assert rows[k] in rows;
        assert row in db0.indexes;
      }
    }
  }

  /** A wanted constraint taken without a failure changes the schema as Taken says. */
  lemma TakeStep(db0: Db, st: St, oracle: Oracle, plan: Plan, c: ConstraintSpec)
    requires ValidDb(db0) && Known(db0, st.db) && SpecAccepted(c) && Wanted(oracle, c)
    requires TakeConstraint(st, oracle, Some(db0), plan, c).report.failed == []
    ensures var after := TakeConstraint(st, oracle, Some(db0), plan, c);
            var rows := Blocking(st, Some(db0), c);
            st.report.failed == [] && after.uniqueKeys == NextKeys(st.uniqueKeys, c)
            && Taken(oracle.quiet, db0, st.db, st.uniqueKeys, c, rows, DropRows(st, oracle, rows).db, after.db)
  {
    hide Known, ValidDb, SpecAccepted, PlainName, Blocking, DropRows, Execute, Held, AnyDroppable, ClearedBy, Blocks, Exec;
    var rows := Blocking(st, Some(db0), c);
    var cleared := DropRows(st, oracle, rows);
    var created := Execute(cleared, oracle, StatementOf(c));
    ExecuteFrame(cleared, oracle, StatementOf(c));
    if |created.report.failed| != |cleared.report.failed| && IsSingleUnique(c) {
      FailsOn(cleared, oracle, StatementOf(c));
      FailsOn(created, oracle, CreateIndex(KeyOf(c).0, KeyOf(c).1));
    }
    assert created.report.failed == [];
    ExecuteSucceeds(cleared, oracle, StatementOf(c));
    DropsSucceed(st, oracle, rows);
    DropsClear(db0, st, oracle, c);
    BlockingBlocks(db0, st, c);
    Succeeded(oracle.quiet, cleared.db, oracle.ok(cleared.clock), c);
  }

  lemma FailsOn(st: St, oracle: Oracle, s: Statement)
    ensures |Execute(st, oracle, s).report.failed| >= |st.report.failed|
  {
    hide Exec;
  }

  lemma Succeeded(quiet: bool, cleared: Db, ok: bool, c: ConstraintSpec)
    requires Exec(quiet, cleared, StatementOf(c), ok).1
    ensures CreatedBy(quiet, cleared, Exec(quiet, cleared, StatementOf(c), ok).0, c)
  {
    hide AlreadyThere, Refuses, Effect;
  }

  /** The constraint's name is that of an index which another constraint drops. */
  ghost predicate LosesName(quiet: bool, db0: Db, c: ConstraintSpec) {
    quiet && exists row :: Yields(true, db0, [], row) && row.name == NameOf(c)
                           && (IsSingleUnique(c) ==> !IsPlainIndexOn(row, KeyOf(c).0, KeyOf(c).1))
  }

  /** What is left of a constraint once it was taken. */
  ghost predicate Stands(quiet: bool, db0: Db, db: Db, keys: set<Key>, c: ConstraintSpec) {
    (IsSingleUnique(c) ==> KeyOf(c) in keys) && (AlreadyThere(quiet, db, StatementOf(c)) || LosesName(quiet, db0, c))
  }

  lemma NamedStays(a: seq<Row>, b: seq<Row>, name: string)
    requires (forall row :: row in a ==> row in b) && Named(a, name)
    ensures Named(b, name)
  {
    var k :| 0 <= k < |a| && a[k].name == name;
    NamedBy(b, a[k]);
  }

  lemma HasConstraintStays(a: Db, b: Db, kind: ConstraintKind, l: string, ps: seq<string>)
    requires Keeps(a, b) && HasConstraint(a, kind, l, ps)
    ensures HasConstraint(b, kind, l, ps)
  {
    var k :| 0 <= k < |a.constraints| && SameSchema(a.constraints[k], Node, l, ps)
      && if kind == Unique then a.constraints[k].kind == Uniqueness || a.constraints[k].kind == NodeUniqueness
         else a.constraints[k].kind == Existence;
    assert a.constraints[k] in b.constraints;
    var j :| 0 <= j < |b.constraints| && b.constraints[j] == a.constraints[k];
  }

  lemma HasIndexStays(a: Db, b: Db, entity: Entity, l: string, ps: seq<string>)
    requires (forall row :: row in a.indexes && row.kind == Range && SameSchema(row, entity, l, ps) ==> row in b.indexes)
    requires HasIndex(a, entity, l, ps)
    ensures HasIndex(b, entity, l, ps)
  {
    var k :| 0 <= k < |a.indexes| && a.indexes[k].kind == Range && SameSchema(a.indexes[k], entity, l, ps);
    assert a.indexes[k] in a.indexes;
    var j :| 0 <= j < |b.indexes| && b.indexes[j] == a.indexes[k];
  }

  lemma TakenStands(quiet: bool, db0: Db, db: Db, keys: set<Key>, c: ConstraintSpec, rows: seq<Row>, cleared: Db, after: Db)
    requires Taken(quiet, db0, db, keys, c, rows, cleared, after)
    ensures Stands(quiet, db0, after, NextKeys(keys, c), c)
  {
    hide Name, Effect, Refuses, SpecAccepted, Blocks, ClearedBy, LosesName;
    if !AlreadyThere(quiet, cleared, StatementOf(c)) {
      EffectRows(cleared, c);
      NamedBy(after.constraints, ConstraintRow(c));
    }
  }

  lemma StandsStays(quiet: bool, db0: Db, db: Db, keys: set<Key>, gone: seq<Row>, c: ConstraintSpec,
          rows: seq<Row>, cleared: Db, after: Db, other: ConstraintSpec)
    requires Taken(quiet, db0, db, keys, c, rows, cleared, after) && Tracked(quiet, db0, db, keys, gone)
    requires Stands(quiet, db0, db, keys, other)
    ensures Stands(quiet, db0, after, NextKeys(keys, c), other)
  {
    hide Name, Effect, Refuses, SpecAccepted, Known, NamesDiffer, KeysTaken, Gone, ClearedBy, CreatedBy;
    TakenRows(quiet, db0, db, keys, c, rows, cleared, after);
    assert Keeps(db, after);
    var name := NameOf(other);
    if !AlreadyThere(quiet, db, StatementOf(other)) {
    } else if Named(db.constraints, name) {
      NamedStays(db.constraints, after.constraints, name);
    } else if HasConstraint(db, other.kind, other.nodeLabel, other.properties) {
      HasConstraintStays(db, after, other.kind, other.nodeLabel, other.properties);
    } else {
      var k :| 0 <= k < |db.indexes| && db.indexes[k].name == name;
      var row := db.indexes[k];
      if row in rows {
        TakenClearable(quiet, db0, db, keys, c, rows, cleared, after);
        PlainKey(row, KeyOf(c).0, KeyOf(c).1);
        assert Yields(true, db0, [], row);
      } else {
        NamedBy(after.indexes, row);
      }
    }
  }

  lemma StepTracked(db0: Db, st: St, oracle: Oracle, plan: Plan, c: ConstraintSpec, gone: seq<Row>)
    requires ValidDb(db0) && SpecAccepted(c) && Wanted(oracle, c) && Tracked(oracle.quiet, db0, st.db, st.uniqueKeys, gone)
    requires TakeConstraint(st, oracle, Some(db0), plan, c).report.failed == []
    ensures var after := TakeConstraint(st, oracle, Some(db0), plan, c);
            st.report.failed == []
            && Tracked(oracle.quiet, db0, after.db, after.uniqueKeys, gone + Blocking(st, Some(db0), c))
            && Stands(oracle.quiet, db0, after.db, after.uniqueKeys, c)
            && forall other :: Stands(oracle.quiet, db0, st.db, st.uniqueKeys, other) ==>
                                 Stands(oracle.quiet, db0, after.db, after.uniqueKeys, other)
  {
    hide TakeConstraint, Stands, SpecAccepted, Taken, ValidDb, Blocking, DropRows, NextKeys, Known, KeysTaken, Gone;
    var after := TakeConstraint(st, oracle, Some(db0), plan, c);
    var rows := Blocking(st, Some(db0), c);
    var cleared := DropRows(st, oracle, rows).db;
    TakeStep(db0, st, oracle, plan, c);
    TakenTracked(oracle.quiet, db0, st.db, st.uniqueKeys, gone, c, rows, cleared, after.db);
    TakenStands(oracle.quiet, db0, st.db, st.uniqueKeys, c, rows, cleared, after.db);
    forall other | Stands(oracle.quiet, db0, st.db, st.uniqueKeys, other)
      ensures Stands(oracle.quiet, db0, after.db, after.uniqueKeys, other)
    {
      StandsStays(oracle.quiet, db0, st.db, st.uniqueKeys, gone, c, rows, cleared, after.db, other);
    }
  }

  lemma NoFailureBefore(db0: Db, a: St, b: St)
    requires Steady(db0, a, b)
    ensures b.report.failed == [] ==> a.report.failed == []
  {
    if a.report.failed != [] { assert a.report.failed[0] in b.report.failed; }
  }

  /** What the constraints of a plan leave behind them when none of them fails. */
  lemma {:induction false} TakeConstraintsTracked(db0: Db, st: St, oracle: Oracle, plan: Plan,
          cs: seq<ConstraintSpec>, gone: seq<Row>)
    returns (more: seq<Row>)
    requires ValidDb(db0) && SpecsAccepted(cs) && Tracked(oracle.quiet, db0, st.db, st.uniqueKeys, gone)
    requires TakeConstraints(st, oracle, Some(db0), plan, cs).report.failed == []
    ensures var after := TakeConstraints(st, oracle, Some(db0), plan, cs);
            st.report.failed == [] && Tracked(oracle.quiet, db0, after.db, after.uniqueKeys, more)
            && (forall k :: 0 <= k < |cs| && Wanted(oracle, cs[k]) ==> Stands(oracle.quiet, db0, after.db, after.uniqueKeys, cs[k]))
            && (forall c :: Stands(oracle.quiet, db0, st.db, st.uniqueKeys, c) ==> Stands(oracle.quiet, db0, after.db, after.uniqueKeys, c))
    decreases |cs|
  {
    hide TakeConstraint, Tracked, Stands, SpecAccepted, ValidDb, Blocking, Steady;
    more := gone;
    if cs != [] {
      var next := TakeConstraint(st, oracle, Some(db0), plan, cs[0]);
      var tracked := gone;
      TakeConstraintsSteady(db0, next, oracle, Some(db0), plan, cs[1..]);
      NoFailureBefore(db0, next, TakeConstraints(next, oracle, Some(db0), plan, cs[1..]));
      if Wanted(oracle, cs[0]) {
        StepTracked(db0, st, oracle, plan, cs[0], gone);
        tracked := gone + Blocking(st, Some(db0), cs[0]);
      } else {
        Unwanted(st, oracle, Some(db0), plan, cs[0]);
      }
      more := TakeConstraintsTracked(db0, next, oracle, plan, cs[1..], tracked);
      var after := TakeConstraints(next, oracle, Some(db0), plan, cs[1..]);
      forall k | 0 <= k < |cs| && Wanted(oracle, cs[k]) ensures Stands(oracle.quiet, db0, after.db, after.uniqueKeys, cs[k]) {
        if k > 0 { assert cs[k] == cs[1..][k - 1]; }
      }
    }
  }

  lemma Unwanted(st: St, oracle: Oracle, existing: Option<Db>, plan: Plan, c: ConstraintSpec)
    requires !Wanted(oracle, c)
    ensures var after := TakeConstraint(st, oracle, existing, plan, c);
            after.db == st.db && after.uniqueKeys == st.uniqueKeys && after.report.failed == st.report.failed
  {
  }

  // ----- what a second run finds -----

  /** Running the statement changes nothing. */
  predicate Inert(quiet: bool, db: Db, s: Statement)
    requires !s.DropIndex?
  {
    AlreadyThere(quiet, db, s) || Refuses(quiet, db, s)
  }

  lemma TrackedBacked(quiet: bool, db0: Db, db: Db, keys: set<Key>, gone: seq<Row>)
    requires ValidDb(db0) && Tracked(quiet, db0, db, keys, gone)
    ensures AllBacked(db)
  {
    hide NameOf, SpecAccepted, Chain, KeysTaken, ServedIn, NamesDiffer;
    forall l, p | UniqueServed(db, l, p) ensures Backed(db, l, p) {
      var row :| row in db.constraints && CoversIndex(row.kind) && SameSchema(row, Node, l, [p]);
      if row in db0.constraints {
        assert UniqueServed(db0, l, p);
        var own :| own in db0.indexes && own.kind == Range && own.owner.Some? && SameSchema(own, Node, l, [p]);
        assert own in db.indexes;
      } else {
        var c :| SpecAccepted(c) && row == ConstraintRow(c) && (c.kind == Unique ==> OwnedRow(c) in db.indexes);
        assert OwnedRow(c) in db.indexes;
      }
    }
  }

  lemma ServedHasIndex(db: Db, key: Key)
    requires AllBacked(db) && UniqueServed(db, key.0, key.1)
    ensures HasIndex(db, Node, key.0, [key.1])
  {
    assert Backed(db, key.0, key.1);
    var row :| row in db.indexes && row.kind == Range && row.owner.Some? && SameSchema(row, Node, key.0, [key.1]);
    var k :| 0 <= k < |db.indexes| && db.indexes[k] == row;
  }

  /** A constraint that stands is inert, unless the schema is movable. */
  lemma StandsInert(quiet: bool, db0: Db, db: Db, keys: set<Key>, gone: seq<Row>, c: ConstraintSpec)
    requires ValidDb(db0) && Tracked(quiet, db0, db, keys, gone) && Stands(quiet, db0, db, keys, c) && SpecAccepted(c)
    requires !Movable(quiet, db0)
    ensures Inert(quiet, db, StatementOf(c))
  {
    hide Name, ValidDb, Known, NamesDiffer, ServedIn, SpecAccepted, Chain, Clearable, ConstraintNameTaken, KeyMoves, Yields;
    if !AlreadyThere(quiet, db, StatementOf(c)) {
      var row :| Yields(true, db0, [], row) && row.name == NameOf(c)
        && (IsSingleUnique(c) ==> !IsPlainIndexOn(row, KeyOf(c).0, KeyOf(c).1));
      assert !NameMoves(db0, c, row);
      if Named(db0.constraints, NameOf(c)) { NamedStays(db0.constraints, db.constraints, NameOf(c)); }
      if HasConstraint(db0, c.kind, c.nodeLabel, c.properties) { HasConstraintStays(db0, db, c.kind, c.nodeLabel, c.properties); }
      if IsSingleUnique(c) {
        assert KeyTaken(quiet, db0, db, KeyOf(c)) && c.properties == [KeyOf(c).1];
        assert UniqueServed(db0, KeyOf(c).0, KeyOf(c).1);
        ServedStays(db0, db, KeyOf(c));
        TrackedBacked(quiet, db0, db, keys, gone);
        ServedHasIndex(db, KeyOf(c));
      } else {
        CompositeStays(quiet, db0, db, keys, gone, c);
      }
    }
  }

  /** An index on several properties is never dropped. */
  lemma CompositeStays(quiet: bool, db0: Db, db: Db, keys: set<Key>, gone: seq<Row>, c: ConstraintSpec)
    requires Gone(quiet, db0, db, keys, gone) && !IsSingleUnique(c) && c.kind == Unique && HasIndex(db0, Node, c.nodeLabel, c.properties)
    ensures HasIndex(db, Node, c.nodeLabel, c.properties)
  {
    hide Chain;
    HasIndexStays(db0, db, Node, c.nodeLabel, c.properties);
  }

  /** So is the index of a key counted as unique. */
  lemma KeyInert(quiet: bool, db0: Db, db: Db, keys: set<Key>, gone: seq<Row>, key: Key)
    requires ValidDb(db0) && Tracked(quiet, db0, db, keys, gone) && key in keys && !Movable(quiet, db0)
    ensures Inert(quiet, db, CreateIndex(key.0, key.1))
  {
    hide Name, ValidDb, Known, NamesDiffer, ServedIn, Chain, Clearable, ConstraintNameTaken, NameMoves;
    assert KeyTaken(quiet, db0, db, key);
    if UniqueServed(db0, key.0, key.1) { ServedStays(db0, db, key); }
    if UniqueServed(db, key.0, key.1) {
      TrackedBacked(quiet, db0, db, keys, gone);
      ServedHasIndex(db, key);
    } else {
      var name := Name(NodeIndex(key.0, key.1));
      assert !KeyMoves(quiet, db0, key.0, key.1);
      if HeldByConstraint(db0, name) {
        var row :| row in db0.constraints && row.name == name;
        NamedBy(db.constraints, row);
      } else {
        assert !NameFreed(db0, gone, key.0, key.1);
        var row :| row in db0.indexes && row.name == name && !IsPlainIndexOn(row, key.0, key.1) && row !in gone;
        NamedBy(db.indexes, row);
      }
    }
  }

  function IndexRow(key: Key): Row { Row(Name(NodeIndex(key.0, key.1)), Range, Node, [key.0], [key.1], None) }

  function RelationshipRow(key: Key): Row { Row(Name(RelationshipIndex(key.0, key.1)), Range, Rel, [key.0], [key.1], None) }

  /** An index that the statements after the constraints create. */
  ghost predicate Added(row: Row, keys: set<Key>) {
    exists key: Key :: IsIdentifier(key.0) && IsIdentifier(key.1) && ((key !in keys && row == IndexRow(key)) || row == RelationshipRow(key))
  }

  /** Such indexes are added, none of them on one of the keys. */
  ghost predicate Extends(a: Db, b: Db, keys: set<Key>) {
    b.constraints == a.constraints && (forall row :: row in a.indexes ==> row in b.indexes)
    && forall row :: row in b.indexes && row !in a.indexes ==> Added(row, keys)
  }

  lemma AddedElsewhere(row: Row, keys: set<Key>, key: Key)
    requires Added(row, keys) && key in keys
    ensures !IsPlainIndexOn(row, key.0, key.1)
  {
    hide Name, IsIdentifier;
    var other: Key :| IsIdentifier(other.0) && IsIdentifier(other.1) && ((other !in keys && row == IndexRow(other)) || row == RelationshipRow(other));
    assert row.labels[0] == other.0 && row.properties[0] == other.1;
  }

  lemma InertStays(quiet: bool, a: Db, b: Db, keys: set<Key>, s: Statement)
    requires Extends(a, b, keys) && !s.DropIndex? && Inert(quiet, a, s)
    ensures Inert(quiet, b, s)
  {
    hide Name, Added;
    var name := Name(ObjectOf(s));
    if Named(a.indexes, name) { NamedStays(a.indexes, b.indexes, name); }
    match s {
      case CreateIndex(l, p) => if HasIndex(a, Node, l, [p]) { HasIndexStays(a, b, Node, l, [p]); }
      case CreateRelationshipIndex(t, p) => if HasIndex(a, Rel, t, [p]) { HasIndexStays(a, b, Rel, t, [p]); }
      case CreateConstraint(l, ps, _) => if HasIndex(a, Node, l, ps) { HasIndexStays(a, b, Node, l, ps); }
    }
  }

  /** The index a statement creates without a failure is there afterwards. */
  lemma IndexRun(st: St, oracle: Oracle, s: Statement, keys: set<Key>)
    requires s.CreateRelationshipIndex? || (s.CreateIndex? && (s.nodeLabel, s.property) !in keys)
    requires Accepted(ObjectOf(s)) && Execute(st, oracle, s).report.failed == []
    ensures st.report.failed == [] && Extends(st.db, Execute(st, oracle, s).db, keys) && Inert(oracle.quiet, Execute(st, oracle, s).db, s)
  {
    hide Name, Refuses, IsIdentifier, Added;
    ExecuteSucceeds(st, oracle, s);
    if !AlreadyThere(oracle.quiet, st.db, s) {
      var after := Execute(st, oracle, s).db;
      var row := after.indexes[|st.db.indexes|];
      assert row.name == Name(ObjectOf(s)) && row in after.indexes;
      NamedBy(after.indexes, row);
      CreatesAdded(st.db, s, keys);
    }
  }

  lemma CreatesAdded(db: Db, s: Statement, keys: set<Key>)
    requires s.CreateRelationshipIndex? || (s.CreateIndex? && (s.nodeLabel, s.property) !in keys)
    requires Accepted(ObjectOf(s))
    ensures Added(Effect(db, s).indexes[|db.indexes|], keys)
  {
    hide Name, IsIdentifier;
    var key := if s.CreateIndex? then (s.nodeLabel, s.property) else (s.relType, s.property);
    var row := Effect(db, s).indexes[|db.indexes|];
    assert row == if s.CreateIndex? then IndexRow(key) else RelationshipRow(key);
  }

  lemma {:induction false} TakeIndexesRest(st: St, oracle: Oracle, keys: seq<Key>)
    requires KeysAccepted(keys) && TakeIndexes(st, oracle, keys).report.failed == []
    ensures var after := TakeIndexes(st, oracle, keys);
            st.report.failed == [] && Extends(st.db, after.db, st.uniqueKeys) && after.uniqueKeys == st.uniqueKeys
            && forall key :: key in keys && (key !in st.uniqueKeys || Inert(oracle.quiet, st.db, CreateIndex(key.0, key.1))) ==>
                               Inert(oracle.quiet, after.db, CreateIndex(key.0, key.1))
    decreases |keys|
  {
    hide Execute, Inert, Added, IsIdentifier;
    if keys != [] {
      var key, next := keys[0], TakeIndex(st, oracle, keys[0]);
      var after := TakeIndexes(next, oracle, keys[1..]);
      if key !in st.uniqueKeys {
        ExecuteFrame(st, oracle, CreateIndex(key.0, key.1));
        IndexesFail(next, oracle, keys[1..]);
        SingleAccepted(key.0, key.1);
        IndexRun(st, oracle, CreateIndex(key.0, key.1), st.uniqueKeys);
      }
      TakeIndexesRest(next, oracle, keys[1..]);
      forall other | other in keys && (other !in st.uniqueKeys || Inert(oracle.quiet, st.db, CreateIndex(other.0, other.1)))
        ensures Inert(oracle.quiet, after.db, CreateIndex(other.0, other.1))
      {
        var s := CreateIndex(other.0, other.1);
        if Inert(oracle.quiet, st.db, s) { InertStays(oracle.quiet, st.db, next.db, st.uniqueKeys, s); }
        if Inert(oracle.quiet, next.db, s) { InertStays(oracle.quiet, next.db, after.db, st.uniqueKeys, s); }
        assert other == key || other in keys[1..];
      }
    }
  }

  lemma {:induction false} IndexesFail(st: St, oracle: Oracle, keys: seq<Key>)
    ensures TakeIndexes(st, oracle, keys).report.failed == [] ==> st.report.failed == []
    decreases |keys|
  {
    hide Execute;
    if keys != [] {
      FailsOn(st, oracle, CreateIndex(keys[0].0, keys[0].1));
      IndexesFail(TakeIndex(st, oracle, keys[0]), oracle, keys[1..]);
    }
  }

  lemma {:induction false} RelationshipIndexesFail(st: St, oracle: Oracle, keys: seq<Key>)
    ensures TakeRelationshipIndexes(st, oracle, keys).report.failed == [] ==> st.report.failed == []
    decreases |keys|
  {
    hide Execute;
    if keys != [] {
      var s := CreateRelationshipIndex(keys[0].0, keys[0].1);
      FailsOn(st, oracle, s);
      RelationshipIndexesFail(Execute(st, oracle, s), oracle, keys[1..]);
    }
  }

  lemma {:induction false} TakeRelationshipIndexesRest(st: St, oracle: Oracle, keys: seq<Key>)
    requires KeysAccepted(keys) && TakeRelationshipIndexes(st, oracle, keys).report.failed == []
    ensures var after := TakeRelationshipIndexes(st, oracle, keys);
            st.report.failed == [] && Extends(st.db, after.db, st.uniqueKeys)
            && forall key :: key in keys ==> Inert(oracle.quiet, after.db, CreateRelationshipIndex(key.0, key.1))
    decreases |keys|
  {
    hide Execute, Inert, Added, IsIdentifier;
    if keys != [] {
      var key := keys[0];
      var s := CreateRelationshipIndex(key.0, key.1);
      var next := Execute(st, oracle, s);
      var after := TakeRelationshipIndexes(next, oracle, keys[1..]);
      RelationshipIndexesFail(next, oracle, keys[1..]);
      ExecuteFrame(st, oracle, s);
      SingleAccepted(key.0, key.1);
      IndexRun(st, oracle, s, st.uniqueKeys);
      TakeRelationshipIndexesRest(next, oracle, keys[1..]);
      InertStays(oracle.quiet, next.db, after.db, st.uniqueKeys, s);
      assert forall other :: other in keys ==> other == key || other in keys[1..];
    }
  }

  /** No plain index is left on the constraint's key, unless a constraint serves it. */
  ghost predicate Bare(db: Db, c: ConstraintSpec) {
    IsSingleUnique(c) ==> UniqueServed(db, KeyOf(c).0, KeyOf(c).1) || !PlainServed(db, KeyOf(c).0, KeyOf(c).1)
  }

  /** A constraint whose statement is inert and for which nothing is dropped. */
  ghost predicate ConstraintRests(quiet: bool, db: Db, c: ConstraintSpec) { Inert(quiet, db, StatementOf(c)) && Bare(db, c) }

  /** No statement that a run of the plan issues can change the schema. */
  ghost predicate Rests(db: Db, oracle: Oracle, plan: Plan) {
    (forall c :: c in plan.constraints && Wanted(oracle, c) ==> ConstraintRests(oracle.quiet, db, c))
    && (forall key :: key in plan.indexes ==> Inert(oracle.quiet, db, CreateIndex(key.0, key.1)))
    && forall key :: key in plan.relationshipIndexes ==> Inert(oracle.quiet, db, CreateRelationshipIndex(key.0, key.1))
  }

  lemma BeginTracked(quiet: bool, db: Db)
    requires ValidDb(db)
    ensures Tracked(quiet, db, db, CoveredKeys(db.constraints), [])
  {
    hide CoveredKeys, UniqueServed, AllBacked;
    forall key: Key | UniqueServed(db, key.0, key.1) ensures key in CoveredKeys(db.constraints) { ServedCovered(db, key); }
    forall key: Key | key in CoveredKeys(db.constraints) ensures UniqueServed(db, key.0, key.1) { CoveredKeysServed(db, key.0, key.1); }
  }

  lemma ServedCovered(db: Db, key: Key)
    requires UniqueServed(db, key.0, key.1)
    ensures key in CoveredKeys(db.constraints)
  {
    var row :| row in db.constraints && CoversIndex(row.kind) && SameSchema(row, Node, key.0, [key.1]);
    var k :| 0 <= k < |db.constraints| && db.constraints[k] == row;
  }

  lemma StandsRests(quiet: bool, db0: Db, db: Db, keys: set<Key>, gone: seq<Row>, c: ConstraintSpec)
    requires ValidDb(db0) && Tracked(quiet, db0, db, keys, gone) && Stands(quiet, db0, db, keys, c) && SpecAccepted(c)
    requires !Movable(quiet, db0)
    ensures ConstraintRests(quiet, db, c)
  {
    hide Inert, ValidDb, Tracked, Stands, SpecAccepted, Movable, Bare;
    StandsInert(quiet, db0, db, keys, gone, c);
    StandsBare(quiet, db0, db, keys, gone, c);
  }

  lemma StandsBare(quiet: bool, db0: Db, db: Db, keys: set<Key>, gone: seq<Row>, c: ConstraintSpec)
    requires Tracked(quiet, db0, db, keys, gone) && Stands(quiet, db0, db, keys, c)
    ensures Bare(db, c)
  {
    hide Known, NamesDiffer, ServedIn, Gone, Clearable, ConstraintNameTaken, AlreadyThere, LosesName;
    if IsSingleUnique(c) {
      assert KeyTaken(quiet, db0, db, KeyOf(c));
      if UniqueServed(db0, KeyOf(c).0, KeyOf(c).1) { ServedStays(db0, db, KeyOf(c)); }
    }
  }

  lemma RestsStay(quiet: bool, a: Db, b: Db, keys: set<Key>, c: ConstraintSpec)
    requires Extends(a, b, keys) && ConstraintRests(quiet, a, c) && (IsSingleUnique(c) ==> KeyOf(c) in keys)
    ensures ConstraintRests(quiet, b, c)
  {
    hide Inert, IsPlainIndexOn, Added;
    InertStays(quiet, a, b, keys, StatementOf(c));
    if IsSingleUnique(c) { BareStays(a, b, keys, c); }
  }

  lemma BareStays(a: Db, b: Db, keys: set<Key>, c: ConstraintSpec)
    requires Extends(a, b, keys) && Bare(a, c) && IsSingleUnique(c) && KeyOf(c) in keys
    ensures Bare(b, c)
  {
    hide IsPlainIndexOn, Added;
    if UniqueServed(a, KeyOf(c).0, KeyOf(c).1) {
      assert UniqueServed(b, KeyOf(c).0, KeyOf(c).1);
    } else if PlainServed(b, KeyOf(c).0, KeyOf(c).1) {
      var row :| row in b.indexes && IsPlainIndexOn(row, KeyOf(c).0, KeyOf(c).1);
      assert row !in a.indexes;
      AddedElsewhere(row, keys, KeyOf(c));
    }
  }

  lemma ExtendsOn(a: Db, b: Db, c: Db, keys: set<Key>)
    requires Extends(a, b, keys) && Extends(b, c, keys)
    ensures Extends(a, c, keys)
  {
    hide Added;
  }

  /** A first run up to the end of its constraints. */
  function Constrained(db: Db, oracle: Oracle, plan: Plan): St {
    TakeConstraints(Begin(db, oracle), oracle, Some(db), plan, plan.constraints)
  }

  /** What the two halves of a first run without failures leave behind. */
  lemma FirstRunParts(db: Db, oracle: Oracle, plan: Plan) returns (gone: seq<Row>)
    requires ValidDb(db) && PlanAccepted(plan) && Ensure(db, oracle, plan).report.failed == []
    ensures var a, c := Constrained(db, oracle, plan), Ensure(db, oracle, plan);
            oracle.readable && a.report.failed == [] && Tracked(oracle.quiet, db, a.db, a.uniqueKeys, gone)
            && (forall spec :: spec in plan.constraints && Wanted(oracle, spec) ==>
                                 SpecAccepted(spec) && Stands(oracle.quiet, db, a.db, a.uniqueKeys, spec))
            && Extends(a.db, c.db, a.uniqueKeys)
            && (forall key :: key in plan.indexes && (key !in a.uniqueKeys || Inert(oracle.quiet, a.db, CreateIndex(key.0, key.1))) ==>
                                Inert(oracle.quiet, c.db, CreateIndex(key.0, key.1)))
            && forall key :: key in plan.relationshipIndexes ==> Inert(oracle.quiet, c.db, CreateRelationshipIndex(key.0, key.1))
  {
    hide ValidDb, Inert, Tracked, Stands, TakeConstraint, TakeIndex, Execute, CoveredKeys, Extends, IsIdentifier;
    Readable(db, oracle, plan);
    BeginTracked(oracle.quiet, db);
    var a := Constrained(db, oracle, plan);
    var b := TakeIndexes(a, oracle, plan.indexes);
    var c := TakeRelationshipIndexes(b, oracle, plan.relationshipIndexes);
    RelationshipIndexesFail(b, oracle, plan.relationshipIndexes);
    IndexesFail(a, oracle, plan.indexes);
    assert SpecsAccepted(plan.constraints);
    gone := TakeConstraintsTracked(db, Begin(db, oracle), oracle, plan, plan.constraints, []);
    forall spec | spec in plan.constraints && Wanted(oracle, spec)
      ensures SpecAccepted(spec) && Stands(oracle.quiet, db, a.db, a.uniqueKeys, spec)
    {
      var k :| 0 <= k < |plan.constraints| && plan.constraints[k] == spec;
      assert SpecAccepted(plan.constraints[k]);
    }
    TakeIndexesRest(a, oracle, plan.indexes);
    TakeRelationshipIndexesRest(b, oracle, plan.relationshipIndexes);
    ExtendsOn(a.db, b.db, c.db, a.uniqueKeys);
    forall key | key in plan.indexes && (key !in a.uniqueKeys || Inert(oracle.quiet, a.db, CreateIndex(key.0, key.1)))
      ensures Inert(oracle.quiet, c.db, CreateIndex(key.0, key.1))
    {
      InertStays(oracle.quiet, b.db, c.db, a.uniqueKeys, CreateIndex(key.0, key.1));
    }
  }

  /** A first run without failures rests, unless the schema is movable. */
  lemma FirstRunRests(db: Db, oracle: Oracle, plan: Plan)
    requires ValidDb(db) && PlanAccepted(plan) && !Movable(oracle.quiet, db)
    requires Ensure(db, oracle, plan).report.failed == []
    ensures Rests(Ensure(db, oracle, plan).db, oracle, plan)
  {
    hide ValidDb, Movable, Inert, Tracked, Stands, Constrained, Ensure, Extends, ConstraintRests, PlanAccepted, SpecAccepted;
    var gone := FirstRunParts(db, oracle, plan);
    var quiet, a, after := oracle.quiet, Constrained(db, oracle, plan), Ensure(db, oracle, plan);
    forall key | key in plan.indexes && key in a.uniqueKeys ensures Inert(quiet, a.db, CreateIndex(key.0, key.1)) {
      KeyInert(quiet, db, a.db, a.uniqueKeys, gone, key);
    }
    forall spec | spec in plan.constraints && Wanted(oracle, spec) ensures ConstraintRests(quiet, after.db, spec) {
      StandsRests(quiet, db, a.db, a.uniqueKeys, gone, spec);
      StandsKey(quiet, db, a.db, a.uniqueKeys, spec);
      RestsStay(quiet, a.db, after.db, a.uniqueKeys, spec);
    }
  }

  lemma StandsKey(quiet: bool, db0: Db, db: Db, keys: set<Key>, c: ConstraintSpec)
    requires Stands(quiet, db0, db, keys, c)
    ensures IsSingleUnique(c) ==> KeyOf(c) in keys
  {
    hide AlreadyThere, LosesName;
  }

  lemma Readable(db: Db, oracle: Oracle, plan: Plan)
    requires ValidDb(db) && PlanAccepted(plan) && Ensure(db, oracle, plan).report.failed == []
    ensures oracle.readable
  {
    hide Ensure, ValidDb, CoveredKeys;
    EnsureSteady(db, oracle, plan);
    NoFailureBefore(db, Begin(db, oracle), Ensure(db, oracle, plan));
  }

  // ----- a run over a schema that rests -----

  predicate NoDrops(report: Report) {
    (forall k :: 0 <= k < |report.applied| ==> !report.applied[k].DropIndex?)
    && (forall k :: 0 <= k < |report.failed| ==>
          !report.failed[k].RefusedName? && (report.failed[k].StatementFailed? ==> !report.failed[k].statement.DropIndex?))
  }

  /** The schema as it was, nothing dropped, and every key the schema covers known when it could be read. */
  ghost predicate Still(db: Db, oracle: Oracle, st: St) {
    st.db == db && NoDrops(st.report) && (oracle.readable ==> CoveredKeys(db.constraints) <= st.uniqueKeys)
  }

  lemma ExecuteStill(db: Db, oracle: Oracle, st: St, s: Statement)
    requires Still(db, oracle, st) && !s.DropIndex? && Inert(oracle.quiet, db, s)
    ensures Still(db, oracle, Execute(st, oracle, s)) && Execute(st, oracle, s).uniqueKeys == st.uniqueKeys
  {
    hide AlreadyThere, Refuses, CoveredKeys;
  }

  lemma TakeConstraintStill(db: Db, oracle: Oracle, st: St, plan: Plan, c: ConstraintSpec)
    requires Still(db, oracle, st) && (Wanted(oracle, c) ==> ConstraintRests(oracle.quiet, db, c))
    ensures Still(db, oracle, TakeConstraint(st, oracle, if oracle.readable then Some(db) else None, plan, c))
  {
    hide Execute, Inert, CoveredKeys, Held, PlainRows;
    var existing := if oracle.readable then Some(db) else None;
    if Wanted(oracle, c) {
      ExecuteStill(db, oracle, st, StatementOf(c));
      if IsSingleUnique(c) { NothingBlocks(db, oracle, st, c); }
      assert Blocking(st, existing, c) == [];
      NoRows(st, oracle);
    }
  }

  lemma NothingBlocks(db: Db, oracle: Oracle, st: St, c: ConstraintSpec)
    requires Still(db, oracle, st) && IsSingleUnique(c) && Bare(db, c)
    ensures oracle.readable ==> KeyOf(c) in st.uniqueKeys || PlainRows(db.indexes, c.nodeLabel, c.properties[0]) == []
  {
    hide CoveredKeys;
    if UniqueServed(db, KeyOf(c).0, KeyOf(c).1) { ServedCovered(db, KeyOf(c)); } else { NonePlain(db.indexes, KeyOf(c)); }
  }

  lemma {:induction false} NonePlain(rows: seq<Row>, key: Key)
    requires forall row :: row in rows ==> !IsPlainIndexOn(row, key.0, key.1)
    ensures PlainRows(rows, key.0, key.1) == []
    decreases |rows|
  {
    if rows != [] {
      assert rows[0] in rows;
      NonePlain(rows[1..], key);
    }
  }

  lemma {:induction false} TakeConstraintsStill(db: Db, oracle: Oracle, st: St, plan: Plan, cs: seq<ConstraintSpec>)
    requires Still(db, oracle, st)
    requires forall c :: c in cs && Wanted(oracle, c) ==> ConstraintRests(oracle.quiet, db, c)
    ensures Still(db, oracle, TakeConstraints(st, oracle, if oracle.readable then Some(db) else None, plan, cs))
    decreases |cs|
  {
    hide Still, TakeConstraint, ConstraintRests;
    if cs != [] {
      assert cs[0] in cs;
      TakeConstraintStill(db, oracle, st, plan, cs[0]);
      TakeConstraintsStill(db, oracle, TakeConstraint(st, oracle, if oracle.readable then Some(db) else None, plan, cs[0]), plan, cs[1..]);
    }
  }

  lemma {:induction false} TakeIndexesStill(db: Db, oracle: Oracle, st: St, keys: seq<Key>)
    requires Still(db, oracle, st)
    requires forall key :: key in keys ==> Inert(oracle.quiet, db, CreateIndex(key.0, key.1))
    ensures Still(db, oracle, TakeIndexes(st, oracle, keys))
    decreases |keys|
  {
    hide Inert, Execute, CoveredKeys;
    if keys != [] {
      assert keys[0] in keys;
      ExecuteStill(db, oracle, st, CreateIndex(keys[0].0, keys[0].1));
      TakeIndexesStill(db, oracle, TakeIndex(st, oracle, keys[0]), keys[1..]);
    }
  }

  lemma {:induction false} TakeRelationshipIndexesStill(db: Db, oracle: Oracle, st: St, keys: seq<Key>)
    requires Still(db, oracle, st)
    requires forall key :: key in keys ==> Inert(oracle.quiet, db, CreateRelationshipIndex(key.0, key.1))
    ensures Still(db, oracle, TakeRelationshipIndexes(st, oracle, keys))
    decreases |keys|
  {
    hide Inert, Execute, CoveredKeys;
    if keys != [] {
      assert keys[0] in keys;
      ExecuteStill(db, oracle, st, CreateRelationshipIndex(keys[0].0, keys[0].1));
      TakeRelationshipIndexesStill(db, oracle, Execute(st, oracle, CreateRelationshipIndex(keys[0].0, keys[0].1)), keys[1..]);
    }
  }

  lemma RestsStill(db: Db, oracle: Oracle, plan: Plan)
    requires Rests(db, oracle, plan)
    ensures Ensure(db, oracle, plan).db == db && NoDrops(Ensure(db, oracle, plan).report)
  {
    hide ConstraintRests, Inert, Execute, CoveredKeys;
    var begin := Begin(db, oracle);
    TakeConstraintsStill(db, oracle, begin, plan, plan.constraints);
    var a := TakeConstraints(begin, oracle, if oracle.readable then Some(db) else None, plan, plan.constraints);
    TakeIndexesStill(db, oracle, a, plan.indexes);
    TakeRelationshipIndexesStill(db, oracle, TakeIndexes(a, oracle, plan.indexes), plan.relationshipIndexes);
  }

  /** Two runs of one plan on the same server, the first without failures. */
  ghost predicate RunTwice(db: Db, plan: Plan, first: Oracle, second: Oracle) {
    PlanAccepted(plan) && Ensure(db, first, plan).report.failed == []
    && second.enterprise == first.enterprise && second.quiet == first.quiet
  }

  /** The second run leaves the schema as the first left it and drops nothing. */
  ghost predicate SecondStill(db: Db, plan: Plan, first: Oracle, second: Oracle) {
    var settled := Ensure(db, first, plan).db;
    Ensure(settled, second, plan).db == settled && NoDrops(Ensure(settled, second, plan).report)
  }

  /**
   * On a schema that is not movable a second run changes and drops nothing, whatever the plan and
   * however the second run's own statements, reads and counts fare.
   */
  lemma SecondRunStill(db: Db, plan: Plan, first: Oracle, second: Oracle)
    requires ValidDb(db) && RunTwice(db, plan, first, second) && !Movable(first.quiet, db)
    ensures SecondStill(db, plan, first, second)
  {
    hide Ensure, ValidDb, Movable, ConstraintRests, Inert;
    FirstRunRests(db, first, plan);
    RestsStill(Ensure(db, first, plan).db, second, plan);
  }
}
