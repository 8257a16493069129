/**
 * Schema reconciliation on Neo4j (packages/dt-module/src/schema.ts): `ensureSchema` against an
 * engine where any statement may fail, and what it keeps of the lookups served before.
 */
module SchemaReconcile {
  import opened Prelude
  import opened Ddl

  // ----- what SHOW lists -----

  datatype Entity = Node | Rel | OtherEntity

  datatype RowKind = Range | OtherIndex | Uniqueness | NodeUniqueness | NodeKey | Existence | OtherConstraint

  datatype Row = Row(name: string, kind: RowKind, entity: Entity, labels: seq<string>, properties: seq<string>, owner: Option<string>)

  datatype Db = Db(indexes: seq<Row>, constraints: seq<Row>)

  predicate SameSchema(row: Row, entity: Entity, labelOrType: string, properties: seq<string>) {
    row.entity == entity && row.labels == [labelOrType] && row.properties == properties
  }

  predicate IsPlainIndexOn(row: Row, l: string, p: string) {
    row.kind == Range && row.owner == None && SameSchema(row, Node, l, [p])
  }

  predicate CoversIndex(kind: RowKind) { kind == Uniqueness || kind == NodeUniqueness || kind == NodeKey }

  /** A listed name that may be used in a DROP. */
  predicate PlainName(name: string) {
    name != "" && (IsLetter(name[0]) || name[0] == '_') && forall k :: 0 <= k < |name| ==> IsAlnum(name[k]) || name[k] == '_'
  }

  ghost predicate PlainServed(db: Db, l: string, p: string) { exists row :: row in db.indexes && IsPlainIndexOn(row, l, p) }

  ghost predicate UniqueServed(db: Db, l: string, p: string) {
    exists row :: row in db.constraints && CoversIndex(row.kind) && SameSchema(row, Node, l, [p])
  }

  ghost predicate Served(db: Db, l: string, p: string) { PlainServed(db, l, p) || UniqueServed(db, l, p) }

  // ----- the engine -----

  datatype Statement =
    | CreateIndex(nodeLabel: string, property: string)
    | CreateRelationshipIndex(relType: string, property: string)
    | CreateConstraint(nodeLabel: string, properties: seq<string>, kind: ConstraintKind)
    | DropIndex(name: string)

  /** The object a CREATE names. */
  function ObjectOf(s: Statement): SchemaObject
    requires !s.DropIndex?
  {
    match s
    case CreateIndex(l, p) => NodeIndex(l, p)
    case CreateRelationshipIndex(t, p) => RelationshipIndex(t, p)
    case CreateConstraint(l, ps, kind) => Constraint(l, ps, kind)
  }

  predicate Named(rows: seq<Row>, name: string) { exists k :: 0 <= k < |rows| && rows[k].name == name }

  predicate HasIndex(db: Db, entity: Entity, labelOrType: string, ps: seq<string>) {
    exists k :: 0 <= k < |db.indexes| && db.indexes[k].kind == Range && SameSchema(db.indexes[k], entity, labelOrType, ps)
  }

  predicate HasConstraint(db: Db, kind: ConstraintKind, l: string, ps: seq<string>) {
    exists k :: 0 <= k < |db.constraints| && SameSchema(db.constraints[k], Node, l, ps)
      && if kind == Unique then db.constraints[k].kind == Uniqueness || db.constraints[k].kind == NodeUniqueness
         else db.constraints[k].kind == Existence
  }

  /** A CREATE finds an object of its own kind under its name, or an equal one. */
  predicate SameThere(db: Db, s: Statement)
    requires !s.DropIndex?
  {
    match s
    case CreateIndex(l, p) => Named(db.indexes, Name(ObjectOf(s))) || HasIndex(db, Node, l, [p])
    case CreateRelationshipIndex(t, p) => Named(db.indexes, Name(ObjectOf(s))) || HasIndex(db, Rel, t, [p])
    case CreateConstraint(l, ps, kind) => Named(db.constraints, Name(ObjectOf(s))) || HasConstraint(db, kind, l, ps)
  }

  /** The other kind of object holds the name of a CREATE. */
  predicate NameCrossed(db: Db, s: Statement)
    requires !s.DropIndex?
  {
    if s.CreateConstraint? then Named(db.indexes, Name(ObjectOf(s))) else Named(db.constraints, Name(ObjectOf(s)))
  }

  /**
   * IF NOT EXISTS makes a CREATE a no-op. Whether it also does where the other kind of object holds
   * the name is left to the engine: a quiet one says nothing, any other refuses.
   */
  predicate AlreadyThere(quiet: bool, db: Db, s: Statement)
    requires !s.DropIndex?
  {
    SameThere(db, s) || (quiet && NameCrossed(db, s))
  }

  /** An index in the way blocks a uniqueness constraint; an owned index cannot be dropped. */
  predicate Refuses(quiet: bool, db: Db, s: Statement) {
    match s
    case DropIndex(name) => exists k :: 0 <= k < |db.indexes| && db.indexes[k].name == name && db.indexes[k].owner.Some?
    case CreateConstraint(l, ps, kind) => (kind == Unique && HasIndex(db, Node, l, ps)) || (!quiet && NameCrossed(db, s))
    case _ => !quiet && NameCrossed(db, s)
  }

  function WithoutName(rows: seq<Row>, name: string): seq<Row> {
    if rows == [] then [] else (if rows[0].name == name then [] else [rows[0]]) + WithoutName(rows[1..], name)
  }

  function Effect(db: Db, s: Statement): Db {
    match s
    case DropIndex(name) => db.(indexes := WithoutName(db.indexes, name))
    case CreateIndex(l, p) => db.(indexes := db.indexes + [Row(Name(ObjectOf(s)), Range, Node, [l], [p], None)])
    case CreateRelationshipIndex(t, p) => db.(indexes := db.indexes + [Row(Name(ObjectOf(s)), Range, Rel, [t], [p], None)])
    case CreateConstraint(l, ps, Unique) =>
      Db(db.indexes + [Row(Name(ObjectOf(s)), Range, Node, [l], ps, Some(Name(ObjectOf(s))))],
         db.constraints + [Row(Name(ObjectOf(s)), Uniqueness, Node, [l], ps, None)])
    case CreateConstraint(l, ps, Exists) =>
      db.(constraints := db.constraints + [Row(Name(ObjectOf(s)), Existence, Node, [l], ps, None)])
  }

  /** One auto-commit statement; `ok` is whether anything else makes it fail. A failure leaves the schema as it was. */
  function Exec(quiet: bool, db: Db, s: Statement, ok: bool): (Db, bool) {
    if !ok then (db, false)
    else if !s.DropIndex? && AlreadyThere(quiet, db, s) then (db, true)
    else if Refuses(quiet, db, s) then (db, false)
    else (Effect(db, s), true)
  }

  // ----- the plan, the report and the state between statements -----

  datatype ConstraintSpec = ConstraintSpec(nodeLabel: string, properties: seq<string>, kind: ConstraintKind)

  type Key = (string, string)

  datatype Plan = Plan(indexes: seq<Key>, relationshipIndexes: seq<Key>, constraints: seq<ConstraintSpec>)

  predicate PlanAccepted(plan: Plan) {
    (forall k :: 0 <= k < |plan.constraints| ==>
       Accepted(Constraint(plan.constraints[k].nodeLabel, plan.constraints[k].properties, plan.constraints[k].kind)))
    && (forall k :: 0 <= k < |plan.indexes| ==> Accepted(NodeIndex(plan.indexes[k].0, plan.indexes[k].1)))
    && (forall k :: 0 <= k < |plan.relationshipIndexes| ==>
          Accepted(RelationshipIndex(plan.relationshipIndexes[k].0, plan.relationshipIndexes[k].1)))
  }

  datatype Failure = StatementFailed(statement: Statement) | NotRun(statement: Statement) | RefusedName(name: string) | ShowFailed

  datatype Skip = NeedsEnterprise(spec: ConstraintSpec) | CoveredByConstraint(key: Key)

  datatype Report = Report(applied: seq<Statement>, skipped: seq<Skip>, failed: seq<Failure>)

  /** How the engine will answer: the SHOW queries, the key counts, each statement in turn. */
  datatype Oracle = Oracle(enterprise: bool, quiet: bool, readable: bool, duplicated: nat -> Option<nat>, ok: nat -> bool)

  datatype St = St(db: Db, clock: nat, report: Report, uniqueKeys: set<Key>)

  function Execute(st: St, oracle: Oracle, s: Statement): St {
    var r := Exec(oracle.quiet, st.db, s, oracle.ok(st.clock));
    St(r.0, st.clock + 1,
       if r.1 then st.report.(applied := st.report.applied + [s])
       else st.report.(failed := st.report.failed + [StatementFailed(s)]),
       st.uniqueKeys)
  }

  function Fail(st: St, f: Failure): St { st.(report := st.report.(failed := st.report.failed + [f])) }

  function PlainRows(rows: seq<Row>, l: string, p: string): seq<Row> {
    if rows == [] then [] else (if IsPlainIndexOn(rows[0], l, p) then [rows[0]] else []) + PlainRows(rows[1..], l, p)
  }

  /** The indexes in the way, by the names they had when the schema was read. */
  function DropRows(st: St, oracle: Oracle, rows: seq<Row>): St
    decreases |rows|
  {
    if rows == [] then st
    else DropRows(if PlainName(rows[0].name) then Execute(st, oracle, DropIndex(rows[0].name)) else Fail(st, RefusedName(rows[0].name)),
                  oracle, rows[1..])
  }

  predicate AnyDroppable(rows: seq<Row>) { exists k :: 0 <= k < |rows| && PlainName(rows[k].name) }

  predicate Held(existing: Option<Db>, c: ConstraintSpec) {
    c.kind == Unique && existing.Some?
    && exists k :: 0 <= k < |existing.value.constraints| && CoversIndex(existing.value.constraints[k].kind)
                   && SameSchema(existing.value.constraints[k], Node, c.nodeLabel, c.properties)
  }

  predicate IsSingleUnique(c: ConstraintSpec) { c.kind == Unique && |c.properties| == 1 }

  function KeyOf(c: ConstraintSpec): Key
    requires IsSingleUnique(c)
  {
    (c.nodeLabel, c.properties[0])
  }

  function Blocking(st: St, existing: Option<Db>, c: ConstraintSpec): seq<Row> {
    if IsSingleUnique(c) && existing.Some? && KeyOf(c) !in st.uniqueKeys
    then PlainRows(existing.value.indexes, c.nodeLabel, c.properties[0])
    else []
  }

  function StatementOf(c: ConstraintSpec): Statement { CreateConstraint(c.nodeLabel, c.properties, c.kind) }

  /** One declared constraint. */
  function TakeConstraint(st: St, oracle: Oracle, existing: Option<Db>, plan: Plan, c: ConstraintSpec): St {
    if c.kind == Exists && !oracle.enterprise then st.(report := st.report.(skipped := st.report.skipped + [NeedsEnterprise(c)]))
    else if c.kind == Unique && !Held(existing, c) && oracle.duplicated(st.clock).Some? && oracle.duplicated(st.clock).value > 0
    then Fail(st.(clock := st.clock + 1), NotRun(StatementOf(c)))
    else
      var blocking := Blocking(st, existing, c);
      var cleared := DropRows(st, oracle, blocking);
      var created := Execute(cleared, oracle, StatementOf(c));
      if !IsSingleUnique(c) then created
      else if |created.report.failed| == |cleared.report.failed| then created.(uniqueKeys := created.uniqueKeys + {KeyOf(c)})
      else if AnyDroppable(blocking) && KeyOf(c) !in plan.indexes then Execute(created, oracle, CreateIndex(KeyOf(c).0, KeyOf(c).1))
      else created
  }

  function TakeConstraints(st: St, oracle: Oracle, existing: Option<Db>, plan: Plan, cs: seq<ConstraintSpec>): St
    decreases |cs|
  {
    if cs == [] then st else TakeConstraints(TakeConstraint(st, oracle, existing, plan, cs[0]), oracle, existing, plan, cs[1..])
  }

  function TakeIndex(st: St, oracle: Oracle, key: Key): St {
    if key in st.uniqueKeys then st.(report := st.report.(skipped := st.report.skipped + [CoveredByConstraint(key)]))
    else Execute(st, oracle, CreateIndex(key.0, key.1))
  }

  function TakeIndexes(st: St, oracle: Oracle, keys: seq<Key>): St
    decreases |keys|
  {
    if keys == [] then st else TakeIndexes(TakeIndex(st, oracle, keys[0]), oracle, keys[1..])
  }

  function TakeRelationshipIndexes(st: St, oracle: Oracle, keys: seq<Key>): St
    decreases |keys|
  {
    if keys == [] then st
    else TakeRelationshipIndexes(Execute(st, oracle, CreateRelationshipIndex(keys[0].0, keys[0].1)), oracle, keys[1..])
  }

  /** The single-property keys a listed constraint serves. */
  function CoveredKeys(rows: seq<Row>): set<Key> {
    set k | 0 <= k < |rows| && CoversIndex(rows[k].kind) && rows[k].entity == Node && |rows[k].labels| == 1 && |rows[k].properties| == 1
      :: (rows[k].labels[0], rows[k].properties[0])
  }

  const NO_REPORT := Report([], [], [])

  function Begin(db: Db, oracle: Oracle): St {
    if oracle.readable then St(db, 0, NO_REPORT, CoveredKeys(db.constraints)) else St(db, 0, NO_REPORT.(failed := [ShowFailed]), {})
  }

  /** The Neo4j branch of ensureSchema, for a plan whose identifiers are accepted. */
  function Ensure(db: Db, oracle: Oracle, plan: Plan): St {
    var existing := if oracle.readable then Some(db) else None;
    var a := TakeConstraints(Begin(db, oracle), oracle, existing, plan, plan.constraints);
    var b := TakeIndexes(a, oracle, plan.indexes);
    TakeRelationshipIndexes(b, oracle, plan.relationshipIndexes)
  }

  // ----- what holds of a listed schema -----

  /** Index names are unique, and a constraint's own index is backed by the constraint, both ways. */
  ghost predicate ValidDb(db: Db) {
    (forall a, b :: a in db.indexes && b in db.indexes && a.name == b.name ==> a == b)
    && (forall row, l, p :: row in db.indexes && row.kind == Range && row.owner.Some? && SameSchema(row, Node, l, [p]) ==>
          UniqueServed(db, l, p))
    && AllBacked(db)
  }

  /** A constraint that serves a key brings an index of its own. */
  ghost predicate Backed(db: Db, l: string, p: string) {
    exists row :: row in db.indexes && row.kind == Range && row.owner.Some? && SameSchema(row, Node, l, [p])
  }

  ghost predicate AllBacked(db: Db) { forall l, p :: UniqueServed(db, l, p) ==> Backed(db, l, p) }

  ghost predicate HeldByConstraint(db: Db, name: string) { exists row :: row in db.constraints && row.name == name }

  /** The name belongs to an index that is not a plain one on the key. */
  ghost predicate HeldByIndex(db: Db, name: string, l: string, p: string) {
    exists row :: row in db.indexes && !IsPlainIndexOn(row, l, p) && row.name == name
  }

  /** With the key's plain indexes gone, the constraint's name makes its CREATE do nothing. */
  ghost predicate ConstraintNameTaken(quiet: bool, db: Db, l: string, p: string) {
    var name := Name(Constraint(l, [p], Unique));
    HeldByConstraint(db, name) || (quiet && HeldByIndex(db, name, l, p))
  }

  /** With the key's plain indexes gone, the index's name makes its CREATE do nothing. */
  ghost predicate IndexNameTaken(quiet: bool, db: Db, l: string, p: string) {
    var name := Name(NodeIndex(l, p));
    HeldByIndex(db, name, l, p) || (quiet && HeldByConstraint(db, name))
  }

  /** No constraint serves the key, and every plain index on it can be dropped by its name. */
  ghost predicate Clearable(db: Db, l: string, p: string) {
    IsIdentifier(l) && IsIdentifier(p) && !UniqueServed(db, l, p)
    && forall row :: row in db.indexes && IsPlainIndexOn(row, l, p) ==> PlainName(row.name)
  }

  /**
   * When a plain index can be lost and nothing left to serve its key: it can be cleared away, and one
   * of the two names the code would use for the key belongs to something else.
   */
  ghost predicate Losable(quiet: bool, db: Db, l: string, p: string) {
    PlainServed(db, l, p) && Clearable(db, l, p) && (ConstraintNameTaken(quiet, db, l, p) || IndexNameTaken(quiet, db, l, p))
  }

  predicate FailedCreate(report: Report, l: string, p: string) { StatementFailed(CreateIndex(l, p)) in report.failed }

  // ----- small steps -----

  lemma {:induction false} WithoutNameMembers(rows: seq<Row>, name: string)
    ensures forall row :: row in WithoutName(rows, name) <==> row in rows && row.name != name
    decreases |rows|
  {
    if rows != [] { WithoutNameMembers(rows[1..], name); }
  }

  lemma {:induction false} PlainRowsMembers(rows: seq<Row>, l: string, p: string)
    ensures forall row :: row in PlainRows(rows, l, p) <==> row in rows && IsPlainIndexOn(row, l, p)
    decreases |rows|
  {
    if rows != [] { PlainRowsMembers(rows[1..], l, p); }
  }

  /** The statements a run issues: creations of accepted objects, drops of plain indexes listed at the start. */
  ghost predicate Issued(db0: Db, s: Statement) {
    if s.DropIndex? then
      exists row, l, p :: row in db0.indexes && row.name == s.name && PlainName(s.name)
                          && IsPlainIndexOn(row, l, p) && IsIdentifier(l) && IsIdentifier(p)
    else Accepted(ObjectOf(s))
  }

  /** A plain index that no run can name in a DROP. */
  ghost predicate OutOfReach(db0: Db, row: Row) {
    row in db0.indexes && (PlainName(row.name) ==>
      forall l, p :: IsPlainIndexOn(row, l, p) ==> !(IsIdentifier(l) && IsIdentifier(p)))
  }

  /** Constraints and reported failures stay, and so do the indexes out of reach. */
  ghost predicate Steady(db0: Db, a: St, b: St) {
    (forall row :: row in a.db.constraints ==> row in b.db.constraints)
    && (forall f :: f in a.report.failed ==> f in b.report.failed)
    && (forall row :: row in a.db.indexes && OutOfReach(db0, row) ==> row in b.db.indexes)
  }

  lemma ExecuteSteady(db0: Db, st: St, oracle: Oracle, s: Statement)
    requires ValidDb(db0) && Issued(db0, s)
    ensures Steady(db0, st, Execute(st, oracle, s))
  {
    if s.DropIndex? {
      WithoutNameMembers(st.db.indexes, s.name);
    }
  }

  lemma {:induction false} DropRowsSteady(db0: Db, st: St, oracle: Oracle, rows: seq<Row>, l: string, p: string)
    requires ValidDb(db0) && IsIdentifier(l) && IsIdentifier(p)
    requires forall row :: row in rows ==> row in db0.indexes && IsPlainIndexOn(row, l, p)
    ensures Steady(db0, st, DropRows(st, oracle, rows))
    decreases |rows|
  {
    hide ValidDb, IsIdentifier, IsPlainIndexOn, PlainName, Execute;
    if rows != [] {
      var row := rows[0];
      assert row in rows;
      var next := if PlainName(row.name) then Execute(st, oracle, DropIndex(row.name)) else Fail(st, RefusedName(row.name));
      if PlainName(row.name) { ExecuteSteady(db0, st, oracle, DropIndex(row.name)); }
      DropRowsSteady(db0, next, oracle, rows[1..], l, p);
    }
  }

  /** The snapshot a run reads is the schema it started from. */
  predicate Snapshot(db0: Db, existing: Option<Db>) { existing.Some? ==> existing.value == db0 }

  predicate SpecAccepted(c: ConstraintSpec) { Accepted(Constraint(c.nodeLabel, c.properties, c.kind)) }

  lemma BlockingRows(db0: Db, st: St, existing: Option<Db>, c: ConstraintSpec)
    requires Snapshot(db0, existing) && SpecAccepted(c)
    ensures Blocking(st, existing, c) != [] ==> IsSingleUnique(c) && IsIdentifier(c.nodeLabel) && IsIdentifier(c.properties[0])
                                                && existing == Some(db0) && KeyOf(c) !in st.uniqueKeys
    ensures forall row :: row in Blocking(st, existing, c) ==>
              row in db0.indexes && IsPlainIndexOn(row, c.nodeLabel, c.properties[0])
  {
    if existing.Some? && IsSingleUnique(c) { PlainRowsMembers(db0.indexes, c.nodeLabel, c.properties[0]); }
  }

  lemma TakeConstraintSteady(db0: Db, st: St, oracle: Oracle, existing: Option<Db>, plan: Plan, c: ConstraintSpec)
    requires ValidDb(db0) && Snapshot(db0, existing) && SpecAccepted(c)
    ensures Steady(db0, st, TakeConstraint(st, oracle, existing, plan, c))
  {
    hide ValidDb, IsPlainIndexOn, PlainName, Execute, Blocking, Held, OutOfReach;
    var blocking := Blocking(st, existing, c);
    var cleared := DropRows(st, oracle, blocking);
    BlockingRows(db0, st, existing, c);
    if blocking != [] { DropRowsSteady(db0, st, oracle, blocking, c.nodeLabel, c.properties[0]); }
    ExecuteSteady(db0, cleared, oracle, StatementOf(c));
    var created := Execute(cleared, oracle, StatementOf(c));
    if IsSingleUnique(c) {
      ExecuteSteady(db0, created, oracle, CreateIndex(KeyOf(c).0, KeyOf(c).1));
    }
  }

  predicate SpecsAccepted(cs: seq<ConstraintSpec>) { forall k :: 0 <= k < |cs| ==> SpecAccepted(cs[k]) }

  predicate KeysAccepted(keys: seq<Key>) { forall k :: 0 <= k < |keys| ==> IsIdentifier(keys[k].0) && IsIdentifier(keys[k].1) }

  lemma {:induction false} TakeConstraintsSteady(db0: Db, st: St, oracle: Oracle, existing: Option<Db>,
          plan: Plan, cs: seq<ConstraintSpec>)
    requires ValidDb(db0) && Snapshot(db0, existing) && SpecsAccepted(cs)
    ensures Steady(db0, st, TakeConstraints(st, oracle, existing, plan, cs))
    decreases |cs|
  {
    hide ValidDb, TakeConstraint, OutOfReach, SpecAccepted;
    if cs != [] {
      TakeConstraintSteady(db0, st, oracle, existing, plan, cs[0]);
      TakeConstraintsSteady(db0, TakeConstraint(st, oracle, existing, plan, cs[0]), oracle, existing, plan, cs[1..]);
    }
  }

  lemma {:induction false} TakeIndexesSteady(db0: Db, st: St, oracle: Oracle, keys: seq<Key>)
    requires ValidDb(db0) && KeysAccepted(keys)
    ensures Steady(db0, st, TakeIndexes(st, oracle, keys))
    decreases |keys|
  {
    hide ValidDb, Execute, OutOfReach;
    if keys != [] {
      if keys[0] !in st.uniqueKeys { ExecuteSteady(db0, st, oracle, CreateIndex(keys[0].0, keys[0].1)); }
      TakeIndexesSteady(db0, TakeIndex(st, oracle, keys[0]), oracle, keys[1..]);
    }
  }

  lemma {:induction false} TakeRelationshipIndexesSteady(db0: Db, st: St, oracle: Oracle, keys: seq<Key>)
    requires ValidDb(db0) && KeysAccepted(keys)
    ensures Steady(db0, st, TakeRelationshipIndexes(st, oracle, keys))
    decreases |keys|
  {
    hide ValidDb, Execute, OutOfReach;
    if keys != [] {
      var s := CreateRelationshipIndex(keys[0].0, keys[0].1);
      ExecuteSteady(db0, st, oracle, s);
      TakeRelationshipIndexesSteady(db0, Execute(st, oracle, s), oracle, keys[1..]);
    }
  }

  lemma EnsureSteady(db: Db, oracle: Oracle, plan: Plan)
    requires ValidDb(db) && PlanAccepted(plan)
    ensures Steady(db, Begin(db, oracle), Ensure(db, oracle, plan))
  {
    hide ValidDb, Execute, OutOfReach, CoveredKeys;
    var existing := if oracle.readable then Some(db) else None;
    var a := TakeConstraints(Begin(db, oracle), oracle, existing, plan, plan.constraints);
    TakeConstraintsSteady(db, Begin(db, oracle), oracle, existing, plan, plan.constraints);
    TakeIndexesSteady(db, a, oracle, plan.indexes);
    TakeRelationshipIndexesSteady(db, TakeIndexes(a, oracle, plan.indexes), oracle, plan.relationshipIndexes);
  }

  // ----- a key whose names are its own -----

  /** Both names the code uses for the key mean the key, and each index on the key can be told by its name. */
  ghost predicate NamesHonest(quiet: bool, db0: Db, db: Db, l: string, p: string) {
    (forall row :: row in db.indexes && row.name == Name(NodeIndex(l, p)) ==> IsPlainIndexOn(row, l, p))
    && (quiet ==> forall row :: row in db.constraints ==> row.name != Name(NodeIndex(l, p)))
    && (quiet ==> forall row :: row in db.indexes && row.name == Name(Constraint(l, [p], Unique)) ==>
          UniqueServed(db, l, p) || IsPlainIndexOn(row, l, p))
    && (forall row :: row in db.constraints && row.name == Name(Constraint(l, [p], Unique)) ==> UniqueServed(db, l, p))
    && (forall row :: row in db.indexes && IsPlainIndexOn(row, l, p) ==> row in db0.indexes || row.name == Name(NodeIndex(l, p)))
    && (forall row :: row in db.indexes && row.kind == Range && row.owner.Some? && SameSchema(row, Node, l, [p]) ==> UniqueServed(db, l, p))
  }

  ghost predicate HonestAtStart(quiet: bool, db0: Db, l: string, p: string) {
    ValidDb(db0) && IsIdentifier(l) && IsIdentifier(p) && NamesHonest(quiet, db0, db0, l, p)
  }

  lemma ExecuteHonest(db0: Db, st: St, oracle: Oracle, s: Statement, l: string, p: string)
    requires HonestAtStart(oracle.quiet, db0, l, p) && NamesHonest(oracle.quiet, db0, st.db, l, p) && Issued(db0, s)
    ensures NamesHonest(oracle.quiet, db0, Execute(st, oracle, s).db, l, p)
  {
    hide Name, Accepted, IsIdentifier, AlreadyThere, Refuses;
    if s.DropIndex? {
      WithoutNameMembers(st.db.indexes, s.name);
    } else {
      assert Accepted(NodeIndex(l, p)) && Accepted(Constraint(l, [p], Unique)) by { SingleAccepted(l, p); }
      NameClash(ObjectOf(s), NodeIndex(l, p));
      NameClash(ObjectOf(s), Constraint(l, [p], Unique));
      EffectHonest(oracle.quiet, db0, st.db, s, l, p);
    }
  }

  lemma SingleAccepted(l: string, p: string)
    requires IsIdentifier(l) && IsIdentifier(p)
    ensures Accepted(NodeIndex(l, p)) && Accepted(Constraint(l, [p], Unique)) && Accepted(RelationshipIndex(l, p))
  {
    hide IsIdentifier;
  }

  lemma NameClash(a: SchemaObject, b: SchemaObject)
    requires Accepted(a) && Accepted(b)
    ensures Name(a) == Name(b) ==> a == b
  {
    if Name(a) == Name(b) { NamesUnambiguous(a, b); }
  }

  lemma EffectHonest(quiet: bool, db0: Db, db: Db, s: Statement, l: string, p: string)
    requires NamesHonest(quiet, db0, db, l, p) && !s.DropIndex?
    requires Name(ObjectOf(s)) == Name(NodeIndex(l, p)) ==> ObjectOf(s) == NodeIndex(l, p)
    requires Name(ObjectOf(s)) == Name(Constraint(l, [p], Unique)) ==> ObjectOf(s) == Constraint(l, [p], Unique)
    ensures NamesHonest(quiet, db0, Effect(db, s), l, p)
  {
    hide Name;
    var after := Effect(db, s);
    assert UniqueServed(db, l, p) ==> UniqueServed(after, l, p) by {
      if UniqueServed(db, l, p) {
        var row :| row in db.constraints && CoversIndex(row.kind) && SameSchema(row, Node, l, [p]);
        assert row in after.constraints;
      }
    }
    if s == CreateConstraint(l, [p], Unique) {
      var row := Row(Name(ObjectOf(s)), Uniqueness, Node, [l], [p], None);
      assert row in after.constraints;
      assert UniqueServed(after, l, p);
    }
    assert !UniqueServed(after, l, p) ==>
        forall row :: row in after.indexes && row.owner.Some? && SameSchema(row, Node, l, [p]) ==> row in db.indexes;
  }

  /** Creating the plain index, when it succeeds, leaves the key served. */
  lemma CreateIndexServes(db0: Db, st: St, oracle: Oracle, l: string, p: string)
    requires NamesHonest(oracle.quiet, db0, st.db, l, p)
    ensures var after := Execute(st, oracle, CreateIndex(l, p));
            Served(after.db, l, p) || FailedCreate(after.report, l, p)
  {
    hide Name;
    var s := CreateIndex(l, p);
    var after := Execute(st, oracle, s);
    if Exec(oracle.quiet, st.db, s, oracle.ok(st.clock)).1 {
      if AlreadyThere(oracle.quiet, st.db, s) {
        if Named(st.db.indexes, Name(ObjectOf(s))) {
          var k :| 0 <= k < |st.db.indexes| && st.db.indexes[k].name == Name(ObjectOf(s));
          assert st.db.indexes[k] in st.db.indexes;
        } else if HasIndex(st.db, Node, l, [p]) {
          var k :| 0 <= k < |st.db.indexes| && st.db.indexes[k].kind == Range && SameSchema(st.db.indexes[k], Node, l, [p]);
          assert st.db.indexes[k] in st.db.indexes;
        }
      } else {
        assert Row(Name(ObjectOf(s)), Range, Node, [l], [p], None) in after.db.indexes;
      }
    }
  }

  /** Creating the constraint, when it succeeds, leaves the key served. */
  lemma CreateConstraintServes(db0: Db, st: St, oracle: Oracle, l: string, p: string)
    requires NamesHonest(oracle.quiet, db0, st.db, l, p)
    ensures var s := CreateConstraint(l, [p], Unique);
            Exec(oracle.quiet, st.db, s, oracle.ok(st.clock)).1 ==> Served(Exec(oracle.quiet, st.db, s, oracle.ok(st.clock)).0, l, p)
  {
    hide Name;
    var s := CreateConstraint(l, [p], Unique);
    var r := Exec(oracle.quiet, st.db, s, oracle.ok(st.clock));
    if r.1 {
      if AlreadyThere(oracle.quiet, st.db, s) {
        if Named(st.db.indexes, Name(ObjectOf(s))) {
          var k :| 0 <= k < |st.db.indexes| && st.db.indexes[k].name == Name(ObjectOf(s));
          assert st.db.indexes[k] in st.db.indexes;
        } else if Named(st.db.constraints, Name(ObjectOf(s))) {
          var k :| 0 <= k < |st.db.constraints| && st.db.constraints[k].name == Name(ObjectOf(s));
          assert st.db.constraints[k] in st.db.constraints;
        } else {
          var k :| 0 <= k < |st.db.constraints| && SameSchema(st.db.constraints[k], Node, l, [p])
            && (st.db.constraints[k].kind == Uniqueness || st.db.constraints[k].kind == NodeUniqueness);
          assert st.db.constraints[k] in st.db.constraints;
        }
      } else {
        assert Row(Name(ObjectOf(s)), Uniqueness, Node, [l], [p], None) in r.0.constraints;
      }
    }
  }

  /** What holds of the key between constraints; `pending` is whether its plain index is still to come. */
  ghost predicate Kept(quiet: bool, db0: Db, st: St, l: string, p: string, pending: bool) {
    NamesHonest(quiet, db0, st.db, l, p) && ((l, p) in st.uniqueKeys ==> Served(st.db, l, p))
    && (Served(st.db, l, p) || FailedCreate(st.report, l, p) || pending)
  }

  lemma UniqueStays(db0: Db, a: St, b: St, l: string, p: string)
    requires Steady(db0, a, b)
    ensures UniqueServed(a.db, l, p) ==> UniqueServed(b.db, l, p)
    ensures FailedCreate(a.report, l, p) ==> FailedCreate(b.report, l, p)
  {
    if UniqueServed(a.db, l, p) {
      var row :| row in a.db.constraints && CoversIndex(row.kind) && SameSchema(row, Node, l, [p]);
      assert row in b.db.constraints;
    }
  }

  /** A statement that is not a drop of one of the key's own indexes keeps the key. */
  lemma ExecuteKept(db0: Db, st: St, oracle: Oracle, s: Statement, l: string, p: string, pending: bool)
    requires HonestAtStart(oracle.quiet, db0, l, p) && Kept(oracle.quiet, db0, st, l, p, pending) && Issued(db0, s)
    requires s.DropIndex? ==> exists row :: row in db0.indexes && row.name == s.name && !IsPlainIndexOn(row, l, p)
    ensures Kept(oracle.quiet, db0, Execute(st, oracle, s), l, p, pending)
  {
    hide Name, Accepted, IsIdentifier, AlreadyThere, Refuses;
    ExecuteHonest(db0, st, oracle, s, l, p);
    ExecuteSteady(db0, st, oracle, s);
    UniqueStays(db0, st, Execute(st, oracle, s), l, p);
    if PlainServed(st.db, l, p) {
      var row :| row in st.db.indexes && IsPlainIndexOn(row, l, p);
      if s.DropIndex? {
        WithoutNameMembers(st.db.indexes, s.name);
        var other :| other in db0.indexes && other.name == s.name && !IsPlainIndexOn(other, l, p);
        assert row.name != s.name;
      }
      assert row in Execute(st, oracle, s).db.indexes;
    }
  }

  lemma {:induction false} DropRowsKept(db0: Db, st: St, oracle: Oracle, rows: seq<Row>, kl: string,
          kp: string, l: string, p: string, pending: bool)
    requires HonestAtStart(oracle.quiet, db0, l, p) && Kept(oracle.quiet, db0, st, l, p, pending) && IsIdentifier(kl) && IsIdentifier(kp)
    requires forall row :: row in rows ==> row in db0.indexes && IsPlainIndexOn(row, kl, kp)
    requires (kl, kp) != (l, p)
    ensures Kept(oracle.quiet, db0, DropRows(st, oracle, rows), l, p, pending)
    decreases |rows|
  {
    hide HonestAtStart, IsIdentifier, PlainName, Execute, NamesHonest;
    if rows != [] {
      var row := rows[0];
      assert row in rows && !IsPlainIndexOn(row, l, p);
      var next := if PlainName(row.name) then Execute(st, oracle, DropIndex(row.name)) else Fail(st, RefusedName(row.name));
      if PlainName(row.name) { ExecuteKept(db0, st, oracle, DropIndex(row.name), l, p, pending); }
      DropRowsKept(db0, next, oracle, rows[1..], kl, kp, l, p, pending);
    }
  }

  lemma {:induction false} DropRowsHonest(db0: Db, st: St, oracle: Oracle, rows: seq<Row>, l: string, p: string)
    requires HonestAtStart(oracle.quiet, db0, l, p) && NamesHonest(oracle.quiet, db0, st.db, l, p)
    requires forall row :: row in rows ==> row in db0.indexes && IsPlainIndexOn(row, l, p)
    ensures NamesHonest(oracle.quiet, db0, DropRows(st, oracle, rows).db, l, p)
    ensures DropRows(st, oracle, rows).uniqueKeys == st.uniqueKeys
    ensures !AnyDroppable(rows) ==> DropRows(st, oracle, rows).db == st.db
    decreases |rows|
  {
    hide PlainName, Execute, NamesHonest, ValidDb, IsIdentifier;
    if rows != [] {
      var row := rows[0];
      assert row in rows;
      var next := if PlainName(row.name) then Execute(st, oracle, DropIndex(row.name)) else Fail(st, RefusedName(row.name));
      if PlainName(row.name) {
        ExecuteHonest(db0, st, oracle, DropIndex(row.name), l, p);
        ExecuteFrame(st, oracle, DropIndex(row.name));
      }
      DropRowsHonest(db0, next, oracle, rows[1..], l, p);
      assert !AnyDroppable(rows) ==> !AnyDroppable(rows[1..]) && !PlainName(row.name);
    }
  }

  lemma ExecuteFrame(st: St, oracle: Oracle, s: Statement)
    ensures Execute(st, oracle, s).uniqueKeys == st.uniqueKeys
    ensures |Execute(st, oracle, s).report.failed| == |st.report.failed| <==> Exec(oracle.quiet, st.db, s, oracle.ok(st.clock)).1
    ensures Execute(st, oracle, s).db == Exec(oracle.quiet, st.db, s, oracle.ok(st.clock)).0
    ensures !Exec(oracle.quiet, st.db, s, oracle.ok(st.clock)).1 ==> Execute(st, oracle, s).db == st.db
  {
  }

  /** A constraint on the key itself: served by it, by the index left or put back, or reported. */
  lemma OwnConstraintKept(db0: Db, st: St, oracle: Oracle, existing: Option<Db>, plan: Plan, c: ConstraintSpec,
          l: string, p: string, pending: bool)
    requires HonestAtStart(oracle.quiet, db0, l, p) && Snapshot(db0, existing) && SpecAccepted(c) && IsSingleUnique(c) && KeyOf(c) == (l, p)
    requires Kept(oracle.quiet, db0, st, l, p, pending) && (pending <==> (l, p) in plan.indexes)
    ensures Kept(oracle.quiet, db0, TakeConstraint(st, oracle, existing, plan, c), l, p, pending)
  {
    hide Name, IsIdentifier, Execute, Exec, NamesHonest, ValidDb, PlainName, Held, Blocking, Accepted;
    var blocking := Blocking(st, existing, c);
    var cleared := DropRows(st, oracle, blocking);
    var s := StatementOf(c);
    var created := Execute(cleared, oracle, s);
    assert c.properties == [p] && s == CreateConstraint(l, [p], Unique);
    BlockingRows(db0, st, existing, c);
    DropRowsHonest(db0, st, oracle, blocking, l, p);
    DropRowsSteady(db0, st, oracle, blocking, l, p);
    UniqueStays(db0, st, cleared, l, p);
    ExecuteHonest(db0, cleared, oracle, s, l, p);
    ExecuteSteady(db0, cleared, oracle, s);
    UniqueStays(db0, cleared, created, l, p);
    CreateConstraintServes(db0, cleared, oracle, l, p);
    ExecuteFrame(cleared, oracle, s);
    if blocking == [] {
      ExecuteKept(db0, st, oracle, s, l, p, pending);
    }
    if |created.report.failed| != |cleared.report.failed| && AnyDroppable(blocking) && KeyOf(c) !in plan.indexes {
      var put := CreateIndex(l, p);
      assert Issued(db0, put) by { SingleAccepted(l, p); }
      CreateIndexServes(db0, created, oracle, l, p);
      ExecuteHonest(db0, created, oracle, put, l, p);
      ExecuteSteady(db0, created, oracle, put);
      UniqueStays(db0, created, Execute(created, oracle, put), l, p);
      ExecuteFrame(created, oracle, put);
    }
  }

  lemma TakeConstraintKept(db0: Db, st: St, oracle: Oracle, existing: Option<Db>, plan: Plan,
          c: ConstraintSpec, l: string, p: string, pending: bool)
    requires HonestAtStart(oracle.quiet, db0, l, p) && Snapshot(db0, existing) && SpecAccepted(c)
    requires Kept(oracle.quiet, db0, st, l, p, pending) && (pending <==> (l, p) in plan.indexes)
    ensures Kept(oracle.quiet, db0, TakeConstraint(st, oracle, existing, plan, c), l, p, pending)
  {
    if IsSingleUnique(c) && KeyOf(c) == (l, p) {
      OwnConstraintKept(db0, st, oracle, existing, plan, c, l, p, pending);
    } else {
      OtherConstraintKept(db0, st, oracle, existing, plan, c, l, p, pending);
    }
  }

  lemma OtherConstraintKept(db0: Db, st: St, oracle: Oracle, existing: Option<Db>, plan: Plan,
          c: ConstraintSpec, l: string, p: string, pending: bool)
    requires HonestAtStart(oracle.quiet, db0, l, p) && Snapshot(db0, existing) && SpecAccepted(c)
    requires Kept(oracle.quiet, db0, st, l, p, pending) && (IsSingleUnique(c) ==> KeyOf(c) != (l, p))
    ensures Kept(oracle.quiet, db0, TakeConstraint(st, oracle, existing, plan, c), l, p, pending)
  {
    hide Name, IsIdentifier, Execute, NamesHonest, HonestAtStart, PlainName, Held, Blocking, AnyDroppable;
    var blocking := Blocking(st, existing, c);
    var cleared := DropRows(st, oracle, blocking);
    BlockingRows(db0, st, existing, c);
    if blocking != [] { DropRowsKept(db0, st, oracle, blocking, c.nodeLabel, c.properties[0], l, p, pending); }
    ExecuteKept(db0, cleared, oracle, StatementOf(c), l, p, pending);
    var created := Execute(cleared, oracle, StatementOf(c));
    if IsSingleUnique(c) {
      ExecuteKept(db0, created, oracle, CreateIndex(KeyOf(c).0, KeyOf(c).1), l, p, pending);
    }
  }

  lemma {:induction false} TakeConstraintsKept(db0: Db, st: St, oracle: Oracle, existing: Option<Db>,
          plan: Plan, cs: seq<ConstraintSpec>, l: string, p: string, pending: bool)
    requires HonestAtStart(oracle.quiet, db0, l, p) && Snapshot(db0, existing) && SpecsAccepted(cs)
    requires Kept(oracle.quiet, db0, st, l, p, pending) && (pending <==> (l, p) in plan.indexes)
    ensures Kept(oracle.quiet, db0, TakeConstraints(st, oracle, existing, plan, cs), l, p, pending)
    decreases |cs|
  {
    hide HonestAtStart, Kept, TakeConstraint, SpecAccepted;
    if cs != [] {
      TakeConstraintKept(db0, st, oracle, existing, plan, cs[0], l, p, pending);
      TakeConstraintsKept(db0, TakeConstraint(st, oracle, existing, plan, cs[0]), oracle, existing, plan, cs[1..], l, p, pending);
    }
  }

  lemma {:induction false} TakeIndexesKept(db0: Db, st: St, oracle: Oracle, keys: seq<Key>, l: string, p: string)
    requires HonestAtStart(oracle.quiet, db0, l, p) && KeysAccepted(keys)
    requires Kept(oracle.quiet, db0, st, l, p, (l, p) in keys)
    ensures Kept(oracle.quiet, db0, TakeIndexes(st, oracle, keys), l, p, false)
    decreases |keys|
  {
    hide HonestAtStart, NamesHonest, Execute, IsIdentifier;
    if keys != [] {
      var key := keys[0];
      var next := TakeIndex(st, oracle, key);
      var later := (l, p) in keys[1..];
      if key !in st.uniqueKeys {
        assert Issued(db0, CreateIndex(key.0, key.1)) by { SingleAccepted(key.0, key.1); }
        ExecuteKept(db0, st, oracle, CreateIndex(key.0, key.1), l, p, (l, p) in keys);
        if key == (l, p) { CreateIndexServes(db0, st, oracle, l, p); }
      }
      assert (l, p) in keys ==> key == (l, p) || later;
      assert Kept(oracle.quiet, db0, next, l, p, later);
      TakeIndexesKept(db0, next, oracle, keys[1..], l, p);
    }
  }

  lemma {:induction false} TakeRelationshipIndexesKept(db0: Db, st: St, oracle: Oracle, keys: seq<Key>, l: string, p: string)
    requires HonestAtStart(oracle.quiet, db0, l, p) && KeysAccepted(keys) && Kept(oracle.quiet, db0, st, l, p, false)
    ensures Kept(oracle.quiet, db0, TakeRelationshipIndexes(st, oracle, keys), l, p, false)
    decreases |keys|
  {
    hide HonestAtStart, Kept, Execute, IsIdentifier;
    if keys != [] {
      var s := CreateRelationshipIndex(keys[0].0, keys[0].1);
      assert Issued(db0, s) by { SingleAccepted(keys[0].0, keys[0].1); }
      ExecuteKept(db0, st, oracle, s, l, p, false);
      TakeRelationshipIndexesKept(db0, Execute(st, oracle, s), oracle, keys[1..], l, p);
    }
  }

  // ----- the main theorem, both ways -----

  lemma CoveredKeysServed(db: Db, l: string, p: string)
    requires (l, p) in CoveredKeys(db.constraints)
    ensures UniqueServed(db, l, p)
  {
    var k :| 0 <= k < |db.constraints| && CoversIndex(db.constraints[k].kind) && db.constraints[k].entity == Node
      && |db.constraints[k].labels| == 1 && |db.constraints[k].properties| == 1
      && (db.constraints[k].labels[0], db.constraints[k].properties[0]) == (l, p);
    assert db.constraints[k] in db.constraints && SameSchema(db.constraints[k], Node, l, [p]);
  }

  lemma HonestKept(db: Db, oracle: Oracle, plan: Plan, l: string, p: string)
    requires HonestAtStart(oracle.quiet, db, l, p) && PlainServed(db, l, p) && PlanAccepted(plan)
    ensures var after := Ensure(db, oracle, plan);
            Served(after.db, l, p) || FailedCreate(after.report, l, p)
  {
    hide ValidDb, NamesHonest, IsIdentifier, CoveredKeys;
    var existing := if oracle.readable then Some(db) else None;
    var begin := Begin(db, oracle);
    if (l, p) in CoveredKeys(db.constraints) { CoveredKeysServed(db, l, p); }
    assert NamesHonest(oracle.quiet, db, db, l, p);
    var pending := (l, p) in plan.indexes;
    TakeConstraintsKept(db, begin, oracle, existing, plan, plan.constraints, l, p, pending);
    var a := TakeConstraints(begin, oracle, existing, plan, plan.constraints);
    TakeIndexesKept(db, a, oracle, plan.indexes, l, p);
    TakeRelationshipIndexesKept(db, TakeIndexes(a, oracle, plan.indexes), oracle, plan.relationshipIndexes, l, p);
  }

  /**
   * Whatever the plan and however statements fail: a key served by a plain index before is served
   * after, or the report names the index that could not be created. Only a losable key is exempt.
   */
  lemma CoverageKept(db: Db, oracle: Oracle, plan: Plan, l: string, p: string)
    requires ValidDb(db) && PlanAccepted(plan) && PlainServed(db, l, p) && !Losable(oracle.quiet, db, l, p)
    ensures var after := Ensure(db, oracle, plan);
            Served(after.db, l, p) || FailedCreate(after.report, l, p)
  {
    hide Ensure, PlanAccepted, Name, IsIdentifier, PlainName;
    var after := Ensure(db, oracle, plan);
    EnsureSteady(db, oracle, plan);
    UniqueStays(db, Begin(db, oracle), after, l, p);
    if UniqueServed(db, l, p) {
    } else if exists row :: row in db.indexes && IsPlainIndexOn(row, l, p) && OutOfReach(db, row) {
      var row :| row in db.indexes && IsPlainIndexOn(row, l, p) && OutOfReach(db, row);
      assert row in after.db.indexes;
    } else {
      var row :| row in db.indexes && IsPlainIndexOn(row, l, p);
      assert !OutOfReach(db, row);
      assert forall a, b :: IsPlainIndexOn(row, a, b) ==> a == l && b == p;
      HonestKept(db, oracle, plan, l, p);
    }
  }

  /** The plan that asks for uniqueness on one key. */
  function OnePlan(l: string, p: string): Plan { Plan([], [], [ConstraintSpec(l, [p], Unique)]) }

  /**
   * A losable key is lost by the plan that asks for uniqueness on it, and no CREATE of its index is
   * reported failed. Where the constraint's name is the one taken, nothing at all is reported; where
   * only the index's is, the failed CREATE of the constraint is, and nothing of the index put back.
   */
  lemma CoverageLost(quiet: bool, db: Db, l: string, p: string) returns (oracle: Oracle)
    requires ValidDb(db) && Losable(quiet, db, l, p)
    ensures PlanAccepted(OnePlan(l, p)) && oracle.quiet == quiet
    ensures var after := Ensure(db, oracle, OnePlan(l, p));
            !Served(after.db, l, p) && !FailedCreate(after.report, l, p)
            && after.report.failed == if ConstraintNameTaken(quiet, db, l, p) then []
                                      else [StatementFailed(CreateConstraint(l, [p], Unique))]
  {
    hide Name, IsIdentifier, Execute, DropRows, PlainRows, PlainName, Served, TakeIndexes, CoveredKeys, Held;
    var plan, c := OnePlan(l, p), ConstraintSpec(l, [p], Unique);
    SingleAccepted(l, p);
    var rows := PlainRows(db.indexes, l, p);
    var n := |rows|;
    var taken := ConstraintNameTaken(quiet, db, l, p);
    // When the constraint's name is free its creation fails, for whatever reason an engine has.
    oracle := Oracle(false, quiet, true, (k: nat) => None, (k: nat) => taken || k != n);
    var begin := Begin(db, oracle);
    NotServedAtStart(db, c, l, p);
    var cleared := DropRows(begin, oracle, rows);
    RowsDroppable(db, rows, l, p);
    AnyServed(db, rows, l, p);
    DropAllRows(begin, oracle, rows, n);
    LostAfterDrops(db, cleared, rows, oracle, l, p);
    assert Blocking(begin, Some(db), c) == rows;
    var after := TakeConstraint(begin, oracle, Some(db), plan, c);
    OneConstraint(begin, oracle, Some(db), plan);
    NoIndexes(after, oracle);
    assert Ensure(db, oracle, plan) == after;
  }

  lemma NotServedAtStart(db: Db, c: ConstraintSpec, l: string, p: string)
    requires c == ConstraintSpec(l, [p], Unique) && !UniqueServed(db, l, p)
    ensures (l, p) !in CoveredKeys(db.constraints) && !Held(Some(db), c)
  {
    if (l, p) in CoveredKeys(db.constraints) { CoveredKeysServed(db, l, p); }
    forall k | 0 <= k < |db.constraints| && CoversIndex(db.constraints[k].kind)
      ensures !SameSchema(db.constraints[k], Node, l, [p])
    {
      assert db.constraints[k] in db.constraints;
    }
  }

  lemma RowsDroppable(db: Db, rows: seq<Row>, l: string, p: string)
    requires ValidDb(db) && Clearable(db, l, p) && rows == PlainRows(db.indexes, l, p)
    ensures forall row :: row in rows <==> row in db.indexes && IsPlainIndexOn(row, l, p)
    ensures forall k :: 0 <= k < |rows| ==> PlainName(rows[k].name) && rows[k].owner == None
    ensures forall a, k :: a in db.indexes && 0 <= k < |rows| && a.name == rows[k].name ==> a == rows[k]
  {
    hide Name, IsIdentifier, PlainName;
    PlainRowsMembers(db.indexes, l, p);
    assert forall k :: 0 <= k < |rows| ==> rows[k] in rows;
  }

  lemma AnyServed(db: Db, rows: seq<Row>, l: string, p: string)
    requires PlainServed(db, l, p) && rows == PlainRows(db.indexes, l, p)
    requires forall k :: 0 <= k < |rows| ==> PlainName(rows[k].name)
    ensures AnyDroppable(rows)
  {
    hide PlainName;
    PlainRowsMembers(db.indexes, l, p);
    var served :| served in db.indexes && IsPlainIndexOn(served, l, p);
    assert served in rows;
    var k :| 0 <= k < |rows| && rows[k] == served;
    assert PlainName(rows[k].name);
  }

  lemma OneConstraint(st: St, oracle: Oracle, existing: Option<Db>, plan: Plan)
    requires |plan.constraints| == 1
    ensures TakeConstraints(st, oracle, existing, plan, plan.constraints) == TakeConstraint(st, oracle, existing, plan, plan.constraints[0])
  {
    hide TakeConstraint;
    assert plan.constraints[1..] == [];
  }

  lemma NoIndexes(st: St, oracle: Oracle)
    ensures TakeIndexes(st, oracle, []) == st && TakeRelationshipIndexes(st, oracle, []) == st
  {
  }

  /** With the key's indexes dropped, the constraint or the index put back is taken for one that is there. */
  lemma LostAfterDrops(db: Db, cleared: St, rows: seq<Row>, oracle: Oracle, l: string, p: string)
    requires Losable(oracle.quiet, db, l, p) && cleared.db.constraints == db.constraints && cleared.report.failed == []
    requires forall row :: row in rows <==> row in db.indexes && IsPlainIndexOn(row, l, p)
    requires forall row :: row in cleared.db.indexes <==> row in db.indexes && row !in rows
    requires forall k: nat :: oracle.ok(k) <==> ConstraintNameTaken(oracle.quiet, db, l, p) || k != cleared.clock
    ensures var s := CreateConstraint(l, [p], Unique);
            var created := Execute(cleared, oracle, s);
            created.db == cleared.db && !Served(cleared.db, l, p)
            && if ConstraintNameTaken(oracle.quiet, db, l, p) then created.report.failed == []
               else created.report.failed == [StatementFailed(s)]
                    && Execute(created, oracle, CreateIndex(l, p)).db == cleared.db
                    && Execute(created, oracle, CreateIndex(l, p)).report.failed == created.report.failed
  {
    hide Name, IsIdentifier, SameThere, NameCrossed;
    if ConstraintNameTaken(oracle.quiet, db, l, p) {
      ConstraintTaken(oracle.quiet, db, cleared.db, l, p);
    } else {
      IndexTaken(oracle.quiet, db, cleared.db, l, p);
    }
  }

  lemma ConstraintTaken(quiet: bool, db: Db, cleared: Db, l: string, p: string)
    requires ConstraintNameTaken(quiet, db, l, p) && cleared.constraints == db.constraints
    requires forall row :: row in db.indexes && !IsPlainIndexOn(row, l, p) ==> row in cleared.indexes
    ensures AlreadyThere(quiet, cleared, CreateConstraint(l, [p], Unique))
  {
    hide Name, IsPlainIndexOn;
    var name := Name(Constraint(l, [p], Unique));
    if HeldByConstraint(db, name) {
      var row :| row in db.constraints && row.name == name;
      NamedBy(cleared.constraints, row);
    } else {
      var row :| row in db.indexes && !IsPlainIndexOn(row, l, p) && row.name == name;
      NamedBy(cleared.indexes, row);
    }
  }

  lemma IndexTaken(quiet: bool, db: Db, cleared: Db, l: string, p: string)
    requires IndexNameTaken(quiet, db, l, p) && cleared.constraints == db.constraints
    requires forall row :: row in db.indexes && !IsPlainIndexOn(row, l, p) ==> row in cleared.indexes
    ensures AlreadyThere(quiet, cleared, CreateIndex(l, p))
  {
    hide Name, IsPlainIndexOn;
    var name := Name(NodeIndex(l, p));
    if HeldByIndex(db, name, l, p) {
      var row :| row in db.indexes && !IsPlainIndexOn(row, l, p) && row.name == name;
      NamedBy(cleared.indexes, row);
    } else {
      var row :| row in db.constraints && row.name == name;
      NamedBy(cleared.constraints, row);
    }
  }

  lemma NamedBy(rows: seq<Row>, row: Row)
    requires row in rows
    ensures Named(rows, row.name)
  {
    var k :| 0 <= k < |rows| && rows[k] == row;
  }

  lemma {:induction false} DropAllRows(st: St, oracle: Oracle, rows: seq<Row>, n: nat)
    requires st.clock + |rows| <= n && forall k: nat :: k < n ==> oracle.ok(k)
    requires forall a, b :: a in st.db.indexes && b in st.db.indexes && a.name == b.name ==> a == b
    requires forall k :: 0 <= k < |rows| ==> PlainName(rows[k].name) && rows[k].owner == None
    requires forall a, k :: a in st.db.indexes && 0 <= k < |rows| && a.name == rows[k].name ==> a == rows[k]
    ensures var after := DropRows(st, oracle, rows);
            after.clock == st.clock + |rows| && after.report.failed == st.report.failed && after.uniqueKeys == st.uniqueKeys
            && after.db.constraints == st.db.constraints
            && forall row :: row in after.db.indexes <==> row in st.db.indexes && row !in rows
    decreases |rows|
  {
    if rows != [] {
      var s := DropIndex(rows[0].name);
      WithoutNameMembers(st.db.indexes, s.name);
      forall k | 0 <= k < |st.db.indexes| && st.db.indexes[k].name == s.name ensures st.db.indexes[k].owner == None {
        assert st.db.indexes[k] in st.db.indexes;
      }
      var next := Execute(st, oracle, s);
      DropAllRows(next, oracle, rows[1..], n);
      assert forall row :: row in rows <==> row == rows[0] || row in rows[1..];
    }
  }
}
