/**
 * An abstract relational store that executes the engine's commands: each
 * table maps an auto-increment primary key to a record of column values.
 * It stands for the database behind the driver, which is not part of this
 * model; only the effect of the three statement shapes is described.
 */
module Store {
  import opened Wrappers
  import opened Schema
  import opened Sql
  import opened Seqs

  /** A stored row without its primary key, which is the key it is stored under. */
  type Record = map<Identifier, Value>

  datatype Table = Table(
    key: Identifier,              // primary-key column
    columns: set<Identifier>,     // the other columns
    rows: map<nat, Record>,
    nextId: nat                   // next auto-increment value
  )

  type Database = map<Identifier, Table>

  datatype StoreError =
    | UnknownTable(table: Identifier)
    | UnknownColumn(column: Identifier)
    | ParameterCountMismatch

  /** The effect of one statement: the new state, the affected-row count and the generated id of an insert. */
  datatype Outcome = Outcome(db: Database, rowCount: nat, lastRowId: Option<nat>)

  /** Every row holds exactly the table's columns and every id is below the auto-increment counter. */
  predicate ValidTable(t: Table) {
    forall k :: k in t.rows ==> k < t.nextId && t.rows[k].Keys == t.columns
  }

  /** The record `c1 = v1, c2 = v2, ...`, applied left to right. */
  function Assign(cols: seq<Identifier>, vals: seq<Value>): (r: Record)
    requires |cols| == |vals|
    ensures forall c :: c in r <==> c in cols
    ensures Distinct(cols) ==> forall i :: 0 <= i < |cols| ==> r[cols[i]] == vals[i]
  {
    if cols == [] then map[]
    else
      var rest := Assign(cols[1..], vals[1..]);
      assert Distinct(cols) ==> Distinct(cols[1..]) && cols[0] !in rest;
      map[cols[0] := vals[0]] + rest
  }

  /** A fresh row: NULL in every column the INSERT does not name. */
  function NullRecord(columns: set<Identifier>): (r: Record)
    ensures r.Keys == columns
    ensures forall c :: c in r ==> r[c] == Null
  {
    map c | c in columns :: Null
  }

  /** The first of `cols` that the table does not have. */
  function FirstUnknown(cols: seq<Identifier>, known: set<Identifier>): (r: Option<Identifier>)
    ensures r.None? <==> forall c :: c in cols ==> c in known
    ensures r.Some? ==> r.value in cols && r.value !in known
  {
    if cols == [] then None
    else if cols[0] !in known then Some(cols[0])
    else FirstUnknown(cols[1..], known)
  }

  /** The row a bound id parameter selects: `<pk>=%s` bound to the integer `k`. */
  function Target(t: Table, v: Value): Option<nat> {
    if v.Int? && v.number >= 0 && v.number in t.rows then Some(v.number) else None
  }

  /** INSERT: a new row under the next auto-increment id, NULL in the columns not named. */
  function ExecInsert(db: Database, name: Identifier, cols: seq<Identifier>, params: seq<Value>): Result<Outcome, StoreError>
    requires name in db && |params| == |cols|
  {
    var t := db[name];
    match FirstUnknown(cols, t.columns)
    case Some(c) => Err(UnknownColumn(c))
    case None =>
      var row := NullRecord(t.columns) + Assign(cols, params);
      Ok(Outcome(db[name := t.(rows := t.rows[t.nextId := row], nextId := t.nextId + 1)], 1, Some(t.nextId)))
  }

  /** UPDATE: the named columns of the row whose key equals the last parameter, if there is one. */
  function ExecUpdate(db: Database, name: Identifier, cols: seq<Identifier>, key: Identifier, params: seq<Value>)
    : Result<Outcome, StoreError>
    requires name in db && |params| == |cols| + 1
  {
    var t := db[name];
    if key != t.key then Err(UnknownColumn(key))
    else match FirstUnknown(cols, t.columns)
      case Some(c) => Err(UnknownColumn(c))
      case None =>
        match Target(t, params[|cols|])
        case None => Ok(Outcome(db, 0, None))
        case Some(k) =>
          var row := t.rows[k] + Assign(cols, params[..|cols|]);
          Ok(Outcome(db[name := t.(rows := t.rows[k := row])], 1, None))
  }

  /** DELETE: the row whose key equals the parameter, if there is one. */
  function ExecDelete(db: Database, name: Identifier, key: Identifier, params: seq<Value>): Result<Outcome, StoreError>
    requires name in db && |params| == 1
  {
    var t := db[name];
    if key != t.key then Err(UnknownColumn(key))
    else match Target(t, params[0])
      case None => Ok(Outcome(db, 0, None))
      case Some(k) => Ok(Outcome(db[name := t.(rows := t.rows - {k})], 1, None))
  }

  /**
   * Executes a command: the table must exist and the parameter count must
   * match the placeholders, then the columns must exist; the effect is on
   * the addressed table alone.
   */
  function Execute(db: Database, cmd: Command): (r: Result<Outcome, StoreError>)
    ensures r.Ok? ==> r.value.db.Keys == db.Keys
    ensures r.Ok? ==> forall n :: n in db && n != cmd.statement.table ==> r.value.db[n] == db[n]
    ensures r.Ok? ==> |cmd.params| == Arity(cmd.statement)
  {
    var st := cmd.statement;
    if st.table !in db then Err(UnknownTable(st.table))
    else if |cmd.params| != Arity(st) then Err(ParameterCountMismatch)
    else match st
      case Insert(name, cols) => ExecInsert(db, name, cols, cmd.params)
      case Update(name, cols, key) => ExecUpdate(db, name, cols, key, cmd.params)
      case Delete(name, key) => ExecDelete(db, name, key, cmd.params)
  }

  /** An UPDATE naming known columns patches the addressed row, if any, and touches nothing else. */
  lemma UpdateEffect(db: Database, name: Identifier, cols: seq<Identifier>, key: Identifier, params: seq<Value>)
    requires name in db && key == db[name].key
    requires forall c :: c in cols ==> c in db[name].columns
    requires |params| == |cols| + 1
    ensures var r := Execute(db, Command(Update(name, cols, key), params));
      var t := db[name];
      && r.Ok?
      && (Target(t, params[|cols|]).None? ==> r.value.db == db)
      && (Target(t, params[|cols|]).Some? ==>
            var k := Target(t, params[|cols|]).value;
            r.value.db == db[name := t.(rows := t.rows[k := t.rows[k] + Assign(cols, params[..|cols|])])])
  {
    assert FirstUnknown(cols, db[name].columns).None?;
  }

  /** A DELETE by the table's key removes the addressed row, if any, and touches nothing else. */
  lemma DeleteEffect(db: Database, name: Identifier, key: Identifier, params: seq<Value>)
    requires name in db && key == db[name].key
    requires |params| == 1
    ensures var r := Execute(db, Command(Delete(name, key), params));
      var t := db[name];
      && r.Ok?
      && (Target(t, params[0]).None? ==> r.value.db == db)
      && (Target(t, params[0]).Some? ==>
            r.value.db == db[name := t.(rows := t.rows - {Target(t, params[0]).value})])
  {
  }

  /** An INSERT naming known columns adds one row under the next auto-increment id and reports that id. */
  lemma InsertEffect(db: Database, name: Identifier, cols: seq<Identifier>, params: seq<Value>)
    requires name in db
    requires forall c :: c in cols ==> c in db[name].columns
    requires |params| == |cols|
    ensures var r := Execute(db, Command(Insert(name, cols), params));
      var t := db[name];
      && r.Ok?
      && r.value.lastRowId == Some(t.nextId)
      && r.value.db == db[name := t.(rows := t.rows[t.nextId := NullRecord(t.columns) + Assign(cols, params)],
                                     nextId := t.nextId + 1)]
  {
    assert FirstUnknown(cols, db[name].columns).None?;
  }

  /** Every command keeps every table valid: ids stay below the counter and rows keep the table's columns. */
  lemma ExecutePreservesValidity(db: Database, cmd: Command)
    requires forall n :: n in db ==> ValidTable(db[n])
    requires Execute(db, cmd).Ok?
    ensures forall n :: n in Execute(db, cmd).value.db ==> ValidTable(Execute(db, cmd).value.db[n])
  {
  }
}
