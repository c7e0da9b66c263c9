/**
 * The resource engine: create, sparse update and delete for any of the
 * six collections, driven by the schema table. Each operation builds one
 * command, executes it against the store and answers; the HTTP layer
 * around it is not modelled.
 */
module Engine {
  import opened Wrappers
  import opened Seqs
  import opened Schema
  import opened Sql
  import opened Builder
  import opened Store

  /** What an operation answers, up to the HTTP status. */
  datatype Response =
    | Created(id: Option<nat>)     // the driver's `lastrowid` for the new row
    | Updated                      // also when no row has the id
    | Deleted                      // also when no row has the id
    | BadRequest(error: Error)     // nothing was executed
    | ServerError(cause: StoreError)

  /** The database holds the entity's table with the schema's key and columns, and all its tables are valid. */
  predicate Conforms(db: Database, schema: EntitySchema) {
    && schema.table in db
    && db[schema.table].key == schema.pk
    && (forall c :: c in db[schema.table].columns ==> c in schema.columns)
    && (forall c :: c in schema.columns ==> c in db[schema.table].columns)
    && forall n :: n in db ==> ValidTable(db[n])
  }

  function Rows(db: Database, schema: EntitySchema): map<nat, Record>
    requires schema.table in db
  {
    db[schema.table].rows
  }

  /** Runs a built update or delete; a store failure leaves the database as it was. */
  function Run(db: Database, cmd: Command, success: Response): (Database, Response) {
    match Execute(db, cmd)
    case Ok(o) => (o.db, success)
    case Err(e) => (db, ServerError(e))
  }

  /** Create: build the INSERT from the form, execute it, answer with the generated id. */
  function CreateRecord(db: Database, schema: EntitySchema, form: Form): (r: (Database, Response))
    ensures r.1.BadRequest? <==> exists c :: c in schema.columns && c !in form && c !in schema.optional
    ensures r.1.BadRequest? ==> r.0 == db && FirstMissing(schema, schema.columns, form, r.1.error)
    ensures r.1.Created? || r.1.BadRequest? || r.1.ServerError?
  {
    match BuildInsert(schema, form)
    case Err(err) => (db, BadRequest(err))
    case Ok(cmd) =>
      match Execute(db, cmd)
      case Ok(o) => (o.db, Created(o.lastRowId))
      case Err(se) => (db, ServerError(se))
  }

  /** Sparse update: build the UPDATE from the supplied fields, execute it, answer `Updated`. */
  function UpdateRecord(db: Database, schema: EntitySchema, id: nat, form: Form): (r: (Database, Response))
    ensures r.1.BadRequest? <==> forall c :: c in schema.columns ==> c !in form
    ensures r.1.BadRequest? ==> r.0 == db && r.1.error == NothingToUpdate
    ensures r.1.Updated? || r.1.BadRequest? || r.1.ServerError?
  {
    match BuildUpdate(schema, form, id)
    case Err(err) => (db, BadRequest(err))
    case Ok(cmd) => Run(db, cmd, Updated)
  }

  /** Delete: execute the DELETE by primary key, answer `Deleted`. */
  function DeleteRecord(db: Database, schema: EntitySchema, id: nat): (r: (Database, Response))
    ensures r.1.Deleted? || r.1.ServerError?
  {
    Run(db, BuildDelete(schema, id), Deleted)
  }

  // ---------------------------------------------------------------- properties

  /** The tables other than `table` are the same in both databases. */
  predicate OthersUnchanged(db: Database, db': Database, table: Identifier) {
    db'.Keys == db.Keys && forall n :: n in db && n != table ==> db'[n] == db[n]
  }

  /** The reference effect of a sparse update on one record: each supplied whitelisted field overwritten. */
  function Patched(rec: Record, schema: EntitySchema, form: Form): (r: Record)
    ensures r.Keys == rec.Keys
  {
    map c | c in rec :: if c in schema.columns && c in form then Text(form[c]) else rec[c]
  }

  /** The reference effect of a sparse update on the database: the row with that id, if any, patched. */
  function PatchStore(db: Database, schema: EntitySchema, id: nat, form: Form): Database
    requires schema.table in db
  {
    var t := db[schema.table];
    if id in t.rows then db[schema.table := t.(rows := t.rows[id := Patched(t.rows[id], schema, form)])] else db
  }

  /** The built UPDATE, executed, has exactly the reference effect, and the answer is `Updated` either way. */
  lemma UpdateMeetsReference(db: Database, schema: EntitySchema, id: nat, form: Form)
    requires WellFormed(schema) && Conforms(db, schema)
    requires exists c :: c in schema.columns && c in form
    ensures UpdateRecord(db, schema, id, form) == (PatchStore(db, schema, id, form), Updated)
  {
    var s := schema;
    var cols := Selected(s.columns, form);
    var params := BoundValues(cols, form) + [Int(id)];
    var cmd := Command(Update(s.table, cols, s.pk), params);
    BuildUpdateBinds(s, form, id);
    var t := db[s.table];
    forall c | c in cols
      ensures c in t.columns
    {
      assert c in s.columns;
    }
    UpdateEffect(db, s.table, cols, s.pk, params);
    assert Target(t, params[|cols|]) == if id in t.rows then Some(id) else None;
    if id in t.rows {
      DistinctSubsequence(cols, s.columns);
      PatchIsReference(t.rows[id], s, form, cols, params[..|cols|]);
    }
  }

  /** Assigning the selected columns their form values is the reference patch. */
  lemma PatchIsReference(rec: Record, schema: EntitySchema, form: Form, cols: seq<Identifier>, vals: seq<Value>)
    requires Distinct(cols) && |vals| == |cols|
    requires forall c :: c in cols <==> c in schema.columns && c in form
    requires forall i :: 0 <= i < |cols| ==> vals[i] == Text(form[cols[i]])
    requires forall c :: c in cols ==> c in rec
    ensures rec + Assign(cols, vals) == Patched(rec, schema, form)
  {
    var patch := Assign(cols, vals);
    forall c | c in rec
      ensures (rec + patch)[c] == Patched(rec, schema, form)[c]
    {
      if c in schema.columns && c in form {
        var i :| 0 <= i < |cols| && cols[i] == c;
        assert patch[c] == vals[i];
      }
    }
    assert (rec + patch).Keys == rec.Keys;
  }

  /**
   * The reference update changes exactly the supplied whitelisted columns
   * of the row with that id and nothing else, and changes nothing at all
   * when no row has that id.
   */
  lemma PatchStoreChangesOnlySuppliedFields(db: Database, schema: EntitySchema, id: nat, form: Form)
    requires Conforms(db, schema)
    ensures var db' := PatchStore(db, schema, id, form);
      && Conforms(db', schema)
      && OthersUnchanged(db, db', schema.table)
      && db'[schema.table].nextId == db[schema.table].nextId
      && Rows(db', schema).Keys == Rows(db, schema).Keys
      && (forall k :: k in Rows(db, schema) && k != id ==> Rows(db', schema)[k] == Rows(db, schema)[k])
      && (id in Rows(db, schema) ==> forall c :: c in Rows(db, schema)[id] ==>
            Rows(db', schema)[id][c] == if c in form then Text(form[c]) else Rows(db, schema)[id][c])
      && (id !in Rows(db, schema) ==> db' == db)
  {
  }

  /** The reference effect of a delete: the row with that id, if any, gone. */
  function RemoveRow(db: Database, schema: EntitySchema, id: nat): Database
    requires schema.table in db
  {
    var t := db[schema.table];
    db[schema.table := t.(rows := t.rows - {id})]
  }

  /** The built DELETE, executed, has exactly the reference effect, and the answer is `Deleted` either way. */
  lemma DeleteMeetsReference(db: Database, schema: EntitySchema, id: nat)
    requires Conforms(db, schema)
    ensures DeleteRecord(db, schema, id) == (RemoveRow(db, schema, id), Deleted)
  {
    var t := db[schema.table];
    DeleteEffect(db, schema.table, schema.pk, [Int(id)]);
    if id !in t.rows {
      assert t.rows - {id} == t.rows;
      assert t.(rows := t.rows - {id}) == t;
      assert RemoveRow(db, schema, id) == db;
    }
  }

  /**
   * After a delete no row has that id, every other row and every other
   * table is as it was, and a delete of an absent id changes nothing.
   */
  lemma RemoveRowRemovesOnlyThatId(db: Database, schema: EntitySchema, id: nat)
    requires Conforms(db, schema)
    ensures var db' := RemoveRow(db, schema, id);
      && Conforms(db', schema)
      && OthersUnchanged(db, db', schema.table)
      && id !in Rows(db', schema)
      && (forall k :: k != id ==> (k in Rows(db', schema) <==> k in Rows(db, schema)))
      && (forall k :: k in Rows(db', schema) ==> Rows(db', schema)[k] == Rows(db, schema)[k])
      && (id !in Rows(db, schema) ==> Rows(db', schema) == Rows(db, schema))
  {
  }

  /** The reference record a create stores: each column's form value, NULL for an absent optional column. */
  function NewRecord(schema: EntitySchema, form: Form): (r: Record)
    ensures forall c :: c in r <==> c in schema.columns
  {
    map c | c in schema.columns :: if c in form then Text(form[c]) else Null
  }

  /** The reference effect of a create: the new record under the next auto-increment id. */
  function AddRow(db: Database, schema: EntitySchema, form: Form): Database
    requires schema.table in db
  {
    var t := db[schema.table];
    db[schema.table := t.(rows := t.rows[t.nextId := NewRecord(schema, form)], nextId := t.nextId + 1)]
  }

  lemma NewRecordAt(schema: EntitySchema, form: Form, c: Identifier)
    requires c in schema.columns
    requires c in form || c in schema.optional
    ensures c in NewRecord(schema, form) && NewRecord(schema, form)[c] == InsertParam(schema, form, c)
  {
  }

  /** Binding every column positionally and filling the rest with NULL stores the reference record. */
  lemma InsertIsReference(schema: EntitySchema, form: Form, columns: set<Identifier>, params: seq<Value>)
    requires Distinct(schema.columns) && |params| == |schema.columns|
    requires forall c :: c in columns <==> c in schema.columns
    requires forall c :: c in schema.columns ==> c in form || c in schema.optional
    requires forall i :: 0 <= i < |schema.columns| ==> params[i] == InsertParam(schema, form, schema.columns[i])
    ensures NullRecord(columns) + Assign(schema.columns, params) == NewRecord(schema, form)
  {
    var row := NullRecord(columns) + Assign(schema.columns, params);
    var reference := NewRecord(schema, form);
    forall c | c in row
      ensures c in reference && row[c] == reference[c]
    {
      InsertCell(schema, form, columns, params, c);
    }
    forall c | c in reference
      ensures c in row
    {
    }
    SameEntries(row, reference);
  }

  lemma SameEntries(a: Record, b: Record)
    requires forall c :: c in a ==> c in b && a[c] == b[c]
    requires forall c :: c in b ==> c in a
    ensures a == b
  {
  }

  lemma InsertCell(schema: EntitySchema, form: Form, columns: set<Identifier>, params: seq<Value>, c: Identifier)
    requires Distinct(schema.columns) && |params| == |schema.columns|
    requires forall c :: c in columns <==> c in schema.columns
    requires forall c :: c in schema.columns ==> c in form || c in schema.optional
    requires forall i :: 0 <= i < |schema.columns| ==> params[i] == InsertParam(schema, form, schema.columns[i])
    requires c in NullRecord(columns) + Assign(schema.columns, params)
    ensures c in NewRecord(schema, form)
    ensures (NullRecord(columns) + Assign(schema.columns, params))[c] == NewRecord(schema, form)[c]
  {
    var bound := Assign(schema.columns, params);
    var i := IndexOf(schema.columns, c);
    assert (NullRecord(columns) + bound)[c] == bound[c] == params[i];
    NewRecordAt(schema, form, c);
  }

  /**
   * A create with every required field stores the reference record under
   * the next auto-increment id and answers with that id.
   */
  lemma CreateMeetsReference(db: Database, schema: EntitySchema, form: Form)
    requires WellFormed(schema) && Conforms(db, schema)
    requires forall c :: c in schema.columns ==> c in form || c in schema.optional
    ensures CreateRecord(db, schema, form) == (AddRow(db, schema, form), Created(Some(db[schema.table].nextId)))
  {
    var cmd := BuildInsert(schema, form).value;
    InsertMatchesAddRow(db, schema, form, cmd);
    CreateRuns(db, schema, form, cmd);
  }

  /** The built INSERT, executed, adds the reference record under the next id. */
  lemma InsertMatchesAddRow(db: Database, schema: EntitySchema, form: Form, cmd: Command)
    requires WellFormed(schema) && Conforms(db, schema)
    requires BuildInsert(schema, form) == Ok(cmd)
    ensures Execute(db, cmd).Ok?
    ensures Execute(db, cmd).value.db == AddRow(db, schema, form)
    ensures Execute(db, cmd).value.lastRowId == Some(db[schema.table].nextId)
  {
    BuildInsertBinds(schema, form, cmd);
    ExecuteInsert(db, schema, cmd);
    AddRowIsInsert(db, schema, form, cmd.params);
  }

  /** Executing an INSERT of the schema's columns against a conforming database. */
  lemma ExecuteInsert(db: Database, schema: EntitySchema, cmd: Command)
    requires Conforms(db, schema)
    requires cmd == Command(Insert(schema.table, schema.columns), cmd.params)
    requires |cmd.params| == |schema.columns|
    ensures var t := db[schema.table];
      && Execute(db, cmd).Ok?
      && Execute(db, cmd).value.lastRowId == Some(t.nextId)
      && Execute(db, cmd).value.db
         == db[schema.table := t.(rows := t.rows[t.nextId := NullRecord(t.columns) + Assign(schema.columns, cmd.params)],
                                  nextId := t.nextId + 1)]
  {
    InsertEffect(db, schema.table, schema.columns, cmd.params);
  }

  /** The store's insert of the positional parameters is the reference `AddRow`. */
  lemma AddRowIsInsert(db: Database, schema: EntitySchema, form: Form, params: seq<Value>)
    requires WellFormed(schema) && Conforms(db, schema)
    requires |params| == |schema.columns|
    requires forall c :: c in schema.columns ==> c in form || c in schema.optional
    requires forall i :: 0 <= i < |schema.columns| ==> params[i] == InsertParam(schema, form, schema.columns[i])
    ensures var t := db[schema.table];
      db[schema.table := t.(rows := t.rows[t.nextId := NullRecord(t.columns) + Assign(schema.columns, params)],
                            nextId := t.nextId + 1)]
      == AddRow(db, schema, form)
  {
    var t := db[schema.table];
    InsertIsReference(schema, form, t.columns, params);
    AddRowWith(db, schema, form, NullRecord(t.columns) + Assign(schema.columns, params));
  }

  lemma AddRowWith(db: Database, schema: EntitySchema, form: Form, rec: Record)
    requires schema.table in db
    requires rec == NewRecord(schema, form)
    ensures var t := db[schema.table];
      db[schema.table := t.(rows := t.rows[t.nextId := rec], nextId := t.nextId + 1)] == AddRow(db, schema, form)
  {
  }

  /** A create whose INSERT was built and executed answers with the store's outcome. */
  lemma CreateRuns(db: Database, schema: EntitySchema, form: Form, cmd: Command)
    requires BuildInsert(schema, form) == Ok(cmd) && Execute(db, cmd).Ok?
    ensures CreateRecord(db, schema, form) == (Execute(db, cmd).value.db, Created(Execute(db, cmd).value.lastRowId))
  {
  }

  /**
   * The created row is new, holds exactly the submitted values (NULL for
   * an absent optional column), and no other row or table changes.
   */
  lemma AddRowStoresSubmittedValues(db: Database, schema: EntitySchema, form: Form)
    requires Conforms(db, schema)
    ensures var db' := AddRow(db, schema, form);
      var n := db[schema.table].nextId;
      && Conforms(db', schema)
      && OthersUnchanged(db, db', schema.table)
      && n !in Rows(db, schema)
      && Rows(db', schema).Keys == Rows(db, schema).Keys + {n}
      && (forall k :: k in Rows(db, schema) ==> Rows(db', schema)[k] == Rows(db, schema)[k])
      && (forall c :: c in Rows(db', schema)[n] <==> c in schema.columns)
      && (forall c :: c in schema.columns ==>
            Rows(db', schema)[n][c] == if c in form then Text(form[c]) else Null)
  {
  }

  // ---------------------------------------------------------------- sequences of requests

  /**
   * Deleting the row a create just made gives back the rows the table had
   * before; only the auto-increment counter remembers the create.
   */
  lemma CreateThenDeleteRestoresRows(db: Database, schema: EntitySchema, form: Form)
    requires WellFormed(schema) && Conforms(db, schema)
    requires forall c :: c in schema.columns ==> c in form || c in schema.optional
    ensures var n := db[schema.table].nextId;
      var created := CreateRecord(db, schema, form);
      var deleted := DeleteRecord(created.0, schema, n);
      && created.1 == Created(Some(n))
      && deleted.1 == Deleted
      && Rows(deleted.0, schema) == Rows(db, schema)
      && OthersUnchanged(db, deleted.0, schema.table)
      && deleted.0[schema.table].nextId == n + 1
  {
    var n := db[schema.table].nextId;
    CreateMeetsReference(db, schema, form);
    AddRowStoresSubmittedValues(db, schema, form);
    DeleteMeetsReference(AddRow(db, schema, form), schema, n);
    RemoveUndoesAdd(db, schema, form);
  }

  lemma RemoveUndoesAdd(db: Database, schema: EntitySchema, form: Form)
    requires Conforms(db, schema)
    ensures var n := db[schema.table].nextId;
      var db' := RemoveRow(AddRow(db, schema, form), schema, n);
      && Rows(db', schema) == Rows(db, schema)
      && OthersUnchanged(db, db', schema.table)
      && db'[schema.table].nextId == n + 1
  {
    var n := db[schema.table].nextId;
    var rows := Rows(db, schema);
    assert n !in rows;
    assert rows[n := NewRecord(schema, form)] - {n} == rows;
  }

  /** Patching a record twice with the same form is patching it once. */
  lemma PatchedIdempotent(rec: Record, schema: EntitySchema, form: Form)
    ensures Patched(Patched(rec, schema, form), schema, form) == Patched(rec, schema, form)
  {
    var once := Patched(rec, schema, form);
    var twice := Patched(once, schema, form);
    forall c | c in twice
      ensures twice[c] == once[c]
    {
    }
    SameEntries(twice, once);
  }

  lemma PatchStoreIdempotent(db: Database, schema: EntitySchema, id: nat, form: Form)
    requires schema.table in db
    ensures PatchStore(PatchStore(db, schema, id, form), schema, id, form) == PatchStore(db, schema, id, form)
  {
    var t := db[schema.table];
    if id in t.rows {
      var once := Patched(t.rows[id], schema, form);
      var t1 := t.(rows := t.rows[id := once]);
      PatchedIdempotent(t.rows[id], schema, form);
      assert PatchStore(db, schema, id, form)[schema.table] == t1;
      assert t1.rows[id := Patched(t1.rows[id], schema, form)] == t1.rows;
    }
  }

  /** Sending the same sparse update twice leaves the database as sending it once. */
  lemma UpdateIdempotent(db: Database, schema: EntitySchema, id: nat, form: Form)
    requires WellFormed(schema) && Conforms(db, schema)
    ensures var once := UpdateRecord(db, schema, id, form);
      UpdateRecord(once.0, schema, id, form) == once
  {
    if exists c :: c in schema.columns && c in form {
      var db1 := PatchStore(db, schema, id, form);
      UpdateMeetsReference(db, schema, id, form);
      PatchStoreChangesOnlySuppliedFields(db, schema, id, form);
      UpdateMeetsReference(db1, schema, id, form);
      PatchStoreIdempotent(db, schema, id, form);
    }
  }

  /** The payment columns that must be supplied: all but the booking and order references. */
  lemma PaymentRequiredColumns(form: Form)
    ensures (forall c :: c in SchemaOf(Payment).columns ==> c in form || c in SchemaOf(Payment).optional)
        <==> "client_id" in form && "payment_date" in form && "amount" in form && "payment_method" in form
    ensures "booking_id" in SchemaOf(Payment).columns && "order_id" in SchemaOf(Payment).columns
    ensures SchemaOf(Payment).table == "payments"
  {
    assert SchemaOf(Payment) == PaymentSchema();
  }

  /**
   * A payment needs a client, a date, an amount and a method; the booking
   * and the order it pays for may be left out and are then stored as NULL.
   */
  lemma PaymentReferencesAreOptional(db: Database, form: Form)
    requires Conforms(db, SchemaOf(Payment))
    ensures var r := CreateRecord(db, SchemaOf(Payment), form);
      r.1.BadRequest? <==>
        !("client_id" in form && "payment_date" in form && "amount" in form && "payment_method" in form)
    ensures var r := CreateRecord(db, SchemaOf(Payment), form);
      var n := db["payments"].nextId;
      r.1.Created? ==>
        && r.1.id == Some(n)
        && r.0["payments"].rows[n]["booking_id"] == (if "booking_id" in form then Text(form["booking_id"]) else Null)
        && r.0["payments"].rows[n]["order_id"] == (if "order_id" in form then Text(form["order_id"]) else Null)
  {
    var schema := SchemaOf(Payment);
    PaymentRequiredColumns(form);
    if forall c :: c in schema.columns ==> c in form || c in schema.optional {
      CreateMeetsReference(db, schema, form);
      AddRowStoresSubmittedValues(db, schema, form);
    }
  }
}
