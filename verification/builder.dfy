/**
 * The statement builders shared by all six collections. The sparse UPDATE
 * walks the schema's whitelist in declared order and keeps the columns the
 * form supplies; the INSERT binds every whitelisted column positionally;
 * the DELETE binds only the id. Column names come from the schema, values
 * only ever become bound parameters.
 */
module Builder {
  import opened Wrappers
  import opened Schema
  import opened Sql
  import opened Seqs

  /** A submitted form: field name to raw string value (the first value of a repeated field). */
  type Form = map<string, string>

  datatype Error =
    | NothingToUpdate                 // no whitelisted field in an update form
    | MissingField(column: Identifier)  // a required field absent from a create form

  /** The whitelist columns the form supplies, in whitelist order. */
  function Selected(columns: seq<Identifier>, form: Form): (r: seq<Identifier>)
    ensures IsSubsequence(r, columns)
    ensures forall c :: c in r <==> c in columns && c in form
  {
    if columns == [] then []
    else if columns[0] in form then [columns[0]] + Selected(columns[1..], form)
    else Selected(columns[1..], form)
  }

  /** The form values of the selected columns, in the same order. */
  function BoundValues(cols: seq<Identifier>, form: Form): (r: seq<Value>)
    requires forall c :: c in cols ==> c in form
    ensures |r| == |cols|
    ensures forall i :: 0 <= i < |cols| ==> r[i] == Text(form[cols[i]])
  {
    if cols == [] then [] else [Text(form[cols[0]])] + BoundValues(cols[1..], form)
  }

  /**
   * The sparse UPDATE: `UPDATE <table> SET c1=%s, ... WHERE <pk>=%s` over
   * the selected columns, bound to their form values followed by the id;
   * `NothingToUpdate` when the form supplies no whitelisted column.
   */
  function BuildUpdate(schema: EntitySchema, form: Form, id: nat): (r: Result<Command, Error>)
    ensures r.Err? <==> forall c :: c in schema.columns ==> c !in form
    ensures r.Err? ==> r.error == NothingToUpdate
    ensures r.Ok? ==> UpdateShape(schema, form, id, r.value)
  {
    var cols := Selected(schema.columns, form);
    if cols == [] then
      assert forall c :: c in schema.columns ==> c !in form;
      Err(NothingToUpdate)
    else
      assert cols[0] in cols;
      Ok(Command(Update(schema.table, cols, schema.pk), BoundValues(cols, form) + [Int(id)]))
  }

  /** When some whitelisted field is present, the update binds the selected values and then the id. */
  lemma BuildUpdateBinds(schema: EntitySchema, form: Form, id: nat)
    requires exists c :: c in schema.columns && c in form
    ensures var cols := Selected(schema.columns, form);
      BuildUpdate(schema, form, id) == Ok(Command(Update(schema.table, cols, schema.pk), BoundValues(cols, form) + [Int(id)]))
  {
  }

  /**
   * What a built update is: an UPDATE of the schema's table keyed by its
   * primary key, setting exactly the whitelisted columns present in the
   * form in whitelist order, bound to their values with the id last.
   */
  predicate UpdateShape(schema: EntitySchema, form: Form, id: nat, cmd: Command) {
    var s := cmd.statement;
    && s.Update?
    && s.table == schema.table
    && s.key == schema.pk
    && IsSubsequence(s.assignments, schema.columns)
    && (forall c :: c in s.assignments ==> c in schema.columns && c in form)
    && (forall c :: c in schema.columns && c in form ==> c in s.assignments)
    && |cmd.params| == |s.assignments| + 1
    && (forall i :: 0 <= i < |s.assignments| ==> cmd.params[i] == Text(form[s.assignments[i]]))
    && cmd.params[|s.assignments|] == Int(id)
  }

  /** The parameter for one INSERT column: the form value, NULL for an absent optional column. */
  function InsertParam(schema: EntitySchema, form: Form, c: Identifier): (v: Value)
    requires c in form || c in schema.optional
    ensures v.Null? <==> c !in form
    ensures v.Text? ==> v.text == form[c]
    ensures !v.Int?
  {
    if c in form then Text(form[c]) else Null
  }

  /** The INSERT parameters for `columns`, evaluated left to right: the first absent required column fails. */
  function InsertParams(schema: EntitySchema, columns: seq<Identifier>, form: Form): (r: Result<seq<Value>, Error>)
    ensures r.Ok? <==> forall c :: c in columns ==> c in form || c in schema.optional
    ensures r.Ok? ==> |r.value| == |columns|
    ensures r.Ok? ==> forall i :: 0 <= i < |columns| ==> r.value[i] == InsertParam(schema, form, columns[i])
    ensures r.Err? ==> FirstMissing(schema, columns, form, r.error)
  {
    if columns == [] then Ok([])
    else
      var c := columns[0];
      if c !in form && c !in schema.optional then Err(MissingField(c))
      else
        var rest :- InsertParams(schema, columns[1..], form);
        Ok([InsertParam(schema, form, c)] + rest)
  }

  /** `e` names the first column of `columns`, in order, that is neither supplied nor optional. */
  predicate FirstMissing(schema: EntitySchema, columns: seq<Identifier>, form: Form, e: Error) {
    && e.MissingField?
    && exists i :: 0 <= i < |columns| && columns[i] == e.column
         && columns[i] !in form && columns[i] !in schema.optional
         && forall j :: 0 <= j < i ==> columns[j] in form || columns[j] in schema.optional
  }

  /**
   * The INSERT: every whitelisted column in declared order, bound
   * positionally; fails before any statement exists when a required
   * column is absent.
   */
  function BuildInsert(schema: EntitySchema, form: Form): (r: Result<Command, Error>)
    ensures r.Ok? <==> forall c :: c in schema.columns ==> c in form || c in schema.optional
    ensures r.Ok? ==> r.value.statement == Insert(schema.table, schema.columns)
    ensures r.Ok? ==> |r.value.params| == |schema.columns|
    ensures r.Ok? ==> forall i :: 0 <= i < |schema.columns| ==>
      r.value.params[i] == InsertParam(schema, form, schema.columns[i])
    ensures r.Err? ==> FirstMissing(schema, schema.columns, form, r.error)
  {
    var params :- InsertParams(schema, schema.columns, form);
    Ok(Command(Insert(schema.table, schema.columns), params))
  }

  lemma BuildInsertBinds(schema: EntitySchema, form: Form, cmd: Command)
    requires BuildInsert(schema, form) == Ok(cmd)
    ensures cmd == Command(Insert(schema.table, schema.columns), cmd.params)
    ensures |cmd.params| == |schema.columns|
    ensures forall c :: c in schema.columns ==> c in form || c in schema.optional
    ensures forall i :: 0 <= i < |schema.columns| ==> cmd.params[i] == InsertParam(schema, form, schema.columns[i])
  {
  }

  /** The DELETE: the id bound against the primary key and nothing else. */
  function BuildDelete(schema: EntitySchema, id: nat): (r: Command)
    ensures r.statement.Delete? && r.statement.table == schema.table && r.statement.key == schema.pk
    ensures r.params == [Int(id)]
  {
    Command(Delete(schema.table, schema.pk), [Int(id)])
  }

  // ---------------------------------------------------------------- properties

  /**
   * The statement of a sparse update depends only on which whitelisted
   * fields are present: neither the submitted values, nor the id, nor any
   * non-whitelisted field changes it.
   */
  lemma UpdateStatementDependsOnlyOnPresence(schema: EntitySchema, form1: Form, form2: Form, id1: nat, id2: nat)
    requires WellFormed(schema)
    requires forall c :: c in schema.columns ==> (c in form1 <==> c in form2)
    ensures BuildUpdate(schema, form1, id1).Ok? == BuildUpdate(schema, form2, id2).Ok?
    ensures BuildUpdate(schema, form1, id1).Ok? ==>
      BuildUpdate(schema, form1, id1).value.statement == BuildUpdate(schema, form2, id2).value.statement
  {
    var r1 := BuildUpdate(schema, form1, id1);
    var r2 := BuildUpdate(schema, form2, id2);
    if r1.Ok? && r2.Ok? {
      var a1 := r1.value.statement.assignments;
      var a2 := r2.value.statement.assignments;
      SubsequenceDetermined(a1, a2, schema.columns);
    }
  }

  /**
   * A built update reads back from its own text as an UPDATE of the
   * schema's table keyed by its primary key, naming only whitelisted
   * columns, and its text has one placeholder per bound parameter.
   */
  lemma UpdateTextIsSafe(schema: EntitySchema, form: Form, id: nat)
    requires WellFormed(schema)
    requires BuildUpdate(schema, form, id).Ok?
    ensures var cmd := BuildUpdate(schema, form, id).value;
      && Parse(Render(cmd.statement)) == Some(cmd.statement)
      && Placeholders(Render(cmd.statement)) == |cmd.params|
  {
    var cmd := BuildUpdate(schema, form, id).value;
    SubsequenceMembers(cmd.statement.assignments, schema.columns);
    ParseRender(cmd.statement);
    RenderPlaceholders(cmd.statement);
  }

  /** The same for a built insert. */
  lemma InsertTextIsSafe(schema: EntitySchema, form: Form)
    requires WellFormed(schema)
    requires BuildInsert(schema, form).Ok?
    ensures var cmd := BuildInsert(schema, form).value;
      && Parse(Render(cmd.statement)) == Some(Insert(schema.table, schema.columns))
      && Placeholders(Render(cmd.statement)) == |cmd.params|
  {
    var cmd := BuildInsert(schema, form).value;
    ParseRender(cmd.statement);
    RenderPlaceholders(cmd.statement);
  }

  /** The same for a built delete: one placeholder, one parameter, the id. */
  lemma DeleteTextIsSafe(schema: EntitySchema, id: nat)
    requires WellFormed(schema)
    ensures Parse(Render(BuildDelete(schema, id).statement)) == Some(Delete(schema.table, schema.pk))
    ensures Placeholders(Render(BuildDelete(schema, id).statement)) == 1
  {
    ParseRender(BuildDelete(schema, id).statement);
    RenderPlaceholders(BuildDelete(schema, id).statement);
  }
}
