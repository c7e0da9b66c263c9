# Hospitality back end: write-statement engine

The application is a small Flask service over a MySQL database of a
hotel-and-restaurant business. It exposes six collections: clients,
bookings, menu items, orders, payments and rooms. For each collection it
offers a create (an `INSERT` of every column), a sparse update (an `UPDATE`
of only the fields the form supplies) and a delete by primary key. The six
copies in `app.py` differ only in their table name, key column and column
whitelist.

This project models them as one engine driven by a six-row schema table:

- `wrappers.dfy`: `Result` and `Option`.
- `seqs.dfy`: distinct sequences and subsequences. These express "the
  columns the form supplies, in whitelist order".
- `schema.dfy`: the schema table. Each entity has a table, a primary key,
  an ordered column whitelist and optional columns. The collection name
  resolves to its entity.
- `sql.dfy`: the three statement shapes, their rendering to the text sent
  to the driver, a parser that reads that text back, and the `%s`
  placeholder count.
- `builder.dfy`: the three statement builders. They take a schema, the
  submitted form and the id from the URL, and return a command
  (statement plus bound parameters) or the request error.
- `store.dfy`: an abstract database. Each table maps ids to records, and
  each record maps column names to values. An auto-increment counter
  gives new ids. A command succeeds only when the table and columns exist
  and the number of parameters matches the placeholders.
- `engine.dfy`: the three operations as the routes perform them: build,
  execute, answer. Each is paired with an independent reference
  definition of its effect on the store (`AddRow`, `PatchStore`,
  `RemoveRow`). Lemmas show the engine meets that reference and that
  the reference changes only what it should.

Values are opaque: a form value is bound as `Text`, the URL id as `Int`, and
an absent optional payment reference as `Null`.

## Model

| member | source | states |
|---|---|---|
| Schema.SchemaOf | app.py:135-143 | each collection's table, key and whitelist; names are lower-case identifiers, the whitelist has no repeats and excludes the key, only payments has optional columns |
| Schema.Lookup | app.py:34-35 | the path-to-collection part of the routing: a collection name resolves to the entity stored under that table, and a name no collection uses resolves to nothing |
| Schema.LookupRoundTrip | app.py:34-35 | every entity is found again from its own table name, so no two collections share a table |
| Builder.Selected | app.py:133-138 | the kept columns are exactly the whitelist columns present in the form, in whitelist order (a subsequence of the whitelist) |
| Builder.BoundValues | app.py:135-137 | one bound value per kept column, each the form's value for that column, in the same order |
| Builder.BuildUpdate | app.py:133-145 | "nothing to update" exactly when no whitelisted field is present; otherwise an UPDATE of the schema's table keyed by its primary key, setting exactly the present whitelisted columns in whitelist order, bound to their form values with the id last |
| Builder.UpdateStatementDependsOnlyOnPresence | app.py:135-143 | two forms with the same whitelisted fields present give the same statement, whatever their values, extra fields or ids |
| Builder.UpdateTextIsSafe | app.py:143-145 | the update text reads back as the built statement, so it names only the table, key and whitelisted columns; it carries one `%s` per bound parameter |
| Builder.InsertParam | app.py:82-85 | one INSERT parameter: the form value for the column, or NULL exactly when an optional column is absent (`data.get`, as at app.py:765); never an integer |
| Builder.InsertParams | app.py:81-86 | parameters are evaluated column by column in declared order; success exactly when every required column is present; each parameter is that column's form value or NULL; otherwise the error names the first missing required column |
| Builder.BuildInsert | app.py:78-86 | the INSERT names every whitelisted column in declared order and binds the form values positionally one to one; a missing required field fails before any statement exists, naming the first such column |
| Builder.InsertTextIsSafe | app.py:78-86 | the insert text reads back as an INSERT of the schema's table and columns, with one `%s` per parameter |
| Builder.BuildDelete | app.py:173 | the DELETE targets the schema's table, compares only the primary key, and binds only the id |
| Builder.DeleteTextIsSafe | app.py:173 | the delete text reads back as a DELETE by the primary key and carries exactly one placeholder |
| Sql.Render | app.py:143 | the statement text: the UPDATE and DELETE text is the source's text character for character; the INSERT text differs only in layout (see Left out). Its properties are stated by `Sql.ParseRender` and `Sql.RenderPlaceholders` |
| Sql.RenderPlaceholders | app.py:143-145 | a rendered statement has as many `%s` placeholders as it binds parameters: the column count for an INSERT, the SET count plus one for an UPDATE, one for a DELETE |
| Sql.ParseRender | app.py:143 | the statement is recoverable from its text, so the text is built only from schema identifiers and fixed keywords |
| Sql.RenderInjective | app.py:143 | different statements never share a text |
| Store.Execute | app.py:145 | a successful command keeps the set of tables, changes no table but the addressed one, and was given exactly as many parameters as its placeholders |
| Engine.CreateRecord | app.py:76-94 | the create is rejected exactly when a required field is missing, and then the database is unchanged and the first missing column is reported |
| Engine.UpdateRecord | app.py:129-149 | the update is rejected with "nothing to update" exactly when no whitelisted field is present, and then the database is unchanged |
| Engine.DeleteRecord | app.py:170-177 | a delete always answers `Deleted` or a store error, never a request error |
| Engine.UpdateMeetsReference | app.py:143-149 | an update with some whitelisted field has the reference effect: the row with that id, if any, gets the supplied fields; the answer is `Updated` whether or not the row exists |
| Engine.PatchStoreChangesOnlySuppliedFields | app.py:133-149 | the reference update changes only the supplied columns of the row with that id; other columns, rows, tables and the id counter stay; a missing id changes nothing |
| Engine.DeleteMeetsReference | app.py:173-177 | the executed DELETE removes the row with that id, if any, and the answer is `Deleted` either way |
| Engine.RemoveRowRemovesOnlyThatId | app.py:173-177 | after a delete no row has that id; every other row and table is unchanged; deleting an absent id changes nothing |
| Engine.CreateMeetsReference | app.py:78-94 | a create with every required field stores the reference record under the next auto-increment id and answers with that id |
| Engine.AddRowStoresSubmittedValues | app.py:78-89 | the created row is new; its columns are exactly the schema's; each holds the submitted value, or NULL for an absent optional column; nothing else changes |
| Engine.CreateThenDeleteRestoresRows | app.py:81-177 | deleting the row a create just made gives back the table's previous rows and leaves other tables as they were |
| Engine.UpdateIdempotent | app.py:133-149 | sending the same sparse update twice leaves the database as sending it once, with the same answer |
| Engine.PaymentReferencesAreOptional | app.py:762-767 | a payment create fails exactly when client, date, amount or method is missing; an absent booking or order reference is stored as NULL |

## Left out

- HTTP routing, reading `request.form`, `jsonify` replies and the Swagger
  docstrings. Of the routing only the mapping from a path's collection
  name to its entity is kept, as `Schema.Lookup`. The engine gets the
  form as a map and answers with a `Response`, not a status code.
- Exact status codes and messages. Clients create returns 201, the other
  creates return the default status, and deletes return 204. The model
  only tells created, updated, deleted, a request error and a store error
  apart.
- The connection, cursor, `commit` and `close`, and the connection left
  open on the early 400 return. Resource handling is not expressible in a
  pure model. The database module is not part of this model: `Store` is
  an abstract stand-in for it.
- The list operations (`SELECT *`). They are a pass-through read with no logic.
- Type conversion of form values, including the numeric and floating-point
  columns. Every form value is an opaque string, and the database does
  any conversion.
- Foreign keys, `NOT NULL` and other database constraints. Their schema
  is not part of this model, so the store accepts any values.
- Concurrency and isolation between simultaneous requests.
- A repeated form field. `request.form` can hold several values for one
  name; the model keeps the first value, the one the code reads.
- Statement layout. The source's INSERT text has a line break and
  indentation, and a space before the parenthesis only for clients.
  `Render` uses single spaces throughout. The database does not depend on
  the layout.
- The row count the driver reports. The code never reads it: it answers
  "updated" or "deleted" whether or not a row matched, and the model does
  the same.
- Unknown form fields are ignored, not rejected: the code reads only
  whitelisted names (app.py:135-138, 81-86).
  `UpdateStatementDependsOnlyOnPresence` shows they have no effect on the
  update, and `BuildInsert` never reads them.
- Engine.CreateRecord: a missing required field is answered as a request
  error naming the first missing column. In the source this is the
  `KeyError` of `data[...]`; whether the client sees a 400 at all, and
  whether the reply names the column, depends on Flask's debug setting
  (app.py:1026 runs with `debug=True`, where Flask lets the error through
  as an unhandled exception). The model records the evident intent.
