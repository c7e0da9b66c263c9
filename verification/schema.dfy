/**
 * The entity schema registry: for each of the six managed collections, the
 * table name, the primary-key column and the ordered column whitelist that
 * both the INSERT and the sparse UPDATE of that collection use.
 */
module Schema {
  import opened Wrappers
  import opened Seqs

  /** A column whitelist entry and every other SQL identifier is a plain string. */
  type Identifier = string

  datatype EntitySchema = EntitySchema(
    table: Identifier,            // table name, also the HTTP collection path
    pk: Identifier,               // primary-key column, used only for addressing
    columns: seq<Identifier>,     // whitelist, in declared order
    optional: set<Identifier>     // columns bound as NULL when absent on create
  )

  datatype Entity = Client | Booking | MenuItem | Order | Payment | Room

  /** Lower-case letters and underscores only: never a quote, a `%`, a comma or a space. */
  predicate IsIdentifier(s: string) {
    |s| > 0 && forall i :: 0 <= i < |s| ==> IdentifierChar(s[i])
  }

  predicate IdentifierChar(c: char) {
    'a' <= c <= 'z' || c == '_'
  }

  /** Every name of the schema is an identifier. */
  predicate NamesAreIdentifiers(s: EntitySchema) {
    && IsIdentifier(s.table)
    && IsIdentifier(s.pk)
    && (forall c :: c in s.columns ==> IsIdentifier(c))
  }

  /** The whitelist has no duplicates, never contains the primary key, and holds the optional columns. */
  predicate ColumnsConsistent(s: EntitySchema) {
    && Distinct(s.columns)
    && s.pk !in s.columns
    && (forall c :: c in s.optional ==> c in s.columns)
  }

  /** What every schema of the registry satisfies. */
  predicate WellFormed(s: EntitySchema) {
    NamesAreIdentifiers(s) && ColumnsConsistent(s)
  }

  function ClientSchema(): EntitySchema {
    EntitySchema(TableName(Client), "client_id", ["name", "surname", "phone", "email"], {})
  }

  function BookingSchema(): EntitySchema {
    EntitySchema(TableName(Booking), "booking_id",
      ["client_id", "room_id", "check_in", "check_out", "total_amount", "booking_status"], {})
  }

  function MenuItemSchema(): EntitySchema {
    EntitySchema(TableName(MenuItem), "dish_id", ["name", "category", "price"], {})
  }

  function OrderSchema(): EntitySchema {
    EntitySchema(TableName(Order), "order_id",
      ["client_id", "dish_id", "order_date", "quantity", "price", "total_amount", "order_status"], {})
  }

  /** The only collection with optional columns: a payment need not reference a booking or an order. */
  function PaymentSchema(): EntitySchema {
    EntitySchema(TableName(Payment), "payment_id",
      ["client_id", "booking_id", "order_id", "payment_date", "amount", "payment_method"],
      {"booking_id", "order_id"})
  }

  function RoomSchema(): EntitySchema {
    EntitySchema(TableName(Room), "room_id", ["room_number", "type", "price", "room_status"], {})
  }

  lemma NamesByParts(s: EntitySchema)
    requires IsIdentifier(s.table)
    requires IsIdentifier(s.pk)
    requires forall c :: c in s.columns ==> IsIdentifier(c)
    ensures NamesAreIdentifiers(s)
  {
  }

  // Each schema is checked in two small steps, names and columns, per entity.

  lemma ClientSchemaWellFormed()
    ensures WellFormed(ClientSchema())
  {
    ClientSchemaNames();
    ClientSchemaColumns();
  }

  lemma ClientSchemaNames() ensures NamesAreIdentifiers(ClientSchema()) {
    NamesByParts(ClientSchema());
  }
  lemma ClientSchemaColumns() ensures ColumnsConsistent(ClientSchema()) {}

  lemma BookingSchemaWellFormed()
    ensures WellFormed(BookingSchema())
  {
    BookingSchemaNames();
    BookingSchemaColumns();
  }

  lemma BookingSchemaNames() ensures NamesAreIdentifiers(BookingSchema()) {
    NamesByParts(BookingSchema());
  }
  lemma BookingSchemaColumns() ensures ColumnsConsistent(BookingSchema()) {}

  lemma MenuItemSchemaWellFormed()
    ensures WellFormed(MenuItemSchema())
  {
    MenuItemSchemaNames();
    MenuItemSchemaColumns();
  }

  lemma MenuItemSchemaNames() ensures NamesAreIdentifiers(MenuItemSchema()) {
    NamesByParts(MenuItemSchema());
  }
  lemma MenuItemSchemaColumns() ensures ColumnsConsistent(MenuItemSchema()) {}

  lemma OrderSchemaWellFormed()
    ensures WellFormed(OrderSchema())
  {
    OrderSchemaNames();
    OrderSchemaColumns();
  }

  lemma OrderSchemaNames() ensures NamesAreIdentifiers(OrderSchema()) {
    NamesByParts(OrderSchema());
  }
  lemma OrderSchemaColumns() ensures ColumnsConsistent(OrderSchema()) {}

  lemma PaymentSchemaWellFormed()
    ensures WellFormed(PaymentSchema())
  {
    PaymentSchemaNames();
    PaymentSchemaColumns();
  }

  lemma PaymentSchemaNames() ensures NamesAreIdentifiers(PaymentSchema()) {
    NamesByParts(PaymentSchema());
  }
  lemma PaymentSchemaColumns() ensures ColumnsConsistent(PaymentSchema()) {}

  lemma RoomSchemaWellFormed()
    ensures WellFormed(RoomSchema())
  {
    RoomSchemaNames();
    RoomSchemaColumns();
  }

  lemma RoomSchemaNames() ensures NamesAreIdentifiers(RoomSchema()) {
    NamesByParts(RoomSchema());
  }
  lemma RoomSchemaColumns() ensures ColumnsConsistent(RoomSchema()) {}

  /** The table each entity kind is stored in, which is also its URL path segment. */
  function TableName(e: Entity): string {
    match e
    case Client => "clients"
    case Booking => "bookings"
    case MenuItem => "menuitems"
    case Order => "orders"
    case Payment => "payments"
    case Room => "rooms"
  }

  /** The six-row schema table. */
  function SchemaOf(e: Entity): (s: EntitySchema)
    ensures WellFormed(s)
    ensures |s.columns| > 0
    ensures s.optional != {} <==> e == Payment
    ensures s.table == TableName(e)
  {
    match e
    case Client => ClientSchemaWellFormed(); ClientSchema()
    case Booking => BookingSchemaWellFormed(); BookingSchema()
    case MenuItem => MenuItemSchemaWellFormed(); MenuItemSchema()
    case Order => OrderSchemaWellFormed(); OrderSchema()
    case Payment => PaymentSchemaWellFormed(); PaymentSchema()
    case Room => RoomSchemaWellFormed(); RoomSchema()
  }

  /** Resolves a collection name (the URL path segment) to its entity kind. */
  function Lookup(name: string): (r: Option<Entity>)
    ensures r.Some? ==> TableName(r.value) == name
    ensures r.None? ==> forall e: Entity :: TableName(e) != name
  {
    if name == "clients" then Some(Client)
    else if name == "bookings" then Some(Booking)
    else if name == "menuitems" then Some(MenuItem)
    else if name == "orders" then Some(Order)
    else if name == "payments" then Some(Payment)
    else if name == "rooms" then Some(Room)
    else None
  }

  /** Every entity is found under its own table name, so no two share a table. */
  lemma LookupRoundTrip(e: Entity)
    ensures Lookup(TableName(e)) == Some(e)
  {
  }
}
