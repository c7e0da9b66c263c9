/**
 * The three statement shapes the engine issues, their rendering to the
 * text handed to the database driver, and a parser that reads that text
 * back. Values never appear in the text: every value is a `%s` placeholder
 * and travels separately as a bound parameter.
 */
module Sql {
  import opened Wrappers
  import opened Schema

  /** A bound parameter: a form string, the integer id from the URL, or NULL (Python `None`). */
  datatype Value = Text(text: string) | Int(number: int) | Null

  datatype Statement =
    | Insert(table: Identifier, columns: seq<Identifier>)
    | Update(table: Identifier, assignments: seq<Identifier>, key: Identifier)
    | Delete(table: Identifier, key: Identifier)

  /** A statement together with the parameters bound to its placeholders, in order. */
  datatype Command = Command(statement: Statement, params: seq<Value>)

  /** The number of `%s` placeholders the statement carries. */
  function Arity(s: Statement): nat {
    match s
    case Insert(_, cols) => |cols|
    case Update(_, cols, _) => |cols| + 1
    case Delete(_, _) => 1
  }

  /** Every name the statement mentions is an identifier. */
  predicate WellNamed(s: Statement) {
    && IsIdentifier(s.table)
    && (s.Insert? ==> forall c :: c in s.columns ==> IsIdentifier(c))
    && (s.Update? ==> forall c :: c in s.assignments ==> IsIdentifier(c))
    && (!s.Insert? ==> IsIdentifier(s.key))
  }

  // ---------------------------------------------------------------- rendering

  /** `c1<suffix>, c2<suffix>, ...`: the column list of an INSERT (empty suffix) or the SET list of an UPDATE. */
  function JoinItems(cols: seq<Identifier>, suffix: string): string {
    if |cols| == 0 then ""
    else if |cols| == 1 then cols[0] + suffix
    else cols[0] + suffix + ", " + JoinItems(cols[1..], suffix)
  }

  /** `%s, %s, ...` with `n` placeholders. */
  function Marks(n: nat): string {
    if n == 0 then ""
    else if n == 1 then "%s"
    else "%s, " + Marks(n - 1)
  }

  /** The statement text, with single spaces where the source has line breaks and indentation. */
  function Render(s: Statement): string {
    match s
    case Insert(t, cols) => "INSERT INTO " + t + "(" + JoinItems(cols, "") + ") VALUES (" + Marks(|cols|) + ")"
    case Update(t, cols, k) => "UPDATE " + t + " SET " + JoinItems(cols, "=%s") + " WHERE " + k + "=%s"
    case Delete(t, k) => "DELETE FROM " + t + " WHERE " + k + "=%s"
  }

  /** Placeholders in a statement text, counted by their `%`: every `%` in a rendered text begins a `%s`. */
  function Placeholders(text: string): nat {
    multiset(text)['%']
  }

  // ---------------------------------------------------------------- parsing

  /** Splits at the first occurrence of `sep`, dropping it. */
  function SplitAt(s: string, sep: char): (r: Option<(string, string)>)
    ensures r.None? <==> sep !in s
    ensures r.Some? ==> s == r.value.0 + [sep] + r.value.1 && sep !in r.value.0
  {
    if |s| == 0 then None
    else if s[0] == sep then Some(([], s[1..]))
    else match SplitAt(s[1..], sep)
      case None => None
      case Some((a, b)) => Some(([s[0]] + a, b))
  }

  function StripPrefix(s: string, p: string): Option<string> {
    if |p| <= |s| && s[..|p|] == p then Some(s[|p|..]) else None
  }

  function StripSuffix(s: string, p: string): Option<string> {
    if |p| <= |s| && s[|s| - |p|..] == p then Some(s[..|s| - |p|]) else None
  }

  /** Reads back a list written by `JoinItems` with the same suffix. */
  function ParseItems(s: string, suffix: string): Option<seq<Identifier>>
    decreases |s|
  {
    if s == [] then Some([])
    else match SplitAt(s, ',')
      case None =>
        (match StripSuffix(s, suffix)
         case None => None
         case Some(c) => Some([c]))
      case Some((item, rest)) =>
        if item == [] || rest == [] || rest[0] != ' ' then None
        else match StripSuffix(item, suffix)
          case None => None
          case Some(c) =>
            (match ParseItems(rest[1..], suffix)
             case None => None
             case Some(cs) => Some([c] + cs))
  }

  function ParseInsert(s: string): Option<Statement> {
    match SplitAt(s, '(')
    case None => None
    case Some((t, rest)) =>
      match SplitAt(rest, ')')
      case None => None
      case Some((list, tail)) =>
        match ParseItems(list, "")
        case None => None
        case Some(cols) =>
          if tail == " VALUES (" + Marks(|cols|) + ")" then Some(Insert(t, cols)) else None
  }

  /** The text after `UPDATE `: the SET list ends at the `W` of `WHERE`, which no identifier contains. */
  function ParseUpdate(s: string): Option<Statement> {
    match SplitAt(s, ' ')
    case None => None
    case Some((t, rest)) =>
      match StripPrefix(rest, "SET ")
      case None => None
      case Some(body) =>
        match SplitAt(body, 'W')
        case None => None
        case Some((list, tail)) =>
          match StripSuffix(list, " ")
          case None => None
          case Some(list') =>
            match ParseItems(list', "=%s")
            case None => None
            case Some(cols) =>
              match ParseKey(tail, "HERE ")
              case None => None
              case Some(k) => Some(Update(t, cols, k))
  }

  /** Reads `<lead><key>=%s`. */
  function ParseKey(s: string, lead: string): Option<Identifier> {
    match StripPrefix(s, lead)
    case None => None
    case Some(rest) =>
      match SplitAt(rest, '=')
      case None => None
      case Some((k, tail)) => if tail == "%s" then Some(k) else None
  }

  function ParseDelete(s: string): Option<Statement> {
    match SplitAt(s, ' ')
    case None => None
    case Some((t, rest)) =>
      match ParseKey(rest, "WHERE ")
      case None => None
      case Some(k) => Some(Delete(t, k))
  }

  /** Recovers the statement from its text. */
  function Parse(text: string): Option<Statement> {
    match StripPrefix(text, "INSERT INTO ")
    case Some(rest) => ParseInsert(rest)
    case None =>
      match StripPrefix(text, "UPDATE ")
      case Some(rest) => ParseUpdate(rest)
      case None =>
        match StripPrefix(text, "DELETE FROM ")
        case Some(rest) => ParseDelete(rest)
        case None => None
  }

  // ---------------------------------------------------------------- properties

  /** Characters that can occur in a rendered column or SET list. */
  predicate ListChar(ch: char) {
    IdentifierChar(ch) || ch == '=' || ch == '%' || ch == ',' || ch == ' '
  }

  /** The punctuation the parser splits on never occurs inside an identifier. */
  lemma IdentifierExcludes(c: Identifier)
    requires IsIdentifier(c)
    ensures '%' !in c && ',' !in c && ' ' !in c && '=' !in c && '(' !in c && ')' !in c && 'W' !in c
  {
  }

  lemma {:induction false} JoinItemsChars(cols: seq<Identifier>, suffix: string)
    requires forall c :: c in cols ==> IsIdentifier(c)
    requires forall ch :: ch in suffix ==> ListChar(ch)
    ensures forall ch :: ch in JoinItems(cols, suffix) ==> ListChar(ch)
  {
    if |cols| > 0 {
      assert cols[0] in cols;
    }
    if |cols| > 1 {
      JoinItemsChars(cols[1..], suffix);
      assert JoinItems(cols, suffix) == cols[0] + suffix + ", " + JoinItems(cols[1..], suffix);
    }
  }

  lemma PlaceholdersConcat(a: string, b: string)
    ensures Placeholders(a + b) == Placeholders(a) + Placeholders(b)
  {
  }

  lemma NoPlaceholders(x: string)
    requires '%' !in x
    ensures Placeholders(x) == 0
  {
  }

  lemma OnePlaceholder()
    ensures Placeholders("%s") == 1 && Placeholders("=%s") == 1
  {
  }

  /** Each item contributes the placeholders of its suffix and nothing else. */
  lemma {:induction false} JoinItemsPlaceholders(cols: seq<Identifier>, suffix: string)
    requires forall c :: c in cols ==> IsIdentifier(c)
    requires Placeholders(suffix) <= 1
    ensures Placeholders(JoinItems(cols, suffix)) == if Placeholders(suffix) == 0 then 0 else |cols|
  {
    if |cols| > 0 {
      assert cols[0] in cols;
      IdentifierExcludes(cols[0]);
      NoPlaceholders(cols[0]);
      PlaceholdersConcat(cols[0], suffix);
    }
    if |cols| > 1 {
      var tail := JoinItems(cols[1..], suffix);
      JoinItemsPlaceholders(cols[1..], suffix);
      assert '%' !in ", ";
      NoPlaceholders(", ");
      PlaceholdersConcat(cols[0] + suffix, ", ");
      PlaceholdersConcat(cols[0] + suffix + ", ", tail);
    }
  }

  lemma {:induction false} MarksPlaceholders(n: nat)
    ensures Placeholders(Marks(n)) == n
    ensures forall ch :: ch in Marks(n) ==> ListChar(ch)
  {
    OnePlaceholder();
    if n > 1 {
      MarksPlaceholders(n - 1);
      PlaceholdersConcat("%s, ", Marks(n - 1));
    }
  }

  /** A keyword, an identifier and a keyword hold no `%` between them. */
  lemma Clean3(a: string, t: Identifier, b: string)
    requires '%' !in a && '%' !in b && IsIdentifier(t)
    ensures '%' !in a + t + b
  {
    IdentifierExcludes(t);
  }

  /** Text without a `%` around `b` adds no placeholder to it. */
  lemma PlaceholdersBetween(a: string, b: string, c: string)
    requires '%' !in a && '%' !in c
    ensures Placeholders(a + b + c) == Placeholders(b)
  {
    NoPlaceholders(a);
    NoPlaceholders(c);
    PlaceholdersConcat(a, b);
    PlaceholdersConcat(a + b, c);
  }

  lemma PlaceholdersAppend(x: string, c: string)
    requires '%' !in c
    ensures Placeholders(x + c) == Placeholders(x)
  {
    NoPlaceholders(c);
    PlaceholdersConcat(x, c);
  }

  /** The count over the four pieces of a text shaped like an INSERT. */
  lemma PlaceholdersOfInsertShape(k1: string, t: string, k2: string, list: string, k3: string, marks: string, k4: string)
    requires '%' !in k1 && '%' !in t && '%' !in k2 && '%' !in k3 && '%' !in k4
    ensures Placeholders(k1 + t + k2 + list + k3 + marks + k4) == Placeholders(list) + Placeholders(marks)
  {
    assert '%' !in k1 + t + k2;
    PlaceholdersBetween(k1 + t + k2, list, k3);
    PlaceholdersConcat(k1 + t + k2 + list + k3, marks);
    PlaceholdersAppend(k1 + t + k2 + list + k3 + marks, k4);
  }

  lemma InsertPlaceholders(t: Identifier, cols: seq<Identifier>)
    requires WellNamed(Insert(t, cols))
    ensures Placeholders(Render(Insert(t, cols))) == |cols|
  {
    IdentifierExcludes(t);
    PlaceholdersOfInsertShape("INSERT INTO ", t, "(", JoinItems(cols, ""), ") VALUES (", Marks(|cols|), ")");
    NoPlaceholders("");
    JoinItemsPlaceholders(cols, "");
    MarksPlaceholders(|cols|);
  }

  lemma UpdatePlaceholders(t: Identifier, cols: seq<Identifier>, k: Identifier)
    requires WellNamed(Update(t, cols, k))
    ensures Placeholders(Render(Update(t, cols, k))) == |cols| + 1
  {
    var pre := "UPDATE " + t + " SET ";
    var list := JoinItems(cols, "=%s");
    var head := pre + list + " WHERE ";
    Clean3("UPDATE ", t, " SET ");
    PlaceholdersBetween(pre, list, " WHERE ");
    IdentifierExcludes(k);
    PlaceholdersAppend(head, k);
    OnePlaceholder();
    JoinItemsPlaceholders(cols, "=%s");
    PlaceholdersConcat(head + k, "=%s");
  }

  lemma DeletePlaceholders(t: Identifier, k: Identifier)
    requires WellNamed(Delete(t, k))
    ensures Placeholders(Render(Delete(t, k))) == 1
  {
    var head := "DELETE FROM " + t + " WHERE ";
    Clean3("DELETE FROM ", t, " WHERE ");
    IdentifierExcludes(k);
    NoPlaceholders(head);
    PlaceholdersAppend(head, k);
    OnePlaceholder();
    PlaceholdersConcat(head + k, "=%s");
  }

  /**
   * The text carries exactly as many `%s` placeholders as the statement
   * binds parameters, so a command with `Arity` parameters fills every
   * placeholder and leaves no parameter over.
   */
  lemma RenderPlaceholders(s: Statement)
    requires WellNamed(s)
    ensures Placeholders(Render(s)) == Arity(s)
  {
    match s
    case Insert(t, cols) => InsertPlaceholders(t, cols);
    case Update(t, cols, k) => UpdatePlaceholders(t, cols, k);
    case Delete(t, k) => DeletePlaceholders(t, k);
  }

  lemma StripPrefixConcat(p: string, s: string)
    ensures StripPrefix(p + s, p) == Some(s)
  {
    assert (p + s)[..|p|] == p;
    assert (p + s)[|p|..] == s;
  }

  lemma StripPrefixMismatch(x: string, p: string)
    requires |x| > 0 && |p| > 0 && x[0] != p[0]
    ensures StripPrefix(x, p) == None
  {
    if |p| <= |x| {
      assert x[..|p|][0] != p[0];
    }
  }

  lemma {:induction false} SplitAtConcat(a: string, sep: char, b: string)
    requires sep !in a
    ensures SplitAt(a + [sep] + b, sep) == Some((a, b))
  {
    if a != [] {
      assert (a + [sep] + b)[1..] == a[1..] + [sep] + b;
      SplitAtConcat(a[1..], sep, b);
      assert [a[0]] + a[1..] == a;
    }
  }

  lemma StripAffixes(c: string, suffix: string)
    ensures StripSuffix(c + suffix, suffix) == Some(c)
  {
    var s := c + suffix;
    assert s[|s| - |suffix|..] == suffix;
    assert s[..|s| - |suffix|] == c;
  }

  lemma {:induction false} ParseJoinItems(cols: seq<Identifier>, suffix: string)
    requires forall c :: c in cols ==> IsIdentifier(c)
    requires ',' !in suffix
    ensures ParseItems(JoinItems(cols, suffix), suffix) == Some(cols)
  {
    if |cols| > 0 {
      assert cols[0] in cols;
      IdentifierExcludes(cols[0]);
      StripAffixes(cols[0], suffix);
    }
    if |cols| == 1 {
      assert JoinItems(cols, suffix) == cols[0] + suffix;
      assert ',' !in cols[0] + suffix;
      assert [cols[0]] == cols;
    } else if |cols| > 1 {
      var item := cols[0] + suffix;
      var rest := " " + JoinItems(cols[1..], suffix);
      assert JoinItems(cols, suffix) == item + [','] + rest;
      SplitAtConcat(item, ',', rest);
      assert rest[1..] == JoinItems(cols[1..], suffix);
      ParseJoinItems(cols[1..], suffix);
      assert [cols[0]] + cols[1..] == cols;
    }
  }

  lemma ParseInsertRender(t: Identifier, cols: seq<Identifier>)
    requires WellNamed(Insert(t, cols))
    ensures Parse(Render(Insert(t, cols))) == Some(Insert(t, cols))
  {
    var rest := JoinItems(cols, "") + [')'] + (" VALUES (" + Marks(|cols|) + ")");
    InsertTextShape(t, JoinItems(cols, ""), Marks(|cols|));
    StripPrefixConcat("INSERT INTO ", t + ['('] + rest);
    ParseInsertBody(t, cols);
  }

  lemma InsertTextShape(t: string, list: string, marks: string)
    ensures "INSERT INTO " + t + "(" + list + ") VALUES (" + marks + ")"
         == "INSERT INTO " + (t + ['('] + (list + [')'] + (" VALUES (" + marks + ")")))
  {
    assert ") VALUES (" == [')'] + " VALUES (";
  }

  /** The text after `INSERT INTO ` reads back as the table and its column list. */
  lemma ParseInsertBody(t: Identifier, cols: seq<Identifier>)
    requires WellNamed(Insert(t, cols))
    ensures ParseInsert(t + ['('] + (JoinItems(cols, "") + [')'] + (" VALUES (" + Marks(|cols|) + ")")))
         == Some(Insert(t, cols))
  {
    var list := JoinItems(cols, "");
    var tail := " VALUES (" + Marks(|cols|) + ")";
    var rest := list + [')'] + tail;
    IdentifierExcludes(t);
    SplitAtConcat(t, '(', rest);
    ColumnListReadsBack(cols, tail);
    ParseInsertSteps(t + ['('] + rest, t, rest, list, tail, cols);
  }

  lemma ParseInsertSteps(s: string, t: string, rest: string, list: string, tail: string, cols: seq<Identifier>)
    requires SplitAt(s, '(') == Some((t, rest))
    requires SplitAt(rest, ')') == Some((list, tail))
    requires ParseItems(list, "") == Some(cols)
    requires tail == " VALUES (" + Marks(|cols|) + ")"
    ensures ParseInsert(s) == Some(Insert(t, cols))
  {
  }

  lemma ColumnListReadsBack(cols: seq<Identifier>, tail: string)
    requires forall c :: c in cols ==> IsIdentifier(c)
    ensures SplitAt(JoinItems(cols, "") + [')'] + tail, ')') == Some((JoinItems(cols, ""), tail))
    ensures ParseItems(JoinItems(cols, ""), "") == Some(cols)
  {
    var list := JoinItems(cols, "");
    JoinItemsChars(cols, "");
    assert ')' !in list;
    SplitAtConcat(list, ')', tail);
    ParseJoinItems(cols, "");
  }

  lemma ParseKeyConcat(lead: string, k: Identifier)
    requires IsIdentifier(k)
    ensures ParseKey(lead + k + "=%s", lead) == Some(k)
  {
    IdentifierExcludes(k);
    assert lead + k + "=%s" == lead + (k + ['='] + "%s");
    StripPrefixConcat(lead, k + ['='] + "%s");
    SplitAtConcat(k, '=', "%s");
  }

  lemma ParseUpdateRender(t: Identifier, cols: seq<Identifier>, k: Identifier)
    requires WellNamed(Update(t, cols, k))
    ensures Parse(Render(Update(t, cols, k))) == Some(Update(t, cols, k))
  {
    var list := JoinItems(cols, "=%s");
    var rest := t + [' '] + ("SET " + ((list + " ") + ['W'] + ("HERE " + k + "=%s")));
    UpdateTextShape(t, list, k);
    StripPrefixMismatch(Render(Update(t, cols, k)), "INSERT INTO ");
    StripPrefixConcat("UPDATE ", rest);
    ParseUpdateBody(t, cols, k);
  }

  lemma UpdateTextShape(t: string, list: string, k: string)
    ensures "UPDATE " + t + " SET " + list + " WHERE " + k + "=%s"
         == "UPDATE " + (t + [' '] + ("SET " + ((list + " ") + ['W'] + ("HERE " + k + "=%s"))))
  {
    assert " SET " == [' '] + "SET ";
    assert " WHERE " == " " + ['W'] + "HERE ";
  }

  /** The text after `UPDATE ` reads back as the table, the SET list and the key. */
  lemma ParseUpdateBody(t: Identifier, cols: seq<Identifier>, k: Identifier)
    requires WellNamed(Update(t, cols, k))
    ensures ParseUpdate(t + [' '] + ("SET " + ((JoinItems(cols, "=%s") + " ") + ['W'] + ("HERE " + k + "=%s"))))
         == Some(Update(t, cols, k))
  {
    var list := JoinItems(cols, "=%s");
    var tail := "HERE " + k + "=%s";
    var body := (list + " ") + ['W'] + tail;
    IdentifierExcludes(t);
    SplitAtConcat(t, ' ', "SET " + body);
    StripPrefixConcat("SET ", body);
    SetListReadsBack(cols, tail);
    ParseKeyConcat("HERE ", k);
    ParseUpdateSteps(t + [' '] + ("SET " + body), t, body, list, tail, cols, k);
  }

  lemma SetListReadsBack(cols: seq<Identifier>, tail: string)
    requires forall c :: c in cols ==> IsIdentifier(c)
    ensures SplitAt((JoinItems(cols, "=%s") + " ") + ['W'] + tail, 'W') == Some((JoinItems(cols, "=%s") + " ", tail))
    ensures StripSuffix(JoinItems(cols, "=%s") + " ", " ") == Some(JoinItems(cols, "=%s"))
    ensures ParseItems(JoinItems(cols, "=%s"), "=%s") == Some(cols)
  {
    var list := JoinItems(cols, "=%s");
    JoinItemsChars(cols, "=%s");
    assert 'W' !in list + " ";
    SplitAtConcat(list + " ", 'W', tail);
    StripAffixes(list, " ");
    ParseJoinItems(cols, "=%s");
  }

  lemma ParseUpdateSteps(s: string, t: string, body: string, list: string, tail: string,
                         cols: seq<Identifier>, k: Identifier)
    requires SplitAt(s, ' ') == Some((t, "SET " + body))
    requires StripPrefix("SET " + body, "SET ") == Some(body)
    requires SplitAt(body, 'W') == Some((list + " ", tail))
    requires StripSuffix(list + " ", " ") == Some(list)
    requires ParseItems(list, "=%s") == Some(cols)
    requires ParseKey(tail, "HERE ") == Some(k)
    ensures ParseUpdate(s) == Some(Update(t, cols, k))
  {
  }

  lemma ParseDeleteRender(t: Identifier, k: Identifier)
    requires WellNamed(Delete(t, k))
    ensures Parse(Render(Delete(t, k))) == Some(Delete(t, k))
  {
    var tail := "WHERE " + k + "=%s";
    var rest := t + [' '] + tail;
    var text := Render(Delete(t, k));
    IdentifierExcludes(t);
    assert text == "DELETE FROM " + rest;
    StripPrefixMismatch(text, "INSERT INTO ");
    StripPrefixMismatch(text, "UPDATE ");
    StripPrefixConcat("DELETE FROM ", rest);
    SplitAtConcat(t, ' ', tail);
    ParseKeyConcat("WHERE ", k);
  }

  /**
   * The rendered text determines the statement: the table, every column and
   * the key can be read back from it, so nothing but schema identifiers and
   * fixed keywords shapes the text.
   */
  lemma ParseRender(s: Statement)
    requires WellNamed(s)
    ensures Parse(Render(s)) == Some(s)
  {
    match s
    case Insert(t, cols) => ParseInsertRender(t, cols);
    case Update(t, cols, k) => ParseUpdateRender(t, cols, k);
    case Delete(t, k) => ParseDeleteRender(t, k);
  }

  /** Distinct statements render to distinct texts. */
  lemma RenderInjective(s1: Statement, s2: Statement)
    requires WellNamed(s1) && WellNamed(s2)
    requires Render(s1) == Render(s2)
    ensures s1 == s2
  {
    ParseRender(s1);
    ParseRender(s2);
  }
}
