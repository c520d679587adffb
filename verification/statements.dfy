/** The SQL text built inside the SQL__* functions of the two sqlite_helper
    generations (sqlite_helper.ts and the earlier sqlite_helper.js). Table names,
    field lists and condition clauses are caller-trusted text interpolated
    verbatim; only insert/update values travel separately as bound parameters. */
module Statements {
  import opened Options
  import opened Strings
  import opened JsValues

  /** Which generation of the helper a builder follows. The two differ only in how
      update and delete print a missing condition clause, and in what SQL__query returns. */
  datatype Variant = TypeScript | JavaScript

  /** One `{field, value}` pair passed to insert or update. */
  datatype DataField<V> = DataField(field: string, value: V)

  /** A statement text together with the values bound to its `?` placeholders. */
  datatype Statement<V> = Statement(sql: string, params: seq<V>)

  /** `data.map((item) => item.field)` */
  function Columns<V>(data: seq<DataField<V>>): seq<string>
  {
    seq(|data|, i requires 0 <= i < |data| => data[i].field)
  }

  /** `data.map((item) => item.value)` */
  function Values<V>(data: seq<DataField<V>>): seq<V>
  {
    seq(|data|, i requires 0 <= i < |data| => data[i].value)
  }

  /** `data.map(() => "?")` */
  function Marks(n: nat): seq<string>
  {
    seq(n, _ => "?")
  }

  /** `data.map((item) => `${item.field} = ?`)` */
  function Assignments<V>(data: seq<DataField<V>>): seq<string>
  {
    seq(|data|, i requires 0 <= i < |data| => data[i].field + " = ?")
  }

  /** The column list of a select: the `fields` argument, `*` when it is left out. */
  function SelectHead(fields: Text, table: string): string
  {
    "SELECT " + Render(WithDefault(fields, Str("*"))) + " FROM " + table
  }

  /** SQL__select: the clause follows the head, after one space, only when it is truthy. */
  function SelectSql(fields: Text, table: string, clause: Text): (sql: string)
    ensures SelectHead(fields, table) <= sql
    ensures Truthy(clause) <==> |sql| > |SelectHead(fields, table)|
    ensures Truthy(clause) ==> sql[|SelectHead(fields, table)|..] == " " + clause.s
  {
    var head := SelectHead(fields, table);
    if Truthy(clause) then head + " " + Render(clause) else head
  }

  /** SQL__insert: nothing for empty data, otherwise one column and one `?` per pair,
      with the pair values bound in pair order. */
  function InsertStatement<V>(table: string, data: seq<DataField<V>>): (r: Option<Statement<V>>)
    ensures r.None? <==> |data| == 0
    ensures r.Some? ==> |r.value.params| == |data|
    ensures r.Some? ==> forall i :: 0 <= i < |data| ==> r.value.params[i] == data[i].value
  {
    if |data| == 0 then None
    else
      var sql := "INSERT INTO " + table + " (" + Join(Columns(data), ", ")
                 + ") VALUES (" + Join(Marks(|data|), ", ") + ")";
      Some(Statement(sql, Values(data)))
  }

  /** The clause text update and delete print when no truthy `id` is given:
      sqlite_helper.ts falls back to "" (`conditionalQuery || ""`), sqlite_helper.js
      prints the clause as is, so a missing clause becomes `undefined` or `null`. */
  function ClauseText(variant: Variant, clause: Text): string
  {
    match variant
    case TypeScript => RenderOrEmpty(clause)
    case JavaScript => Render(clause)
  }

  /** The end of an update or delete, choosing the rows: a truthy `id` wins over the clause. */
  function Filter(variant: Variant, id: Numeric, clause: Text): string
  {
    if Truthy(id) then " WHERE id=" + Render(id) else " " + ClauseText(variant, clause)
  }

  /** SQL__update: nothing for empty data, otherwise `f = ?` per pair, then either
      `WHERE id=<id>` (a truthy id) or the clause text, with the pair values bound in
      pair order. */
  function UpdateStatement<V>(variant: Variant, table: string, data: seq<DataField<V>>,
                              id: Numeric, clause: Text): (r: Option<Statement<V>>)
    ensures r.None? <==> |data| == 0
    ensures r.Some? ==> |r.value.params| == |data|
    ensures r.Some? ==> forall i :: 0 <= i < |data| ==> r.value.params[i] == data[i].value
    ensures r.Some? && Truthy(id)
            ==> r.value.sql == "UPDATE " + table + " SET " + Join(Assignments(data), ", ")
                               + " WHERE id=" + IntToDecimal(id.n)
    ensures r.Some? && !Truthy(id)
            ==> r.value.sql == "UPDATE " + table + " SET " + Join(Assignments(data), ", ")
                               + " " + ClauseText(variant, clause)
  {
    if |data| == 0 then None
    else
      var sql := "UPDATE " + table + " SET " + Join(Assignments(data), ", ") + Filter(variant, id, clause);
      Some(Statement(sql, Values(data)))
  }

  /** SQL__delete: the table, then either `WHERE id=<id>` (a truthy id) or the clause text. */
  function DeleteSql(variant: Variant, table: string, id: Numeric, clause: Text): (sql: string)
    ensures Truthy(id) ==> sql == "DELETE FROM " + table + " WHERE id=" + IntToDecimal(id.n)
    ensures !Truthy(id) ==> sql == "DELETE FROM " + table + " " + ClauseText(variant, clause)
  {
    "DELETE FROM " + table + Filter(variant, id, clause)
  }

  /** SQL__dropTable: `IF EXISTS` is inserted exactly when `ifExist` is true. */
  function DropTableSql(table: string, ifExist: bool): (sql: string)
    ensures |sql| >= |"DROP TABLE "| && sql[..|"DROP TABLE "|] == "DROP TABLE "
    ensures |sql| >= |table| && sql[|sql| - |table|..] == table
    ensures ifExist <==> |sql| == |"DROP TABLE IF EXISTS "| + |table|
    ensures !ifExist ==> |sql| == |"DROP TABLE "| + |table|
    ensures ifExist ==> sql[|"DROP TABLE "|..|"DROP TABLE IF EXISTS "|] == "IF EXISTS "
  {
    if ifExist then "DROP TABLE IF EXISTS " + table else "DROP TABLE " + table
  }

  /** SQL__truncate: the two statements, in the order they are executed. */
  function TruncateSqls(table: string): seq<string>
  {
    ["DELETE FROM " + table, "VACUUM"]
  }

  // ---------------------------------------------------------------------------
  // Properties of the builders

  lemma {:induction false} OccurrencesMarks(n: nat)
    ensures OccurrencesAll(Marks(n), '?') == n
  {
    if n > 0 {
      assert Marks(n)[1..] == Marks(n - 1);
      OccurrencesMarks(n - 1);
    }
  }

  lemma {:induction false} OccurrencesAssignments<V>(data: seq<DataField<V>>)
    ensures OccurrencesAll(Assignments(data), '?') == OccurrencesAll(Columns(data), '?') + |data|
  {
    if |data| > 0 {
      assert Assignments(data)[1..] == Assignments(data[1..]);
      assert Columns(data)[1..] == Columns(data[1..]);
      OccurrencesAssignments(data[1..]);
      OccurrencesAppend(data[0].field, " = ?", '?');
    }
  }

  /** Placeholder count of an insert: one `?` per pair, plus any `?` the caller put
      in the table or field names; with clean names the counts match exactly. */
  lemma InsertPlaceholdersMatch<V>(table: string, data: seq<DataField<V>>)
    requires |data| > 0
    ensures Occurrences(InsertStatement(table, data).value.sql, '?')
            == Occurrences(table, '?') + OccurrencesAll(Columns(data), '?')
               + |InsertStatement(table, data).value.params|
  {
    OccurrencesJoin(Columns(data), ", ", '?');
    OccurrencesJoin(Marks(|data|), ", ", '?');
    OccurrencesMarks(|data|);
    OccurrencesAbsent(", ", '?');
    InsertTextOccurrences(table, Join(Columns(data), ", "), Join(Marks(|data|), ", "));
  }

  lemma InsertTextOccurrences(table: string, columns: string, marks: string)
    ensures Occurrences("INSERT INTO " + table + " (" + columns + ") VALUES (" + marks + ")", '?')
            == Occurrences(table, '?') + Occurrences(columns, '?') + Occurrences(marks, '?')
  {
    OccurrencesBetween("INSERT INTO ", table, " (", columns, ") VALUES (", marks, ")", '?');
  }

  /** The column list and the placeholder list of an insert read back, by splitting
      at ", ", to the pair fields in order and to one `?` per pair, provided no field
      name contains a comma. */
  lemma InsertListsReadBack<V>(table: string, data: seq<DataField<V>>)
    requires |data| > 0
    requires forall i :: 0 <= i < |data| ==> ',' !in data[i].field
    ensures exists columns: string, marks: string ::
              && InsertStatement(table, data).value.sql
                 == "INSERT INTO " + table + " (" + columns + ") VALUES (" + marks + ")"
              && Split(columns, ", ") == Columns(data)
              && Split(marks, ", ") == Marks(|data|)
  {
    var columns := Join(Columns(data), ", ");
    var marks := Join(Marks(|data|), ", ");
    SplitJoin(Columns(data), ", ");
    SplitJoin(Marks(|data|), ", ");
    assert InsertStatement(table, data).value.sql
        == "INSERT INTO " + table + " (" + columns + ") VALUES (" + marks + ")";
  }

  /** Placeholder count of an update: one `?` per pair, plus any `?` in the table,
      the field names, or the clause text (a printed id adds none). */
  lemma UpdatePlaceholdersMatch<V>(variant: Variant, table: string, data: seq<DataField<V>>,
                                   id: Numeric, clause: Text)
    requires |data| > 0
    ensures Occurrences(UpdateStatement(variant, table, data, id, clause).value.sql, '?')
            == Occurrences(table, '?') + OccurrencesAll(Columns(data), '?')
               + (if Truthy(id) then 0 else Occurrences(ClauseText(variant, clause), '?'))
               + |UpdateStatement(variant, table, data, id, clause).value.params|
  {
    OccurrencesJoin(Assignments(data), ", ", '?');
    OccurrencesAssignments(data);
    OccurrencesAbsent(", ", '?');
    UpdateTextOccurrences(table, Join(Assignments(data), ", "), Filter(variant, id, clause));
    FilterOccurrences(variant, id, clause);
  }

  lemma UpdateTextOccurrences(table: string, assignments: string, filter: string)
    ensures Occurrences("UPDATE " + table + " SET " + assignments + filter, '?')
            == Occurrences(table, '?') + Occurrences(assignments, '?') + Occurrences(filter, '?')
  {
    OccurrencesBetween("UPDATE ", table, " SET ", assignments, "", filter, "", '?');
    assert "UPDATE " + table + " SET " + assignments + "" + filter + ""
        == "UPDATE " + table + " SET " + assignments + filter;
  }

  /** A printed id adds no placeholder; a clause adds whatever `?` its text holds. */
  lemma FilterOccurrences(variant: Variant, id: Numeric, clause: Text)
    ensures Occurrences(Filter(variant, id, clause), '?')
            == if Truthy(id) then 0 else Occurrences(ClauseText(variant, clause), '?')
  {
    if Truthy(id) {
      RenderNumberHasNoMark(id);
      OccurrencesAbsent(" WHERE id=" + Render(id), '?');
    } else {
      OccurrencesAbsent(" ", '?');
      OccurrencesAppend(" ", ClauseText(variant, clause), '?');
    }
  }

  /** The assignment list of an update reads back, by splitting at ", ", to one
      `field = ?` per pair in order, provided no field name contains a comma. */
  lemma UpdateAssignmentsReadBack<V>(variant: Variant, table: string, data: seq<DataField<V>>,
                                     id: Numeric, clause: Text)
    requires |data| > 0
    requires forall i :: 0 <= i < |data| ==> ',' !in data[i].field
    ensures exists assignments: string ::
              && UpdateStatement(variant, table, data, id, clause).value.sql
                 == "UPDATE " + table + " SET " + assignments + Filter(variant, id, clause)
              && Split(assignments, ", ") == Assignments(data)
  {
    var assignments := Join(Assignments(data), ", ");
    forall i | 0 <= i < |data| ensures ',' !in Assignments(data)[i] {
      assert Assignments(data)[i] == data[i].field + " = ?";
    }
    SplitJoin(Assignments(data), ", ");
    assert UpdateStatement(variant, table, data, id, clause).value.sql
        == "UPDATE " + table + " SET " + assignments + Filter(variant, id, clause);
  }

  /** A truthy id takes priority: the clause is ignored, both generations agree, and
      the filter reads back to the id. */
  lemma IdTakesPriority(variant: Variant, id: Numeric, clause: Text, other: Text)
    requires Truthy(id)
    ensures Filter(variant, id, clause) == Filter(variant, id, other)
    ensures Filter(TypeScript, id, clause) == Filter(JavaScript, id, clause)
    ensures var f := Filter(variant, id, clause);
            && f[..10] == " WHERE id="
            && (if f[10] == '-' then AllDigits(f[11..]) else AllDigits(f[10..]))
            && ParseInt(f[10..]) == id.n
  {
    var f := Filter(variant, id, clause);
    assert f[10..] == IntToDecimal(id.n);
    IntDecimalRoundTrip(id.n);
  }

  /** Without a truthy id the filter is the clause text after one space, and the id
      (undefined, null or 0) does not matter. */
  lemma FalsyIdFallsThrough(variant: Variant, id: Numeric, other: Numeric, clause: Text)
    requires !Truthy(id) && !Truthy(other)
    ensures Filter(variant, id, clause) == " " + ClauseText(variant, clause)
    ensures Filter(variant, id, clause) == Filter(variant, other, clause)
  {
  }

  /** The two generations build the same filter exactly when a truthy id is given or
      the clause is a string; a missing (undefined or null) clause prints as nothing
      in sqlite_helper.ts and as its name in sqlite_helper.js. */
  lemma GenerationsAgree(id: Numeric, clause: Text)
    ensures Filter(TypeScript, id, clause) == Filter(JavaScript, id, clause)
            <==> Truthy(id) || clause.Str?
  {
  }

  /** With neither an id nor a clause, delete targets the whole table: the text ends
      after a single space in sqlite_helper.ts, and with `undefined` in sqlite_helper.js. */
  lemma MissingClauseDelete(table: string)
    ensures DeleteSql(TypeScript, table, Undefined, Undefined) == "DELETE FROM " + table + " "
    ensures DeleteSql(JavaScript, table, Undefined, Undefined) == "DELETE FROM " + table + " undefined"
  {
  }
}
