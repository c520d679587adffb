/** sql_helper.js, the oldest helper: one connection opened when the module loads,
    no bootstrap, and no error handling, so an error thrown by the engine rejects
    the call (and stops whatever the call had left to do). */
module Legacy {
  import opened Options
  import opened JsValues
  import opened Strings
  import opened Driver
  import Statements

  /** How a call settles: resolved with a value, or rejected by a thrown error. */
  datatype Completion<Row> = Completed(data: Data<Row>) | Rejected

  /** The calls made on the connection, and how the call settled. */
  datatype Step<V, Row> = Step(trace: seq<Call<V>>, completion: Completion<Row>)

  /** `"SELECT " + fields + " FROM " + table + " " + conditionalQuery`: the clause is
      always appended, so a missing one prints as `undefined`. */
  function SelectSql(fields: Text, table: string, clause: Text): (sql: string)
    ensures Statements.SelectHead(fields, table) + " " <= sql
    ensures sql[|Statements.SelectHead(fields, table)| + 1..] == Render(clause)
  {
    "SELECT " + Render(WithDefault(fields, Str("*"))) + " FROM " + table + " " + Render(clause)
  }

  /** `"DELETE FROM " + table + " " + conditionalQuery` */
  function DeleteSql(table: string, clause: Text): string
  {
    "DELETE FROM " + table + " " + Render(clause)
  }

  /** The oldest select agrees with the later helpers' select exactly when the clause
      is truthy; otherwise it carries a trailing space and the clause's printed form. */
  lemma SelectMatchesHelperIffClause(fields: Text, table: string, clause: Text)
    ensures SelectSql(fields, table, clause) == Statements.SelectSql(fields, table, clause)
            <==> Truthy(clause)
  {
  }

  /** The oldest delete is the sqlite_helper.js delete without an id. */
  lemma DeleteMatchesJavaScriptHelper(table: string, clause: Text, id: Numeric)
    requires !Truthy(id)
    ensures DeleteSql(table, clause) == Statements.DeleteSql(Statements.JavaScript, table, id, clause)
  {
  }

  /** The loop of SQL__insert: push each field, a `?` and each value, then join. It
      builds the same statement as the `map`/`join` form of the later helpers. */
  method BuildInsert<V>(table: string, data: seq<Statements.DataField<V>>)
    returns (r: Option<Statements.Statement<V>>)
    ensures r == Statements.InsertStatement(table, data)
  {
    if |data| == 0 {
      return None;
    }
    var fields: seq<string> := [];
    var holder: seq<string> := [];
    var value: seq<V> := [];
    var i := 0;
    while i < |data|
      invariant 0 <= i <= |data|
      invariant |fields| == i && |holder| == i && |value| == i
      invariant forall k :: 0 <= k < i ==> fields[k] == data[k].field
      invariant forall k :: 0 <= k < i ==> holder[k] == "?"
      invariant forall k :: 0 <= k < i ==> value[k] == data[k].value
    {
      fields := fields + [data[i].field];
      holder := holder + ["?"];
      value := value + [data[i].value];
      i := i + 1;
    }
    assert fields == Statements.Columns(data);
    assert holder == Statements.Marks(|data|);
    assert value == Statements.Values(data);
    var fieldsString := Join(fields, ", ");
    var holderString := Join(holder, ", ");
    var sql := "INSERT INTO " + table + " (" + fieldsString + ") VALUES (" + holderString + ")";
    r := Some(Statements.Statement(sql, value));
  }

  /** Settles a call: a thrown error rejects, otherwise `keep` decides what it resolves to. */
  function Settle<Row>(reply: Reply<Row>, keep: bool): Completion<Row>
  {
    if reply.Threw? then Rejected else Completed(if keep then reply.data else NoData)
  }

  /** SQL__select: resolves to the rows the engine returns. */
  function Select<V, Row>(trace: seq<Call<V>>, engine: Engine<V, Row>,
                          fields: Text, table: string, clause: Text): (r: Step<V, Row>)
    ensures r.trace == trace + [SelectCall(SelectSql(fields, table, clause))]
    ensures r.completion.Rejected? <==> engine(trace, SelectCall(SelectSql(fields, table, clause))).Threw?
    ensures r.completion.Completed?
            ==> r.completion.data == engine(trace, SelectCall(SelectSql(fields, table, clause))).data
  {
    var call := SelectCall(SelectSql(fields, table, clause));
    Step(trace + [call], Settle(engine(trace, call), true))
  }

  /** SQL__insert: empty data runs nothing; otherwise one execute with bound values. */
  function Insert<V, Row>(trace: seq<Call<V>>, engine: Engine<V, Row>,
                          table: string, data: seq<Statements.DataField<V>>): (r: Step<V, Row>)
    ensures |data| == 0 ==> r == Step(trace, Completed(NoData))
    ensures |data| > 0 ==> |r.trace| == |trace| + 1 && r.trace[..|trace|] == trace
    ensures |data| > 0 ==> r.trace[|trace|].ExecuteCall?
                           && r.trace[|trace|].params == Statements.Values(data)
    ensures |data| > 0
            ==> r.trace == trace + [ExecuteCall(Statements.InsertStatement(table, data).value.sql,
                                                Statements.Values(data))]
    ensures r.completion.Rejected? ==> |data| > 0
    ensures |data| > 0 ==> (r.completion.Rejected? <==> engine(trace, r.trace[|trace|]).Threw?)
    ensures r.completion.Completed? ==> r.completion.data == NoData
  {
    match Statements.InsertStatement(table, data)
    case None => Step(trace, Completed(NoData))
    case Some(st) =>
      var call := ExecuteCall(st.sql, st.params);
      Step(trace + [call], Settle(engine(trace, call), false))
  }

  /** SQL__delete */
  function Delete<V, Row>(trace: seq<Call<V>>, engine: Engine<V, Row>,
                          table: string, clause: Text): (r: Step<V, Row>)
    ensures r.trace == trace + [ExecuteCall(DeleteSql(table, clause), [])]
    ensures r.completion.Rejected? <==> engine(trace, ExecuteCall(DeleteSql(table, clause), [])).Threw?
    ensures r.completion.Completed? ==> r.completion.data == NoData
  {
    var call := ExecuteCall(DeleteSql(table, clause), []);
    Step(trace + [call], Settle(engine(trace, call), false))
  }

  /** SQL__truncate: `DELETE FROM t`, then `VACUUM`; a throw from the first rejects
      the call before the second is issued. */
  function Truncate<V, Row>(trace: seq<Call<V>>, engine: Engine<V, Row>, table: string)
    : (r: Step<V, Row>)
    ensures |trace| < |r.trace| <= |trace| + 2 && r.trace[..|trace|] == trace
    ensures r.trace[|trace|] == ExecuteCall("DELETE FROM " + table, [])
    ensures |r.trace| == |trace| + 2 <==> engine(trace, r.trace[|trace|]).Returned?
    ensures |r.trace| == |trace| + 2 ==> r.trace[|trace| + 1] == ExecuteCall("VACUUM", [])
    ensures r.completion.Rejected?
            <==> engine(trace, r.trace[|trace|]).Threw? || engine(r.trace[..|trace| + 1], r.trace[|trace| + 1]).Threw?
    ensures r.completion.Completed? ==> r.completion.data == NoData
  {
    var sqls := Statements.TruncateSqls(table);
    var first := ExecuteCall(sqls[0], []);
    var t1 := trace + [first];
    if engine(trace, first).Threw? then Step(t1, Rejected)
    else
      var second := ExecuteCall(sqls[1], []);
      Step(t1 + [second], Settle(engine(t1, second), false))
  }

  /** SQL__query: the text is executed unchanged and nothing is returned. */
  function Query<V, Row>(trace: seq<Call<V>>, engine: Engine<V, Row>, sql: string): (r: Step<V, Row>)
    ensures r.trace == trace + [ExecuteCall(sql, [])]
    ensures r.completion.Rejected? <==> engine(trace, ExecuteCall(sql, [])).Threw?
    ensures r.completion.Completed? ==> r.completion.data == NoData
  {
    var call := ExecuteCall(sql, []);
    Step(trace + [call], Settle(engine(trace, call), false))
  }
}
