/** The SQLite driver as the helpers see it: a connection accepts `select(sql)` and
    `execute(sql, params)` calls and answers each with a result or a thrown error.
    SQL itself is not interpreted; the engine is any function of the calls made so
    far and the new call. */
module Driver {

  /** One call handed to the connection. A missing parameter array is recorded as []. */
  datatype Call<V> = SelectCall(sql: string) | ExecuteCall(sql: string, params: seq<V>)

  /** What a call resolves to: an array of rows, or a falsy value (undefined/null). */
  datatype Data<Row> = NoData | Rows(rows: seq<Row>)

  /** The engine's answer: a resolved value, or a thrown error. */
  datatype Reply<Row> = Returned(data: Data<Row>) | Threw

  /** The engine: its answer may depend on every call made before. */
  type Engine<!V, Row> = (seq<Call<V>>, Call<V>) -> Reply<Row>
}
