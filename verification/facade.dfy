/** The SQL__* functions of sqlite_helper.ts and sqlite_helper.js. Each first runs
    the bootstrap, does nothing further when no connection exists, otherwise builds
    its statement and hands it to the engine; a thrown error is swallowed into
    `undefined` (or `[]` for SQL__query in sqlite_helper.ts). */
module Facade {
  import opened JsValues
  import opened Statements
  import opened Bootstrap
  import opened Driver

  /** The module state (connection and files) and every call made on the connection. */
  datatype World<V> = World(store: Store, trace: seq<Call<V>>)

  /** What the platform and the engine do during one SQL__* call. The configuration is
      not part of it: it is a module constant, passed once for the whole run. */
  datatype Env<!V, Row> = Env(platform: Platform, engine: Engine<V, Row>)

  /** The state after a call, and what the call resolves to. */
  datatype Step<V, Row> = Step(world: World<V>, result: Data<Row>)

  /** `await initializeDatabase()`, the first line of every SQL__* function. */
  function Connect<V, Row>(config: Config, w: World<V>, env: Env<V, Row>): World<V>
  {
    World(Initialize(w.store, config, env.platform).store, w.trace)
  }

  /** `if (sqlite)` after the bootstrap. */
  predicate Ready<V, Row>(config: Config, w: World<V>, env: Env<V, Row>)
  {
    Connect(config, w, env).store.conn.Some?
  }

  /** The engine's answer to `call` made next. */
  function Answer<V, Row>(w: World<V>, env: Env<V, Row>, call: Call<V>): Reply<Row>
  {
    env.engine(w.trace, call)
  }

  /** Records `call` and returns the engine's answer to it. */
  function Submit<V, Row>(w: World<V>, env: Env<V, Row>, call: Call<V>): (World<V>, Reply<Row>)
  {
    (World(w.store, w.trace + [call]), Answer(w, env, call))
  }

  /** `try { return await ... } catch { }`: a thrown error becomes `undefined`. */
  function Swallow<Row>(reply: Reply<Row>): (d: Data<Row>)
  {
    if reply.Threw? then NoData else reply.data
  }

  function ExecuteOf<V>(st: Statement<V>): Call<V>
  {
    ExecuteCall(st.sql, st.params)
  }

  /** SQL__select */
  function Select<V, Row>(config: Config, w: World<V>, env: Env<V, Row>, fields: Text, table: string, clause: Text)
    : (r: Step<V, Row>)
    ensures r.world.store == Connect(config, w, env).store
    ensures !Ready(config, w, env) ==> r.world.trace == w.trace && r.result == NoData
    ensures Ready(config, w, env) ==> r.world.trace == w.trace + [SelectCall(SelectSql(fields, table, clause))]
    ensures Ready(config, w, env) && Answer(w, env, SelectCall(SelectSql(fields, table, clause))).Threw?
            ==> r.result == NoData
    ensures Ready(config, w, env) && Answer(w, env, SelectCall(SelectSql(fields, table, clause))).Returned?
            ==> r.result == Answer(w, env, SelectCall(SelectSql(fields, table, clause))).data
  {
    var c := Connect(config, w, env);
    if c.store.conn.None? then Step(c, NoData)
    else
      var (c', reply) := Submit(c, env, SelectCall(SelectSql(fields, table, clause)));
      Step(c', Swallow(reply))
  }

  /** SQL__selectRaw: a falsy query runs nothing. */
  function SelectRaw<V, Row>(config: Config, w: World<V>, env: Env<V, Row>, query: Text): (r: Step<V, Row>)
    ensures r.world.store == Connect(config, w, env).store
    ensures !Ready(config, w, env) || !Truthy(query) ==> r.world.trace == w.trace && r.result == NoData
    ensures Ready(config, w, env) && Truthy(query) ==> r.world.trace == w.trace + [SelectCall(query.s)]
    ensures Ready(config, w, env) && Truthy(query) && Answer(w, env, SelectCall(query.s)).Threw?
            ==> r.result == NoData
    ensures Ready(config, w, env) && Truthy(query) && Answer(w, env, SelectCall(query.s)).Returned?
            ==> r.result == Answer(w, env, SelectCall(query.s)).data
  {
    var c := Connect(config, w, env);
    if c.store.conn.None? || !Truthy(query) then Step(c, NoData)
    else
      var (c', reply) := Submit(c, env, SelectCall(query.s));
      Step(c', Swallow(reply))
  }

  /** SQL__insert: resolves to `undefined`; empty data runs nothing. */
  function Insert<V, Row>(config: Config, w: World<V>, env: Env<V, Row>, table: string, data: seq<DataField<V>>)
    : (r: Step<V, Row>)
    ensures r.world.store == Connect(config, w, env).store
    ensures r.result == NoData
    ensures !Ready(config, w, env) || |data| == 0 ==> r.world.trace == w.trace
    ensures Ready(config, w, env) && |data| > 0
            ==> r.world.trace == w.trace + [ExecuteOf(InsertStatement(table, data).value)]
  {
    var c := Connect(config, w, env);
    if c.store.conn.None? then Step(c, NoData)
    else
      match InsertStatement(table, data)
      case None => Step(c, NoData)
      case Some(st) => Step(Submit(c, env, ExecuteOf(st)).0, NoData)
  }

  /** SQL__update: resolves to `undefined`; empty data runs nothing. */
  function Update<V, Row>(variant: Variant, config: Config, w: World<V>, env: Env<V, Row>, table: string,
                          data: seq<DataField<V>>, id: Numeric, clause: Text): (r: Step<V, Row>)
    ensures r.world.store == Connect(config, w, env).store
    ensures r.result == NoData
    ensures !Ready(config, w, env) || |data| == 0 ==> r.world.trace == w.trace
    ensures Ready(config, w, env) && |data| > 0
            ==> r.world.trace == w.trace + [ExecuteOf(UpdateStatement(variant, table, data, id, clause).value)]
  {
    var c := Connect(config, w, env);
    if c.store.conn.None? then Step(c, NoData)
    else
      match UpdateStatement(variant, table, data, id, clause)
      case None => Step(c, NoData)
      case Some(st) => Step(Submit(c, env, ExecuteOf(st)).0, NoData)
  }

  /** SQL__delete: resolves to `undefined`. */
  function Delete<V, Row>(variant: Variant, config: Config, w: World<V>, env: Env<V, Row>, table: string,
                          id: Numeric, clause: Text): (r: Step<V, Row>)
    ensures r.world.store == Connect(config, w, env).store
    ensures r.result == NoData
    ensures !Ready(config, w, env) ==> r.world.trace == w.trace
    ensures Ready(config, w, env)
            ==> r.world.trace == w.trace + [ExecuteCall(DeleteSql(variant, table, id, clause), [])]
  {
    var c := Connect(config, w, env);
    if c.store.conn.None? then Step(c, NoData)
    else Step(Submit(c, env, ExecuteCall(DeleteSql(variant, table, id, clause), [])).0, NoData)
  }

  /** SQL__truncate: `DELETE FROM t`, then `VACUUM` unless the delete threw. */
  function Truncate<V, Row>(config: Config, w: World<V>, env: Env<V, Row>, table: string): (r: Step<V, Row>)
    ensures r.world.store == Connect(config, w, env).store
    ensures r.result == NoData
    ensures !Ready(config, w, env) ==> r.world.trace == w.trace
    ensures Ready(config, w, env) ==> |w.trace| < |r.world.trace| <= |w.trace| + 2
    ensures Ready(config, w, env) ==> r.world.trace[..|w.trace|] == w.trace
    ensures Ready(config, w, env) ==> r.world.trace[|w.trace|] == ExecuteCall("DELETE FROM " + table, [])
    ensures Ready(config, w, env)
            ==> (|r.world.trace| == |w.trace| + 2
                 <==> Answer(w, env, ExecuteCall("DELETE FROM " + table, [])).Returned?)
    ensures |r.world.trace| == |w.trace| + 2
            ==> r.world.trace[|w.trace| + 1] == ExecuteCall("VACUUM", [])
  {
    var c := Connect(config, w, env);
    if c.store.conn.None? then Step(c, NoData)
    else
      var sqls := TruncateSqls(table);
      var (c', first) := Submit(c, env, ExecuteCall(sqls[0], []));
      if first.Threw? then Step(c', NoData)
      else Step(Submit(c', env, ExecuteCall(sqls[1], [])).0, NoData)
  }

  /** SQL__dropTable: resolves to `undefined`. */
  function DropTable<V, Row>(config: Config, w: World<V>, env: Env<V, Row>, table: string, ifExist: bool)
    : (r: Step<V, Row>)
    ensures r.world.store == Connect(config, w, env).store
    ensures r.result == NoData
    ensures !Ready(config, w, env) ==> r.world.trace == w.trace
    ensures Ready(config, w, env) ==> r.world.trace == w.trace + [ExecuteCall(DropTableSql(table, ifExist), [])]
  {
    var c := Connect(config, w, env);
    if c.store.conn.None? then Step(c, NoData)
    else Step(Submit(c, env, ExecuteCall(DropTableSql(table, ifExist), [])).0, NoData)
  }

  /** SQL__query: the query text is executed unchanged. sqlite_helper.ts always
      resolves to an array (`data || []`, and `[]` on failure or without a
      connection); sqlite_helper.js resolves to the raw result or `undefined`. */
  function Query<V, Row>(variant: Variant, config: Config, w: World<V>, env: Env<V, Row>, sql: string)
    : (r: Step<V, Row>)
    ensures r.world.store == Connect(config, w, env).store
    ensures !Ready(config, w, env) ==> r.world.trace == w.trace
    ensures Ready(config, w, env) ==> r.world.trace == w.trace + [ExecuteCall(sql, [])]
    ensures variant.TypeScript? ==> r.result.Rows?
    ensures variant.TypeScript? && Ready(config, w, env) && Answer(w, env, ExecuteCall(sql, [])).Returned?
              && Answer(w, env, ExecuteCall(sql, [])).data.Rows?
            ==> r.result == Answer(w, env, ExecuteCall(sql, [])).data
    ensures variant.TypeScript? && (!Ready(config, w, env) || !Answer(w, env, ExecuteCall(sql, [])).Returned?
                                    || Answer(w, env, ExecuteCall(sql, [])).data.NoData?)
            ==> r.result == Rows([])
    ensures variant.JavaScript? ==> r.result == (if Ready(config, w, env) then Swallow(Answer(w, env, ExecuteCall(sql, []))) else NoData)
  {
    var c := Connect(config, w, env);
    if c.store.conn.None? then
      Step(c, if variant.TypeScript? then Rows([]) else NoData)
    else
      var (c', reply) := Submit(c, env, ExecuteCall(sql, []));
      match variant
      case TypeScript =>
        Step(c', if reply.Returned? && reply.data.Rows? then reply.data else Rows([]))
      case JavaScript =>
        Step(c', Swallow(reply))
  }

  // ---------------------------------------------------------------------------
  // Sequences of calls

  /** One call to any SQL__* function. */
  datatype Request<V> =
    | SelectRequest(fields: Text, table: string, clause: Text)
    | SelectRawRequest(raw: Text)
    | InsertRequest(table: string, data: seq<DataField<V>>)
    | UpdateRequest(table: string, data: seq<DataField<V>>, id: Numeric, clause: Text)
    | DeleteRequest(table: string, id: Numeric, clause: Text)
    | TruncateRequest(table: string)
    | DropTableRequest(table: string, ifExist: bool)
    | QueryRequest(sql: string)

  function Perform<V, Row>(variant: Variant, config: Config, w: World<V>, env: Env<V, Row>, req: Request<V>)
    : Step<V, Row>
  {
    match req
    case SelectRequest(fields, table, clause) => Select(config, w, env, fields, table, clause)
    case SelectRawRequest(raw) => SelectRaw(config, w, env, raw)
    case InsertRequest(table, data) => Insert(config, w, env, table, data)
    case UpdateRequest(table, data, id, clause) => Update(variant, config, w, env, table, data, id, clause)
    case DeleteRequest(table, id, clause) => Delete(variant, config, w, env, table, id, clause)
    case TruncateRequest(table) => Truncate(config, w, env, table)
    case DropTableRequest(table, ifExist) => DropTable(config, w, env, table, ifExist)
    case QueryRequest(sql) => Query(variant, config, w, env, sql)
  }

  /** Successive calls under one configuration, each awaited before the next, with the
      platform and engine behaviour of each. */
  function PerformAll<V, Row>(variant: Variant, config: Config, w: World<V>, envs: seq<Env<V, Row>>,
                              reqs: seq<Request<V>>): World<V>
    requires |envs| == |reqs|
    decreases |reqs|
  {
    if |reqs| == 0 then w
    else PerformAll(variant, config, Perform(variant, config, w, envs[0], reqs[0]).world, envs[1..], reqs[1..])
  }

  /** What never goes backwards: calls already made stay recorded, a connection once
      made is kept, and an existing file is never overwritten or removed. */
  ghost predicate Grows<V>(w: World<V>, w': World<V>)
  {
    && w.trace <= w'.trace
    && (w.store.conn.Some? ==> w'.store.conn == w.store.conn)
    && (forall q :: q in w.store.files ==> q in w'.store.files && w'.store.files[q] == w.store.files[q])
  }

  lemma GrowsTransitive<V>(a: World<V>, b: World<V>, c: World<V>)
    requires Grows(a, b) && Grows(b, c)
    ensures Grows(a, c)
  {
  }

  /** Every SQL__* call keeps the `Grows` invariant. */
  lemma PerformGrows<V, Row>(variant: Variant, config: Config, w: World<V>, env: Env<V, Row>, req: Request<V>)
    ensures Grows(w, Perform(variant, config, w, env, req).world)
  {
  }

  /** Any run of calls keeps the `Grows` invariant. */
  lemma {:induction false} PerformAllGrows<V, Row>(variant: Variant, config: Config, w: World<V>,
                                                    envs: seq<Env<V, Row>>, reqs: seq<Request<V>>)
    requires |envs| == |reqs|
    ensures Grows(w, PerformAll(variant, config, w, envs, reqs))
    decreases |reqs|
  {
    if |reqs| > 0 {
      var w' := Perform(variant, config, w, envs[0], reqs[0]).world;
      PerformGrows(variant, config, w, envs[0], reqs[0]);
      PerformAllGrows(variant, config, w', envs[1..], reqs[1..]);
      GrowsTransitive(w, w', PerformAll(variant, config, w', envs[1..], reqs[1..]));
    }
  }

  /** Once a connection exists, no later call touches the file system or replaces it. */
  lemma {:induction false} ConnectedStoreIsFinal<V, Row>(variant: Variant, config: Config, w: World<V>,
                                                         envs: seq<Env<V, Row>>, reqs: seq<Request<V>>)
    requires |envs| == |reqs|
    requires w.store.conn.Some?
    ensures PerformAll(variant, config, w, envs, reqs).store == w.store
    decreases |reqs|
  {
    if |reqs| > 0 {
      PerformStore(variant, config, w, envs[0], reqs[0]);
      ConnectedStoreIsFinal(variant, config, Perform(variant, config, w, envs[0], reqs[0]).world, envs[1..], reqs[1..]);
    }
  }

  /** Each call leaves the store as the bootstrap left it. */
  lemma PerformStore<V, Row>(variant: Variant, config: Config, w: World<V>, env: Env<V, Row>, req: Request<V>)
    ensures Perform(variant, config, w, env, req).world.store == Connect(config, w, env).store
  {
  }

  /** With the database name unset no call ever reaches the engine. */
  lemma {:induction false} MisconfiguredRunsNothing<V, Row>(variant: Variant, config: Config, w: World<V>,
                                                            envs: seq<Env<V, Row>>, reqs: seq<Request<V>>)
    requires |envs| == |reqs|
    requires w.store.conn.None?
    requires Misconfigured(config)
    ensures PerformAll(variant, config, w, envs, reqs) == w
    decreases |reqs|
  {
    if |reqs| > 0 {
      PerformStore(variant, config, w, envs[0], reqs[0]);
      assert Perform(variant, config, w, envs[0], reqs[0]).world == w;
      MisconfiguredRunsNothing(variant, config, w, envs[1..], reqs[1..]);
    }
  }
}
