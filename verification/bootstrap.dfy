/** initializeDatabase: the lazy "no connection -> connection" bootstrap shared by
    sqlite_helper.ts and sqlite_helper.js. The file system is a map from paths to
    contents; copying the bundled template and opening the database are platform
    steps whose success is decided by a `Platform` record for the attempt. */
module Bootstrap {
  import opened Options

  /** The configured name that means "not configured yet". */
  const PlaceholderName := "YOUR_DATABASE_NAME.db"

  type Bytes = seq<bv8>

  /** An open database connection, as returned by `openOrCreate`. */
  datatype Handle = Handle(id: nat)

  /** The helper's configuration (the `debug` flag only affects logging and is not kept). */
  datatype Config = Config(
    databaseName: string,
    documentsPath: string,   // knownFolders.documents().path
    appPath: string,         // knownFolders.currentApp().path
    assetsFolder: string)    // config.paths.assetsFolder, "assets/db" by default

  /** How the platform behaves during one bootstrap attempt. */
  datatype Platform = Platform(
    copyFault: bool,         // the template copy throws even though the template exists
    openFault: bool,         // `openOrCreate` throws
    handle: Handle)          // the handle `openOrCreate` returns otherwise

  /** The module-level state: the memoized connection and the files on the device. */
  datatype Store = Store(conn: Option<Handle>, files: map<string, Bytes>)

  /** What initializeDatabase resolves to: the handle, `null` for a missing database
      name, or `undefined` when the copy or the open threw. */
  datatype Outcome = Connected(handle: Handle) | NotConfigured | Failed

  datatype Init = Init(store: Store, outcome: Outcome)

  /** `path.join(dir, name)`, without normalisation. */
  function PathJoin(dir: string, name: string): string
  {
    dir + "/" + name
  }

  /** `dbPath`: where the working database lives. */
  function DbPath(c: Config): string
  {
    PathJoin(c.documentsPath, c.databaseName)
  }

  /** `pathDbAssets`: where the bundled template lives. */
  function TemplatePath(c: Config): string
  {
    PathJoin(PathJoin(c.appPath, c.assetsFolder), c.databaseName)
  }

  /** `!config.databaseName || config.databaseName === "YOUR_DATABASE_NAME.db"` */
  predicate Misconfigured(c: Config)
  {
    c.databaseName == "" || c.databaseName == PlaceholderName
  }

  /** The copy from the assets folder succeeds when the template exists and the
      platform reports no fault; otherwise it throws. */
  predicate CopySucceeds(s: Store, c: Config, p: Platform)
  {
    TemplatePath(c) in s.files && !p.copyFault
  }

  /** initializeDatabase */
  function Initialize(s: Store, c: Config, p: Platform): (r: Init)
    ensures s.conn.Some? ==> r == Init(s, Connected(s.conn.value))
    ensures s.conn.None? && Misconfigured(c) ==> r == Init(s, NotConfigured)
    ensures r.outcome.NotConfigured? <==> s.conn.None? && Misconfigured(c)
    ensures s.conn.None? && !Misconfigured(c) && !p.openFault
            && (DbPath(c) in s.files || CopySucceeds(s, c, p))
            ==> r.outcome == Connected(p.handle)
    ensures r.outcome.Connected? <==> r.store.conn.Some?
    ensures r.outcome.Connected? ==> r.store.conn == Some(r.outcome.handle)
    ensures s.conn.None? && r.store.conn.Some? ==> r.store.conn == Some(p.handle)
    ensures DbPath(c) in s.files ==> r.store.files == s.files
    ensures r.store.files == s.files
            || (DbPath(c) !in s.files && TemplatePath(c) in s.files
                && r.store.files == s.files[DbPath(c) := s.files[TemplatePath(c)]])
  {
    if s.conn.Some? then
      Init(s, Connected(s.conn.value))
    else if Misconfigured(c) then
      Init(s, NotConfigured)
    else
      var target := DbPath(c);
      if target !in s.files && !CopySucceeds(s, c, p) then
        Init(s, Failed)
      else
        var files := if target in s.files then s.files
                     else s.files[target := s.files[TemplatePath(c)]];
        if p.openFault then Init(Store(None, files), Failed)
        else Init(Store(Some(p.handle), files), Connected(p.handle))
  }

  /** Any failure leaves no connection behind, so the next call starts over. */
  lemma FailureLeavesNoConnection(s: Store, c: Config, p: Platform)
    ensures Initialize(s, c, p).outcome.Failed? ==> Initialize(s, c, p).store.conn.None?
    ensures Initialize(s, c, p).outcome.Failed? ==> s.conn.None? && !Misconfigured(c)
    ensures Initialize(s, c, p).outcome.Failed?
            <==> s.conn.None? && !Misconfigured(c)
                 && (p.openFault || (DbPath(c) !in s.files && !CopySucceeds(s, c, p)))
  {
  }

  /** A failed copy skips the open and leaves the files as they were. */
  lemma FailedCopySkipsOpen(s: Store, c: Config, p: Platform)
    requires s.conn.None? && !Misconfigured(c)
    requires DbPath(c) !in s.files && !CopySucceeds(s, c, p)
    ensures Initialize(s, c, p) == Init(s, Failed)
  {
  }

  /** First run: the working database becomes a byte-identical copy of the template,
      and every other file is left alone. */
  lemma FirstRunCopiesTemplate(s: Store, c: Config, p: Platform)
    requires s.conn.None? && !Misconfigured(c)
    requires DbPath(c) !in s.files && CopySucceeds(s, c, p)
    ensures var r := Initialize(s, c, p);
            && DbPath(c) in r.store.files
            && r.store.files[DbPath(c)] == s.files[TemplatePath(c)]
            && (forall q :: q in s.files ==> q in r.store.files && r.store.files[q] == s.files[q])
            && r.store.files.Keys == s.files.Keys + {DbPath(c)}
  {
  }

  /** Once connected, calling again returns the same handle and touches nothing,
      whatever the platform would do. */
  lemma ConnectedIsFinal(s: Store, c: Config, p: Platform, q: Platform)
    requires Initialize(s, c, p).outcome.Connected?
    ensures var r := Initialize(s, c, p);
            Initialize(r.store, c, q) == Init(r.store, Connected(r.outcome.handle))
  {
  }

  /** A retry after a failed open does not copy again: the earlier copy persists, and
      a healthy open then connects. */
  lemma RetryAfterFailedOpen(s: Store, c: Config, p: Platform, q: Platform)
    requires Initialize(s, c, p).outcome.Failed? && (DbPath(c) in s.files || CopySucceeds(s, c, p))
    requires !q.openFault
    ensures var r := Initialize(s, c, p);
            && DbPath(c) in r.store.files
            && Initialize(r.store, c, q) == Init(Store(Some(q.handle), r.store.files), Connected(q.handle))
  {
  }

  /** Running the bootstrap for each attempt in turn, as successive SQL__* calls do. */
  function InitializeAll(s: Store, c: Config, ps: seq<Platform>): Store
    decreases |ps|
  {
    if |ps| == 0 then s else InitializeAll(Initialize(s, c, ps[0]).store, c, ps[1..])
  }

  /** Over any run of attempts the working database is written at most once and never
      overwritten, no other file changes, and a connection once made is kept. */
  lemma {:induction false} InitializeAllKeeps(s: Store, c: Config, ps: seq<Platform>)
    ensures var t := InitializeAll(s, c, ps);
            && (forall q :: q in s.files ==> q in t.files && t.files[q] == s.files[q])
            && t.files.Keys <= s.files.Keys + {DbPath(c)}
            && (s.conn.Some? ==> t == s)
    decreases |ps|
  {
    if |ps| > 0 {
      InitializeAllKeeps(Initialize(s, c, ps[0]).store, c, ps[1..]);
    }
  }

  /** With the placeholder name nothing ever happens, however often it is retried. */
  lemma {:induction false} MisconfiguredNeverConnects(s: Store, c: Config, ps: seq<Platform>)
    requires s.conn.None? && Misconfigured(c)
    ensures InitializeAll(s, c, ps) == s
    decreases |ps|
  {
    if |ps| > 0 {
      MisconfiguredNeverConnects(s, c, ps[1..]);
    }
  }
}
