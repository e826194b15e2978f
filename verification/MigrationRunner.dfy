/** The migration runner of backend/src/db/migrationRunner.ts, over a database connection that
    may fail or die at any call. */
module MigrationRunner {
  import opened Sequences
  import opened Text
  import SqlSplitter

  datatype Migration = Migration(version: nat, name: Str, sql: Str)

  /** A database: the tracker table `schema_migrations`, absent until created, and all the rest. */
  datatype Db<C> = Db(content: C, tracker: Option<map<nat, Str>>)

  /** What a connection sees: the committed database and, inside a transaction, a working copy. */
  datatype Conn<C> = Conn(committed: Db<C>, tx: Option<Db<C>>)

  datatype Command = CreateTracker | Begin | Statement(sql: Str) | Record(version: nat, name: Str) | Commit | Rollback

  /** What can befall one call: nothing, an error before or after its effect, an error on which
      the engine drops the open transaction, or the end of the process. */
  datatype Fault = Healthy | FailsBefore | FailsAfter | Aborts | Crashes

  /** The effect of one SQL statement of a migration; `None` is a SQL error. */
  type Engine<!C> = (Str, C) -> Option<C>

  function Recorded<C>(db: Db<C>, version: nat, name: Str): Option<Db<C>> {
    if db.tracker.None? || version in db.tracker.value then None
    else Some(db.(tracker := Some(db.tracker.value[version := name])))
  }

  function Written<C>(conn: Conn<C>, db: Db<C>): Conn<C> {
    if conn.tx.Some? then conn.(tx := Some(db)) else conn.(committed := db)
  }

  function View<C>(conn: Conn<C>): Db<C> {
    if conn.tx.Some? then conn.tx.value else conn.committed
  }

  /** The effect of a command when nothing befalls it; `None` is an error the database reports. */
  function Effect<C>(exec: Engine<C>, cmd: Command, conn: Conn<C>): Option<Conn<C>> {
    match cmd
    case CreateTracker => Some(Written(conn, Booted(View(conn))))
    case Begin => if conn.tx.Some? then None else Some(conn.(tx := Some(conn.committed)))
    case Statement(sql) =>
      (match exec(sql, View(conn).content)
       case None => None
       case Some(c) => Some(Written(conn, View(conn).(content := c))))
    case Record(v, n) =>
      (match Recorded(View(conn), v, n)
       case None => None
       case Some(d) => Some(Written(conn, d)))
    case Commit => if conn.tx.None? then None else Some(Conn(conn.tx.value, None))
    case Rollback => if conn.tx.None? then None else Some(conn.(tx := None))
  }

  class SqliteClient<!C> {
    const exec: Engine<C>
    const faults: nat -> Fault
    var conn: Conn<C>
    var clock: nat
    var alive: bool

    constructor (exec: Engine<C>, faults: nat -> Fault, db: Db<C>)
      ensures this.exec == exec && this.faults == faults
      ensures conn == Conn(db, None) && clock == 0 && alive
    {
      this.exec := exec;
      this.faults := faults;
      conn := Conn(db, None);
      clock := 0;
      alive := true;
    }

    method Run(cmd: Command) returns (ok: bool)
      modifies this
      ensures clock == old(clock) + 1
      ensures ok ==> old(alive) && alive && Effect(exec, cmd, old(conn)) == Some(conn)
      ensures !ok ==> conn == old(conn) || conn == Conn(old(conn).committed, None)
                      || Effect(exec, cmd, old(conn)) == Some(conn)
      ensures faults(old(clock)) == Healthy && old(alive) ==>
                alive && ok == Effect(exec, cmd, old(conn)).Some? && (!ok ==> conn == old(conn))
      ensures !old(alive) ==> !alive && !ok && conn == old(conn)
    {
      var fault := faults(clock);
      var effect := Effect(exec, cmd, conn);
      clock := clock + 1;
      ok := false;
      if !alive || fault == Crashes {
        alive := false;
      } else if fault == Aborts {
        conn := conn.(tx := None);
      } else if fault != FailsBefore && effect.Some? {
        conn := effect.value;
        ok := fault == Healthy;
      }
    }

    /** SELECT version, name FROM schema_migrations. */
    method ReadTracker() returns (rows: Option<map<nat, Str>>)
      modifies this
      ensures clock == old(clock) + 1
      ensures rows.Some? ==> old(alive) && alive && conn == old(conn) && View(conn).tracker == rows
      ensures rows.None? ==> conn == old(conn) || conn == Conn(old(conn).committed, None)
      ensures faults(old(clock)) == Healthy && old(alive) ==>
                alive && conn == old(conn) && rows == View(conn).tracker
    {
      var fault := faults(clock);
      clock := clock + 1;
      rows := None;
      if !alive || fault == Crashes {
        alive := false;
      } else if fault == Aborts {
        conn := conn.(tx := None);
      } else if fault == Healthy {
        rows := View(conn).tracker;
      }
    }
  }

  // ---------- one run on which nothing fails ----------

  function Booted<C>(db: Db<C>): (d: Db<C>)
    ensures d.tracker.Some?
  {
    if db.tracker.Some? then db else db.(tracker := Some(map[]))
  }

  function ExecAll<C>(exec: Engine<C>, statements: seq<Str>, content: C): Option<C> {
    if statements == [] then Some(content)
    else match exec(statements[0], content)
      case None => None
      case Some(c) => ExecAll(exec, statements[1..], c)
  }

  /** `states` are the contents before, between and after the statements, none of which fails. */
  ghost predicate Chain<C>(exec: Engine<C>, statements: seq<Str>, states: seq<C>) {
    && |states| == |statements| + 1
    && forall k :: 0 <= k < |statements| ==> exec(statements[k], states[k]) == Some(states[k+1])
  }

  /** A migration runs every one of its statements, in order, each on what the one before left. */
  lemma {:induction false} RunsEveryStatement<C(!new)>(exec: Engine<C>, statements: seq<Str>, content: C, result: C)
    ensures ExecAll(exec, statements, content) == Some(result) <==>
      exists states :: Chain(exec, statements, states) && states[0] == content && states[|statements|] == result
  {
    if statements == [] {
      assert content == result ==> Chain(exec, statements, [content]);
    } else {
      var rest := statements[1..];
      if exec(statements[0], content).Some? {
        var next := exec(statements[0], content).value;
        RunsEveryStatement(exec, rest, next, result);
        if ExecAll(exec, rest, next) == Some(result) {
          var states :| Chain(exec, rest, states) && states[0] == next && states[|rest|] == result;
          assert Chain(exec, statements, [content] + states);
        }
      }
      if states :| Chain(exec, statements, states) && states[0] == content && states[|statements|] == result {
        assert exec(statements[0], states[0]) == Some(states[1]);
        ChainTail(exec, statements, states);
        assert states[1..][|rest|] == result;
      }
    }
  }

  lemma ChainTail<C>(exec: Engine<C>, statements: seq<Str>, states: seq<C>)
    requires statements != [] && Chain(exec, statements, states)
    ensures Chain(exec, statements[1..], states[1..])
  {
    forall k | 0 <= k < |statements| - 1 ensures exec(statements[1..][k], states[1..][k]) == Some(states[1..][k+1]) {
      assert exec(statements[k+1], states[k+1]) == Some(states[k+2]);
    }
  }

  /** All the statements of a migration and its record, or nothing. */
  function Apply<C>(exec: Engine<C>, m: Migration, db: Db<C>): (r: Option<Db<C>>)
    requires db.tracker.Some?
    ensures r.Some? ==> m.version !in db.tracker.value
                        && r.value.tracker == Some(db.tracker.value[m.version := m.name])
  {
    match ExecAll(exec, SqlSplitter.Statements(m.sql), db.content)
    case None => None
    case Some(c) => Recorded(db.(content := c), m.version, m.name)
  }

  /** A migration not recorded before is applied exactly if none of its statements fails: the content
      is what they leave, and the tracker gains its version and name. */
  lemma AppliesIff<C(!new)>(exec: Engine<C>, m: Migration, db: Db<C>, d: Db<C>)
    requires db.tracker.Some?
    ensures Apply(exec, m, db) == Some(d) <==>
      && m.version !in db.tracker.value && d.tracker == Some(db.tracker.value[m.version := m.name])
      && var statements := SqlSplitter.Statements(m.sql);
      exists states :: Chain(exec, statements, states) && states[0] == db.content && states[|statements|] == d.content
  {
    hide SqlSplitter.Statements;
    RunsEveryStatement(exec, SqlSplitter.Statements(m.sql), db.content, d.content);
  }

  datatype Outcome =
    | Done(applied: seq<(nat, Str)>, skippedCount: nat)
    | TrackerError
    | DriftError(version: nat)
    | ApplyError(version: nat)

  predicate Skips<C>(m: Migration, db: Db<C>)
    requires db.tracker.Some?
  {
    m.version in db.tracker.value && db.tracker.value[m.version] == m.name
  }

  predicate Drifts<C>(m: Migration, db: Db<C>)
    requires db.tracker.Some?
  {
    m.version in db.tracker.value && db.tracker.value[m.version] != m.name
  }

  /** The database after a run without faults. */
  function CleanDb<C>(exec: Engine<C>, files: seq<Migration>, db: Db<C>): (d: Db<C>)
    requires db.tracker.Some?
    ensures d.tracker.Some?
  {
    if files == [] || Drifts(files[0], db) then db
    else if Skips(files[0], db) then CleanDb(exec, files[1..], db)
    else match Apply(exec, files[0], db)
      case None => db
      case Some(d) => CleanDb(exec, files[1..], d)
  }

  /** What such a run reports, given what it has already applied and skipped. */
  function CleanOutcome<C>(exec: Engine<C>, files: seq<Migration>, db: Db<C>,
                           applied: seq<(nat, Str)>, skipped: nat): Outcome
    requires db.tracker.Some?
    decreases |files|
  {
    if files == [] then Done(applied, skipped)
    else if Drifts(files[0], db) then DriftError(files[0].version)
    else if Skips(files[0], db) then CleanOutcome(exec, files[1..], db, applied, skipped + 1)
    else match Apply(exec, files[0], db)
      case None => ApplyError(files[0].version)
      case Some(d) => CleanOutcome(exec, files[1..], d, applied + [(files[0].version, files[0].name)], skipped)
  }

  /** A run over `files` stops before their end. */
  predicate Stops<C>(exec: Engine<C>, files: seq<Migration>, db: Db<C>)
    requires db.tracker.Some?
  {
    files != [] &&
    if Drifts(files[0], db) then true
    else if Skips(files[0], db) then Stops(exec, files[1..], db)
    else match Apply(exec, files[0], db)
      case None => true
      case Some(d) => Stops(exec, files[1..], d)
  }

  /** A run that found `db` may leave `db'`: untouched, or as a clean run over some of the
      first files would. */
  ghost predicate MayLeave<C>(exec: Engine<C>, files: seq<Migration>, db: Db<C>, db': Db<C>) {
    db' == db || exists k: nat :: k <= |files| && db' == CleanDb(exec, files[..k], Booted(db))
  }

  predicate DistinctVersions(files: seq<Migration>) {
    forall i, j :: 0 <= i < j < |files| ==> files[i].version != files[j].version
  }

  /** `at` lists, in order, the places before `i` of the files whose version is not recorded. */
  ghost predicate Pending(files: seq<Migration>, before: map<nat, Str>, i: nat, at: seq<nat>)
    requires i <= |files|
  {
    && (forall a, b :: 0 <= a < b < |at| ==> at[a] < at[b])
    && (forall k :: 0 <= k < |at| ==> at[k] < i && files[at[k]].version !in before)
    && (forall j: nat :: j < i && files[j].version !in before ==> j in at)
  }

  /** Every file before the i-th that is recorded is recorded under its name. */
  ghost predicate NamesAgree(files: seq<Migration>, before: map<nat, Str>, i: nat)
    requires i <= |files|
  {
    forall j :: 0 <= j < i && files[j].version in before ==> before[files[j].version] == files[j].name
  }

  /** `after` is `before` with `applied` added. */
  ghost predicate Gained(before: map<nat, Str>, applied: seq<(nat, Str)>, after: map<nat, Str>) {
    && (forall v :: v in after <==> v in before || exists k :: 0 <= k < |applied| && applied[k].0 == v)
    && (forall v :: v in before ==> after[v] == before[v])
    && (forall k :: 0 <= k < |applied| ==> after[applied[k].0] == applied[k].1)
  }

  /** What has been done once the first `i` files are behind: `applied` lists exactly those that
      were not recorded, in order, and they are what the tracker has gained. */
  ghost predicate Progress(files: seq<Migration>, before: map<nat, Str>, i: nat, at: seq<nat>,
                           applied: seq<(nat, Str)>, skipped: nat, after: map<nat, Str>)
    requires i <= |files|
  {
    && Pending(files, before, i, at) && NamesAgree(files, before, i)
    && |applied| == |at| && skipped + |at| == i
    && (forall k :: 0 <= k < |at| ==> applied[k] == (files[at[k]].version, files[at[k]].name))
    && Gained(before, applied, after)
  }

  /** What a report says about the tracker before the run and after it. A success accounts for
      every file; a drift or a failure names the file the run came to. */
  ghost predicate Reports(files: seq<Migration>, before: map<nat, Str>, result: Outcome, after: map<nat, Str>) {
    match result
    case Done(applied, skipped) => exists at :: Progress(files, before, |files|, at, applied, skipped, after)
    case DriftError(v) =>
      exists j :: 0 <= j < |files| && files[j].version == v && v in before && before[v] != files[j].name && NamesAgree(files, before, j)
    case ApplyError(v) =>
      exists j :: 0 <= j < |files| && files[j].version == v && v !in before && NamesAgree(files, before, j)
    case TrackerError => true
  }

  lemma GainedOne(before: map<nat, Str>, applied: seq<(nat, Str)>, after: map<nat, Str>, version: nat, name: Str)
    requires Gained(before, applied, after) && version !in after
    ensures Gained(before, applied + [(version, name)], after[version := name])
  {
    var longer, later := applied + [(version, name)], after[version := name];
    assert longer[|applied|] == (version, name);
    forall v ensures v in later <==> v in before || exists k :: 0 <= k < |longer| && longer[k].0 == v {
      if v in after && v !in before {
        var k :| 0 <= k < |applied| && applied[k].0 == v;
        assert longer[k].0 == v;
      }
    }
  }

  lemma PendingOne(files: seq<Migration>, before: map<nat, Str>, i: nat, at: seq<nat>)
    requires i < |files| && Pending(files, before, i, at)
    ensures Pending(files, before, i + 1, if files[i].version in before then at else at + [i])
  {
    if files[i].version !in before {
      var longer := at + [i];
      assert longer[|at|] == i;
      forall j: nat | j < i + 1 && files[j].version !in before ensures j in longer {
        if j < i { assert j in at; }
      }
    }
  }

  lemma ProgressSkips(files: seq<Migration>, before: map<nat, Str>, i: nat, at: seq<nat>,
                      applied: seq<(nat, Str)>, skipped: nat, after: map<nat, Str>)
    requires i < |files| && Progress(files, before, i, at, applied, skipped, after)
    requires files[i].version in before && before[files[i].version] == files[i].name
    ensures Progress(files, before, i + 1, at, applied, skipped + 1, after)
  {
    hide Gained, Pending;
    PendingOne(files, before, i, at);
    PendingPlaces(files, before, i, at);
  }

  lemma ProgressApplies(files: seq<Migration>, before: map<nat, Str>, i: nat, at: seq<nat>,
                        applied: seq<(nat, Str)>, skipped: nat, after: map<nat, Str>)
    requires i < |files| && Progress(files, before, i, at, applied, skipped, after)
    requires files[i].version !in after
    ensures var m := files[i];
      Progress(files, before, i + 1, at + [i], applied + [(m.version, m.name)], skipped, after[m.version := m.name])
  {
    hide Gained, Pending;
    var m := files[i];
    PendingOne(files, before, i, at);
    PendingPlaces(files, before, i, at);
    RecordedStays(before, applied, after, m.version);
    GainedOne(before, applied, after, m.version, m.name);
  }

  lemma PendingPlaces(files: seq<Migration>, before: map<nat, Str>, i: nat, at: seq<nat>)
    requires i <= |files| && Pending(files, before, i, at)
    ensures forall k :: 0 <= k < |at| ==> at[k] < i
  {
  }

  lemma RecordedStays(before: map<nat, Str>, applied: seq<(nat, Str)>, after: map<nat, Str>, version: nat)
    requires Gained(before, applied, after) && version !in after
    ensures version !in before
  {
  }

  /** The files still to come are recorded now exactly if they were before the run. */
  lemma StillAsBefore(files: seq<Migration>, before: map<nat, Str>, i: nat, at: seq<nat>,
                      applied: seq<(nat, Str)>, skipped: nat, after: map<nat, Str>)
    requires i < |files| && DistinctVersions(files) && Progress(files, before, i, at, applied, skipped, after)
    ensures files[i].version in after <==> files[i].version in before
    ensures files[i].version in before ==> after[files[i].version] == before[files[i].version]
  {
    forall k | 0 <= k < |applied| ensures applied[k].0 != files[i].version {
      assert applied[k].0 == files[at[k]].version;
    }
  }

  lemma ProgressNames(files: seq<Migration>, before: map<nat, Str>, i: nat, at: seq<nat>,
                      applied: seq<(nat, Str)>, skipped: nat, after: map<nat, Str>)
    requires i <= |files| && Progress(files, before, i, at, applied, skipped, after)
    ensures NamesAgree(files, before, i)
  {
  }

  lemma NothingDoneYet(files: seq<Migration>, before: map<nat, Str>)
    ensures Progress(files, before, 0, [], [], 0, before)
  {
  }

  // ---------- the runner ----------

  /** Statements and record of one migration in one transaction. On failure the committed
      database is as before, unless the commit took effect and then reported an error. */
  method ApplyPending<C>(client: SqliteClient<C>, m: Migration) returns (ok: bool)
    requires client.conn.tx.None? && client.conn.committed.tracker.Some?
    requires m.version !in client.conn.committed.tracker.value
    modifies client
    ensures var db, db' := old(client.conn).committed, client.conn.committed;
      && (ok ==> old(client.alive) && client.alive && client.conn.tx.None? && Apply(client.exec, m, db) == Some(db'))
      && (!ok ==> db' == db || Apply(client.exec, m, db) == Some(db'))
    ensures (forall n: nat :: client.faults(n) == Healthy) && old(client.alive) ==>
      && client.alive && ok == Apply(client.exec, m, old(client.conn).committed).Some?
      && (!ok ==> client.conn == old(client.conn))
  {
    hide SqlSplitter.Statements;
    ghost var db := client.conn.committed;
    var statements := SqlSplitter.SplitSqlStatements(m.sql);
    ok := client.Run(Begin);
    if !ok { return; }
    var i := 0;
    while i < |statements|
      invariant i <= |statements|
      invariant client.alive && client.conn.committed == db && client.conn.tx.Some?
      invariant client.conn.tx.value.tracker == db.tracker
      invariant ExecAll(client.exec, statements[i..], client.conn.tx.value.content) == ExecAll(client.exec, statements, db.content)
    {
      ok := client.Run(Statement(statements[i]));
      if !ok { var _ := client.Run(Rollback); return; }
      assert statements[i..][1..] == statements[i+1..];
      i := i + 1;
    }
    ok := client.Run(Record(m.version, m.name));
    if ok { ok := client.Run(Commit); }
    if !ok { var _ := client.Run(Rollback); }
  }

  lemma {:induction false} CleanAppend<C>(exec: Engine<C>, a: seq<Migration>, b: seq<Migration>, db: Db<C>)
    requires db.tracker.Some? && !Stops(exec, a, db)
    ensures CleanDb(exec, a + b, db) == CleanDb(exec, b, CleanDb(exec, a, db))
    ensures Stops(exec, a + b, db) == Stops(exec, b, CleanDb(exec, a, db))
    decreases |a|
  {
    if a == [] {
      assert a + b == b;
    } else {
      DropWithin(a, b, 1);
      CleanAppend(exec, a[1..], b, if Skips(a[0], db) then db else Apply(exec, a[0], db).value);
    }
  }

  /** The run has come to the i-th file as a run without faults would, and stands at `now`. */
  ghost predicate Standing<C>(exec: Engine<C>, files: seq<Migration>, db: Db<C>, i: nat, now: Db<C>,
                              applied: seq<(nat, Str)>, skipped: nat)
    requires i <= |files| && db.tracker.Some?
  {
    && now.tracker.Some? && !Stops(exec, files[..i], db) && now == CleanDb(exec, files[..i], db)
    && CleanOutcome(exec, files[i..], now, applied, skipped) == CleanOutcome(exec, files, db, [], 0)
  }

  lemma StandsAtStart<C>(exec: Engine<C>, files: seq<Migration>, db: Db<C>)
    requires db.tracker.Some?
    ensures Standing(exec, files, db, 0, db, [], 0)
  {
    assert files[..0] == [] && files[0..] == files;
  }

  lemma Untouched<C>(exec: Engine<C>, files: seq<Migration>, db: Db<C>)
    ensures MayLeave(exec, files, db, db)
  {
  }

  lemma StandsLeaves<C>(exec: Engine<C>, files: seq<Migration>, start: Db<C>, i: nat, now: Db<C>,
                        applied: seq<(nat, Str)>, skipped: nat)
    requires i <= |files| && Standing(exec, files, Booted(start), i, now, applied, skipped)
    ensures MayLeave(exec, files, start, now)
    ensures i == |files| ==>
      now == CleanDb(exec, files, Booted(start)) && CleanOutcome(exec, files, Booted(start), [], 0) == Done(applied, skipped)
  {
    hide Apply;
    assert i == |files| ==> files[..i] == files;
  }

  lemma StandsStill<C>(exec: Engine<C>, files: seq<Migration>, db: Db<C>, i: nat, now: Db<C>,
                       applied: seq<(nat, Str)>, skipped: nat)
    requires i < |files| && db.tracker.Some? && Standing(exec, files, db, i, now, applied, skipped)
    ensures Drifts(files[i], now) ==>
      CleanDb(exec, files, db) == now && CleanOutcome(exec, files, db, [], 0) == DriftError(files[i].version)
    ensures files[i].version !in now.tracker.value && Apply(exec, files[i], now).None? ==>
      CleanDb(exec, files, db) == now && CleanOutcome(exec, files, db, [], 0) == ApplyError(files[i].version)
  {
    hide Apply;
    Around(files, i);
    CleanAppend(exec, files[..i], files[i..], db);
  }

  lemma StandsFurther<C>(exec: Engine<C>, files: seq<Migration>, db: Db<C>, i: nat, now: Db<C>,
                         applied: seq<(nat, Str)>, skipped: nat)
    requires i < |files| && db.tracker.Some? && Standing(exec, files, db, i, now, applied, skipped)
    ensures Skips(files[i], now) ==> Standing(exec, files, db, i + 1, now, applied, skipped + 1)
    ensures var m := files[i];
      m.version !in now.tracker.value && Apply(exec, m, now).Some? ==>
        Standing(exec, files, db, i + 1, Apply(exec, m, now).value, applied + [(m.version, m.name)], skipped)
  {
    hide Apply;
    Around(files, i);
    CleanAppend(exec, files[..i], [files[i]], db);
  }

  method RunMigrations<C>(client: SqliteClient<C>, files: seq<Migration>) returns (result: Outcome)
    requires client.conn.tx.None? && DistinctVersions(files)
    modifies client
    ensures MayLeave(client.exec, files, old(client.conn).committed, client.conn.committed)
    ensures result.Done? ==>
      && client.conn.committed == CleanDb(client.exec, files, Booted(old(client.conn).committed))
      && result == CleanOutcome(client.exec, files, Booted(old(client.conn).committed), [], 0)
    ensures var before, after := Booted(old(client.conn).committed).tracker.value, Booted(client.conn.committed).tracker.value;
      Reports(files, before, result, after)
    ensures (forall n: nat :: client.faults(n) == Healthy) && old(client.alive) ==>
      && client.conn.committed == CleanDb(client.exec, files, Booted(old(client.conn).committed))
      && result == CleanOutcome(client.exec, files, Booted(old(client.conn).committed), [], 0)
  {
    hide Apply, CleanDb, CleanOutcome, Standing, Progress, NamesAgree, MayLeave;
    ghost var start := client.conn.committed;
    ghost var db := Booted(start);
    StandsAtStart(client.exec, files, db);
    StandsLeaves(client.exec, files, start, 0, db, [], 0);
    Untouched(client.exec, files, start);
    var ok := client.Run(CreateTracker);
    if !ok { return TrackerError; }
    var rows := client.ReadTracker();
    if rows.None? { return TrackerError; }
    var appliedByVersion := rows.value;
    var applied: seq<(nat, Str)> := [];
    var skippedCount := 0;
    ghost var at: seq<nat> := [];
    NothingDoneYet(files, appliedByVersion);
    for i := 0 to |files|
      invariant client.alive && client.conn.tx.None? && client.conn.committed.tracker.Some?
      invariant appliedByVersion == db.tracker.value
      invariant Standing(client.exec, files, db, i, client.conn.committed, applied, skippedCount)
      invariant Progress(files, appliedByVersion, i, at, applied, skippedCount, client.conn.committed.tracker.value)
    {
      var migration := files[i];
      ghost var now := client.conn.committed;
      StandsLeaves(client.exec, files, start, i, now, applied, skippedCount);
      StandsStill(client.exec, files, db, i, now, applied, skippedCount);
      StandsFurther(client.exec, files, db, i, now, applied, skippedCount);
      StillAsBefore(files, appliedByVersion, i, at, applied, skippedCount, now.tracker.value);
      ProgressNames(files, appliedByVersion, i, at, applied, skippedCount, now.tracker.value);
      if migration.version in appliedByVersion {
        if appliedByVersion[migration.version] != migration.name {
          return DriftError(migration.version);
        }
        ProgressSkips(files, appliedByVersion, i, at, applied, skippedCount, now.tracker.value);
        skippedCount := skippedCount + 1;
      } else {
        ok := ApplyPending(client, migration);
        ghost var longer := applied + [(migration.version, migration.name)];
        if client.conn.committed != now {
          StandsLeaves(client.exec, files, start, i + 1, client.conn.committed, longer, skippedCount);
        }
        if !ok {
          return ApplyError(migration.version);
        }
        ProgressApplies(files, appliedByVersion, i, at, applied, skippedCount, now.tracker.value);
        at := at + [i];
        applied := applied + [(migration.version, migration.name)];
      }
    }
    StandsLeaves(client.exec, files, start, |files|, client.conn.committed, applied, skippedCount);
    return Done(applied, skippedCount);
  }

  // ---------- runs after runs ----------

  /** What a run records stays recorded under the same name. */
  lemma {:induction false} RecordsAreKept<C>(exec: Engine<C>, files: seq<Migration>, db: Db<C>, version: nat)
    requires db.tracker.Some? && version in db.tracker.value
    ensures var d := CleanDb(exec, files, db).tracker.value;
      version in d && d[version] == db.tracker.value[version]
    decreases |files|
  {
    if files != [] && !Drifts(files[0], db) {
      if Skips(files[0], db) {
        RecordsAreKept(exec, files[1..], db, version);
      } else if Apply(exec, files[0], db).Some? {
        RecordsAreKept(exec, files[1..], Apply(exec, files[0], db).value, version);
      }
    }
  }

  /** Cutting a run short and starting over ends where one uninterrupted run ends. */
  lemma {:induction false} Resume<C>(exec: Engine<C>, files: seq<Migration>, db: Db<C>, k: nat)
    requires db.tracker.Some? && k <= |files|
    ensures CleanDb(exec, files, CleanDb(exec, files[..k], db)) == CleanDb(exec, files, db)
    decreases |files|
  {
    if k > 0 && !Drifts(files[0], db) {
      assert files[..k][1..] == files[1..][..k-1];
      if Skips(files[0], db) {
        Resume(exec, files[1..], db, k - 1);
        RecordsAreKept(exec, files[1..][..k-1], db, files[0].version);
      } else if Apply(exec, files[0], db).Some? {
        var d := Apply(exec, files[0], db).value;
        Resume(exec, files[1..], d, k - 1);
        RecordsAreKept(exec, files[1..][..k-1], d, files[0].version);
      }
    }
  }

  /** However many runs over the same files failed or died, and wherever they did, a run without
      faults on a new connection ends in the database of a single clean run from the start. */
  lemma {:induction false} RerunRecovers<C>(exec: Engine<C>, files: seq<Migration>, dbs: seq<Db<C>>)
    requires dbs != []
    requires forall i :: 0 <= i < |dbs| - 1 ==> MayLeave(exec, files, dbs[i], dbs[i+1])
    ensures CleanDb(exec, files, Booted(dbs[|dbs|-1])) == CleanDb(exec, files, Booted(dbs[0]))
    decreases |dbs|
  {
    if |dbs| > 1 {
      RerunRecovers(exec, files, dbs[1..]);
      assert MayLeave(exec, files, dbs[0], dbs[1]);
      if dbs[1] != dbs[0] {
        var k: nat :| k <= |files| && dbs[1] == CleanDb(exec, files[..k], Booted(dbs[0]));
        Resume(exec, files, Booted(dbs[0]), k);
      }
    }
  }

  /** After a run that reached the end, another run applies nothing and skips every file. */
  lemma {:induction false} RerunSkipsEverything<C>(exec: Engine<C>, files: seq<Migration>, db: Db<C>, skipped: nat)
    requires db.tracker.Some? && !Stops(exec, files, db)
    ensures CleanDb(exec, files, CleanDb(exec, files, db)) == CleanDb(exec, files, db)
    ensures CleanOutcome(exec, files, CleanDb(exec, files, db), [], skipped) == Done([], skipped + |files|)
    decreases |files|
  {
    if files != [] {
      var d := if Skips(files[0], db) then db else Apply(exec, files[0], db).value;
      RerunSkipsEverything(exec, files[1..], d, skipped + 1);
      RecordsAreKept(exec, files[1..], d, files[0].version);
    }
  }

  /** A run reports success exactly when it does not stop before the end of its files. */
  lemma {:induction false} DoneIffNotStopped<C>(exec: Engine<C>, files: seq<Migration>, db: Db<C>,
                                               applied: seq<(nat, Str)>, skipped: nat)
    requires db.tracker.Some?
    ensures CleanOutcome(exec, files, db, applied, skipped).Done? <==> !Stops(exec, files, db)
    decreases |files|
  {
    if files != [] && !Drifts(files[0], db) {
      if Skips(files[0], db) {
        DoneIffNotStopped(exec, files[1..], db, applied, skipped + 1);
      } else if Apply(exec, files[0], db).Some? {
        DoneIffNotStopped(exec, files[1..], Apply(exec, files[0], db).value,
                          applied + [(files[0].version, files[0].name)], skipped);
      }
    }
  }

  // ---------- the tracker tells exactly what was applied ----------

  /** The content after the migrations of `history`, in that order. */
  function Replay<C>(exec: Engine<C>, history: seq<Migration>, content: C): Option<C> {
    if history == [] then Some(content)
    else match ExecAll(exec, SqlSplitter.Statements(history[0].sql), content)
      case None => None
      case Some(c) => Replay(exec, history[1..], c)
  }

  /** `db` is `genesis` with every statement of the migrations of `history` applied and nothing
      else, and the tracker lists those migrations and no other. */
  ghost predicate Reflects<C>(exec: Engine<C>, genesis: C, history: seq<Migration>, db: Db<C>) {
    && DistinctVersions(history)
    && Replay(exec, history, genesis) == Some(db.content)
    && var rows := Booted(db).tracker.value;
      && (forall i :: 0 <= i < |history| ==> history[i].version in rows && rows[history[i].version] == history[i].name)
      && (forall v :: v in rows ==> exists i :: 0 <= i < |history| && history[i].version == v)
  }

  lemma {:induction false} ReplayAppend<C>(exec: Engine<C>, history: seq<Migration>, m: Migration, content: C)
    requires Replay(exec, history, content).Some?
    ensures Replay(exec, history + [m], content)
         == ExecAll(exec, SqlSplitter.Statements(m.sql), Replay(exec, history, content).value)
    decreases |history|
  {
    if history == [] {
      assert history + [m] == [m] && [m][1..] == [];
    } else {
      DropWithin(history, [m], 1);
      ReplayAppend(exec, history[1..], m, ExecAll(exec, SqlSplitter.Statements(history[0].sql), content).value);
    }
  }

  lemma ApplyExtends<C>(exec: Engine<C>, genesis: C, history: seq<Migration>, m: Migration, db: Db<C>)
    requires db.tracker.Some? && Reflects(exec, genesis, history, db)
    requires Apply(exec, m, db).Some?
    ensures Reflects(exec, genesis, history + [m], Apply(exec, m, db).value)
  {
    ReplayAppend(exec, history, m, genesis);
    var rows, longer := Apply(exec, m, db).value.tracker.value, history + [m];
    forall v | v in rows ensures exists i :: 0 <= i < |longer| && longer[i].version == v {
      if v == m.version {
        assert longer[|history|].version == v;
      } else {
        var i :| 0 <= i < |history| && history[i].version == v;
        assert longer[i].version == v;
      }
    }
  }

  /** Whatever a run does and whatever befalls it, the committed database is still the fold of
      exactly the recorded migrations: the ones recorded before, then some of the run's files. */
  lemma {:induction false} HistoryGrows<C>(exec: Engine<C>, genesis: C, history: seq<Migration>, files: seq<Migration>, db: Db<C>)
    returns (news: seq<Migration>)
    requires db.tracker.Some? && Reflects(exec, genesis, history, db)
    ensures Reflects(exec, genesis, history + news, CleanDb(exec, files, db))
    ensures forall m :: m in news ==> m in files
    decreases |files|
  {
    news := [];
    assert history + [] == history;
    if files != [] && !Drifts(files[0], db) {
      if Skips(files[0], db) {
        news := HistoryGrows(exec, genesis, history, files[1..], db);
      } else if Apply(exec, files[0], db).Some? {
        ApplyExtends(exec, genesis, history, files[0], db);
        news := HistoryGrows(exec, genesis, history + [files[0]], files[1..], Apply(exec, files[0], db).value);
        Associate(history, [files[0]], news);
        news := [files[0]] + news;
      }
    }
  }

  lemma CommittedIsFoldOfRecorded<C>(exec: Engine<C>, genesis: C, history: seq<Migration>,
                                     files: seq<Migration>, db: Db<C>, db': Db<C>)
    requires Reflects(exec, genesis, history, db) && MayLeave(exec, files, db, db')
    ensures exists news :: Reflects(exec, genesis, history + news, db') && forall m :: m in news ==> m in files
  {
    if db' == db {
      assert history + [] == history;
      assert Reflects(exec, genesis, history + [], db');
    } else {
      var k: nat :| k <= |files| && db' == CleanDb(exec, files[..k], Booted(db));
      var news := HistoryGrows(exec, genesis, history, files[..k], Booted(db));
    }
  }

  /** So after any runs over a new database, wherever they failed or died, what is committed is what
      it began with and the recorded migrations applied to it, in some order of the files. */
  lemma {:induction false} NewDatabaseReflects<C>(exec: Engine<C>, genesis: C, files: seq<Migration>, dbs: seq<Db<C>>)
    returns (history: seq<Migration>)
    requires dbs != [] && dbs[0] == Db(genesis, None)
    requires forall i :: 0 <= i < |dbs| - 1 ==> MayLeave(exec, files, dbs[i], dbs[i+1])
    ensures Reflects(exec, genesis, history, dbs[|dbs|-1]) && forall m :: m in history ==> m in files
    decreases |dbs|
  {
    if |dbs| == 1 {
      history := [];
    } else {
      var rest := dbs[..|dbs|-1];
      var before := NewDatabaseReflects(exec, genesis, files, rest);
      assert MayLeave(exec, files, dbs[|dbs|-2], dbs[|dbs|-1]);
      CommittedIsFoldOfRecorded(exec, genesis, before, files, dbs[|dbs|-2], dbs[|dbs|-1]);
      var news :| Reflects(exec, genesis, before + news, dbs[|dbs|-1]) && forall m :: m in news ==> m in files;
      history := before + news;
    }
  }
}
