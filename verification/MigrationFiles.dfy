/** `loadMigrationsFromDir` of backend/src/db/migrationRunner.ts: which files are migrations and
    in what order they are run. */
module MigrationFiles {
  import opened Text
  import opened Decimal
  import CH = ContentHash
  import opened MigrationRunner

  const UNDERSCORE: CodeUnit := 95

  predicate IsNameChar(c: CodeUnit) {
    IsDigit(c) || 65 <= c <= 90 || 97 <= c <= 122 || c == UNDERSCORE
  }

  predicate IsName(s: Str) {
    s != [] && forall i :: 0 <= i < |s| ==> IsNameChar(s[i])
  }

  function Extension(): (e: Str)
    ensures |e| == 4
  {
    Lit(".sql")
  }

  /** `endsWith('.sql')`. */
  predicate IsSql(f: Str) {
    |f| >= 4 && f[|f|-4..] == Extension()
  }

  /** The pattern NNN_name.sql. */
  function ParseFilename(f: Str): Option<(nat, Str)> {
    if |f| >= 9 && IsSql(f) && AllDigits(f[..3]) && f[3] == UNDERSCORE && IsName(f[4..|f|-4]) then
      Some((Value(f[..3]), f[4..|f|-4]))
    else None
  }

  lemma Thousand()
    ensures Pow10(3) == 1000
  {
    assert Pow10(1) == 10;
    assert Pow10(2) == 100;
  }

  /** Letters, digits and underscores, at least one. */
  predicate Worded(name: Str) {
    name != [] && forall c | c in name :: 48 <= c <= 57 || 65 <= c <= 90 || 97 <= c <= 122 || c == 95
  }

  lemma WordedIff(name: Str)
    ensures IsName(name) <==> Worded(name)
  {
    if Worded(name) {
      forall i | 0 <= i < |name| ensures IsNameChar(name[i]) { assert name[i] in name; }
    }
  }

  /** A file name is read as a version and a name exactly when it is their file name: three digits,
      an underscore, the name and ".sql". So no two files share both. */
  lemma FilenameIff(f: Str, version: nat, name: Str)
    ensures ParseFilename(f) == Some((version, name)) <==>
      version < 1000 && Worded(name) && f == Fixed(version, 3) + ([95] + (name + Lit(".sql")))
  {
    hide Fixed, Value, IsName, Worded, Lit, Pow10;
    Thousand();
    WordedIff(name);
    var e := Lit(".sql");
    var g := Fixed(version, 3) + ([95] + (name + e));
    if version < 1000 && IsName(name) && f == g {
      NotEmpty(name);
      FixedValue(version, 3);
      assert g[..3] == Fixed(version, 3);
      assert g[4..|g|-4] == name && g[|g|-4..] == e;
    }
    if ParseFilename(f) == Some((version, name)) {
      FixedOfValue(f[..3]);
      assert f == f[..3] + ([f[3]] + (f[4..|f|-4] + f[|f|-4..]));
    }
  }

  /** A directory entry is taken for a migration exactly if it ends in ".sql". */
  lemma SqlIff(f: Str)
    ensures IsSql(f) <==> exists stem :: f == stem + Lit(".sql")
  {
    hide Lit;
    if IsSql(f) {
      assert f == f[..|f|-4] + Lit(".sql");
    }
    if stem :| f == stem + Lit(".sql") {
      assert f[|f|-4..] == Lit(".sql");
    }
  }

  lemma NotEmpty(name: Str)
    requires IsName(name)
    ensures name != []
  {
  }

  /** File names sort as their versions do. */
  lemma VersionsFollowNames(f: Str, g: Str)
    requires ParseFilename(f).Some? && ParseFilename(g).Some? && LexLe(f, g)
    ensures ParseFilename(f).value.0 <= ParseFilename(g).value.0
  {
    hide LexLe, Fixed, Pow10, ParseFilename, Worded, Lit;
    var (m, a) := ParseFilename(f).value;
    var (n, b) := ParseFilename(g).value;
    FilenameIff(f, m, a);
    FilenameIff(g, n, b);
    Thousand();
    if n < m {
      FixedOrder(n, m, 3);
      LexLePrefixed(Fixed(m, 3), Fixed(n, 3), [95] + (a + Lit(".sql")), [95] + (b + Lit(".sql")));
      LexLeAntisymmetric(Fixed(m, 3), Fixed(n, 3));
    }
  }

  // ---------- loading ----------

  datatype Parsed = Parsed(version: nat, name: Str, filename: Str)

  /** A file that holds the migration, as its name and contents say. */
  predicate Holds(f: Str, m: Migration, read: Str -> Option<Str>) {
    IsSql(f) && ParseFilename(f) == Some((m.version, m.name)) && read(f) == Some(m.sql)
  }

  datatype Directory = Absent | Unreadable | Entries(names: seq<Str>)

  datatype Loaded =
    | Migrations(files: seq<Migration>)
    | DirNotFound
    | DirUnreadable
    | InvalidFilename(f: Str)
    | DuplicateVersion(version: nat, first: Str, second: Str)
    | ReadError(f: Str)

  predicate Comes(p: Parsed, names: seq<Str>) {
    p.filename in names && IsSql(p.filename) && ParseFilename(p.filename) == Some((p.version, p.name))
  }

  function InsertByVersion(p: Parsed, s: seq<Parsed>): seq<Parsed> {
    if s == [] || p.version <= s[0].version then [p] + s else [s[0]] + InsertByVersion(p, s[1..])
  }

  /** `sort((a, b) => a.version - b.version)`. */
  function SortByVersion(s: seq<Parsed>): seq<Parsed> {
    if s == [] then [] else InsertByVersion(s[0], SortByVersion(s[1..]))
  }

  predicate Climbs(s: seq<Parsed>) {
    forall i, j :: 0 <= i < j < |s| ==> s[i].version <= s[j].version
  }

  /** Once the names are sorted the versions are, and this sort changes nothing. */
  lemma {:induction false} AlreadySorted(s: seq<Parsed>)
    requires Climbs(s)
    ensures SortByVersion(s) == s
  {
    if s != [] {
      AlreadySorted(s[1..]);
      assert [s[0]] + s[1..] == s;
    }
  }

  predicate Increasing(files: seq<Migration>) {
    forall i, j :: 0 <= i < j < |files| ==> files[i].version < files[j].version
  }

  lemma InBoth(a: seq<Str>, b: seq<Str>, f: Str)
    requires multiset(a) == multiset(b)
    ensures f in a <==> f in b
  {
    assert f in a <==> f in multiset(a);
    assert f in b <==> f in multiset(b);
  }

  /** Two entries claim one version. */
  ghost predicate Twice(names: seq<Str>, version: nat, first: Str, second: Str) {
    && ParseFilename(first).Some? && ParseFilename(first).value.0 == version
    && ParseFilename(second).Some? && ParseFilename(second).value.0 == version
    && multiset{first, second} <= multiset(names)
  }

  ghost predicate Listed(parsed: seq<Parsed>, f: Str) {
    exists k :: 0 <= k < |parsed| && parsed[k].filename == f
  }

  lemma ListedStays(parsed: seq<Parsed>, more: seq<Parsed>, f: Str)
    requires Listed(parsed, f) && parsed <= more
    ensures Listed(more, f)
  {
    var k :| 0 <= k < |parsed| && parsed[k].filename == f;
    assert more[k].filename == f;
  }

  /** The parsed entries are some of the names, in their order and with their multiplicity. */
  ghost predicate Picked(parsed: seq<Parsed>, names: seq<Str>) {
    exists at: seq<nat> :: |at| == |parsed| && PickedAt(parsed, names, at)
  }

  ghost predicate PickedAt(parsed: seq<Parsed>, names: seq<Str>, at: seq<nat>)
    requires |at| == |parsed|
  {
    && (forall k :: 0 <= k < |at| ==> at[k] < |names| && names[at[k]] == parsed[k].filename)
    && (forall k, l :: 0 <= k < l < |at| ==> at[k] < at[l])
  }

  lemma PickedPassing(parsed: seq<Parsed>, names: seq<Str>, f: Str)
    requires Picked(parsed, names)
    ensures Picked(parsed, names + [f])
  {
    var at: seq<nat> :| |at| == |parsed| && PickedAt(parsed, names, at);
    assert PickedAt(parsed, names + [f], at);
  }

  lemma PickedOne(parsed: seq<Parsed>, names: seq<Str>, p: Parsed)
    requires Picked(parsed, names)
    ensures Picked(parsed + [p], names + [p.filename])
  {
    var at: seq<nat> :| |at| == |parsed| && PickedAt(parsed, names, at);
    var more := at + [|names|];
    assert PickedAt(parsed + [p], names + [p.filename], more);
  }

  lemma PickedClimbs(parsed: seq<Parsed>, entries: seq<Str>)
    requires Picked(parsed, entries) && CH.Sorted(entries)
    requires forall k :: 0 <= k < |parsed| ==> Comes(parsed[k], entries)
    ensures Climbs(parsed)
  {
    hide LexLe, ParseFilename;
    var at: seq<nat> :| |at| == |parsed| && PickedAt(parsed, entries, at);
    forall i, j | 0 <= i < j < |parsed| ensures parsed[i].version <= parsed[j].version {
      assert LexLe(entries[at[i]], entries[at[j]]);
      VersionsFollowNames(parsed[i].filename, parsed[j].filename);
    }
  }

  lemma PickedTwice(parsed: seq<Parsed>, entries: seq<Str>, names: seq<Str>, k: nat, l: nat)
    requires Picked(parsed, entries) && multiset(entries) == multiset(names) && k < l < |parsed|
    requires forall k :: 0 <= k < |parsed| ==> Comes(parsed[k], entries)
    requires parsed[k].version == parsed[l].version
    ensures Twice(names, parsed[k].version, parsed[k].filename, parsed[l].filename)
  {
    hide ParseFilename;
    var at: seq<nat> :| |at| == |parsed| && PickedAt(parsed, entries, at);
    assert Comes(parsed[k], entries) && Comes(parsed[l], entries);
    TwoEntries(entries, at[k], at[l]);
  }

  lemma TwoEntries(s: seq<Str>, i: nat, j: nat)
    requires i < j < |s|
    ensures multiset{s[i], s[j]} <= multiset(s)
  {
    assert s == s[..j] + ([s[j]] + s[j+1..]);
    assert s[i] == s[..j][i];
    assert s[i] in multiset(s[..j]);
  }

  // ---------- the three passes ----------

  /** The .sql entries by version and name, or the first that has none. */
  method ParseEntries(entries: seq<Str>) returns (parsed: seq<Parsed>, bad: Option<Str>)
    ensures bad.Some? ==> bad.value in entries && IsSql(bad.value) && ParseFilename(bad.value).None?
    ensures bad.None? ==> Picked(parsed, entries) && forall k :: 0 <= k < |parsed| ==> Comes(parsed[k], entries)
    ensures bad.None? ==> forall f :: f in entries && IsSql(f) ==> Listed(parsed, f)
  {
    hide ParseFilename, IsSql;
    parsed, bad := [], None;
    NothingPicked();
    for i := 0 to |entries|
      invariant Picked(parsed, entries[..i])
      invariant forall k :: 0 <= k < |parsed| ==> Comes(parsed[k], entries[..i])
      invariant forall f :: f in entries[..i] && IsSql(f) ==> Listed(parsed, f)
    {
      var filename := entries[i];
      ghost var before := parsed;
      assert entries[..i+1] == entries[..i] + [filename];
      if IsSql(filename) {
        var meta := ParseFilename(filename);
        if meta.None? { return parsed, Some(filename); }
        var p := Parsed(meta.value.0, meta.value.1, filename);
        PickedOne(parsed, entries[..i], p);
        parsed := parsed + [p];
      } else {
        PickedPassing(parsed, entries[..i], filename);
      }
      forall f | f in entries[..i+1] && IsSql(f) ensures Listed(parsed, f) {
        if f in entries[..i] { ListedStays(before, parsed, f); } else { assert parsed[|before|].filename == f; }
      }
    }
    assert entries[..|entries|] == entries;
  }

  /** The first entry whose version an earlier one has, and that earlier one. */
  method FindDuplicate(parsed: seq<Parsed>) returns (dup: Option<(Str, Parsed)>, ghost k: nat, ghost l: nat)
    ensures dup.None? ==> forall a, b :: 0 <= a < b < |parsed| ==> parsed[a].version != parsed[b].version
    ensures dup.Some? ==> k < l < |parsed| && parsed[k].version == parsed[l].version
    ensures dup.Some? ==> dup.value == (parsed[k].filename, parsed[l])
  {
    var seen: map<nat, Str> := map[];
    dup, k, l := None, 0, 0;
    for i := 0 to |parsed|
      invariant forall v :: v in seen ==> exists a :: 0 <= a < i && parsed[a].version == v
      invariant forall a :: 0 <= a < i ==> parsed[a].version in seen && seen[parsed[a].version] == parsed[a].filename
      invariant forall a, b :: 0 <= a < b < i ==> parsed[a].version != parsed[b].version
    {
      var p := parsed[i];
      if p.version in seen {
        k :| 0 <= k < i && parsed[k].version == p.version;
        return Some((seen[p.version], p)), k, i;
      }
      seen := seen[p.version := p.filename];
    }
  }

  /** The contents of the files in order, or the first that cannot be read. */
  method ReadFiles(ordered: seq<Parsed>, read: Str -> Option<Str>) returns (files: seq<Migration>, bad: Option<Str>)
    ensures bad.Some? ==> read(bad.value).None? && exists k :: 0 <= k < |ordered| && ordered[k].filename == bad.value
    ensures bad.None? ==> |files| == |ordered| && forall k :: 0 <= k < |files| ==>
      files[k].version == ordered[k].version && files[k].name == ordered[k].name && read(ordered[k].filename) == Some(files[k].sql)
  {
    files, bad := [], None;
    for i := 0 to |ordered|
      invariant |files| == i
      invariant forall k :: 0 <= k < i ==>
        files[k].version == ordered[k].version && files[k].name == ordered[k].name && read(ordered[k].filename) == Some(files[k].sql)
    {
      var p := ordered[i];
      var sql := read(p.filename);
      if sql.None? { return files, Some(p.filename); }
      files := files + [Migration(p.version, p.name, sql.value)];
    }
  }

  lemma NothingPicked()
    ensures Picked([], [])
  {
    assert PickedAt([], [], []);
  }

  /** The directory is loaded as its .sql files in strictly ascending order of version, each once;
      otherwise the result names an entry, or a pair of entries, that prevents it. */
  method LoadMigrationsFromDir(dir: Directory, read: Str -> Option<Str>) returns (r: Loaded)
    ensures dir.Absent? <==> r == DirNotFound
    ensures dir.Unreadable? <==> r == DirUnreadable
    ensures r.Migrations? ==> dir.Entries? && Increasing(r.files) && DistinctVersions(r.files)
    ensures r.Migrations? ==> forall m :: m in r.files ==> exists f :: f in dir.names && Holds(f, m, read)
    ensures r.Migrations? ==> forall f :: f in dir.names && IsSql(f) ==> exists m :: m in r.files && Holds(f, m, read)
    ensures r.InvalidFilename? ==> dir.Entries? && r.f in dir.names && IsSql(r.f) && ParseFilename(r.f).None?
    ensures r.ReadError? ==> dir.Entries? && r.f in dir.names && IsSql(r.f) && ParseFilename(r.f).Some? && read(r.f).None?
    ensures r.DuplicateVersion? ==> dir.Entries? && Twice(dir.names, r.version, r.first, r.second)
  {
    hide CH.Sort, ParseFilename, SortByVersion, IsSql, CH.Sorted, Picked, Listed, Twice;
    if dir.Absent? { return DirNotFound; }
    if dir.Unreadable? { return DirUnreadable; }
    var entries := CH.Sort(dir.names);
    CH.SortSorts(dir.names);
    forall f ensures f in entries <==> f in dir.names { InBoth(entries, dir.names, f); }
    var parsed, unnamed := ParseEntries(entries);
    if unnamed.Some? { return InvalidFilename(unnamed.value); }
    var dup, k, l := FindDuplicate(parsed);
    if dup.Some? {
      PickedTwice(parsed, entries, dir.names, k, l);
      return DuplicateVersion(dup.value.1.version, dup.value.0, dup.value.1.filename);
    }
    PickedClimbs(parsed, entries);
    AlreadySorted(parsed);
    var migrations, unread := ReadFiles(SortByVersion(parsed), read);
    if unread.Some? { return ReadError(unread.value); }
    AllHeld(parsed, entries, migrations, read);
    r := Migrations(migrations);
  }

  lemma AllHeld(parsed: seq<Parsed>, entries: seq<Str>, files: seq<Migration>, read: Str -> Option<Str>)
    requires forall k :: 0 <= k < |parsed| ==> Comes(parsed[k], entries)
    requires forall f :: f in entries && IsSql(f) ==> Listed(parsed, f)
    requires |files| == |parsed| && forall k :: 0 <= k < |files| ==>
      files[k].version == parsed[k].version && files[k].name == parsed[k].name && read(parsed[k].filename) == Some(files[k].sql)
    ensures forall m :: m in files ==> exists f :: f in entries && Holds(f, m, read)
    ensures forall f :: f in entries && IsSql(f) ==> exists m :: m in files && Holds(f, m, read)
  {
    hide ParseFilename, IsSql;
    forall m | m in files ensures exists f :: f in entries && Holds(f, m, read) {
      var k :| 0 <= k < |files| && files[k] == m;
      assert Comes(parsed[k], entries) && Holds(parsed[k].filename, m, read);
    }
    forall f | f in entries && IsSql(f) ensures exists m :: m in files && Holds(f, m, read) {
      assert Listed(parsed, f);
      var k :| 0 <= k < |parsed| && parsed[k].filename == f;
      assert Comes(parsed[k], entries) && files[k] in files && Holds(f, files[k], read);
    }
  }

  datatype RunResult = LoadError(cause: Loaded) | Ran(outcome: Outcome)

  /** `runMigrations` from the directory on. A directory that does not load leaves the database
      alone; else the run is over its files in ascending order of version. */
  method RunMigrationsFromDir<C>(client: SqliteClient<C>, dir: Directory, read: Str -> Option<Str>)
    returns (r: RunResult, ghost files: seq<Migration>)
    requires client.conn.tx.None?
    modifies client
    ensures r.LoadError? ==> client.conn == old(client.conn) && client.clock == old(client.clock) && !r.cause.Migrations?
    ensures r.Ran? ==> Increasing(files) && MayLeave(client.exec, files, old(client.conn).committed, client.conn.committed)
    ensures r.Ran? ==> dir.Entries? && forall f :: f in dir.names && IsSql(f) ==> exists m :: m in files && Holds(f, m, read)
    ensures r.Ran? && r.outcome.Done? ==>
      client.conn.committed == CleanDb(client.exec, files, Booted(old(client.conn).committed))
  {
    hide Holds, IsSql, CleanDb, CleanOutcome;
    files := [];
    var loaded := LoadMigrationsFromDir(dir, read);
    if !loaded.Migrations? { return LoadError(loaded), files; }
    files := loaded.files;
    var outcome := RunMigrations(client, loaded.files);
    r := Ran(outcome);
  }
}
