/** The SQL migration runner of infra/database/migrations.py.

    `Db` is what the runner relies on: `data` is the statements that have taken
    effect, in order (any database content is a fold of it), and `records` is the
    migration table, whose version column is a primary key. A run may be cut off
    after any number of server operations. */
module MigrationRunner {
  import opened Sequences
  import opened Text
  import SqlSplitter

  datatype Migration = Migration(version: string, name: string, checksum: string, statements: seq<string>)

  datatype Record = Record(name: string, checksum: string)

  datatype Db = Db(data: seq<string>, records: map<string, Record>)

  datatype RunError =
    | InvalidFilename(file: string)
    | DuplicateVersion(version: string)
    | NoStatements(file: string)
    | ChecksumChanged(version: string)
    | Interrupted
    | LockNotAcquired

  const EMPTY := Db([], map[])

  // ------------------------------------------------- the migration directory

  predicate IsDigit(c: char) {
    '0' <= c <= '9'
  }

  const SUFFIX := ".sql"

  /** `YYYYMMDDHHMMSS_name.sql`: fourteen digits, then a lower-case name. */
  predicate ValidFilename(f: string) {
    && |f| >= 20
    && (forall i :: 0 <= i < 14 ==> IsDigit(f[i]))
    && f[14] == '_'
    && (forall i :: 15 <= i < |f| - 4 ==> IsDigit(f[i]) || 'a' <= f[i] <= 'z' || f[i] == '_')
    && f[|f| - 4..] == SUFFIX
  }

  function VersionOf(f: string): string
    requires ValidFilename(f)
  {
    f[..14]
  }

  function NameOf(f: string): string
    requires ValidFilename(f)
  {
    f[15..|f| - 4]
  }

  predicate Increasing(ms: seq<Migration>) {
    forall i, j :: 0 <= i < j < |ms| ==> Less(ms[i].version, ms[j].version)
  }

  function MigrationOf(f: string, sql: string, hash: string -> string): Migration
    requires ValidFilename(f)
  {
    Migration(VersionOf(f), NameOf(f), hash(sql), SqlSplitter.Split(sql))
  }

  /** Two different files share a version, or one file alone cannot be loaded. */
  predicate Clash(f: string, g: string) {
    f != g && ValidFilename(f) && ValidFilename(g) && VersionOf(f) == VersionOf(g)
  }

  predicate Loadable(f: string, sql: string, allowEmpty: bool) {
    ValidFilename(f) && (allowEmpty || SqlSplitter.Split(sql) != [])
  }

  /** `m` is the migration that the file `f` with this text holds: its version and name
      are read off the file name, its checksum and statements come from the text. */
  ghost predicate IsOf(m: Migration, f: string, text: string, hash: string -> string) {
    && |f| >= 20 && f[14] == '_' && f[|f| - 4..] == ".sql"
    && m.version == f[..14] && m.name == f[15..|f| - 4]
    && m.checksum == hash(text) && m.statements == SqlSplitter.Split(text)
  }

  /** `dir` holds one migration per file, in the order of the file names, which is that of
      the versions. */
  ghost predicate LoadedFrom(files: map<string, string>, hash: string -> string, dir: seq<Migration>) {
    && Increasing(dir) && |dir| == |files|
    && forall i :: 0 <= i < |dir| ==>
         Sorted(files.Keys)[i] in files && IsOf(dir[i], Sorted(files.Keys)[i], files[Sorted(files.Keys)[i]], hash)
  }

  /** Fourteen digits, an underscore, a name of small letters, digits and underscores, and
      the suffix: this is what names a migration, and how its version and name are read. */
  lemma NamedFile(stamp: string, name: string)
    requires |stamp| == 14
    ensures var f := stamp + ("_" + (name + ".sql"));
            && (ValidFilename(f) <==>
                  && (forall c :: c in stamp ==> '0' <= c <= '9')
                  && name != "" && (forall c :: c in name ==> 'a' <= c <= 'z' || '0' <= c <= '9' || c == '_'))
            && (ValidFilename(f) ==> VersionOf(f) == stamp && NameOf(f) == name)
  {
    var f := stamp + ("_" + (name + ".sql"));
    assert f[|f| - 4..] == ".sql" && f[14] == '_' && f[..14] == stamp && f[15..|f| - 4] == name;
    assert forall i :: 0 <= i < 14 ==> f[i] == stamp[i];
    assert forall i :: 0 <= i < |name| ==> f[i + 15] == name[i];
    if ValidFilename(f) {
      forall c | c in name ensures 'a' <= c <= 'z' || '0' <= c <= '9' || c == '_' {
        var i :| 0 <= i < |name| && name[i] == c;
        assert f[i + 15] == c;
      }
    }
    if forall c :: c in name ==> 'a' <= c <= 'z' || '0' <= c <= '9' || c == '_' {
      forall i | 15 <= i < |f| - 4 ensures IsDigit(f[i]) || 'a' <= f[i] <= 'z' || f[i] == '_' {
        assert name[i - 15] in name;
      }
    }
    if forall c :: c in stamp ==> '0' <= c <= '9' {
      forall i | 0 <= i < 14 ensures IsDigit(f[i]) {
        assert stamp[i] in stamp;
      }
    }
  }

  /** Valid file names in name order carry versions in version order. */
  lemma NamesOrderVersions(f: string, g: string)
    requires ValidFilename(f) && ValidFilename(g) && Less(f, g) && VersionOf(f) != VersionOf(g)
    ensures Less(VersionOf(f), VersionOf(g))
  {
    LeqPrefix(f, g, 14);
  }

  /** A directory loads if and only if every file is loadable and no two share a
      version; the migrations are the files in name order, which is strictly
      increasing version order. */
  method LoadSqlMigrations(files: map<string, string>, allowEmpty: bool, hash: string -> string)
    returns (r: Result<seq<Migration>, RunError>)
    ensures r.Success? ==> (forall f :: f in files ==> Loadable(f, files[f], allowEmpty))
    ensures r.Success? ==> (forall f, g :: f in files && g in files ==> !Clash(f, g))
    ensures r.Success? ==> Increasing(r.value)
    ensures r.Success? ==> |r.value| == |files|
    ensures r.Success? ==> LoadedFrom(files, hash, r.value)
    ensures r.Failure? ==>
      (exists f :: f in files && !Loadable(f, files[f], allowEmpty))
      || (exists f, g :: f in files && g in files && Clash(f, g))
    ensures r.Failure? ==> exists i :: 0 <= i < |files| && RefusedAt(files, allowEmpty, i, r.error)
  {
    hide RefusedAt, LoadedUpTo, Increasing, Clash, Sorted, SqlSplitter.Split, Distinct, IsOf, LoadedFrom;
    var paths := Sorted(files.Keys);
    SortedIsDistinct(files.Keys);
    var ms: seq<Migration> := [];
    var seen: set<string> := {};
    var i := 0;
    LoadedNothing(files, paths, allowEmpty, hash);
    while i < |paths|
      invariant i <= |paths| && LoadedUpTo(files, paths, allowEmpty, hash, ms, seen, i)
    {
      var path := paths[i];
      assert path in files;
      if !ValidFilename(path) {
        assert !Loadable(path, files[path], allowEmpty);
        RefusedHere(files, allowEmpty, hash, ms, seen, i, InvalidFilename(path));
        return Failure(InvalidFilename(path));
      }
      var version := VersionOf(path);
      if version in seen {
        VersionSeen(files, paths, allowEmpty, hash, ms, seen, i);
        RefusedHere(files, allowEmpty, hash, ms, seen, i, DuplicateVersion(version));
        return Failure(DuplicateVersion(version));
      }
      var statements := SqlSplitter.SplitSqlStatements(files[path]);
      if statements == [] && !allowEmpty {
        assert !Loadable(path, files[path], allowEmpty);
        RefusedHere(files, allowEmpty, hash, ms, seen, i, NoStatements(path));
        return Failure(NoStatements(path));
      }
      LoadedOneMore(files, paths, allowEmpty, hash, ms, seen, i);
      seen := seen + {version};
      ms := ms + [Migration(version, NameOf(path), hash(files[path]), statements)];
      i := i + 1;
    }
    LoadedAll(files, allowEmpty, hash, ms, seen);
    LoadedIsFrom(files, allowEmpty, hash, ms, seen);
    r := Success(ms);
  }

  /** The file that comes `i`-th by name is the first that cannot be loaded after those
      before it: for its name, for its version, which one of them has, or because it
      holds no statement and must. */
  ghost predicate RefusedAt(files: map<string, string>, allowEmpty: bool, i: nat, error: RunError)
    requires i < |files|
  {
    var paths := Sorted(files.Keys);
    var f := paths[i];
    && (forall k :: 0 <= k < i ==>
         paths[k] in files && ValidFilename(paths[k]) && (allowEmpty || SqlSplitter.Split(files[paths[k]]) != []))
    && if !ValidFilename(f) then error == InvalidFilename(f)
       else if exists k :: 0 <= k < i && paths[k][..14] == f[..14] then error == DuplicateVersion(f[..14])
       else f in files && SqlSplitter.Split(files[f]) == [] && !allowEmpty && error == NoStatements(f)
  }

  lemma RefusedHere(files: map<string, string>, allowEmpty: bool, hash: string -> string, ms: seq<Migration>,
                    seen: set<string>, i: nat, error: RunError)
    requires i < |files| && LoadedUpTo(files, Sorted(files.Keys), allowEmpty, hash, ms, seen, i)
    requires var f := Sorted(files.Keys)[i];
             if !ValidFilename(f) then error == InvalidFilename(f)
             else if VersionOf(f) in seen then error == DuplicateVersion(VersionOf(f))
             else f in files && SqlSplitter.Split(files[f]) == [] && !allowEmpty && error == NoStatements(f)
    ensures RefusedAt(files, allowEmpty, i, error)
  {
    hide Sorted, SqlSplitter.Split;
    var paths := Sorted(files.Keys);
    forall k | 0 <= k < i
      ensures paths[k] in files && ValidFilename(paths[k]) && (allowEmpty || SqlSplitter.Split(files[paths[k]]) != [])
      ensures ms[k].version == paths[k][..14]
    {
      assert LoadedAs(files, paths[k], allowEmpty, hash, ms[k]);
    }
    hide ValidFilename, LoadedAs;
    assert ValidFilename(paths[i]) ==>
        (VersionOf(paths[i]) in seen <==> exists k :: 0 <= k < i && paths[k][..14] == paths[i][..14]);
  }

  /** The file at `path` is loadable and has become `m`. */
  ghost predicate LoadedAs(files: map<string, string>, path: string, allowEmpty: bool, hash: string -> string,
                           m: Migration)
  {
    path in files && Loadable(path, files[path], allowEmpty) && m == MigrationOf(path, files[path], hash)
  }

  /** The versions of `ms` are `seen`, each once. */
  ghost predicate VersionsAre(ms: seq<Migration>, seen: set<string>) {
    && (forall k :: 0 <= k < |ms| ==> ms[k].version in seen)
    && (forall v :: v in seen ==> exists k :: 0 <= k < |ms| && ms[k].version == v)
    && (forall k, l :: 0 <= k < l < |ms| ==> ms[k].version != ms[l].version)
  }

  /** The first `i` files have become `ms`, and `seen` are their versions. */
  ghost predicate LoadedUpTo(files: map<string, string>, paths: seq<string>, allowEmpty: bool, hash: string -> string,
                             ms: seq<Migration>, seen: set<string>, i: nat)
  {
    && i <= |paths| && |ms| == i
    && (forall k :: 0 <= k < i ==> LoadedAs(files, paths[k], allowEmpty, hash, ms[k]))
    && VersionsAre(ms, seen)
  }

  lemma LoadedNothing(files: map<string, string>, paths: seq<string>, allowEmpty: bool, hash: string -> string)
    ensures LoadedUpTo(files, paths, allowEmpty, hash, [], {}, 0)
  {
  }

  lemma LoadedOneMore(files: map<string, string>, paths: seq<string>, allowEmpty: bool, hash: string -> string,
                      ms: seq<Migration>, seen: set<string>, i: nat)
    requires LoadedUpTo(files, paths, allowEmpty, hash, ms, seen, i) && i < |paths| && paths[i] in files
    requires Loadable(paths[i], files[paths[i]], allowEmpty) && VersionOf(paths[i]) !in seen
    ensures LoadedUpTo(files, paths, allowEmpty, hash, ms + [MigrationOf(paths[i], files[paths[i]], hash)],
                       seen + {VersionOf(paths[i])}, i + 1)
  {
    hide ValidFilename, Sorted, LoadedAs, VersionsAre;
    var m := MigrationOf(paths[i], files[paths[i]], hash);
    assert LoadedAs(files, paths[i], allowEmpty, hash, m) by {
      JustLoaded(files, paths[i], allowEmpty, hash);
    }
    assert (ms + [m])[i] == m && forall k :: 0 <= k < i ==> (ms + [m])[k] == ms[k];
    OneMoreVersion(ms, m, seen);
  }

  lemma JustLoaded(files: map<string, string>, path: string, allowEmpty: bool, hash: string -> string)
    requires path in files && Loadable(path, files[path], allowEmpty)
    ensures LoadedAs(files, path, allowEmpty, hash, MigrationOf(path, files[path], hash))
  {
  }

  lemma OneMoreVersion(ms: seq<Migration>, m: Migration, seen: set<string>)
    requires VersionsAre(ms, seen) && m.version !in seen
    ensures VersionsAre(ms + [m], seen + {m.version})
  {
    forall v | v in seen + {m.version} ensures exists k :: 0 <= k < |ms + [m]| && (ms + [m])[k].version == v {
      if v in seen {
        var k :| 0 <= k < |ms| && ms[k].version == v;
        assert (ms + [m])[k].version == v;
      } else {
        assert (ms + [m])[|ms|].version == v;
      }
    }
  }

  lemma VersionSeen(files: map<string, string>, paths: seq<string>, allowEmpty: bool, hash: string -> string,
                    ms: seq<Migration>, seen: set<string>, i: nat)
    requires LoadedUpTo(files, paths, allowEmpty, hash, ms, seen, i) && i < |paths| && Distinct(paths)
    requires ValidFilename(paths[i]) && VersionOf(paths[i]) in seen
    ensures exists f :: f in files && Clash(f, paths[i])
  {
    var k :| 0 <= k < i && ms[k].version == VersionOf(paths[i]);
    assert Clash(paths[k], paths[i]);
  }

  lemma LoadedAll(files: map<string, string>, allowEmpty: bool, hash: string -> string, ms: seq<Migration>,
                  seen: set<string>)
    requires LoadedUpTo(files, Sorted(files.Keys), allowEmpty, hash, ms, seen, |Sorted(files.Keys)|)
    ensures Increasing(ms) && |ms| == |files|
    ensures forall f :: f in files ==> Loadable(f, files[f], allowEmpty)
    ensures forall f, g :: f in files && g in files ==> !Clash(f, g)
    ensures forall i :: 0 <= i < |ms| ==>
      Sorted(files.Keys)[i] in files && ValidFilename(Sorted(files.Keys)[i])
      && ms[i] == MigrationOf(Sorted(files.Keys)[i], files[Sorted(files.Keys)[i]], hash)
  {
    hide Sorted, LoadedAs, VersionsAre, Loadable, MigrationOf, Clash, Increasing, Less, ValidFilename;
    var paths := Sorted(files.Keys);
    SortedIsIncreasing(files.Keys);
    Loaded(files, paths, allowEmpty, hash, ms, seen);
  }

  lemma LoadedIsOf(files: map<string, string>, path: string, allowEmpty: bool, hash: string -> string, m: Migration)
    requires LoadedAs(files, path, allowEmpty, hash, m)
    ensures path in files && IsOf(m, path, files[path], hash)
  {
    hide SqlSplitter.Split;
  }

  lemma LoadedIsFrom(files: map<string, string>, allowEmpty: bool, hash: string -> string, ms: seq<Migration>,
                     seen: set<string>)
    requires LoadedUpTo(files, Sorted(files.Keys), allowEmpty, hash, ms, seen, |Sorted(files.Keys)|)
    requires Increasing(ms) && |ms| == |files|
    ensures LoadedFrom(files, hash, ms)
  {
    hide Increasing, LoadedAs, IsOf, VersionsAre, Sorted;
    var paths := Sorted(files.Keys);
    forall i | 0 <= i < |ms| ensures paths[i] in files && IsOf(ms[i], paths[i], files[paths[i]], hash) {
      LoadedIsOf(files, paths[i], allowEmpty, hash, ms[i]);
    }
  }

  /** Each file has its migration, and each migration its file. */
  lemma MigrationOfFile(files: map<string, string>, hash: string -> string, dir: seq<Migration>, f: string)
    returns (i: nat)
    requires LoadedFrom(files, hash, dir) && f in files
    ensures i < |dir| && IsOf(dir[i], f, files[f], hash)
  {
    hide IsOf, Increasing;
    var paths := Sorted(files.Keys);
    assert f in paths;
    i :| 0 <= i < |paths| && paths[i] == f;
  }

  lemma FileOfMigration(files: map<string, string>, hash: string -> string, dir: seq<Migration>, i: nat)
    returns (f: string)
    requires LoadedFrom(files, hash, dir) && i < |dir|
    ensures f in files && IsOf(dir[i], f, files[f], hash)
  {
    hide IsOf, Increasing;
    f := Sorted(files.Keys)[i];
  }

  lemma Loaded(files: map<string, string>, paths: seq<string>, allowEmpty: bool, hash: string -> string,
               ms: seq<Migration>, seen: set<string>)
    requires LoadedUpTo(files, paths, allowEmpty, hash, ms, seen, |paths|)
    requires forall f :: f in files ==> f in paths
    requires forall k, l :: 0 <= k < l < |paths| ==> Less(paths[k], paths[l])
    ensures Increasing(ms)
    ensures forall f :: f in files ==> Loadable(f, files[f], allowEmpty)
    ensures forall f, g :: f in files && g in files ==> !Clash(f, g)
    ensures forall k :: 0 <= k < |paths| ==>
      paths[k] in files && ValidFilename(paths[k]) && ms[k] == MigrationOf(paths[k], files[paths[k]], hash)
  {
    hide ValidFilename, Less, SqlSplitter.Split;
    forall k | 0 <= k < |paths| ensures LoadedAs(files, paths[k], allowEmpty, hash, ms[k]) {
    }
    forall k, l | 0 <= k < l < |ms| ensures Less(ms[k].version, ms[l].version) {
      NamesOrderVersions(paths[k], paths[l]);
    }
    forall f | f in files ensures Loadable(f, files[f], allowEmpty) {
      var k :| 0 <= k < |paths| && paths[k] == f;
    }
    forall f, g | f in files && g in files ensures !Clash(f, g) {
      var k :| 0 <= k < |paths| && paths[k] == f;
      var l :| 0 <= l < |paths| && paths[l] == g;
      assert ms[k].version == VersionOf(f) && ms[l].version == VersionOf(g);
    }
  }

  // --------------------------------------------------------------- one run

  /** The migrations without a record, or an error at the first changed checksum. */
  function Pending(dir: seq<Migration>, records: map<string, Record>): Result<seq<Migration>, RunError> {
    if dir == [] then Success([])
    else if dir[0].version !in records then
      match Pending(dir[1..], records)
      case Success(rest) => Success([dir[0]] + rest)
      case Failure(e) => Failure(e)
    else if records[dir[0].version].checksum != dir[0].checksum then Failure(ChecksumChanged(dir[0].version))
    else Pending(dir[1..], records)
  }

  function RecordOf(m: Migration): Record {
    Record(m.name, m.checksum)
  }

  /** A migration that has taken effect as a whole. */
  function Applied(db: Db, m: Migration): Db {
    Db(db.data + m.statements, db.records[m.version := RecordOf(m)])
  }

  /** A run over `pending` that is cut off after `budget` operations: the database it
      leaves and how many migrations it completed. Each statement and the insert of
      the record is an operation, and so is the commit of a transaction. */
  function RunPending(db: Db, pending: seq<Migration>, atomic: bool, budget: nat): (Db, nat)
    decreases |pending|
  {
    if pending == [] then (db, 0)
    else
      var m := pending[0];
      var cost := |m.statements| + (if atomic then 2 else 1);
      if m.version in db.records || budget < cost then
        (if atomic then db else Db(db.data + m.statements[..Min(budget, |m.statements|)], db.records), 0)
      else
        var (after, completed) := RunPending(Applied(db, m), pending[1..], atomic, budget - cost);
        (after, completed + 1)
  }

  function Min(a: nat, b: nat): nat {
    if a < b then a else b
  }

  /** One `migrate` call that is cut off after `budget` operations: the database it
      leaves, and the migrations it returns or the error it raises. */
  function MigrateOutcome(dir: seq<Migration>, db: Db, atomic: bool, budget: nat)
    : (Db, Result<seq<Migration>, RunError>)
  {
    match Pending(dir, db.records)
    case Failure(e) => (db, Failure(e))
    case Success(pending) =>
      var (after, completed) := RunPending(db, pending, atomic, budget);
      (after, if completed == |pending| then Success(pending) else Failure(Interrupted))
  }

  /** The server, and how many more operations it will carry out. */
  class Server {
    var db: Db
    var budget: nat

    constructor (db: Db, budget: nat)
      ensures this.db == db && this.budget == budget
    {
      this.db, this.budget := db, budget;
    }

    method Execute(statement: string) returns (ok: bool)
      modifies this
      ensures ok <==> old(budget) > 0
      ensures budget == (if ok then old(budget) - 1 else 0)
      ensures db == (if ok then Db(old(db.data) + [statement], old(db.records)) else old(db))
    {
      ok := budget > 0;
      if ok {
        db, budget := Db(db.data + [statement], db.records), budget - 1;
      }
    }

    /** The primary key refuses a second row for a version. */
    method Insert(version: string, record: Record) returns (ok: bool)
      modifies this
      ensures ok <==> old(budget) > 0 && version !in old(db).records
      ensures ok ==> budget == old(budget) - 1
      ensures db == (if ok then Db(old(db.data), old(db.records)[version := record]) else old(db))
    {
      ok := budget > 0 && version !in db.records;
      if ok {
        db, budget := Db(db.data, db.records[version := record]), budget - 1;
      }
    }
  }

  class MigrationLock {
    var held: bool

    constructor ()
      ensures !held
    {
      held := false;
    }

    /** Taken at once if it is free. If another runner holds it, either that one gives it
        up while this one waits, or the acquisition raises. */
    method Acquire(givenUp: bool) returns (ok: bool)
      modifies this
      ensures ok <==> !old(held) || givenUp
      ensures held
    {
      ok := !held || givenUp;
      held := true;
    }

    method Release()
      modifies this
      ensures !held
    {
      held := false;
    }
  }

  class SqlMigrationRunner {
    const server: Server
    const dir: seq<Migration>
    const lock: MigrationLock?
    const transactional: bool

    constructor (server: Server, dir: seq<Migration>, lock: MigrationLock?, transactional: bool)
      ensures this.server == server && this.dir == dir && this.lock == lock && this.transactional == transactional
    {
      this.server, this.dir, this.lock, this.transactional := server, dir, lock, transactional;
    }

    method ApplyMigration(m: Migration) returns (ok: bool)
      modifies server
      ensures ok <==> m.version !in old(server.db).records && old(server.budget) >= |m.statements| + 1
      ensures ok ==> server.db == Applied(old(server.db), m) && server.budget == old(server.budget) - |m.statements| - 1
      ensures !ok ==> server.db.records == old(server.db).records
      ensures !ok ==> server.db.data == old(server.db).data + m.statements[..Min(old(server.budget), |m.statements|)]
    {
      var i := 0;
      while i < |m.statements|
        invariant i <= |m.statements| && i <= old(server.budget)
        invariant server.budget == old(server.budget) - i
        invariant server.db == Db(old(server.db).data + m.statements[..i], old(server.db).records)
      {
        ok := server.Execute(m.statements[i]);
        if !ok {
          return;
        }
        assert m.statements[..i + 1] == m.statements[..i] + [m.statements[i]];
        i := i + 1;
      }
      assert m.statements[..i] == m.statements;
      ok := server.Insert(m.version, RecordOf(m));
    }

    /** With a transaction factory, what a migration did before the transaction failed
        is undone; without one it stays. */
    method ApplyInTransaction(m: Migration) returns (ok: bool)
      modifies server
      ensures ok <==> m.version !in old(server.db).records && old(server.budget) >= |m.statements| + 2
      ensures ok ==> server.db == Applied(old(server.db), m) && server.budget == old(server.budget) - |m.statements| - 2
      ensures !ok ==> server.db == old(server.db)
    {
      var snapshot := server.db;
      ok := ApplyMigration(m);
      if ok && server.budget > 0 {
        server.budget := server.budget - 1;
      } else {
        server.db := snapshot;
        ok := false;
      }
    }

    method MigrateLocked() returns (r: Result<seq<Migration>, RunError>)
      modifies server
      ensures (server.db, r) == MigrateOutcome(dir, old(server.db), transactional, old(server.budget))
      ensures Pending(dir, old(server.db).records).Failure? ==> server.budget == old(server.budget)
    {
      var p := Pending(dir, server.db.records);
      if p.Failure? {
        return Failure(p.error);
      }
      var pending := p.value;
      var appliedNow: seq<Migration> := [];
      ghost var db0, budget0 := server.db, server.budget;
      var i := 0;
      while i < |pending|
        invariant i <= |pending| && appliedNow == pending[..i]
        invariant var (after, completed) := RunPending(server.db, pending[i..], transactional, server.budget);
                  RunPending(db0, pending, transactional, budget0) == (after, completed + i)
      {
        assert pending[i..][1..] == pending[i + 1..];
        var ok;
        if transactional {
          ok := ApplyInTransaction(pending[i]);
        } else {
          ok := ApplyMigration(pending[i]);
        }
        if !ok {
          return Failure(Interrupted);
        }
        appliedNow := appliedNow + [pending[i]];
        i := i + 1;
      }
      assert pending[i..] == [] && pending[..i] == pending;
      r := Success(appliedNow);
    }

    /** If there is a lock, it is taken for the whole run and given back whether or not
        the run raises. A runner that has to wait for it finds the database as the others
        have left it, `waited`; one that does not get it does nothing. */
    method Migrate(givenUp: bool, waited: Db) returns (r: Result<seq<Migration>, RunError>)
      modifies server, if lock == null then {} else {lock}
      ensures r == Failure(LockNotAcquired) <==> lock != null && old(lock.held) && !givenUp
      ensures r == Failure(LockNotAcquired) ==> server.db == old(server.db) && server.budget == old(server.budget)
      ensures r == Failure(LockNotAcquired) ==> lock.held
      ensures r != Failure(LockNotAcquired) && lock != null ==> !lock.held
      ensures r != Failure(LockNotAcquired) ==>
        var found := if lock != null && old(lock.held) then waited else old(server.db);
        && (server.db, r) == MigrateOutcome(dir, found, transactional, old(server.budget))
        && (Pending(dir, found.records).Failure? ==> server.budget == old(server.budget))
    {
      hide RunPending;
      OutcomeErrors(dir, if lock != null && lock.held then waited else server.db, transactional, server.budget);
      if lock != null {
        var wait := lock.held;
        var ok := lock.Acquire(givenUp);
        if !ok {
          return Failure(LockNotAcquired);
        }
        if wait {
          server.db := waited;
        }
      }
      r := MigrateLocked();
      if lock != null {
        lock.Release();
      }
    }
  }

  lemma OutcomeErrors(dir: seq<Migration>, db: Db, atomic: bool, budget: nat)
    ensures MigrateOutcome(dir, db, atomic, budget).1 != Failure(LockNotAcquired)
  {
    PendingErrors(dir, db.records);
  }

  lemma {:induction false} PendingErrors(dir: seq<Migration>, records: map<string, Record>)
    ensures Pending(dir, records).Failure? ==> Pending(dir, records).error.ChecksumChanged?
  {
    if dir != [] {
      PendingErrors(dir[1..], records);
    }
  }

  // -------------------------------------------------------- all runs together

  /** The database after the first `k` migrations of the directory, each once. */
  function PrefixDb(dir: seq<Migration>, k: nat): Db
    requires k <= |dir|
  {
    if k == 0 then EMPTY else Applied(PrefixDb(dir, k - 1), dir[k - 1])
  }

  predicate Changed(m: Migration, records: map<string, Record>) {
    m.version in records && records[m.version].checksum != m.checksum
  }

  /** A run raises a checksum error exactly when a recorded migration has changed. */
  lemma {:induction false} ChangedMeansError(dir: seq<Migration>, records: map<string, Record>)
    ensures Pending(dir, records).Failure?
      <==> exists i :: 0 <= i < |dir| && Changed(dir[i], records)
  {
    if dir != [] {
      ChangedMeansError(dir[1..], records);
      forall i | 0 <= i < |dir| - 1 ensures dir[1..][i] == dir[i + 1] {
      }
      if i :| 0 <= i < |dir[1..]| && Changed(dir[1..][i], records) {
        assert Changed(dir[i + 1], records);
      }
    }
  }

  lemma {:induction false} RecordsOfPrefix(dir: seq<Migration>, k: nat)
    requires Increasing(dir) && k <= |dir|
    ensures var records := PrefixDb(dir, k).records;
            && (forall i :: 0 <= i < k ==> dir[i].version in records && records[dir[i].version] == RecordOf(dir[i]))
            && (forall i :: k <= i < |dir| ==> dir[i].version !in records)
            && |records| == k
  {
    if k > 0 {
      RecordsOfPrefix(dir, k - 1);
    }
  }

  lemma PendingNone(records: map<string, Record>)
    ensures Pending([], records) == Success([])
  {
  }

  lemma PendingNext(dir: seq<Migration>, i: nat, records: map<string, Record>)
    requires i < |dir|
    ensures dir[i].version !in records && Pending(dir[i + 1..], records).Success? ==>
              Pending(dir[i..], records) == Success([dir[i]] + Pending(dir[i + 1..], records).value)
    ensures dir[i].version in records && records[dir[i].version] == RecordOf(dir[i]) ==>
              Pending(dir[i..], records) == Pending(dir[i + 1..], records)
  {
    assert dir[i..][1..] == dir[i + 1..] && dir[i..][0] == dir[i];
  }

  lemma {:induction false} PendingAfterPrefix(dir: seq<Migration>, k: nat, i: nat)
    requires Increasing(dir) && k <= |dir| && i <= |dir|
    ensures Pending(dir[i..], PrefixDb(dir, k).records) == Success(if i < k then dir[k..] else dir[i..])
    decreases |dir| - i
  {
    hide PrefixDb, Increasing, Pending;
    RecordsOfPrefix(dir, k);
    if i < |dir| {
      PendingAfterPrefix(dir, k, i + 1);
      PendingNext(dir, i, PrefixDb(dir, k).records);
      assert dir[i..] == [dir[i]] + dir[i + 1..];
    } else {
      assert dir[i..] == [];
      PendingNone(PrefixDb(dir, k).records);
    }
  }

  lemma AtomicRunStep(db: Db, pending: seq<Migration>, budget: nat)
    requires pending != [] ==> pending[0].version !in db.records
    ensures RunPending(db, pending, true, budget) ==
            if pending == [] || budget < |pending[0].statements| + 2 then (db, 0)
            else
              var left := budget - |pending[0].statements| - 2;
              var rest := RunPending(Applied(db, pending[0]), pending[1..], true, left);
              (rest.0, rest.1 + 1)
  {
  }

  lemma {:induction false} AtomicRunAdvances(dir: seq<Migration>, k: nat, budget: nat)
    requires Increasing(dir) && k <= |dir|
    ensures var (after, completed) := RunPending(PrefixDb(dir, k), dir[k..], true, budget);
            k + completed <= |dir| && after == PrefixDb(dir, k + completed)
    decreases |dir| - k
  {
    hide Increasing, RunPending;
    RecordsOfPrefix(dir, k);
    AtomicRunStep(PrefixDb(dir, k), dir[k..], budget);
    if k < |dir| && budget >= |dir[k].statements| + 2 {
      assert dir[k..][1..] == dir[k + 1..];
      AtomicRunAdvances(dir, k + 1, budget - |dir[k].statements| - 2);
    }
  }

  lemma NoneApplied(dir: seq<Migration>)
    ensures PrefixDb(dir, 0) == EMPTY
  {
  }

  /** Runs one after another, each cut off by its own budget. */
  function AfterRuns(dir: seq<Migration>, atomic: bool, budgets: seq<nat>): Db {
    if budgets == [] then EMPTY
    else MigrateOutcome(dir, AfterRuns(dir, atomic, budgets[..|budgets| - 1]), atomic, budgets[|budgets| - 1]).0
  }

  /** Whatever runs are made and wherever they are cut off, transactional runs leave
      the recorded versions a prefix of the directory and the database the fold of
      exactly that prefix: no migration takes effect twice or in part. A further run
      only extends the prefix. */
  lemma {:induction false} RecordedPrefix(dir: seq<Migration>, budgets: seq<nat>)
    requires Increasing(dir)
    ensures var k := |AfterRuns(dir, true, budgets).records|;
            && k <= |dir| && AfterRuns(dir, true, budgets) == PrefixDb(dir, k)
            && Pending(dir, AfterRuns(dir, true, budgets).records) == Success(dir[k..])
    ensures budgets != [] ==>
      |AfterRuns(dir, true, budgets[..|budgets| - 1]).records| <= |AfterRuns(dir, true, budgets).records|
  {
    hide MigrateOutcome, Pending, PrefixDb, Increasing;
    assert dir[0..] == dir;
    if budgets == [] {
      NoneApplied(dir);
      PendingAfterPrefix(dir, 0, 0);
    } else {
      var front, last := budgets[..|budgets| - 1], budgets[|budgets| - 1];
      RecordedPrefix(dir, front);
      var k := |AfterRuns(dir, true, front).records|;
      var k' := AtomicMigrate(dir, k, last);
      PendingAfterPrefix(dir, k', 0);
    }
  }

  /** One transactional run from the fold of a prefix. */
  lemma AtomicMigrate(dir: seq<Migration>, k: nat, budget: nat) returns (k': nat)
    requires Increasing(dir) && k <= |dir|
    ensures k <= k' <= |dir| && MigrateOutcome(dir, PrefixDb(dir, k), true, budget).0 == PrefixDb(dir, k')
    ensures |PrefixDb(dir, k').records| == k'
  {
    hide RunPending, Pending, PrefixDb, Increasing;
    assert dir[0..] == dir;
    PendingAfterPrefix(dir, k, 0);
    AtomicRunAdvances(dir, k, budget);
    k' := k + RunPending(PrefixDb(dir, k), dir[k..], true, budget).1;
    PrefixSize(dir, k');
  }

  lemma PrefixSize(dir: seq<Migration>, k: nat)
    requires Increasing(dir) && k <= |dir|
    ensures |PrefixDb(dir, k).records| == k
  {
    RecordsOfPrefix(dir, k);
  }

  /** The operations that a transactional run over `pending` takes. */
  function Cost(pending: seq<Migration>): nat {
    if pending == [] then 0 else |pending[0].statements| + 2 + Cost(pending[1..])
  }

  lemma {:induction false} CompletesWithinCost(dir: seq<Migration>, k: nat, budget: nat)
    requires Increasing(dir) && k <= |dir|
    ensures RunPending(PrefixDb(dir, k), dir[k..], true, budget).1 == |dir| - k <==> budget >= Cost(dir[k..])
    decreases |dir| - k
  {
    hide Increasing, RunPending;
    RecordsOfPrefix(dir, k);
    AtomicRunStep(PrefixDb(dir, k), dir[k..], budget);
    if k < |dir| {
      assert dir[k..][1..] == dir[k + 1..];
      if budget >= |dir[k].statements| + 2 {
        CompletesWithinCost(dir, k + 1, budget - |dir[k].statements| - 2);
      }
    }
  }

  /** After any such runs, a run succeeds if and only if it is allowed the operations of
      what is still pending, and if and only if it leaves the whole directory applied. */
  lemma UninterruptedRunCompletes(dir: seq<Migration>, budgets: seq<nat>, budget: nat)
    requires Increasing(dir)
    ensures var before := AfterRuns(dir, true, budgets);
            var (after, r) := MigrateOutcome(dir, before, true, budget);
            && |before.records| <= |dir|
            && (r.Success? <==> budget >= Cost(dir[|before.records|..]))
            && (r.Success? <==> after == PrefixDb(dir, |dir|)) && (r.Success? || r == Failure(Interrupted))
  {
    hide RunPending, Pending, AfterRuns, Increasing, PrefixDb;
    RecordedPrefix(dir, budgets);
    var k := |AfterRuns(dir, true, budgets).records|;
    AtomicRunAdvances(dir, k, budget);
    CompletesWithinCost(dir, k, budget);
    var completed := RunPending(PrefixDb(dir, k), dir[k..], true, budget).1;
    PrefixSize(dir, k + completed);
    PrefixSize(dir, |dir|);
  }

  /** A plain run of `budget` operations ends with its last migration whole. */
  predicate EndsBetweenMigrations(pending: seq<Migration>, budget: nat)
    decreases |pending|
  {
    pending == [] || budget == 0
    || (budget > |pending[0].statements| && EndsBetweenMigrations(pending[1..], budget - |pending[0].statements| - 1))
  }

  /** What a plain run does with one migration: run it whole and record it, or be cut
      off after some of its statements, at least one. */
  datatype Attempt = Whole | Part(count: nat)

  function Attempts(pending: seq<Migration>, budget: nat): seq<Attempt>
    decreases |pending|
  {
    if pending == [] || budget == 0 then []
    else if budget > |pending[0].statements| then [Whole] + Attempts(pending[1..], budget - |pending[0].statements| - 1)
    else [Part(budget)]
  }

  function Wholes(attempts: seq<Attempt>): nat {
    if attempts == [] then 0 else Wholes(attempts[1..]) + (if attempts[0].Whole? then 1 else 0)
  }

  function StatementsOf(dir: seq<Migration>, k: nat): seq<string> {
    if k < |dir| then dir[k].statements else []
  }

  /** The statements that `attempts` execute from migration `k` on. After a part the next
      attempt is at the same migration again, from its first statement. */
  function Executed(dir: seq<Migration>, k: nat, attempts: seq<Attempt>): seq<string>
    decreases |attempts|
  {
    if attempts == [] then []
    else match attempts[0]
      case Whole => StatementsOf(dir, k) + Executed(dir, k + 1, attempts[1..])
      case Part(j) => StatementsOf(dir, k)[..Min(j, |StatementsOf(dir, k)|)] + Executed(dir, k, attempts[1..])
  }

  lemma PlainRunCut(db: Db, pending: seq<Migration>, budget: nat)
    requires pending != [] && 0 < budget <= |pending[0].statements|
    ensures RunPending(db, pending, false, budget) == (Db(db.data + pending[0].statements[..budget], db.records), 0)
    ensures Attempts(pending, budget) == [Part(budget)] && !EndsBetweenMigrations(pending, budget)
  {
  }

  lemma PlainRunStep(db: Db, pending: seq<Migration>, budget: nat)
    requires pending != [] && budget > |pending[0].statements| && pending[0].version !in db.records
    ensures var left := budget - |pending[0].statements| - 1;
            var rest := RunPending(Applied(db, pending[0]), pending[1..], false, left);
            && RunPending(db, pending, false, budget) == (rest.0, rest.1 + 1)
            && Attempts(pending, budget) == [Whole] + Attempts(pending[1..], left)
            && (EndsBetweenMigrations(pending, budget) <==> EndsBetweenMigrations(pending[1..], left))
  {
  }

  lemma PlainRunDone(db: Db, pending: seq<Migration>, budget: nat)
    requires pending == [] || budget == 0
    ensures Attempts(pending, budget) == []
    ensures EndsBetweenMigrations(pending, budget) && RunPending(db, pending, false, budget) == (db, 0)
  {
    if pending != [] {
      assert db.data + pending[0].statements[..0] == db.data;
    }
  }

  lemma ExecutedFirst(dir: seq<Migration>, k: nat, attempts: seq<Attempt>)
    requires k < |dir|
    ensures Executed(dir, k, [Whole] + attempts) == dir[k].statements + Executed(dir, k + 1, attempts)
    ensures Wholes([Whole] + attempts) == Wholes(attempts) + 1
  {
    assert ([Whole] + attempts)[1..] == attempts;
  }

  lemma {:induction false} ExecutedPart(dir: seq<Migration>, k: nat, j: nat)
    requires k < |dir| && j <= |dir[k].statements|
    ensures Executed(dir, k, [Part(j)]) == dir[k].statements[..j] && Wholes([Part(j)]) == 0
  {
    assert [Part(j)][1..] == [];
  }

  /** A plain run appends exactly the statements of its attempts to whatever data there
      is, and records the migrations it ran whole. */
  lemma {:induction false} PlainRunExecutes(dir: seq<Migration>, k: nat, data: seq<string>, budget: nat)
    requires Increasing(dir) && k <= |dir|
    ensures var attempts := Attempts(dir[k..], budget);
            && k + Wholes(attempts) <= |dir|
            && RunPending(Db(data, PrefixDb(dir, k).records), dir[k..], false, budget)
               == (Db(data + Executed(dir, k, attempts), PrefixDb(dir, k + Wholes(attempts)).records), Wholes(attempts))
    decreases |dir| - k
  {
    hide RunPending, EndsBetweenMigrations, Attempts, Increasing, Executed, Wholes;
    var db, pending := Db(data, PrefixDb(dir, k).records), dir[k..];
    RecordsOfPrefix(dir, k);
    if k == |dir| || budget == 0 {
      PlainRunDone(db, pending, budget);
      ExecutedNothing(dir, k);
      assert data + [] == data;
    } else if budget <= |dir[k].statements| {
      PlainRunCut(db, pending, budget);
      ExecutedPart(dir, k, budget);
    } else {
      PlainRunStep(db, pending, budget);
      assert pending[1..] == dir[k + 1..];
      var left := budget - |dir[k].statements| - 1;
      PlainRunExecutes(dir, k + 1, data + dir[k].statements, left);
      ExecutedFirst(dir, k, Attempts(dir[k + 1..], left));
      Assoc(data, dir[k].statements, Executed(dir, k + 1, Attempts(dir[k + 1..], left)));
    }
  }

  lemma ExecutedNothing(dir: seq<Migration>, k: nat)
    ensures Executed(dir, k, []) == [] && Wholes([]) == 0
  {
  }

  /** All attempts of plain runs one after another. */
  function Trace(dir: seq<Migration>, budgets: seq<nat>): seq<Attempt> {
    if budgets == [] then []
    else
      var before := Trace(dir, budgets[..|budgets| - 1]);
      before + (if Wholes(before) <= |dir| then Attempts(dir[Wholes(before)..], budgets[|budgets| - 1]) else [])
  }

  lemma ExecutedNext(dir: seq<Migration>, k: nat, a: seq<Attempt>, b: seq<Attempt>)
    requires a != []
    ensures (a + b)[1..] == a[1..] + b && (a + b)[0] == a[0]
    ensures Wholes(a) == Wholes(a[1..]) + (if a[0].Whole? then 1 else 0)
    ensures Executed(dir, k, a) ==
            (if a[0].Whole? then StatementsOf(dir, k)
             else StatementsOf(dir, k)[..Min(a[0].count, |StatementsOf(dir, k)|)])
            + Executed(dir, if a[0].Whole? then k + 1 else k, a[1..])
  {
  }

  lemma {:induction false} ExecutedAppend(dir: seq<Migration>, k: nat, a: seq<Attempt>, b: seq<Attempt>)
    ensures Wholes(a + b) == Wholes(a) + Wholes(b)
    ensures Executed(dir, k, a + b) == Executed(dir, k, a) + Executed(dir, k + Wholes(a), b)
    decreases |a|
  {
    hide Executed, Wholes, StatementsOf, Min;
    if a == [] {
      assert a + b == b;
      ExecutedNothing(dir, k);
    } else {
      ExecutedNext(dir, k, a, b);
      ExecutedNext(dir, k, a + b, []);
      assert a + b + [] == a + b;
      ExecutedAppend(dir, if a[0].Whole? then k + 1 else k, a[1..], b);
    }
  }

  /** Whatever plain runs are made and wherever they are cut off, the recorded versions
      are a prefix of the directory and the data is what all attempts executed. */
  lemma {:induction false} PlainRunsAre(dir: seq<Migration>, budgets: seq<nat>)
    requires Increasing(dir)
    ensures var trace := Trace(dir, budgets);
            && Wholes(trace) <= |dir|
            && AfterRuns(dir, false, budgets) == Db(Executed(dir, 0, trace), PrefixDb(dir, Wholes(trace)).records)
            && |AfterRuns(dir, false, budgets).records| == Wholes(trace)
  {
    hide RunPending, Pending, Executed, Attempts, Increasing, PrefixDb, Wholes;
    if budgets == [] {
      ExecutedNothing(dir, 0);
      NoneApplied(dir);
    } else {
      var front, last := budgets[..|budgets| - 1], budgets[|budgets| - 1];
      var before := Trace(dir, front);
      var k := Wholes(before);
      PlainRunsAre(dir, front);
      PendingAfterPrefix(dir, k, 0);
      assert dir[0..] == dir;
      PlainRunExecutes(dir, k, Executed(dir, 0, before), last);
      ExecutedAppend(dir, 0, before, Attempts(dir[k..], last));
      PrefixSize(dir, k + Wholes(Attempts(dir[k..], last)));
    }
  }

  /** Every part is one of its migration: cut off after at least one statement. */
  predicate Sound(dir: seq<Migration>, k: nat, attempts: seq<Attempt>)
    decreases |attempts|
  {
    attempts == [] ||
    (if attempts[0].Whole? then k < |dir| && Sound(dir, k + 1, attempts[1..])
     else 0 < attempts[0].count <= |StatementsOf(dir, k)| && Sound(dir, k, attempts[1..]))
  }

  predicate AllWhole(attempts: seq<Attempt>) {
    forall t :: 0 <= t < |attempts| ==> attempts[t].Whole?
  }

  lemma {:induction false} AttemptsAreSound(dir: seq<Migration>, k: nat, budget: nat)
    requires k <= |dir|
    ensures Sound(dir, k, Attempts(dir[k..], budget)) && k + Wholes(Attempts(dir[k..], budget)) <= |dir|
    ensures AllWhole(Attempts(dir[k..], budget)) <==> EndsBetweenMigrations(dir[k..], budget)
    decreases |dir| - k
  {
    if k < |dir| && budget > 0 {
      assert dir[k..][1..] == dir[k + 1..];
      if budget > |dir[k].statements| {
        var left := budget - |dir[k].statements| - 1;
        AttemptsAreSound(dir, k + 1, left);
        WholeFirst(dir, k, Attempts(dir[k + 1..], left));
      } else {
        PartOnly(dir, k, budget);
      }
    }
  }

  lemma WholeFirst(dir: seq<Migration>, k: nat, attempts: seq<Attempt>)
    requires k < |dir|
    ensures Sound(dir, k, [Whole] + attempts) <==> Sound(dir, k + 1, attempts)
    ensures Wholes([Whole] + attempts) == Wholes(attempts) + 1
    ensures AllWhole([Whole] + attempts) <==> AllWhole(attempts)
  {
    var longer := [Whole] + attempts;
    assert longer[1..] == attempts;
    forall t | 0 <= t < |attempts| ensures longer[t + 1] == attempts[t] {
    }
  }

  lemma {:induction false} PartOnly(dir: seq<Migration>, k: nat, j: nat)
    requires k < |dir| && 0 < j <= |dir[k].statements|
    ensures Sound(dir, k, [Part(j)]) && Wholes([Part(j)]) == 0 && !AllWhole([Part(j)])
  {
    assert [Part(j)][1..] == [];
    assert [Part(j)][0] == Part(j);
  }

  lemma {:induction false} SoundAppend(dir: seq<Migration>, k: nat, a: seq<Attempt>, b: seq<Attempt>)
    requires Sound(dir, k, a) && Sound(dir, k + Wholes(a), b)
    ensures Sound(dir, k, a + b)
    ensures AllWhole(a + b) <==> AllWhole(a) && AllWhole(b)
    decreases |a|
  {
    if a == [] {
      assert a + b == b;
    } else {
      assert (a + b)[1..] == a[1..] + b;
      SoundAppend(dir, if a[0].Whole? then k + 1 else k, a[1..], b);
      forall t | 0 <= t < |b| ensures (a + b)[|a| + t] == b[t] {
      }
    }
  }

  /** The data that attempts from migration `k` on leave after the fold of the first `k`. */
  function DataAfter(dir: seq<Migration>, k: nat, attempts: seq<Attempt>): seq<string>
    requires k <= |dir|
  {
    PrefixDb(dir, k).data + Executed(dir, k, attempts)
  }

  lemma DataNext(dir: seq<Migration>, k: nat, attempts: seq<Attempt>)
    requires k <= |dir| && attempts != [] && Sound(dir, k, attempts)
    ensures attempts[0].Whole? ==> k < |dir| && DataAfter(dir, k, attempts) == DataAfter(dir, k + 1, attempts[1..])
    ensures attempts[0].Part? ==> |DataAfter(dir, k, attempts)| > |DataAfter(dir, k, attempts[1..])|
  {
    hide Executed, PrefixDb;
    SoundNext(dir, k, attempts);
    ExecutedNext(dir, k, attempts, []);
    if attempts[0].Whole? {
      AppliedNext(dir, k);
      Assoc(PrefixDb(dir, k).data, dir[k].statements, Executed(dir, k + 1, attempts[1..]));
    }
  }

  lemma DataNothing(dir: seq<Migration>, k: nat)
    requires k <= |dir|
    ensures DataAfter(dir, k, []) == PrefixDb(dir, k).data && AllWhole([]) && Wholes([]) == 0
  {
  }

  lemma WholesNext(attempts: seq<Attempt>)
    requires attempts != []
    ensures Wholes(attempts) == Wholes(attempts[1..]) + (if attempts[0].Whole? then 1 else 0)
  {
  }

  /** Whole attempts leave the fold of the prefix; each part leaves more than that. */
  lemma {:induction false} PartsAreExtra(dir: seq<Migration>, k: nat, attempts: seq<Attempt>)
    requires k <= |dir| && Sound(dir, k, attempts) && k + Wholes(attempts) <= |dir|
    ensures var folded, data := PrefixDb(dir, k + Wholes(attempts)).data, DataAfter(dir, k, attempts);
            && |data| >= |folded|
            && (if AllWhole(attempts) then data == folded else |data| > |folded|)
    decreases |attempts|
  {
    hide DataAfter, Wholes, PrefixDb, AllWhole, Sound;
    if attempts == [] {
      DataNothing(dir, k);
    } else {
      SoundNext(dir, k, attempts);
      WholesNext(attempts);
      DataNext(dir, k, attempts);
      PartsAreExtra(dir, if attempts[0].Whole? then k + 1 else k, attempts[1..]);
    }
  }

  lemma SoundNext(dir: seq<Migration>, k: nat, attempts: seq<Attempt>)
    requires attempts != [] && Sound(dir, k, attempts)
    ensures attempts[0].Whole? ==> k < |dir| && Sound(dir, k + 1, attempts[1..])
    ensures attempts[0].Whole? ==> (AllWhole(attempts) <==> AllWhole(attempts[1..]))
    ensures attempts[0].Part? ==> 0 < attempts[0].count <= |StatementsOf(dir, k)| && Sound(dir, k, attempts[1..])
    ensures attempts[0].Part? ==> !AllWhole(attempts)
  {
    assert forall t :: 0 <= t < |attempts[1..]| ==> attempts[1..][t] == attempts[t + 1];
  }

  lemma AppliedNext(dir: seq<Migration>, k: nat)
    requires k < |dir|
    ensures PrefixDb(dir, k + 1).data == PrefixDb(dir, k).data + dir[k].statements
  {
  }

  /** Run `i` ended between migrations. */
  predicate EndedBetween(dir: seq<Migration>, budgets: seq<nat>, i: nat)
    requires i < |budgets|
  {
    var k := |AfterRuns(dir, false, budgets[..i]).records|;
    k <= |dir| && EndsBetweenMigrations(dir[k..], budgets[i])
  }

  predicate AllEndedBetween(dir: seq<Migration>, budgets: seq<nat>) {
    forall i :: 0 <= i < |budgets| ==> EndedBetween(dir, budgets, i)
  }

  lemma EndedBetweenAppend(dir: seq<Migration>, front: seq<nat>, last: nat)
    ensures AllEndedBetween(dir, front + [last])
      <==> AllEndedBetween(dir, front) && EndedBetween(dir, front + [last], |front|)
    ensures (front + [last])[..|front|] == front
  {
    hide AfterRuns, EndsBetweenMigrations;
    var budgets := front + [last];
    forall i | 0 <= i < |front| ensures EndedBetween(dir, budgets, i) <==> EndedBetween(dir, front, i) {
      assert budgets[..i] == front[..i];
    }
  }

  lemma {:induction false} TraceIsSound(dir: seq<Migration>, budgets: seq<nat>)
    requires Increasing(dir)
    ensures Sound(dir, 0, Trace(dir, budgets)) && Wholes(Trace(dir, budgets)) <= |dir|
    ensures AllWhole(Trace(dir, budgets)) <==> AllEndedBetween(dir, budgets)
  {
    if budgets != [] {
      hide Sound, AllWhole, Attempts, AfterRuns, EndsBetweenMigrations, Increasing, Executed, Wholes, Trace,
           AllEndedBetween, PrefixDb;
      var front, last := budgets[..|budgets| - 1], budgets[|budgets| - 1];
      assert budgets == front + [last];
      var k := Wholes(Trace(dir, front));
      TraceIsSound(dir, front);
      PlainRunsAre(dir, front);
      TraceAppend(dir, front, last);
      AttemptsAreSound(dir, k, last);
      SoundAppend(dir, 0, Trace(dir, front), Attempts(dir[k..], last));
      ExecutedAppend(dir, 0, Trace(dir, front), Attempts(dir[k..], last));
      EndedBetweenAppend(dir, front, last);
    } else {
      NothingIsSound(dir);
    }
  }

  lemma NothingIsSound(dir: seq<Migration>)
    ensures Sound(dir, 0, []) && AllWhole([]) && Wholes([]) == 0
  {
  }

  /** Without a transaction factory, after any number of runs the recorded versions are a
      prefix of the directory. The database is the fold of that prefix if and only if
      every run ended between migrations; otherwise it holds statements beyond it. */
  lemma PlainRunIsExact(dir: seq<Migration>, budgets: seq<nat>)
    requires Increasing(dir)
    ensures var after := AfterRuns(dir, false, budgets);
            var k := |after.records|;
            && k <= |dir| && after.records == PrefixDb(dir, k).records
            && (after == PrefixDb(dir, k) <==> AllEndedBetween(dir, budgets))
            && (after != PrefixDb(dir, k) ==> |after.data| > |PrefixDb(dir, k).data|)
  {
    hide Sound, Increasing, AfterRuns, Trace, Executed, AllEndedBetween, AllWhole;
    PlainRunsAre(dir, budgets);
    TraceIsSound(dir, budgets);
    PartsAreExtra(dir, 0, Trace(dir, budgets));
    assert DataAfter(dir, 0, Trace(dir, budgets)) == Executed(dir, 0, Trace(dir, budgets));
  }

  /** `data` ends with a beginning of `statements`, at least one of them. */
  ghost predicate EndsInPart(data: seq<string>, statements: seq<string>) {
    exists base, j :: 0 < j <= |statements| && data == base + statements[..j]
  }

  lemma {:induction false} CutLeavesPart(dir: seq<Migration>, k: nat, data: seq<string>, budget: nat)
    requires k <= |dir| && !EndsBetweenMigrations(dir[k..], budget)
    ensures var attempts := Attempts(dir[k..], budget);
            var k' := k + Wholes(attempts);
            k' < |dir| && EndsInPart(data + Executed(dir, k, attempts), dir[k'].statements)
    decreases |dir| - k
  {
    hide Executed, Wholes, EndsInPart;
    assert dir[k..][1..] == dir[k + 1..];
    if budget > |dir[k].statements| {
      var left := budget - |dir[k].statements| - 1;
      CutLeavesPart(dir, k + 1, data + dir[k].statements, left);
      ExecutedFirst(dir, k, Attempts(dir[k + 1..], left));
      Assoc(data, dir[k].statements, Executed(dir, k + 1, Attempts(dir[k + 1..], left)));
    } else {
      ExecutedPart(dir, k, budget);
      PartAtEnd(data, dir[k].statements, budget);
    }
  }

  lemma PartAtEnd(data: seq<string>, statements: seq<string>, j: nat)
    requires 0 < j <= |statements|
    ensures EndsInPart(data + statements[..j], statements)
  {
  }

  /** A plain run that is cut off inside a migration leaves the beginning of it at the end
      of the data, and the next run that gets through that migration executes all of its
      statements after them: the leftover ones a second time. */
  lemma LeftoversRunAgain(dir: seq<Migration>, budgets: seq<nat>, cut: nat, next: nat)
    requires Increasing(dir) && !EndedBetween(dir, budgets + [cut], |budgets|)
    ensures var before := AfterRuns(dir, false, budgets + [cut]);
            var k := |before.records|;
            && k < |dir| && EndsInPart(before.data, dir[k].statements)
            && (next > |dir[k].statements| ==>
                 before.data + dir[k].statements <= AfterRuns(dir, false, budgets + [cut] + [next]).data)
  {
    hide Increasing, AfterRuns, Executed, EndsInPart, EndsBetweenMigrations, Attempts, Wholes, Trace, PrefixDb;
    PlainRunsAre(dir, budgets);
    PlainRunsAre(dir, budgets + [cut]);
    PlainRunsAre(dir, budgets + [cut] + [next]);
    var k0 := Wholes(Trace(dir, budgets));
    var k := Wholes(Trace(dir, budgets + [cut]));
    TraceAppend(dir, budgets, cut);
    TraceAppend(dir, budgets + [cut], next);
    assert (budgets + [cut])[..|budgets|] == budgets;
    ExecutedAppend(dir, 0, Trace(dir, budgets), Attempts(dir[k0..], cut));
    CutLeavesPart(dir, k0, Executed(dir, 0, Trace(dir, budgets)), cut);
    ExecutedAppend(dir, 0, Trace(dir, budgets + [cut]), Attempts(dir[k..], next));
    if next > |dir[k].statements| {
      FirstWhole(dir, k, next);
    }
  }

  lemma TraceAppend(dir: seq<Migration>, budgets: seq<nat>, budget: nat)
    requires Wholes(Trace(dir, budgets)) <= |dir|
    ensures Trace(dir, budgets + [budget])
         == Trace(dir, budgets) + Attempts(dir[Wholes(Trace(dir, budgets))..], budget)
  {
    assert (budgets + [budget])[..|budgets|] == budgets;
  }

  lemma FirstWhole(dir: seq<Migration>, k: nat, budget: nat)
    requires k < |dir| && budget > |dir[k].statements|
    ensures dir[k].statements <= Executed(dir, k, Attempts(dir[k..], budget))
  {
    ExecutedFirst(dir, k, Attempts(dir[k..][1..], budget - |dir[k].statements| - 1));
  }

  // ------------------------------------------------- what a run returns

  lemma {:induction false} PendingHolds(dir: seq<Migration>, records: map<string, Record>)
    requires Pending(dir, records).Success?
    ensures forall m :: m in Pending(dir, records).value <==> m in dir && m.version !in records
  {
    if dir != [] {
      PendingHolds(dir[1..], records);
      assert dir == [dir[0]] + dir[1..];
    }
  }

  lemma {:induction false} PendingIncreases(dir: seq<Migration>, records: map<string, Record>)
    requires Increasing(dir) && Pending(dir, records).Success?
    ensures Increasing(Pending(dir, records).value)
  {
    hide Less;
    if dir != [] {
      assert Increasing(dir[1..]) by {
        assert forall i :: 0 <= i < |dir[1..]| ==> dir[1..][i] == dir[i + 1];
      }
      PendingIncreases(dir[1..], records);
      var rest := Pending(dir[1..], records).value;
      PendingHolds(dir[1..], records);
      forall i | 0 <= i < |rest| ensures Less(dir[0].version, rest[i].version) {
        assert rest[i] in rest;
        var j :| 0 <= j < |dir[1..]| && dir[1..][j] == rest[i];
        assert dir[j + 1] == rest[i];
      }
    }
  }

  lemma {:induction false} RecordsGrow(db: Db, pending: seq<Migration>, atomic: bool, budget: nat)
    ensures var (after, completed) := RunPending(db, pending, atomic, budget);
            && completed <= |pending|
            && (forall v :: v in db.records ==> v in after.records && after.records[v] == db.records[v])
            && (forall i :: 0 <= i < completed ==> pending[i].version in after.records)
    decreases |pending|
  {
    if pending != [] {
      var m := pending[0];
      var cost := |m.statements| + (if atomic then 2 else 1);
      if m.version !in db.records && budget >= cost {
        RecordsGrow(Applied(db, m), pending[1..], atomic, budget - cost);
      }
    }
  }

  /** A `migrate` that succeeds returns exactly the migrations that had no record, in version
      order, and leaves every migration of the directory recorded. */
  lemma MigrateReturns(dir: seq<Migration>, db: Db, atomic: bool, budget: nat)
    requires Increasing(dir)
    ensures var (after, r) := MigrateOutcome(dir, db, atomic, budget);
            r.Success? ==>
              && (forall m :: m in r.value <==> m in dir && m.version !in db.records)
              && Increasing(r.value)
              && (forall m :: m in dir ==> m.version in after.records)
  {
    hide RunPending, Pending, Increasing;
    var p := Pending(dir, db.records);
    if p.Success? {
      PendingHolds(dir, db.records);
      PendingIncreases(dir, db.records);
      RecordsGrow(db, p.value, atomic, budget);
      var (after, completed) := RunPending(db, p.value, atomic, budget);
      if completed == |p.value| {
        forall m | m in dir ensures m.version in after.records {
          if m.version !in db.records {
            var i :| 0 <= i < |p.value| && p.value[i] == m;
            assert p.value[i].version in after.records;
          }
        }
      }
    }
  }

  lemma {:induction false} VersionRecorded(dir: seq<Migration>, k: nat, version: string) returns (i: nat)
    requires k <= |dir| && version in PrefixDb(dir, k).records
    ensures i < k && dir[i].version == version
  {
    if dir[k - 1].version == version {
      i := k - 1;
    } else {
      i := VersionRecorded(dir, k - 1, version);
    }
  }

  // ------------------------------------------------- from files to records

  lemma RecordsAfterRuns(dir: seq<Migration>, atomic: bool, budgets: seq<nat>) returns (k: nat)
    requires Increasing(dir)
    ensures k <= |dir| && AfterRuns(dir, atomic, budgets).records == PrefixDb(dir, k).records
  {
    hide AfterRuns, PrefixDb, Increasing;
    if atomic {
      RecordedPrefix(dir, budgets);
      k := |AfterRuns(dir, true, budgets).records|;
    } else {
      PlainRunIsExact(dir, budgets);
      k := |AfterRuns(dir, false, budgets).records|;
    }
  }

  lemma IncreasingIfLoaded(files: map<string, string>, hash: string -> string, dir: seq<Migration>)
    requires LoadedFrom(files, hash, dir)
    ensures Increasing(dir)
  {
  }

  /** What is recorded of a file: the name read off its file name and the hash of its text. */
  lemma RecordedText(files: map<string, string>, hash: string -> string, dir: seq<Migration>, atomic: bool,
                     budgets: seq<nat>, f: string)
    requires LoadedFrom(files, hash, dir) && f in files && |f| >= 20
    requires f[..14] in AfterRuns(dir, atomic, budgets).records
    ensures AfterRuns(dir, atomic, budgets).records[f[..14]] == Record(f[15..|f| - 4], hash(files[f]))
  {
    hide AfterRuns, PrefixDb, Increasing, LoadedFrom;
    IncreasingIfLoaded(files, hash, dir);
    var k := RecordsAfterRuns(dir, atomic, budgets);
    var i := MigrationOfFile(files, hash, dir, f);
    RecordsOfPrefix(dir, k);
    assert i < k;
  }

  /** A recorded file's text has another hash in `files'`. */
  ghost predicate TextChanged(files: map<string, string>, files': map<string, string>, hash: string -> string,
                              records: map<string, Record>)
  {
    exists f, f' :: f in files && f' in files' && |f| >= 20 && |f'| >= 20 && f[..14] == f'[..14]
                    && f[..14] in records && hash(files[f]) != hash(files'[f'])
  }

  /** From files to the error: after any runs over the directory `files`, a run over the
      directory `files'` raises the checksum error, before it changes anything, if and only
      if the text of some recorded file has another hash. */
  lemma ChangedTextIsRefused(files: map<string, string>, files': map<string, string>, hash: string -> string,
                             dir: seq<Migration>, dir': seq<Migration>, atomic: bool, budgets: seq<nat>, budget: nat)
    requires LoadedFrom(files, hash, dir) && LoadedFrom(files', hash, dir')
    ensures var db := AfterRuns(dir, atomic, budgets);
            var (after, r) := MigrateOutcome(dir', db, atomic, budget);
            && (r.Failure? && r.error.ChecksumChanged? <==> TextChanged(files, files', hash, db.records))
            && (TextChanged(files, files', hash, db.records) ==> after == db)
  {
    hide AfterRuns, PrefixDb, Increasing, LoadedFrom, RunPending, Pending;
    var records := AfterRuns(dir, atomic, budgets).records;
    PendingErrors(dir', records);
    ChangedMeansError(dir', records);
    if i :| 0 <= i < |dir'| && Changed(dir'[i], records) {
      ChangedHasTexts(files, files', hash, dir, dir', atomic, budgets, i);
    }
    if TextChanged(files, files', hash, records) {
      var f, f' :| f in files && f' in files' && |f| >= 20 && |f'| >= 20 && f[..14] == f'[..14]
                   && f[..14] in records && hash(files[f]) != hash(files'[f']);
      RecordedText(files, hash, dir, atomic, budgets, f);
      var j := MigrationOfFile(files', hash, dir', f');
      assert Changed(dir'[j], records);
    }
  }

  lemma ChangedHasTexts(files: map<string, string>, files': map<string, string>, hash: string -> string,
                        dir: seq<Migration>, dir': seq<Migration>, atomic: bool, budgets: seq<nat>, i: nat)
    requires LoadedFrom(files, hash, dir) && LoadedFrom(files', hash, dir') && i < |dir'|
    requires Changed(dir'[i], AfterRuns(dir, atomic, budgets).records)
    ensures TextChanged(files, files', hash, AfterRuns(dir, atomic, budgets).records)
  {
    hide AfterRuns, PrefixDb, Increasing, LoadedFrom;
    IncreasingIfLoaded(files, hash, dir);
    var f' := FileOfMigration(files', hash, dir', i);
    var k := RecordsAfterRuns(dir, atomic, budgets);
    var l := VersionRecorded(dir, k, dir'[i].version);
    var f := FileOfMigration(files, hash, dir, l);
    RecordedText(files, hash, dir, atomic, budgets, f);
    assert f[..14] == f'[..14];
  }

  // -------------------------------------------- directories that are added to

  /** Every migration of `dir` is still in `grown`. */
  predicate Extends(dir: seq<Migration>, grown: seq<Migration>) {
    forall m :: m in dir ==> m in grown
  }

  /** What has been added sorts after the first `k` versions. */
  ghost predicate AddedAfter(dir: seq<Migration>, grown: seq<Migration>, k: nat)
    requires k <= |dir|
  {
    forall m, i :: m in grown && m !in dir && 0 <= i < k ==> Less(dir[i].version, m.version)
  }

  lemma {:induction false} SamePrefixDb(dir: seq<Migration>, grown: seq<Migration>, k: nat)
    requires k <= |dir| && k <= |grown| && dir[..k] == grown[..k]
    ensures PrefixDb(dir, k) == PrefixDb(grown, k)
  {
    if k > 0 {
      assert dir[..k - 1] == dir[..k][..k - 1] && grown[..k - 1] == grown[..k][..k - 1];
      assert dir[k - 1] == dir[..k][k - 1] && grown[k - 1] == grown[..k][k - 1];
      SamePrefixDb(dir, grown, k - 1);
    }
  }

  /** In increasing order a smaller version stands further left. */
  lemma LessMeansBefore(dir: seq<Migration>, i: nat, j: nat)
    requires Increasing(dir) && i < |dir| && j < |dir|
    ensures Less(dir[i].version, dir[j].version) <==> i < j
    ensures dir[i].version == dir[j].version <==> i == j
  {
    if j < i {
      LessIsOneWay(dir[j].version, dir[i].version);
    }
  }

  lemma LessIsOneWay(a: string, b: string)
    ensures Less(a, b) ==> !Less(b, a) && a != b
    ensures a != b ==> Less(a, b) || Less(b, a)
  {
    LeqTotal(a, b);
    if Leq(a, b) && Leq(b, a) {
      LeqAntisymmetric(a, b);
    }
  }

  lemma {:induction false} AddedAfterKeepsFront(dir: seq<Migration>, grown: seq<Migration>, k: nat, i: nat)
    requires Increasing(dir) && Increasing(grown) && Extends(dir, grown) && i <= k <= |dir| && AddedAfter(dir, grown, k)
    ensures i <= |grown| && grown[..i] == dir[..i]
  {
    if i > 0 {
      AddedAfterKeepsFront(dir, grown, k, i - 1);
      NextIsSame(dir, grown, k, i - 1);
      assert grown[..i] == grown[..i - 1] + [grown[i - 1]] && dir[..i] == dir[..i - 1] + [dir[i - 1]];
    }
  }

  lemma NextIsSame(dir: seq<Migration>, grown: seq<Migration>, k: nat, i: nat)
    requires Increasing(dir) && Increasing(grown) && Extends(dir, grown) && i < k <= |dir| && AddedAfter(dir, grown, k)
    requires i <= |grown| && grown[..i] == dir[..i]
    ensures i < |grown| && grown[i] == dir[i]
  {
    hide Increasing, Extends, Less;
    assert dir[i] in grown by { assert Extends(dir, grown) && dir[i] in dir; StillThere(dir, grown, dir[i]); }
    var j :| 0 <= j < |grown| && grown[j] == dir[i];
    if j < i {
      assert grown[..i][j] == dir[..i][j];
      LessMeansBefore(dir, j, i);
      assert false;
    } else if i < j {
      LessMeansBefore(grown, i, j);
      LessIsOneWay(grown[i].version, dir[i].version);
      assert grown[i] in dir;
      var l :| 0 <= l < |dir| && dir[l] == grown[i];
      LessMeansBefore(dir, l, i);
      assert dir[..i][l] == grown[..i][l];
      LessMeansBefore(grown, l, i);
      assert false;
    }
  }

  lemma StillThere(dir: seq<Migration>, grown: seq<Migration>, m: Migration)
    requires Extends(dir, grown) && m in dir
    ensures m in grown
  {
  }

  /** The recorded state is that of a prefix of `dir`. */
  ghost predicate IsPrefixDb(dir: seq<Migration>, db: Db) {
    exists k :: 0 <= k <= |dir| && db == PrefixDb(dir, k)
  }

  /** After `k` migrations have been recorded, adding others to the directory leaves the
      database the fold of a recorded prefix if and only if every added version sorts
      after all the recorded ones. */
  lemma AdditionKeepsPrefix(dir: seq<Migration>, grown: seq<Migration>, k: nat)
    requires Increasing(dir) && Increasing(grown) && Extends(dir, grown) && k <= |dir|
    ensures IsPrefixDb(grown, PrefixDb(dir, k)) <==> AddedAfter(dir, grown, k)
  {
    hide Increasing, Extends, Less, PrefixDb;
    if AddedAfter(dir, grown, k) {
      AddedAfterKeepsFront(dir, grown, k, k);
      SamePrefixDb(dir, grown, k);
    }
    if k' :| 0 <= k' <= |grown| && PrefixDb(dir, k) == PrefixDb(grown, k') {
      forall m, i | m in grown && m !in dir && 0 <= i < k ensures Less(dir[i].version, m.version) {
        AddedSortsAfter(dir, grown, k, k', m, i);
      }
    }
  }

  lemma AddedSortsAfter(dir: seq<Migration>, grown: seq<Migration>, k: nat, k': nat, m: Migration, i: nat)
    requires Increasing(dir) && Increasing(grown) && Extends(dir, grown) && k <= |dir| && k' <= |grown|
    requires PrefixDb(dir, k).records == PrefixDb(grown, k').records
    requires m in grown && m !in dir && i < k
    ensures Less(dir[i].version, m.version)
  {
    hide Increasing, Extends, Less, PrefixDb;
    RecordsOfPrefix(dir, k);
    RecordsOfPrefix(grown, k');
    StillThere(dir, grown, dir[i]);
    var p :| 0 <= p < |grown| && grown[p] == m;
    var q :| 0 <= q < |grown| && grown[q] == dir[i];
    LessMeansBefore(grown, p, q);
    LessIsOneWay(dir[i].version, m.version);
    if p < q {
      assert m.version in PrefixDb(dir, k).records;
      var l := VersionRecorded(dir, k, m.version);
      StillThere(dir, grown, dir[l]);
      var r :| 0 <= r < |grown| && grown[r] == dir[l];
      LessMeansBefore(grown, p, r);
      assert false;
    }
  }

  lemma {:induction false} PendingAppend(a: seq<Migration>, b: seq<Migration>, records: map<string, Record>)
    requires Pending(a, records).Success? && Pending(b, records).Success?
    ensures Pending(a + b, records) == Success(Pending(a, records).value + Pending(b, records).value)
  {
    if a == [] {
      assert a + b == b && [] + Pending(b, records).value == Pending(b, records).value;
    } else {
      assert (a + b)[1..] == a[1..] + b && (a + b)[0] == a[0];
      PendingAppend(a[1..], b, records);
      Assoc([a[0]], Pending(a[1..], records).value, Pending(b, records).value);
    }
  }

  lemma PendingOne(m: Migration, records: map<string, Record>)
    ensures m.version !in records ==> Pending([m], records) == Success([m])
    ensures m.version in records && records[m.version] == RecordOf(m) ==> Pending([m], records) == Success([])
  {
    assert [m][1..] == [] && [m] + [] == [m];
  }

  lemma {:induction false} NothingPending(dir: seq<Migration>, k: nat, i: nat)
    requires Increasing(dir) && i <= k <= |dir|
    ensures Pending(dir[..i], PrefixDb(dir, k).records) == Success([])
  {
    hide PrefixDb, Increasing, Pending;
    RecordsOfPrefix(dir, k);
    PendingNone(PrefixDb(dir, k).records);
    if i > 0 {
      NothingPending(dir, k, i - 1);
      assert dir[..i] == dir[..i - 1] + [dir[i - 1]];
      PendingOne(dir[i - 1], PrefixDb(dir, k).records);
      PendingAppend(dir[..i - 1], [dir[i - 1]], PrefixDb(dir, k).records);
      assert [] + Pending([dir[i - 1]], PrefixDb(dir, k).records).value == [];
    } else {
      assert dir[..0] == [];
    }
  }

  /** A migration added below recorded ones raises no error: it is simply pending, and the
      next run applies it after migrations that sort after it. */
  lemma LateAdditionIsPending(dir: seq<Migration>, m: Migration, pos: nat, k: nat)
    requires Increasing(dir) && pos <= k <= |dir| && m.version !in PrefixDb(dir, k).records
    ensures Pending(dir[..pos] + [m] + dir[pos..], PrefixDb(dir, k).records) == Success([m] + dir[k..])
  {
    hide PrefixDb, Increasing, Pending;
    var records := PrefixDb(dir, k).records;
    NothingPending(dir, k, pos);
    PendingAfterPrefix(dir, k, pos);
    assert pos == k ==> dir[pos..] == dir[k..];
    PendingOne(m, records);
    PendingAppend(dir[..pos], [m], records);
    assert [] + [m] == [m];
    PendingAppend(dir[..pos] + [m], dir[pos..], records);
  }

  /** A run, with the directory as it is then. */
  datatype DirRun = DirRun(dir: seq<Migration>, budget: nat)

  function AfterDirRuns(runs: seq<DirRun>): Db {
    if runs == [] then EMPTY
    else
      var last := runs[|runs| - 1];
      MigrateOutcome(last.dir, AfterDirRuns(runs[..|runs| - 1]), true, last.budget).0
  }

  /** Before run `i` the directory was only added to, after all that was recorded then. */
  ghost predicate GrewInOrder(runs: seq<DirRun>, i: nat)
    requires 0 < i < |runs|
  {
    var k := |AfterDirRuns(runs[..i]).records|;
    Extends(runs[i - 1].dir, runs[i].dir) && k <= |runs[i - 1].dir| && AddedAfter(runs[i - 1].dir, runs[i].dir, k)
  }

  /** Transactional runs, cut off anywhere, over a directory that grows in this way keep
      the database the fold of a recorded prefix of the directory as it is last. */
  lemma {:induction false} GrowingDirectoryKeepsPrefix(runs: seq<DirRun>)
    requires forall i :: 0 <= i < |runs| ==> Increasing(runs[i].dir)
    requires forall i :: 0 < i < |runs| ==> GrewInOrder(runs, i)
    ensures runs != [] ==>
      var dir, k := runs[|runs| - 1].dir, |AfterDirRuns(runs).records|;
      && k <= |dir| && AfterDirRuns(runs) == PrefixDb(dir, k)
      && |AfterDirRuns(runs[..|runs| - 1]).records| <= k
  {
    hide MigrateOutcome, PrefixDb, Increasing, Extends, AddedAfter;
    if runs != [] {
      var front, last := runs[..|runs| - 1], runs[|runs| - 1];
      forall i | 0 < i < |front| ensures GrewInOrder(front, i) {
        assert GrewInOrder(runs, i) && front[..i] == runs[..i] && front[i] == runs[i] && front[i - 1] == runs[i - 1];
      }
      GrowingDirectoryKeepsPrefix(front);
      if front == [] {
        NoneApplied(last.dir);
        var k' := AtomicMigrate(last.dir, 0, last.budget);
      } else {
        assert GrewInOrder(runs, |front|);
        var k := |AfterDirRuns(front).records|;
        AddedAfterKeepsFront(front[|front| - 1].dir, last.dir, k, k);
        SamePrefixDb(front[|front| - 1].dir, last.dir, k);
        var k' := AtomicMigrate(last.dir, k, last.budget);
      }
    }
  }

  // ------------------------------------------------- runners side by side

  /** A runner between runs, or with migrations still to apply and the number of
      statements of the first one that its open transaction has executed. */
  datatype Runner = Idle | Active(todo: seq<Migration>, executed: nat)

  datatype System = System(db: Db, runners: map<nat, Runner>)

  /** `Crash` stands for any exception or the death of the process. */
  datatype Event =
    | Start(id: nat)
    | Execute(id: nat)
    | Commit(id: nat)
    | Finish(id: nat)
    | Crash(id: nat)

  function RunnerOf(s: System, id: nat): Runner {
    if id in s.runners then s.runners[id] else Idle
  }

  function With(s: System, id: nat, r: Runner): System {
    s.(runners := s.runners[id := r])
  }

  /** One step of one runner; an event its runner is not ready for changes nothing. The
      statements of an open transaction are not yet in `db`; the commit includes the
      insert of the record, which fails when another runner has inserted it first. */
  function Step(dir: seq<Migration>, s: System, e: Event): System {
    var r := RunnerOf(s, e.id);
    match e
    case Start(id) =>
      if r.Active? then s
      else
        var pending := Pending(dir, s.db.records);
        if pending.Failure? then s else With(s, id, Active(pending.value, 0))
    case Execute(id) =>
      if r.Active? && r.todo != [] && r.executed < |r.todo[0].statements|
      then With(s, id, r.(executed := r.executed + 1)) else s
    case Commit(id) =>
      if !(r.Active? && r.todo != [] && r.executed == |r.todo[0].statements|) then s
      else if r.todo[0].version in s.db.records then With(s, id, Idle)
      else
        var m := r.todo[0];
        System(Db(s.db.data + m.statements[..r.executed], s.db.records[m.version := RecordOf(m)]),
               s.runners[id := Active(r.todo[1..], 0)])
    case Finish(id) => if r == Active([], 0) then With(s, id, Idle) else s
    case Crash(id) => With(s, id, Idle)
  }

  function SystemAfter(dir: seq<Migration>, events: seq<Event>): System {
    if events == [] then System(EMPTY, map[])
    else Step(dir, SystemAfter(dir, events[..|events| - 1]), events[|events| - 1])
  }

  /** Each active runner works on a tail of the directory that starts no later than the
      first unrecorded migration. */
  ghost predicate Consistent(dir: seq<Migration>, s: System) {
    var k := |s.db.records|;
    && k <= |dir| && s.db == PrefixDb(dir, k)
    && forall id :: id in s.runners && s.runners[id].Active? ==> TailFrom(dir, k, s.runners[id].todo)
  }

  ghost predicate TailFrom(dir: seq<Migration>, k: nat, todo: seq<Migration>) {
    |todo| <= |dir| && |dir| - |todo| <= k && todo == dir[|dir| - |todo|..]
  }

  lemma CommitKeepsPrefix(dir: seq<Migration>, s: System, id: nat)
    requires Increasing(dir) && Consistent(dir, s)
    requires id in s.runners && s.runners[id].Active? && s.runners[id].todo != []
    requires s.runners[id].executed == |s.runners[id].todo[0].statements|
    requires s.runners[id].todo[0].version !in s.db.records
    ensures Consistent(dir, Step(dir, s, Commit(id)))
    ensures |Step(dir, s, Commit(id)).db.records| == |s.db.records| + 1
  {
    var k, todo := |s.db.records|, s.runners[id].todo;
    var j := |dir| - |todo|;
    RecordsOfPrefix(dir, k);
    assert TailFrom(dir, k, todo) && todo[0] == dir[j] && todo[1..] == dir[j + 1..];
    assert j == k;
    var m := todo[0];
    var s' := Step(dir, s, Commit(id));
    assert m.statements[..|m.statements|] == m.statements;
    assert s'.db == Applied(s.db, m) == PrefixDb(dir, k + 1);
    RecordsOfPrefix(dir, k + 1);
    assert TailFrom(dir, k + 1, todo[1..]);
    forall other | other in s'.runners && s'.runners[other].Active?
      ensures TailFrom(dir, k + 1, s'.runners[other].todo)
    {
      if other != id { assert TailFrom(dir, k, s.runners[other].todo); }
    }
  }

  lemma StepKeepsConsistent(dir: seq<Migration>, s: System, e: Event)
    requires Increasing(dir) && Consistent(dir, s)
    ensures Consistent(dir, Step(dir, s, e))
    ensures |s.db.records| <= |Step(dir, s, e).db.records|
  {
    hide PrefixDb;
    var r := RunnerOf(s, e.id);
    if e.Start? {
      PendingAfterPrefix(dir, |s.db.records|, 0);
      assert dir[0..] == dir;
      assert TailFrom(dir, |s.db.records|, dir[|s.db.records|..]);
    } else if e.Commit? && r.Active? && r.todo != [] && r.executed == |r.todo[0].statements| {
      if r.todo[0].version !in s.db.records {
        CommitKeepsPrefix(dir, s, e.id);
      }
    }
  }

  /** Any number of transactional runners, interleaved statement by statement and
      crashing anywhere, keep the database the fold of a recorded prefix of the
      directory. The primary key alone ensures this, so it holds with the shared lock
      and also for runners that do not share one. */
  lemma {:induction false} RunnersSideBySide(dir: seq<Migration>, events: seq<Event>)
    requires Increasing(dir)
    ensures Consistent(dir, SystemAfter(dir, events))
    ensures events != [] ==>
      |SystemAfter(dir, events[..|events| - 1]).db.records| <= |SystemAfter(dir, events).db.records|
  {
    hide Consistent, Step;
    if events == [] {
      NothingYet(dir);
    } else {
      RunnersSideBySide(dir, events[..|events| - 1]);
      StepKeepsConsistent(dir, SystemAfter(dir, events[..|events| - 1]), events[|events| - 1]);
    }
  }

  lemma NothingYet(dir: seq<Migration>)
    ensures Consistent(dir, System(EMPTY, map[]))
  {
  }

  // ------------------------------------------------ a runner left to itself

  function StepEach(dir: seq<Migration>, s: System, events: seq<Event>): System
    decreases |events|
  {
    if events == [] then s else StepEach(dir, Step(dir, s, events[0]), events[1..])
  }

  lemma {:induction false} SystemContinues(dir: seq<Migration>, events: seq<Event>, more: seq<Event>)
    ensures SystemAfter(dir, events + more) == StepEach(dir, SystemAfter(dir, events), more)
    decreases |more|
  {
    hide Step;
    if more == [] {
      assert events + more == events;
    } else {
      var longer := events + [more[0]];
      assert events + more == longer + more[1..] && longer[..|longer| - 1] == events;
      SystemContinues(dir, longer, more[1..]);
    }
  }

  lemma {:induction false} StepEachConcat(dir: seq<Migration>, s: System, a: seq<Event>, b: seq<Event>)
    ensures StepEach(dir, s, a + b) == StepEach(dir, StepEach(dir, s, a), b)
    decreases |a|
  {
    hide Step;
    if a == [] {
      assert a + b == b;
    } else {
      assert (a + b)[1..] == a[1..] + b;
      StepEachConcat(dir, Step(dir, s, a[0]), a[1..], b);
    }
  }

  /** The steps that one runner takes for the migrations from `k` on. */
  function Executes(id: nat, n: nat): seq<Event> {
    if n == 0 then [] else [Execute(id)] + Executes(id, n - 1)
  }

  function Work(dir: seq<Migration>, id: nat, k: nat): seq<Event>
    requires k <= |dir|
    decreases |dir| - k
  {
    if k == |dir| then [] else Executes(id, |dir[k].statements|) + ([Commit(id)] + Work(dir, id, k + 1))
  }

  lemma {:induction false} ExecutesAll(dir: seq<Migration>, s: System, id: nat, n: nat)
    requires id in s.runners && s.runners[id].Active? && s.runners[id].todo != []
    requires s.runners[id].executed + n == |s.runners[id].todo[0].statements|
    ensures var r := s.runners[id];
            StepEach(dir, s, Executes(id, n)) == With(s, id, r.(executed := |r.todo[0].statements|))
    decreases n
  {
    var r := s.runners[id];
    if n == 0 {
      assert s.runners == s.runners[id := r.(executed := |r.todo[0].statements|)];
    } else {
      assert Executes(id, n)[1..] == Executes(id, n - 1);
      var s' := Step(dir, s, Execute(id));
      ExecutesAll(dir, s', id, n - 1);
      assert s'.runners[id := r.(executed := |r.todo[0].statements|)]
          == s.runners[id := r.(executed := |r.todo[0].statements|)];
    }
  }

  lemma {:induction false} WorkIsDone(dir: seq<Migration>, s: System, id: nat, k: nat)
    requires Increasing(dir) && k <= |dir| && s.db == PrefixDb(dir, k)
    requires id in s.runners && s.runners[id] == Active(dir[k..], 0)
    ensures StepEach(dir, s, Work(dir, id, k)).db == PrefixDb(dir, |dir|)
    decreases |dir| - k
  {
    hide Increasing, PrefixDb, Executes;
    if k < |dir| {
      var m, rest := dir[k], [Commit(id)] + Work(dir, id, k + 1);
      RecordsOfPrefix(dir, k);
      ExecutesAll(dir, s, id, |m.statements|);
      var s1 := StepEach(dir, s, Executes(id, |m.statements|));
      StepEachConcat(dir, s, Executes(id, |m.statements|), rest);
      assert rest[1..] == Work(dir, id, k + 1) && rest[0] == Commit(id);
      CommitsNext(dir, s1, id, k);
      WorkIsDone(dir, Step(dir, s1, Commit(id)), id, k + 1);
    }
  }

  lemma CommitsNext(dir: seq<Migration>, s: System, id: nat, k: nat)
    requires k < |dir| && s.db == PrefixDb(dir, k) && dir[k].version !in s.db.records
    requires id in s.runners && s.runners[id] == Active(dir[k..], |dir[k].statements|)
    ensures var s' := Step(dir, s, Commit(id));
            s'.db == PrefixDb(dir, k + 1) && id in s'.runners && s'.runners[id] == Active(dir[k + 1..], 0)
  {
    assert dir[k..][0] == dir[k] && dir[k..][1..] == dir[k + 1..];
    assert dir[k].statements[..|dir[k].statements|] == dir[k].statements;
  }

  /** From every reachable state any runner, left to itself, can bring the whole directory
      into effect: neither stale runners nor crashes block it. */
  lemma RunnerCanFinish(dir: seq<Migration>, events: seq<Event>, id: nat) returns (more: seq<Event>)
    requires Increasing(dir)
    ensures SystemAfter(dir, events + more).db == PrefixDb(dir, |dir|)
    ensures forall e :: e in more ==> e.id == id
  {
    hide Increasing, PrefixDb, StepEach, Consistent;
    var s := SystemAfter(dir, events);
    RunnersSideBySide(dir, events);
    var k := PrefixOf(dir, s);
    RecordsOfPrefix(dir, k);
    PendingAfterPrefix(dir, k, 0);
    assert dir[0..] == dir;
    var s1 := Step(dir, s, Crash(id));
    var s2 := Step(dir, s1, Start(id));
    more := [Crash(id)] + ([Start(id)] + Work(dir, id, k));
    WorkIsDone(dir, s2, id, k);
    TwoSteps(dir, s, Crash(id), Start(id), Work(dir, id, k));
    SystemContinues(dir, events, more);
    WorkIsOwn(dir, id, k);
  }

  lemma PrefixOf(dir: seq<Migration>, s: System) returns (k: nat)
    requires Consistent(dir, s)
    ensures k <= |dir| && s.db == PrefixDb(dir, k)
  {
    k := |s.db.records|;
  }

  lemma TwoSteps(dir: seq<Migration>, s: System, a: Event, b: Event, rest: seq<Event>)
    ensures StepEach(dir, s, [a] + ([b] + rest)) == StepEach(dir, Step(dir, Step(dir, s, a), b), rest)
  {
    hide Step;
    assert ([a] + ([b] + rest))[1..] == [b] + rest && ([b] + rest)[1..] == rest;
  }

  lemma {:induction false} ExecutesAreOwn(id: nat, n: nat)
    ensures forall e :: e in Executes(id, n) ==> e.id == id
  {
    if n > 0 {
      ExecutesAreOwn(id, n - 1);
    }
  }

  lemma {:induction false} WorkIsOwn(dir: seq<Migration>, id: nat, k: nat)
    requires k <= |dir|
    ensures forall e :: e in Work(dir, id, k) ==> e.id == id
    decreases |dir| - k
  {
    if k < |dir| {
      ExecutesAreOwn(id, |dir[k].statements|);
      WorkIsOwn(dir, id, k + 1);
    }
  }
}
