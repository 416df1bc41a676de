/** The static side of the repository's `Database` class: its path and system constants,
    and `announceReCyphering`, which the key rotation calls. It is a module of its own
    because `Cyphering` and `Database` call each other, and Dafny modules cannot import
    each other in a cycle. */
module DatabaseStatic {
  import opened Exceptions
  import opened RecordFormat
  import opened FileHandling

  /** Root directory of all databases (relative to the application root). */
  const DatRoot: string := "database/"
  /** Where the databases are backed up before re-encryption. */
  const DatBackupPath: string := "data/backup/databases/"
  /** The global list of active connections. */
  const DatGlobalConnPath: string := "database/connectionsList.bin"
  /** Name of each database's access queue file, inside the database's directory. */
  const DatConnFilenameDef: string := "activeConnectionList.bin"
  const DatTableExt: string := ".table"
  const ListOfDatabases: seq<string> := ["main", "thehappiestday"]

  /** The connection id that announces a key rotation. */
  const SystemReCypher: string := "000000"
  /** The table name that stands for every table. */
  const SystemAll: string := "ALL_TABLES"

  /** Field positions in a global-list record and in a queue record. */
  const GlobalHeadConnId: nat := 0
  const GlobalHeadConnMode: nat := 1
  const GlobalHeadConnDatabase: nat := 2
  const LocalHeadConnId: nat := 0
  const LocalHeadConnMode: nat := 1
  const LocalHeadConnFile: nat := 2

  const ModeWrite: string := "w"
  const ModeRead: string := "r"
  const ModeWriteAndRead: string := "wr"

  /** The directory of a database, as the existence check builds it. */
  function DatabasePath(database: string): string
  {
    DatRoot + database
  }

  /** A database's access queue, as `announceReCyphering` builds its path. */
  function QueuePath(database: string): string
  {
    DatRoot + database + "/" + DatConnFilenameDef
  }

  /** The same queue as a connection builds its path: the directory path already ends
      in a slash and another one is added. */
  function ConnectionQueuePath(database: string): string
  {
    DatRoot + database + "/" + "/" + DatConnFilenameDef
  }

  /** A path with every run of slashes reduced to one, as the operating system reads it. */
  function CollapseSlashes(p: string): string
    decreases |p|
  {
    if |p| <= 1 then p
    else if p[0] == '/' && p[1] == '/' then CollapseSlashes(p[1..])
    else [p[0]] + CollapseSlashes(p[1..])
  }

  lemma {:induction false} CollapseDoubleSlash(a: string, b: string)
    ensures CollapseSlashes(a + "//" + b) == CollapseSlashes(a + "/" + b)
    decreases |a|
  {
    if a == [] {
      assert ("//" + b)[1..] == "/" + b;
    } else {
      assert (a + "//" + b)[1..] == a[1..] + "//" + b;
      assert (a + "/" + b)[1..] == a[1..] + "/" + b;
      CollapseDoubleSlash(a[1..], b);
    }
  }

  /** Both ways of naming a database's queue name the same file; the model keys every
      queue by `QueuePath`. */
  lemma {:induction false} QueuePathsCoincide(database: string)
    ensures CollapseSlashes(ConnectionQueuePath(database)) == CollapseSlashes(QueuePath(database))
  {
    assert ConnectionQueuePath(database) == (DatRoot + database) + "//" + DatConnFilenameDef;
    assert QueuePath(database) == (DatRoot + database) + "/" + DatConnFilenameDef;
    CollapseDoubleSlash(DatRoot + database, DatConnFilenameDef);
  }

  /** Different databases have different queue files. */
  lemma {:induction false} QueuePathsDiffer(a: string, b: string)
    requires a != b
    ensures QueuePath(a) != QueuePath(b)
  {
    if |a| == |b| {
      var k :| 0 <= k < |a| && a[k] != b[k];
      assert QueuePath(a)[|DatRoot| + k] == a[k];
      assert QueuePath(b)[|DatRoot| + k] == b[k];
    } else {
      assert |QueuePath(a)| != |QueuePath(b)|;
    }
  }

  /** The rotation announcement: reserved id, mode `wr`, every table. */
  const Sentinel: Record := Record(SystemReCypher, ModeWriteAndRead, SystemAll)

  /** One database's part of `announceReCyphering`: make sure the queue exists, read it,
      and put the announcement in front of what it held. */
  function AnnouncedTo(files: map<string, Blob>, dirs: set<string>, failing: set<string>, database: string)
    : (r: (map<string, Blob>, Outcome))
    // success: the queue existed, held something, and now holds the announcement first
    ensures r.1 == Done <==>
              QueuePath(database) in files && QueuePath(database) !in failing &&
              !Falsy(Text(files[QueuePath(database)]))
    ensures r.1 == Done ==>
              r.0 == files[QueuePath(database) := Plain(Entry(Sentinel) + Text(files[QueuePath(database)]))]
    // failure: at most an empty queue file was created
    ensures r.1 != Done ==>
              r.1.Failed? && (r.0 == files || r.0 == files[QueuePath(database) := Plain("")])
  {
    var path := QueuePath(database);
    var (created, o) := Created(files, dirs, failing, path);
    if o.Failed? then (created, o)
    else
      match ReadText(created, failing, path)
      case None => (created, Failed(DatabaseAccessException))
      case Some(content) =>
        if Falsy(content) then (created, Failed(DatabaseAccessException))
        else (created[path := Plain(Entry(Sentinel) + content)], Done)
  }

  /** `announceReCyphering` over `databases` in order, stopping at the first failure. */
  function AnnouncedToAll(files: map<string, Blob>, dirs: set<string>, failing: set<string>, databases: seq<string>)
    : (map<string, Blob>, Outcome)
    decreases |databases|
  {
    if databases == [] then (files, Done)
    else
      var (next, o) := AnnouncedTo(files, dirs, failing, databases[0]);
      if o.Failed? then (next, o) else AnnouncedToAll(next, dirs, failing, databases[1..])
  }

  /** When the announcement reaches every database, each queue holds the announcement in
      front of its old, unchanged content, and no other file changes. */
  lemma {:induction false} AnnouncePrepends(files: map<string, Blob>, dirs: set<string>, failing: set<string>, databases: seq<string>)
    requires forall i, j | 0 <= i < j < |databases| :: databases[i] != databases[j]
    requires AnnouncedToAll(files, dirs, failing, databases).1 == Done
    ensures var after := AnnouncedToAll(files, dirs, failing, databases).0;
            after.Keys == files.Keys &&
            (forall d | d in databases ::
               QueuePath(d) in files && !Falsy(Text(files[QueuePath(d)])) &&
               after[QueuePath(d)] == Plain(Entry(Sentinel) + Text(files[QueuePath(d)]))) &&
            (forall p | p in files && (forall d | d in databases :: p != QueuePath(d)) :: after[p] == files[p])
  {
    AnnounceKeepsPaths(files, dirs, failing, databases);
    forall d | d in databases
      ensures var after := AnnouncedToAll(files, dirs, failing, databases).0;
              QueuePath(d) in files && !Falsy(Text(files[QueuePath(d)])) &&
              after[QueuePath(d)] == Plain(Entry(Sentinel) + Text(files[QueuePath(d)]))
    {
      AnnounceReaches(files, dirs, failing, databases, d);
    }
    forall p | p in files && (forall d | d in databases :: p != QueuePath(d))
      ensures AnnouncedToAll(files, dirs, failing, databases).0[p] == files[p]
    {
      AnnounceLeavesOthers(files, dirs, failing, databases, p);
    }
  }

  /** A complete announcement adds and removes no file. */
  lemma {:induction false} AnnounceKeepsPaths(files: map<string, Blob>, dirs: set<string>, failing: set<string>,
                                              databases: seq<string>)
    requires AnnouncedToAll(files, dirs, failing, databases).1 == Done
    ensures AnnouncedToAll(files, dirs, failing, databases).0.Keys == files.Keys
    decreases |databases|
  {
    if databases != [] {
      var (next, o) := AnnouncedTo(files, dirs, failing, databases[0]);
      AnnounceKeepsPaths(next, dirs, failing, databases[1..]);
    }
  }

  /** A complete announcement leaves every file that is no listed queue as it was. */
  lemma {:induction false} AnnounceLeavesOthers(files: map<string, Blob>, dirs: set<string>, failing: set<string>,
                                                databases: seq<string>, p: string)
    requires AnnouncedToAll(files, dirs, failing, databases).1 == Done
    requires p in files && forall d | d in databases :: p != QueuePath(d)
    ensures var after := AnnouncedToAll(files, dirs, failing, databases).0;
            p in after && after[p] == files[p]
    decreases |databases|
  {
    if databases != [] {
      var (next, o) := AnnouncedTo(files, dirs, failing, databases[0]);
      assert p != QueuePath(databases[0]);
      AnnounceLeavesOthers(next, dirs, failing, databases[1..], p);
    }
  }

  /** A complete announcement puts the announcement in front of each listed queue, which
      existed and held something. */
  lemma {:induction false} AnnounceReaches(files: map<string, Blob>, dirs: set<string>, failing: set<string>,
                                           databases: seq<string>, d: string)
    requires forall i, j | 0 <= i < j < |databases| :: databases[i] != databases[j]
    requires AnnouncedToAll(files, dirs, failing, databases).1 == Done
    requires d in databases
    ensures var after := AnnouncedToAll(files, dirs, failing, databases).0;
            QueuePath(d) in files && !Falsy(Text(files[QueuePath(d)])) && QueuePath(d) in after &&
            after[QueuePath(d)] == Plain(Entry(Sentinel) + Text(files[QueuePath(d)]))
    decreases |databases|
  {
    var d0 := databases[0];
    var (next, o) := AnnouncedTo(files, dirs, failing, d0);
    var rest := databases[1..];
    if d == d0 {
      forall e | e in rest ensures QueuePath(d0) != QueuePath(e) {
        var k :| 0 <= k < |rest| && rest[k] == e;
        assert databases[k + 1] == e;
        QueuePathsDiffer(e, d0);
      }
      AnnounceLeavesOthers(next, dirs, failing, rest, QueuePath(d0));
    } else {
      assert d in rest;
      assert forall i, j | 0 <= i < j < |rest| :: rest[i] != rest[j] by {
        forall i, j | 0 <= i < j < |rest| ensures rest[i] != rest[j] {
          assert rest[i] == databases[i + 1] && rest[j] == databases[j + 1];
        }
      }
      QueuePathNotTouched(files, dirs, failing, d0, d);
      AnnounceReaches(next, dirs, failing, rest, d);
    }
  }

  /** An empty or missing queue in any listed database makes the announcement fail. */
  lemma {:induction false} AnnounceNeedsNonEmptyQueues(files: map<string, Blob>, dirs: set<string>,
                                                       failing: set<string>, databases: seq<string>, d: string)
    requires d in databases
    requires QueuePath(d) !in files || Falsy(Text(files[QueuePath(d)]))
    requires forall i, j | 0 <= i < j < |databases| :: databases[i] != databases[j]
    ensures AnnouncedToAll(files, dirs, failing, databases).1.Failed?
    decreases |databases|
  {
    var (next, o) := AnnouncedTo(files, dirs, failing, databases[0]);
    if o == Done && d != databases[0] {
      var rest := databases[1..];
      assert d in rest;
      QueuePathNotTouched(files, dirs, failing, databases[0], d);
      assert forall i, j | 0 <= i < j < |rest| :: rest[i] != rest[j] by {
        forall i, j | 0 <= i < j < |rest| ensures rest[i] != rest[j] {
          assert rest[i] == databases[i + 1] && rest[j] == databases[j + 1];
        }
      }
      AnnounceNeedsNonEmptyQueues(next, dirs, failing, rest, d);
    }
  }

  lemma {:induction false} QueuePathNotTouched(files: map<string, Blob>, dirs: set<string>, failing: set<string>, d0: string, d: string)
    requires d != d0 && AnnouncedTo(files, dirs, failing, d0).1 == Done
    ensures var next := AnnouncedTo(files, dirs, failing, d0).0;
            (QueuePath(d) in next <==> QueuePath(d) in files) &&
            (QueuePath(d) in files ==> next[QueuePath(d)] == files[QueuePath(d)])
  {
    QueuePathsDiffer(d, d0);
  }

  /** PHP `announceReCyphering`: put the rotation announcement at the head of every
      database's access queue. */
  method AnnounceReCyphering(fs: FileSystem) returns (o: Outcome)
    modifies fs`files
    ensures (fs.files, o) == AnnouncedToAll(old(fs.files), fs.dirs, fs.failing, ListOfDatabases)
  {
    var i := 0;
    while i < |ListOfDatabases|
      invariant 0 <= i <= |ListOfDatabases|
      invariant AnnouncedToAll(old(fs.files), fs.dirs, fs.failing, ListOfDatabases)
             == AnnouncedToAll(fs.files, fs.dirs, fs.failing, ListOfDatabases[i..])
    {
      var databaseName := ListOfDatabases[i];
      var fileQueryOfConnections := QueuePath(databaseName);
      assert ListOfDatabases[i..][1..] == ListOfDatabases[i + 1..];
      o := CreateIfDoesNotExists(fs, fileQueryOfConnections);
      if o.Failed? {
        return;
      }
      if !(fileQueryOfConnections in fs.files && fileQueryOfConnections !in fs.failing) {
        return Failed(DatabaseAccessException);
      }
      var fileContent := Text(fs.files[fileQueryOfConnections]);
      if Falsy(fileContent) {
        return Failed(DatabaseAccessException);
      }
      var toWrite := Entry(Sentinel);
      // the file was just read, so writing it back succeeds
      fs.files := fs.files[fileQueryOfConnections := Plain(toWrite + fileContent)];
      i := i + 1;
    }
    o := Done;
  }
}
