/** A database connection (`Database`): it registers itself in the global list of active
    connections, queues for the tables it uses, learns whether it may proceed, and removes
    itself from the global list when it ends. */
module Connections {
  import opened Exceptions
  import opened RecordFormat
  import opened FileHandling
  import opened DatabaseStatic
  import opened AccessQueue
  import opened Registry
  import opened KeyRotation

  /** `setConnectionMode`: "w" and "wr" are kept; anything else, null included, reads. */
  function ConnectionMode(mode: Option<string>): (m: string)
    ensures m == ModeWrite <==> mode == Some(ModeWrite)
    ensures m == ModeWriteAndRead <==> mode == Some(ModeWriteAndRead)
    ensures m != ModeWrite && m != ModeWriteAndRead ==> m == ModeRead
  {
    match mode
    case Some(s) => if s == ModeWrite then ModeWrite else if s == ModeWriteAndRead then ModeWriteAndRead else ModeRead
    case None => ModeRead
  }

  /** Normalising a mode twice is normalising it once, and every mode is one of the three. */
  lemma {:induction false} ConnectionModeIdempotent(mode: Option<string>)
    ensures ConnectionMode(Some(ConnectionMode(mode))) == ConnectionMode(mode)
    ensures ConnectionMode(mode) in {ModeWrite, ModeRead, ModeWriteAndRead}
  {
  }

  /** The global list's text as `fopen`/`fgets` see it; a missing list reads as empty. */
  function RegistryText(files: map<string, Blob>): string
  {
    if DatGlobalConnPath in files then Text(files[DatGlobalConnPath]) else ""
  }

  /** `checkIfConnectionExists` as its documentation describes it: whether the id is
      taken, or DatabaseAccessException when the list cannot be opened. */
  method CheckIfConnectionExists(fs: FileSystem, id: string) returns (r: Result<bool>)
    ensures match ReadText(fs.files, fs.failing, DatGlobalConnPath)
            case Some(registry) => r == Ok(ConnectionExists(registry, id))
            case None => r == Err(DatabaseAccessException)
  {
    if !(DatGlobalConnPath in fs.files && DatGlobalConnPath !in fs.failing) {
      return Err(DatabaseAccessException);
    }
    r := Ok(ConnectionExists(Text(fs.files[DatGlobalConnPath]), id));
  }

  class Database {
    const fs: FileSystem
    const datPath: string
    const datConnFilePath: string
    const connectionID: string
    const connectionMode: string
    const connectionDatabase: string
    const connectionCSVFormat: string

    /** The connection's own record. */
    function Self(): Record
    {
      Record(connectionID, connectionMode, connectionDatabase)
    }

    /** What construction establishes: the paths of the database, the record written to
        the global list, and a drawn id that can never be the reserved one. */
    ghost predicate Valid()
    {
      datPath == DatabasePath(connectionDatabase) + "/" &&
      datConnFilePath == ConnectionQueuePath(connectionDatabase) &&
      connectionCSVFormat == Entry(Self()) &&
      connectionID != "" && connectionID != SystemReCypher && CleanField(connectionID) &&
      connectionMode in {ModeWrite, ModeRead, ModeWriteAndRead}
    }

    constructor (fs: FileSystem, database: string, mode: string, id: string)
      ensures this.fs == fs && connectionDatabase == database && connectionMode == mode && connectionID == id
      ensures datPath == DatabasePath(database) + "/" && datConnFilePath == ConnectionQueuePath(database)
      ensures connectionCSVFormat == Entry(Record(id, mode, database))
    {
      this.fs := fs;
      datPath := DatabasePath(database) + "/";
      datConnFilePath := DatabasePath(database) + "/" + "/" + DatConnFilenameDef;
      connectionDatabase := database;
      connectionMode := mode;
      connectionID := id;
      connectionCSVFormat := id + FieldSeparator + mode + FieldSeparator + database + Terminator;
    }

    /** The id loop of `setSelfToGlobalConnections`: draw until the documented check
        reports a free id. `mt_rand` answers in [1, 999999]; the source draws forever
        when every id is taken, so a free one is required among `draws`. */
    static method DrawFreeId(fs: FileSystem, ghost registry: string, draws: seq<nat>) returns (id: nat)
      requires ReadText(fs.files, fs.failing, DatGlobalConnPath) == Some(registry)
      requires forall i | 0 <= i < |draws| :: 1 <= draws[i] <= 999999
      requires exists i | 0 <= i < |draws| :: !ConnectionExists(registry, IdString(draws[i]))
      ensures id == FirstFreeId(registry, draws)
      ensures 1 <= id <= 999999 && !ConnectionExists(registry, IdString(id))
    {
      ghost var free :| 0 <= free < |draws| && !ConnectionExists(registry, IdString(draws[free]));
      var k := -1;
      var taken := true;
      id := 0;
      // do { $id = mt_rand(1, 999999); } while (checkIfConnectionExists($id))
      while taken
        invariant -1 <= k < |draws| && (taken ==> k < free)
        invariant forall j | 0 <= j < k :: ConnectionExists(registry, IdString(draws[j]))
        invariant k == -1 ==> taken
        invariant k >= 0 ==> id == draws[k] && (taken <==> ConnectionExists(registry, IdString(id)))
        decreases |draws| - k
      {
        k := k + 1;
        id := draws[k];
        var check := CheckIfConnectionExists(fs, IdString(id));
        taken := check.value;
      }
      FirstFreeIdAt(registry, draws, k);
    }

    /** `new Database($database, $mode)`: check that the database exists, normalise the
        mode, then register in the global list under the first free id of `draws`. */
    static method Open(fs: FileSystem, database: string, mode: Option<string>, draws: seq<nat>)
      returns (r: Result<Database>)
      requires forall i | 0 <= i < |draws| :: 1 <= draws[i] <= 999999
      requires exists i | 0 <= i < |draws| :: !ConnectionExists(RegistryText(fs.files), IdString(draws[i]))
      modifies fs`files
      // an unknown database is refused before the global list is touched
      ensures !Exists(old(fs.files), fs.dirs, DatabasePath(database)) ==>
                r == Err(DatabaseDoesNotExistsException) && fs.files == old(fs.files)
      ensures Exists(old(fs.files), fs.dirs, DatabasePath(database)) ==>
                var (created, c) := Created(old(fs.files), fs.dirs, fs.failing, DatGlobalConnPath);
                var readable := DatGlobalConnPath in created && DatGlobalConnPath !in fs.failing;
                (c.Failed? ==> r == Err(c.error) && fs.files == old(fs.files)) &&
                (c == Done && !readable ==> r == Err(DatabaseAccessException) && fs.files == created) &&
                (c == Done && readable ==>
                   r.Ok? && r.value.Valid() && r.value.fs == fs &&
                   var registry := RegistryText(old(fs.files));
                   var id := IdString(FirstFreeId(registry, draws));
                   r.value.connectionID == id && !ConnectionExists(registry, id) &&
                   r.value.connectionMode == ConnectionMode(mode) && r.value.connectionDatabase == database &&
                   // the old list is an unchanged prefix of the new one
                   fs.files == created[DatGlobalConnPath := Plain(registry + r.value.connectionCSVFormat)])
    {
      // checkIfDatabaseExists
      if !(DatabasePath(database) in fs.files || DatabasePath(database) in fs.dirs) {
        return Err(DatabaseDoesNotExistsException);
      }
      // setConnectionMode
      var connectionMode := ConnectionMode(mode);
      // setSelfToGlobalConnections
      var c := CreateIfDoesNotExists(fs, DatGlobalConnPath);
      if c.Failed? {
        return Err(c.error);
      }
      // the first check of a drawn id fails when the list cannot be opened
      if !(DatGlobalConnPath in fs.files && DatGlobalConnPath !in fs.failing) {
        return Err(DatabaseAccessException);
      }
      var id := DrawFreeId(fs, Text(fs.files[DatGlobalConnPath]), draws);
      DrawnIdIsNeverReserved(id);
      var db := new Database(fs, database, connectionMode, IdString(id));
      // the list was just opened for reading, so opening it to append succeeds
      fs.files := fs.files[DatGlobalConnPath := Plain(Text(fs.files[DatGlobalConnPath]) + db.connectionCSVFormat)];
      r := Ok(db);
    }

    /** `__destruct`: remove the connection's record from the global list. The source's
        `str_replace` cuts every occurrence of the record's text, also inside a longer
        record; this removes exactly the records equal to the connection's own. Writing an
        empty list counts as a failed write, after the write. */
    method Close() returns (o: Outcome)
      requires Valid()
      modifies fs`files
      ensures var content := ReadText(old(fs.files), fs.failing, DatGlobalConnPath);
              (content.None? || Falsy(content.value) ==>
                 o == Failed(DatabaseAccessException) && fs.files == old(fs.files)) &&
              (content.Some? && !Falsy(content.value) ==>
                 var rest := RemoveRecord(content.value, Self());
                 fs.files == old(fs.files)[DatGlobalConnPath := Plain(rest)] &&
                 (o == Done <==> rest != "") && (o != Done ==> o == Failed(DatabaseAccessException)))
    {
      var fileContent := ReadText(fs.files, fs.failing, DatGlobalConnPath);
      if fileContent.None? || Falsy(fileContent.value) {
        return Failed(DatabaseAccessException);
      }
      var toWrite := RemoveRecord(fileContent.value, Self());
      // the list was just read, so it can be written; an empty text writes 0 bytes
      fs.files := fs.files[DatGlobalConnPath := Plain(toWrite)];
      if toWrite == "" {
        return Failed(DatabaseAccessException);
      }
      o := Done;
    }

    /** `writeYourselfToQuery`: append the connection's claim on `table` to its database's
        queue. The connection's path has a doubled slash; it names the queue file
        `QueuePath` (see `QueuePathsCoincide`). */
    method WriteYourselfToQuery(table: string) returns (o: Outcome)
      requires Valid()
      modifies fs`files
      ensures var q := QueuePath(connectionDatabase);
              var (created, c) := Created(old(fs.files), fs.dirs, fs.failing, q);
              (c.Failed? ==> o == c && fs.files == old(fs.files)) &&
              var writable := q in created && q !in fs.failing;
              (c == Done && !writable ==> o == Failed(DatabaseAccessException) && fs.files == created) &&
              (c == Done && writable ==>
                 o == Done &&
                 fs.files == created[q := Plain(Text(created[q]) + Entry(Record(connectionID, connectionMode, table)))])
    {
      var path := QueuePath(connectionDatabase);
      o := CreateIfDoesNotExists(fs, path);
      if o.Failed? {
        return;
      }
      if !(path in fs.files && path !in fs.failing) {
        return Failed(DatabaseAccessException);
      }
      var toWrite := connectionID + FieldSeparator + connectionMode + FieldSeparator + table + Terminator;
      fs.files := fs.files[path := Plain(Text(fs.files[path]) + toWrite)];
    }

    /** `checkIfUsed`: read the queue and decide. A pending rotation is run here, in this
        process, and the caller is told to wait. A queue that cannot be read is scanned as
        empty text, as PHP's `explode` reads false. */
    method CheckIfUsed(table: string, cy: Cyphering, env: Env) returns (r: Result<bool>)
      requires Valid() && ValidEnv(env)
      modifies fs`files, fs`archives, cy
      ensures var q := QueuePath(connectionDatabase);
              var (created, c) := Created(old(fs.files), fs.dirs, fs.failing, q);
              (c.Failed? ==>
                 r == Err(c.error) && fs.files == old(fs.files) && fs.archives == old(fs.archives) &&
                 cy.State() == old(cy.State())) &&
              (c == Done ==>
                 var text := if q in created && q !in fs.failing then Text(created[q]) else "";
                 var v := QueueVerdict(text, connectionID, table);
                 (v != RotationPending ==>
                    r == Ok(v == Blocked) && fs.files == created && fs.archives == old(fs.archives) &&
                    cy.State() == old(cy.State())) &&
                 // an announcement makes this process run `reCypher` on the files as they are
                 // once the queue exists, and report blocked unless the rotation failed
                 (v == RotationPending ==>
                    var e := ReCypherEffect(created, old(fs.archives), fs.dirs, fs.failing, old(cy.State()), env);
                    fs.files == e.files && fs.archives == e.archives && cy.State() == e.state &&
                    r == if e.outcome.Failed? then Err(e.outcome.error) else Ok(true)))
    {
      var path := QueuePath(connectionDatabase);
      var c := CreateIfDoesNotExists(fs, path);
      if c.Failed? {
        return Err(c.error);
      }
      var file := ReadText(fs.files, fs.failing, path);
      var text := if file.None? then "" else file.value;
      var verdict := QueueVerdict(text, connectionID, table);
      if verdict == RotationPending {
        var o := cy.ReCypher(fs, env);
        if o.Failed? {
          return Err(o.error);
        }
        r := Ok(true);
      } else {
        r := Ok(verdict == Blocked);
      }
    }
  }
}
